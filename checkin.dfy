/** The check-in page: a list of performers loaded from the check-in API, filtered by a
    name query, where each performer can be checked in or out. An update request is keyed
    by "name:action", and a click whose key is still in flight is ignored. */
module Checkin {
  import opened Text

  const CheckInAction: string := "check_in"
  const CheckOutAction: string := "check_out"
  const UnnamedPerformer: string := "Unnamed Performer"
  /** The em dash shown for a missing age or cafeteria group. */
  const Missing: string := "—"

  /** A performer as the API sends it: any field may be missing or falsy. */
  datatype RawActor = RawActor(
    name: Option<string>,
    age: Option<string>,
    cafeteria_group: Option<string>,
    quick_change: Option<string>,
    other_special_instructions: Option<string>,
    other_instructions: Option<string>,
    check_in: Option<bool>,
    check_out: Option<bool>)

  /** A performer as the page keeps it. */
  datatype Actor = Actor(
    name: string,
    age: string,
    cafeteria_group: string,
    quick_change: string,
    other_special_instructions: string,
    check_in: bool,
    check_out: bool)

  /** `Boolean(x)` on a possibly missing flag. */
  function Flag(o: Option<bool>): bool {
    o.Some? && o.value
  }

  /** `normalizeActor`: fill in the defaults for falsy fields; the special instructions fall
      back to `other_instructions`. */
  function NormalizeActor(raw: RawActor): (a: Actor)
    ensures a.name != "" && a.age != "" && a.cafeteria_group != ""
    ensures a.name == if Truthy(raw.name) then raw.name.value else UnnamedPerformer
    ensures a.age == if Truthy(raw.age) then raw.age.value else Missing
    ensures a.cafeteria_group == if Truthy(raw.cafeteria_group) then raw.cafeteria_group.value else Missing
    ensures a.quick_change == if Truthy(raw.quick_change) then raw.quick_change.value else ""
    ensures a.other_special_instructions ==
            if Truthy(raw.other_special_instructions) then raw.other_special_instructions.value
            else if Truthy(raw.other_instructions) then raw.other_instructions.value
            else ""
    ensures a.check_in <==> raw.check_in == Some(true)
    ensures a.check_out <==> raw.check_out == Some(true)
  {
    Actor(
      Or(raw.name, UnnamedPerformer),
      Or(raw.age, Missing),
      Or(raw.cafeteria_group, Missing),
      Or(raw.quick_change, ""),
      Or(raw.other_special_instructions, Or(raw.other_instructions, "")),
      Flag(raw.check_in),
      Flag(raw.check_out))
  }

  /** A kept performer sent back as the API would send it. */
  function Raw(a: Actor): RawActor {
    RawActor(Some(a.name), Some(a.age), Some(a.cafeteria_group), Some(a.quick_change),
             Some(a.other_special_instructions), None, Some(a.check_in), Some(a.check_out))
  }

  /** A performer whose name, age and group are filled in. */
  predicate Normalized(a: Actor) {
    a.name != "" && a.age != "" && a.cafeteria_group != ""
  }

  /** Normalizing is idempotent: a normalized performer comes back unchanged, and so does
      anything `normalizeActor` returned. */
  lemma NormalizeRoundTrip(a: Actor, raw: RawActor)
    ensures Normalized(a) ==> NormalizeActor(Raw(a)) == a
    ensures NormalizeActor(Raw(NormalizeActor(raw))) == NormalizeActor(raw)
  {
  }

  /** `data.map(normalizeActor)`. */
  function NormalizeAll(raws: seq<RawActor>): (actors: seq<Actor>)
    ensures |actors| == |raws|
    ensures forall k :: 0 <= k < |actors| ==> actors[k] == NormalizeActor(raws[k])
  {
    seq(|raws|, k requires 0 <= k < |raws| => NormalizeActor(raws[k]))
  }

  // ------------------------------------------------------------------ search

  /** `(query || '').trim().toLowerCase()`. */
  function NormalizeQuery(query: Option<string>): (q: string)
    ensures Trimmed(q) && Lower(q) == q
    ensures var s := query.GetOr("");
            var a := LeadingSpaces(s);
            a + |q| <= |s| &&
            (forall i :: 0 <= i < |q| ==> q[i] == LowerChar(s[a + i])) &&
            (forall i :: 0 <= i < a ==> IsSpace(s[i])) &&
            (forall i :: a + |q| <= i < |s| ==> IsSpace(s[i]))
  {
    var t := Trim(query.GetOr(""));
    LowerKeepsTrimmed(t);
    LowerIdempotent(t);
    Lower(t)
  }

  /** A stored query is trimmed and lower-case, so normalizing it again changes nothing (the
      search box's handler normalizes before `filterByName` normalizes once more). */
  lemma NormalizeQueryIdempotent(query: Option<string>)
    ensures var q := NormalizeQuery(query);
            Trimmed(q) && Lower(q) == q && NormalizeQuery(Some(q)) == q
  {
    var t := Trim(query.GetOr(""));
    LowerKeepsTrimmed(t);
    TrimOfTrimmed(Lower(t));
    LowerIdempotent(t);
  }

  /** `actor.name.toLowerCase().includes(query)`. */
  predicate NameMatches(a: Actor, query: string) {
    Contains(Lower(a.name), query)
  }

  /** `actors.filter(...)` with the name test. */
  function FilterName(actors: seq<Actor>, query: string): (r: seq<Actor>)
    ensures |r| <= |actors|
    ensures forall a :: a in r ==> a in actors && NameMatches(a, query)
  {
    if actors == [] then []
    else
      var rest := FilterName(actors[1..], query);
      if NameMatches(actors[0], query) then [actors[0]] + rest else rest
  }

  /** Every matching performer is kept. */
  lemma {:induction false} FilterKeepsMatches(actors: seq<Actor>, query: string, a: Actor)
    requires a in actors && NameMatches(a, query)
    ensures a in FilterName(actors, query)
  {
    if actors[0] != a {
      FilterKeepsMatches(actors[1..], query, a);
    }
  }

  /** Filtering keeps the order: filtering a concatenation concatenates the filtered parts. */
  lemma {:induction false} FilterAppend(xs: seq<Actor>, ys: seq<Actor>, query: string)
    ensures FilterName(xs + ys, query) == FilterName(xs, query) + FilterName(ys, query)
  {
    if xs == [] {
      assert xs + ys == ys;
    } else {
      assert (xs + ys)[0] == xs[0];
      assert (xs + ys)[1..] == xs[1..] + ys;
      FilterAppend(xs[1..], ys, query);
      if NameMatches(xs[0], query) {
        assert [xs[0]] + (FilterName(xs[1..], query) + FilterName(ys, query)) ==
               ([xs[0]] + FilterName(xs[1..], query)) + FilterName(ys, query);
      }
    }
  }

  /** An empty query matches every name. */
  lemma {:induction false} FilterEmptyQuery(actors: seq<Actor>)
    ensures FilterName(actors, "") == actors
  {
    if actors != [] {
      ContainsEmpty(Lower(actors[0].name));
      FilterEmptyQuery(actors[1..]);
    }
  }

  /** The list `applySearchFilter` shows: all performers for an empty query, the performers
      whose lower-cased name contains the query otherwise. */
  function Visible(actors: seq<Actor>, query: string): (shown: seq<Actor>)
    ensures |shown| <= |actors|
    ensures forall a :: a in shown ==> a in actors
  {
    if query == "" then actors else FilterName(actors, query)
  }

  /** The shortcut for an empty query agrees with the filter, so the shown list is always
      the order-preserving selection of the matching performers. */
  lemma VisibleIsFilter(actors: seq<Actor>, query: string)
    ensures Visible(actors, query) == FilterName(actors, query)
    ensures forall a :: a in Visible(actors, query) <==> a in actors && NameMatches(a, query)
  {
    if query == "" {
      FilterEmptyQuery(actors);
    }
    forall a | a in actors && NameMatches(a, query)
      ensures a in FilterName(actors, query)
    {
      FilterKeepsMatches(actors, query, a);
    }
  }

  // ----------------------------------------------------------------- updates

  /** The performer after a click on `action`: the check-in flag flips for "check_in", the
      check-out flag for any other action. */
  function Toggled(a: Actor, action: string): (r: Actor)
    ensures r.check_in != a.check_in <==> action == CheckInAction
    ensures r.check_out != a.check_out <==> action != CheckInAction
    ensures r.(check_in := a.check_in, check_out := a.check_out) == a
  {
    var isCheckIn := action == CheckInAction;
    a.(check_in := if isCheckIn then !a.check_in else a.check_in,
       check_out := if !isCheckIn then !a.check_out else a.check_out)
  }

  /** Clicking the same action twice restores the performer. */
  lemma ToggledTwice(a: Actor, action: string)
    ensures Toggled(Toggled(a, action), action) == a
  {
  }

  /** The de-duplication key of a request. */
  function RequestKey(name: string, action: string): (key: string)
    ensures |key| == |name| + 1 + |action|
    ensures key[..|name|] == name && key[|name|] == ':' && key[|name| + 1..] == action
  {
    name + ":" + action
  }

  /** For the two actions the page offers, keys of different requests differ, even when a
      name contains a colon. */
  lemma RequestKeyInjective(n1: string, a1: string, n2: string, a2: string)
    requires a1 == CheckInAction || a1 == CheckOutAction
    requires a2 == CheckInAction || a2 == CheckOutAction
    requires RequestKey(n1, a1) == RequestKey(n2, a2)
    ensures n1 == n2 && a1 == a2
  {
    var k := RequestKey(n1, a1);
    assert k[|k| - 1] == a1[|a1| - 1] == a2[|a2| - 1];
    assert a1 == a2;
    assert n1 == k[..|n1|] == n2;
  }

  /** The body of the update request: the name, and the flag of the requested action only. */
  datatype Payload = Payload(name: string, check_in: Option<bool>, check_out: Option<bool>)

  /** `sendUpdate`'s payload for the toggled performer `a`. */
  function BuildPayload(a: Actor, action: string): (p: Payload)
    ensures p.name == a.name
    ensures !(p.check_in.Some? && p.check_out.Some?)
    ensures p.check_in.Some? <==> action == CheckInAction
    ensures p.check_out.Some? <==> action == CheckOutAction
  {
    if action == CheckInAction then Payload(a.name, Some(a.check_in), None)
    else if action == CheckOutAction then Payload(a.name, None, Some(a.check_out))
    else Payload(a.name, None, None)
  }

  /** The request sent for a click carries the flipped value of the clicked flag. */
  lemma PayloadCarriesToggledFlag(a: Actor, action: string)
    requires action == CheckInAction || action == CheckOutAction
    ensures var p := BuildPayload(Toggled(a, action), action);
            p.name == a.name &&
            (action == CheckInAction ==> p == Payload(a.name, Some(!a.check_in), None)) &&
            (action == CheckOutAction ==> p == Payload(a.name, None, Some(!a.check_out)))
  {
  }

  // -------------------------------------------------------------------- page

  /** The outcome of a GET of the check-in status: a failed request (an error status, a
      network error, a body that is not JSON, or an array holding an element that is not an
      object, such as `null`, on which `normalizeActor` throws), JSON that is not an array,
      or an array of performers. */
  datatype StatusReply = StatusFailed | NotAnArray | StatusArray(items: seq<RawActor>)

  class CheckinPage {
    var actors: seq<Actor>
    var filteredActors: seq<Actor>
    var isLoading: bool
    var currentQuery: string
    var activeRequests: set<string>

    constructor ()
      ensures actors == [] && filteredActors == [] && !isLoading && currentQuery == ""
      ensures activeRequests == {}
    {
      actors := [];
      filteredActors := [];
      isLoading := false;
      currentQuery := "";
      activeRequests := {};
    }

    /** `applySearchFilter`. */
    method ApplySearchFilter()
      modifies this`filteredActors
      ensures filteredActors == Visible(actors, currentQuery)
      ensures forall a :: a in filteredActors <==> a in actors && NameMatches(a, currentQuery)
    {
      if currentQuery == "" {
        filteredActors := actors;
      } else {
        filteredActors := FilterName(actors, currentQuery);
      }
      VisibleIsFilter(actors, currentQuery);
    }

    /** `filterByName`: store the normalized query and filter with it. */
    method FilterByName(query: Option<string>)
      modifies this`currentQuery, this`filteredActors
      ensures currentQuery == NormalizeQuery(query) && Trimmed(currentQuery)
      ensures filteredActors == Visible(actors, currentQuery)
    {
      currentQuery := NormalizeQuery(query);
      ApplySearchFilter();
    }

    /** `fetchStatus`: on an array reply, replace the performers and filter them again; on
        any failure keep what was shown. Loading is over either way. */
    method FetchStatus(reply: StatusReply) returns (ok: bool)
      modifies this`actors, this`filteredActors, this`isLoading
      ensures !isLoading
      ensures ok <==> reply.StatusArray?
      ensures ok ==> actors == NormalizeAll(reply.items) && filteredActors == Visible(actors, currentQuery)
      ensures !ok ==> actors == old(actors) && filteredActors == old(filteredActors)
    {
      isLoading := true;
      match reply {
        case StatusArray(items) =>
          actors := NormalizeAll(items);
          ApplySearchFilter();
          ok := true;
        case StatusFailed =>
          ok := false;
        case NotAnArray =>
          ok := false;
      }
      isLoading := false;
    }

    /** The part of `handleAction` before the request is sent: ignore an empty action and a
        key already in flight; otherwise record the key and build the request for the
        toggled performer. */
    method BeginAction(actor: Actor, action: string) returns (request: Option<Payload>)
      modifies this`activeRequests
      ensures var key := RequestKey(actor.name, action);
              request.Some? <==> action != "" && key !in old(activeRequests)
      ensures request.Some? ==> request.value == BuildPayload(Toggled(actor, action), action) &&
                                activeRequests == old(activeRequests) + {RequestKey(actor.name, action)}
      ensures request.None? ==> activeRequests == old(activeRequests)
    {
      request := None;
      if action == "" {
        return;
      }
      var key := RequestKey(actor.name, action);
      if key in activeRequests {
        return;
      }
      var updatedActor := Toggled(actor, action);
      activeRequests := activeRequests + {key};
      request := Some(BuildPayload(updatedActor, action));
    }

    /** The part of `handleAction` after the request: when the update was accepted, reload
        the list quietly; in any case forget the key. */
    method FinishAction(actor: Actor, action: string, accepted: bool, reply: StatusReply)
      returns (refreshed: bool)
      modifies this`actors, this`filteredActors, this`isLoading, this`activeRequests
      ensures activeRequests == old(activeRequests) - {RequestKey(actor.name, action)}
      ensures refreshed <==> accepted && reply.StatusArray?
      ensures refreshed ==> actors == NormalizeAll(reply.items) &&
                            filteredActors == Visible(actors, currentQuery)
      ensures !refreshed ==> actors == old(actors) && filteredActors == old(filteredActors)
      ensures accepted ==> !isLoading
      ensures !accepted ==> isLoading == old(isLoading)
    {
      refreshed := false;
      if accepted {
        refreshed := FetchStatus(reply);
      }
      activeRequests := activeRequests - {RequestKey(actor.name, action)};
    }

    /** `handleAction` run to completion: the request (if any) is sent, the key is gone
        again, and the set of requests in flight is what it was. */
    method HandleAction(actor: Actor, action: string, accepted: bool, reply: StatusReply)
      returns (request: Option<Payload>)
      modifies this`actors, this`filteredActors, this`isLoading, this`activeRequests
      ensures activeRequests == old(activeRequests)
      ensures request.Some? <==> action != "" && RequestKey(actor.name, action) !in old(activeRequests)
      ensures request.Some? ==> request.value == BuildPayload(Toggled(actor, action), action)
      ensures request.None? ==> actors == old(actors) && filteredActors == old(filteredActors) &&
                                isLoading == old(isLoading)
      ensures request.Some? && accepted && reply.StatusArray? ==>
                actors == NormalizeAll(reply.items) && filteredActors == Visible(actors, currentQuery)
      ensures request.Some? && !(accepted && reply.StatusArray?) ==>
                actors == old(actors) && filteredActors == old(filteredActors)
      ensures request.Some? && accepted ==> !isLoading
      ensures request.Some? && !accepted ==> isLoading == old(isLoading)
    {
      request := BeginAction(actor, action);
      if request.Some? {
        var _ := FinishAction(actor, action, accepted, reply);
      }
    }
  }

  /** A second click while the first request is in flight sends nothing; once the first
      completes, the set of requests in flight is what it was before the clicks. */
  method DoubleClick(page: CheckinPage, actor: Actor, action: string, accepted: bool, reply: StatusReply)
    returns (first: Option<Payload>, second: Option<Payload>)
    requires action != "" && RequestKey(actor.name, action) !in page.activeRequests
    modifies page
    ensures first.Some? && second.None?
    ensures page.activeRequests == old(page.activeRequests)
  {
    first := page.BeginAction(actor, action);
    second := page.BeginAction(actor, action);
    var _ := page.FinishAction(actor, action, accepted, reply);
  }
}

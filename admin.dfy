/** The admin page: it loads the current program index and the program list, and lets the
    operator make one item current, or clear the current item. A change is posted to the
    remote API and mirrored in local storage; when the post fails, local storage alone
    carries it. */
module Admin {
  import opened Text
  import opened Program
  import Sync

  /** The outcome of the POST that publishes a new index. */
  datatype PostResult = Accepted | Rejected | NetworkFailure

  /** The status message a change shows: the index was cleared, an item was selected (its
      title, missing when no item carries the index or the item has no title), or the post
      failed and the change lives in local storage only. */
  datatype Notice = Cleared | Selected(title: Option<string>) | FallbackUsed

  /** The index a click on an item's button asks for: "-1" on the current item (its button
      reads "Clear"), the item's own index otherwise. */
  function ToggleTarget(item: ProgramItem): (v: string)
    ensures item.index != Sentinel ==> (v == item.index <==> !item.is_current)
    ensures v != Sentinel ==> v == item.index
  {
    if item.is_current then Sentinel else item.index
  }

  /** The title `program.find(p => p.index === v)?.title` yields. */
  function TitleOf(items: seq<ProgramItem>, v: string): (t: Option<string>)
    ensures t.Some? ==> exists k :: 0 <= k < |items| && items[k].index == v && items[k].title == t &&
                                    forall j :: 0 <= j < k ==> items[j].index != v
    ensures (forall k :: 0 <= k < |items| ==> items[k].index != v) ==> t.None?
    ensures forall k :: (0 <= k < |items| && items[k].index == v &&
                         (forall j :: 0 <= j < k ==> items[j].index != v)) ==> t == items[k].title
  {
    match FindFirst(items, v)
    case None => None
    case Some(k) => items[k].title
  }

  /** The message `updateCurrentProgram` shows for `v`. */
  function NoticeFor(items: seq<ProgramItem>, v: string, useApi: bool, post: PostResult): (n: Notice)
    ensures n == FallbackUsed <==> useApi && post != Accepted
    ensures n == Cleared <==> !(useApi && post != Accepted) && v == Sentinel
    ensures n.Selected? ==> v != Sentinel && n.title == TitleOf(items, v)
  {
    if useApi && post != Accepted then FallbackUsed
    else if v == Sentinel then Cleared
    else Selected(TitleOf(items, v))
  }

  /** A click on an item that does not carry the sentinel index flips that item: the current
      item is cleared and any other item becomes the only kind of item that is current. */
  lemma ToggleFlipsClickedItem(items: seq<ProgramItem>, i: nat)
    requires i < |items| && items[i].index != Sentinel
    ensures var after := MarkCurrent(items, ToggleTarget(items[i]));
            after[i].is_current == !items[i].is_current &&
            (items[i].is_current ==> forall k :: 0 <= k < |after| ==>
               (after[k].is_current <==> items[k].index == Sentinel)) &&
            (!items[i].is_current ==> forall k :: 0 <= k < |after| ==>
               (after[k].is_current <==> items[k].index == items[i].index))
  {
    MarkCurrentSelects(items, ToggleTarget(items[i]));
  }

  /** A click on the "Clear" button of a current item whose index is literally "-1" (a row
      that clearing marked) asks for "-1" again, and the item stays current. */
  lemma ToggleKeepsSentinelRowCurrent(items: seq<ProgramItem>, i: nat)
    requires i < |items| && items[i].index == Sentinel && items[i].is_current
    ensures var after := MarkCurrent(items, ToggleTarget(items[i]));
            after[i] == items[i]
  {
    MarkCurrentSelects(items, Sentinel);
    assert MarkCurrent(items, Sentinel)[i].(is_current := items[i].is_current) == items[i];
  }

  /** Clicking the same button twice returns every flag to where it was, provided the list
      marked exactly the rows with the clicked row's index (as a previous click leaves it)
      and no row carries the sentinel. */
  lemma {:induction false} ToggleTwice(items: seq<ProgramItem>, i: nat)
    requires i < |items| && items[i].index != Sentinel
    requires forall k :: 0 <= k < |items| ==> items[k].index != Sentinel
    requires forall k :: 0 <= k < |items| ==> (items[k].is_current <==> items[k].index == items[i].index)
    ensures var once := MarkCurrent(items, ToggleTarget(items[i]));
            var twice := MarkCurrent(once, ToggleTarget(once[i]));
            twice == items
  {
    var once := MarkCurrent(items, ToggleTarget(items[i]));
    MarkCurrentSelects(items, ToggleTarget(items[i]));
    assert ToggleTarget(items[i]) == Sentinel;
    assert !once[i].is_current;
    var twice := MarkCurrent(once, ToggleTarget(once[i]));
    MarkCurrentSelects(once, ToggleTarget(once[i]));
    assert |twice| == |items|;
    forall k | 0 <= k < |items|
      ensures twice[k] == items[k]
    {
      assert twice[k].(is_current := once[k].is_current) == once[k];
      assert once[k].(is_current := items[k].is_current) == items[k];
    }
  }

  class AdminPanel {
    var program: seq<ProgramItem>
    var currentProgramIndex: string
    /** The `currentProgramIndex` entry of local storage; missing when removed. */
    var storage: Option<string>

    constructor (storage: Option<string>)
      ensures program == [] && currentProgramIndex == Sentinel && this.storage == storage
    {
      program := [];
      currentProgramIndex := Sentinel;
      this.storage := storage;
    }

    /** `loadCurrentProgram`: the API's index on an ok reply ("-1" when it has none), local
        storage when the API is off, replied with an error, or could not be reached. */
    method LoadCurrentProgram(useApi: bool, response: Sync.Response)
      modifies this`currentProgramIndex
      ensures currentProgramIndex == Sync.ResolveIndex(useApi, response, storage)
      ensures currentProgramIndex != ""
    {
      if useApi {
        match response
        case Reply(v) =>
          currentProgramIndex := Or(v, Sentinel);
        case HttpError =>
          currentProgramIndex := Or(storage, Sentinel);
        case NetworkError =>
          currentProgramIndex := Or(storage, Sentinel);
      } else {
        currentProgramIndex := Or(storage, Sentinel);
      }
      Sync.ResolvePrefersRemote(useApi, response, storage);
    }

    /** `parseCSV`: rebuild the program list from the file text, marking the rows the
        current index selects. */
    method ParseCSV(csvText: string)
      modifies this`program
      ensures program == Records(csvText, currentProgramIndex)
      ensures forall k :: 0 <= k < |program| ==>
                (program[k].is_current <==> currentProgramIndex != Sentinel && program[k].index == currentProgramIndex)
    {
      var lines := Lines(csvText);
      var items: seq<ProgramItem> := [];
      var i := 1;
      while i < |lines|
        invariant 1 <= i <= |lines|
        invariant items == Rows(lines[1..i], currentProgramIndex)
      {
        var item := ParseRow(lines[i], currentProgramIndex);
        RowsSnoc(lines, i, currentProgramIndex);
        items := items + [item];
        i := i + 1;
      }
      RowsAreRecords(csvText, currentProgramIndex);
      RecordsFollowLines(csvText, currentProgramIndex);
      program := items;
    }

    /** `loadProgram`: parse the program file when it could be fetched (`csv`); a failed
        fetch leaves the list as it was. */
    method LoadProgram(csv: Option<string>) returns (loaded: bool)
      modifies this`program
      ensures loaded == csv.Some?
      ensures program == if loaded then Records(csv.value, currentProgramIndex) else old(program)
    {
      loaded := csv.Some?;
      if loaded {
        ParseCSV(csv.value);
      }
    }

    /** The refresh button (and the page's start-up): read the index, then the list. */
    method Refresh(useApi: bool, response: Sync.Response, csv: Option<string>) returns (loaded: bool)
      modifies this`currentProgramIndex, this`program
      ensures currentProgramIndex == Sync.ResolveIndex(useApi, response, storage)
      ensures loaded == csv.Some?
      ensures program == if loaded then Records(csv.value, currentProgramIndex) else old(program)
    {
      LoadCurrentProgram(useApi, response);
      loaded := LoadProgram(csv);
    }

    /** The `forEach` of `updateCurrentProgram`: every item's flag becomes "its index is `v`". */
    method MarkItems(v: string)
      modifies this`program
      ensures program == MarkCurrent(old(program), v)
    {
      ghost var before := program;
      var i := 0;
      while i < |program|
        invariant 0 <= i <= |program| == |before|
        invariant forall k :: 0 <= k < i ==> program[k] == before[k].(is_current := before[k].index == v)
        invariant forall k :: i <= k < |program| ==> program[k] == before[k]
      {
        program := program[i := program[i].(is_current := program[i].index == v)];
        i := i + 1;
      }
    }

    /** `updateCurrentProgram`: publish `v`, then adopt it, mirror it in local storage (removed
        for "-1"), and mark the items carrying it. A failed post changes nothing of this: the
        page adopts `v` all the same and only the message differs. */
    method UpdateCurrentProgram(v: string, useApi: bool, post: PostResult) returns (notice: Notice)
      modifies this`program, this`currentProgramIndex, this`storage
      ensures currentProgramIndex == v
      ensures storage == Sync.CacheAfter(v)
      ensures program == MarkCurrent(old(program), v)
      ensures notice == NoticeFor(old(program), v, useApi, post)
    {
      if useApi && post != Accepted {
        notice := FallbackUsed;
      } else if v == Sentinel {
        notice := Cleared;
      } else {
        var found := FindFirst(program, v);
        notice := Selected(if found.Some? then program[found.value].title else None);
      }
      currentProgramIndex := v;
      storage := if v == Sentinel then None else Some(v);
      MarkItems(v);
    }

    /** `toggleCurrent`: the button of item `index` clears the current item or selects itself. */
    method ToggleCurrent(index: nat, useApi: bool, post: PostResult) returns (notice: Notice)
      requires index < |program|
      modifies this`program, this`currentProgramIndex, this`storage
      ensures currentProgramIndex == ToggleTarget(old(program)[index])
      ensures storage == Sync.CacheAfter(currentProgramIndex)
      ensures program == MarkCurrent(old(program), currentProgramIndex)
      ensures notice == NoticeFor(old(program), currentProgramIndex, useApi, post)
    {
      var clickedItem := program[index];
      if clickedItem.is_current {
        notice := UpdateCurrentProgram(Sentinel, useApi, post);
      } else {
        notice := UpdateCurrentProgram(clickedItem.index, useApi, post);
      }
    }

    /** `clearAll`: set the index to "-1". */
    method ClearAll(useApi: bool, post: PostResult) returns (notice: Notice)
      modifies this`program, this`currentProgramIndex, this`storage
      ensures currentProgramIndex == Sentinel && storage == None
      ensures program == MarkCurrent(old(program), Sentinel)
      ensures notice == NoticeFor(old(program), Sentinel, useApi, post)
    {
      notice := UpdateCurrentProgram(Sentinel, useApi, post);
    }
  }

  /** Selecting an index on the admin page shows the same list a reload of the program file
      shows, and a display page that cannot reach the API reads the same index back from
      local storage. */
  method SelectThenReload(page: AdminPanel, csvText: string, v: string, useApi: bool, post: PostResult)
    returns (marked: seq<ProgramItem>, reloaded: seq<ProgramItem>)
    requires v != Sentinel
    modifies page
    ensures marked == reloaded
    ensures Sync.ResolveIndex(useApi, Sync.NetworkError, page.storage) == if v == "" then Sentinel else v
  {
    page.ParseCSV(csvText);
    var _ := page.UpdateCurrentProgram(v, useApi, post);
    marked := page.program;
    MarkAgreesWithReparse(csvText, old(page.currentProgramIndex), v);
    var _ := page.LoadProgram(Some(csvText));
    reloaded := page.program;
    Sync.CacheFallbackAgrees(v, useApi, Sync.NetworkError);
  }
}

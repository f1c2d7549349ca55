/** The audience display page: it holds the program list, the position of the current
    item and the current program index; it reloads when polling observes a new index, and
    it shows each item as completed, current or upcoming, plus a "now playing" and an
    "up next" panel. */
module Display {
  import opened Text
  import opened Program
  import Csv
  import Sync

  // --------------------------------------------------------------- panels

  datatype Status = Completed | Current | Upcoming

  /** The status of the item at `position` in the program list. */
  function StatusAt(position: nat, currentIndex: int): (s: Status)
    ensures s == Current <==> position == currentIndex
    ensures currentIndex < 0 ==> s == Upcoming
    ensures s == Completed ==> 0 < currentIndex
  {
    if position < currentIndex then Completed
    else if position == currentIndex then Current
    else Upcoming
  }

  function Rank(s: Status): nat {
    match s
    case Completed => 0
    case Current => 1
    case Upcoming => 2
  }

  /** Along the list, statuses never go back: completed items, then at most one current
      item, then upcoming items. */
  lemma StatusesInOrder(i: nat, j: nat, currentIndex: int)
    requires i <= j
    ensures Rank(StatusAt(i, currentIndex)) <= Rank(StatusAt(j, currentIndex))
    ensures i < j ==> StatusAt(i, currentIndex) != Current || StatusAt(j, currentIndex) != Current
  {
  }

  /** The "now playing" panel: a welcome while nothing is current or the list is empty, a
      closing message past the end, otherwise the item at `currentIndex`. */
  datatype NowPanel = Welcome | ProgramComplete | NowPlaying(position: nat)

  function NowPanelFor(count: nat, currentIndex: int): (p: NowPanel)
    requires -1 <= currentIndex
    ensures p.NowPlaying? <==> 0 <= currentIndex < count
    ensures currentIndex == -1 || count == 0 ==> p == Welcome
    ensures p.NowPlaying? ==> p.position < count && StatusAt(p.position, currentIndex) == Current
  {
    if currentIndex == -1 || count == 0 then Welcome
    else if currentIndex >= count then ProgramComplete
    else NowPlaying(currentIndex)
  }

  /** The "up next" panel: the first item when nothing is current, "loading" when the list
      is empty, "no more performances" after the last item, otherwise the item after the
      current one. */
  datatype NextPanel = LoadingNext | NoMore | UpNext(position: nat)

  function NextPanelFor(count: nat, currentIndex: int): (p: NextPanel)
    requires -1 <= currentIndex
    ensures p.UpNext? ==> p.position < count
    ensures p == LoadingNext <==> currentIndex == -1 && count == 0
  {
    if currentIndex == -1 then (if count > 0 then UpNext(0) else LoadingNext)
    else if currentIndex + 1 >= count then NoMore
    else UpNext(currentIndex + 1)
  }

  /** For a position the list can hold, the "up next" item is the first upcoming item of the
      list, and there is none exactly when no item is upcoming. */
  lemma {:induction false} NextIsFirstUpcoming(count: nat, currentIndex: int)
    requires -1 <= currentIndex < count
    ensures var p := NextPanelFor(count, currentIndex);
            (p.UpNext? <==> exists k :: 0 <= k < count && StatusAt(k, currentIndex) == Upcoming) &&
            (p.UpNext? ==> StatusAt(p.position, currentIndex) == Upcoming &&
                           forall k :: 0 <= k < p.position ==> StatusAt(k, currentIndex) != Upcoming)
  {
    var p := NextPanelFor(count, currentIndex);
    if p.UpNext? {
      assert StatusAt(p.position, currentIndex) == Upcoming;
    } else {
      forall k | 0 <= k < count
        ensures StatusAt(k, currentIndex) != Upcoming
      {
      }
    }
  }

  /** With nothing current the display welcomes and announces the first item. */
  lemma NothingCurrentShowsFirst(count: nat)
    requires count > 0
    ensures NowPanelFor(count, -1) == Welcome && NextPanelFor(count, -1) == UpNext(0)
    ensures forall k :: 0 <= k < count ==> StatusAt(k, -1) == Upcoming
  {
  }

  /** On a parsed program, the "now playing" panel shows an item exactly when some record is
      current (for "-1" none is, even on a row whose first column is literally -1), and the
      item it shows is the last row carrying the current index, which is not "-1". */
  lemma NowPlayingIsSelected(csvText: string, currentProgramIndex: string)
    ensures var items := Records(csvText, currentProgramIndex);
            var p := NowPanelFor(|items|, LastCurrent(items));
            (p.NowPlaying? <==> exists k :: 0 <= k < |items| && items[k].is_current) &&
            (p.NowPlaying? ==> items[p.position].index == currentProgramIndex && currentProgramIndex != Sentinel &&
                               forall k :: p.position < k < |items| ==> items[k].index != currentProgramIndex)
  {
    var items := Records(csvText, currentProgramIndex);
    RecordsFollowLines(csvText, currentProgramIndex);
  }

  // ------------------------------------------------------------------ page

  /** The loop of `parseCSV`: one record per line after the header, remembering the
      position of the last row the current index selects. */
  method ParseRecords(csvText: string, currentProgramIndex: string) returns (items: seq<ProgramItem>, found: int)
    ensures items == Records(csvText, currentProgramIndex)
    ensures found == LastCurrent(items)
    ensures found != -1 ==> items[found].index == currentProgramIndex
  {
    var lines := Lines(csvText);
    items := [];
    found := -1;
    var i := 1;
    while i < |lines|
      invariant 1 <= i <= |lines|
      invariant items == Rows(lines[1..i], currentProgramIndex)
      invariant found == LastCurrent(items)
    {
      var item := ParseRow(lines[i], currentProgramIndex);
      if item.is_current {
        found := i - 1;
      }
      LastCurrentSnoc(items, item);
      RowsSnoc(lines, i, currentProgramIndex);
      items := items + [item];
      i := i + 1;
    }
    ParsedProgram(csvText, currentProgramIndex, items, found);
  }

  class RecitalProgram {
    var program: seq<ProgramItem>
    var currentIndex: int
    var currentProgramIndex: string

    /** `currentIndex` is the position of the last current item of `program`, -1 if none. */
    ghost predicate Valid()
      reads this
    {
      currentIndex == LastCurrent(program)
    }

    constructor ()
      ensures Valid()
      ensures program == [] && currentIndex == -1 && currentProgramIndex == Sentinel
    {
      program := [];
      currentIndex := -1;
      currentProgramIndex := Sentinel;
    }

    /** `parseCSV`: rebuild the program list from the file text and find the current item. */
    method ParseCSV(csvText: string)
      modifies this`program, this`currentIndex
      ensures Valid()
      ensures program == Records(csvText, currentProgramIndex)
      ensures currentIndex != -1 ==> program[currentIndex].index == currentProgramIndex
    {
      program, currentIndex := ParseRecords(csvText, currentProgramIndex);
    }

    /** `loadProgram`: when holding "-1", first read the index again (`response`); then, if
        the program file could be fetched (`csv`), parse it. A failed fetch leaves the list
        as it was. */
    method LoadProgram(useApi: bool, response: Sync.Response, cache: Option<string>, csv: Option<string>)
      returns (loaded: bool)
      requires Valid()
      modifies this
      ensures Valid()
      ensures currentProgramIndex ==
              if old(currentProgramIndex) == Sentinel then Sync.ReloadIndex(useApi, response, cache)
              else old(currentProgramIndex)
      ensures loaded == csv.Some?
      ensures program == if loaded then Records(csv.value, currentProgramIndex) else old(program)
      ensures currentIndex == LastCurrent(program)
    {
      if currentProgramIndex == Sentinel {
        currentProgramIndex := Sync.ReloadIndex(useApi, response, cache);
      }
      loaded := csv.Some?;
      if loaded {
        ParseCSV(csv.value);
      }
    }

    /** `checkForUpdates`: one polling tick. Reload only when the observed index differs
        from the held one; the held index then becomes the observed one (re-read by
        `loadProgram` when it is "-1"). */
    method CheckForUpdates(useApi: bool, poll: Sync.Response, reload: Sync.Response,
                           cache: Option<string>, csv: Option<string>)
      returns (reloaded: bool)
      requires Valid()
      modifies this
      ensures Valid()
      ensures var tick := Sync.PollOnce(old(currentProgramIndex), useApi, poll, reload, cache);
              reloaded == tick.Reload? &&
              (reloaded ==> currentProgramIndex == tick.index)
      ensures !reloaded ==> currentProgramIndex == old(currentProgramIndex) && program == old(program)
                            && currentIndex == old(currentIndex)
      ensures reloaded ==> program == if csv.Some? then Records(csv.value, currentProgramIndex) else old(program)
    {
      var newProgramIndex := Sync.ResolveIndex(useApi, poll, cache);
      reloaded := newProgramIndex != currentProgramIndex;
      if reloaded {
        currentProgramIndex := newProgramIndex;
        var _ := LoadProgram(useApi, reload, cache, csv);
      }
    }
  }

  /** Two identical polling ticks reload at most once, as long as the API (or the cache)
      answers the same each time. */
  method PollTwice(page: RecitalProgram, useApi: bool, response: Sync.Response,
                   cache: Option<string>, csv: Option<string>)
    returns (first: bool, second: bool)
    requires page.Valid()
    modifies page
    ensures page.Valid()
    ensures first ==> !second
    ensures !first ==> !second && page.currentProgramIndex == old(page.currentProgramIndex)
  {
    first := page.CheckForUpdates(useApi, response, response, cache, csv);
    if first {
      Sync.PollSettles(old(page.currentProgramIndex), useApi, response, cache);
    }
    second := page.CheckForUpdates(useApi, response, response, cache, csv);
  }
}

/** The program list shared by the display and admin pages: one record per data row
    of the program CSV file, and the "is current" marking by the current program
    index, a string whose value "-1" means that no item is current. */
module Program {
  import opened Text
  import Csv

  /** The index value that stands for "no item is current". */
  const Sentinel: string := "-1"

  /** One row of the program file. The columns after the first are missing (JavaScript
      `undefined`) when the row has fewer fields. */
  datatype ProgramItem = ProgramItem(
    index: string,
    title: Option<string>,
    performances: Option<string>,
    image: Option<string>,
    is_current: bool)

  /** `values[k]`, missing past the end. */
  function Column(values: seq<string>, k: nat): Option<string> {
    if k < |values| then Some(values[k]) else None
  }

  /** The test both parsers apply to a row's first column. */
  predicate Selects(currentProgramIndex: string, key: string) {
    currentProgramIndex != Sentinel && currentProgramIndex == key
  }

  /** `csvText.trim().split('\n')`: the header line followed by the data lines. */
  function Lines(csvText: string): (lines: seq<string>)
    ensures |lines| >= 1
  {
    Split(Trim(csvText), '\n')
  }

  /** The record built from one data line. */
  function Row(line: string, currentProgramIndex: string): ProgramItem {
    var values := Csv.Fields(line);
    ProgramItem(values[0], Column(values, 1), Column(values, 2), Column(values, 3),
                Selects(currentProgramIndex, values[0]))
  }

  lemma RowOf(line: string, currentProgramIndex: string)
    ensures var values := Csv.Fields(line);
            var item := Row(line, currentProgramIndex);
            item.index == values[0] && '"' !in item.index && Trimmed(item.index) &&
            (item.is_current <==> Selects(currentProgramIndex, item.index))
  {
  }

  /** The program list `parseCSV` builds: the header line is skipped and every other
      line gives one record, in file order. */
  function Records(csvText: string, currentProgramIndex: string): (items: seq<ProgramItem>)
    ensures |items| == |Lines(csvText)| - 1
  {
    var lines := Lines(csvText);
    seq(|lines| - 1, k requires 0 <= k < |lines| - 1 => Row(lines[k + 1], currentProgramIndex))
  }

  lemma RecordAt(csvText: string, currentProgramIndex: string, k: nat)
    requires k < |Lines(csvText)| - 1
    ensures Records(csvText, currentProgramIndex)[k] == Row(Lines(csvText)[k + 1], currentProgramIndex)
  {
    var lines := Lines(csvText);
    var items := seq(|lines| - 1, j requires 0 <= j < |lines| - 1 => Row(lines[j + 1], currentProgramIndex));
    assert Records(csvText, currentProgramIndex) == items;
  }

  /** The records of `lines`, one per line, built left to right. */
  function Rows(lines: seq<string>, currentProgramIndex: string): (items: seq<ProgramItem>)
    ensures |items| == |lines|
  {
    if lines == [] then []
    else Rows(lines[..|lines| - 1], currentProgramIndex) + [Row(lines[|lines| - 1], currentProgramIndex)]
  }

  lemma RowsSnoc(lines: seq<string>, i: nat, currentProgramIndex: string)
    requires 1 <= i < |lines|
    ensures Rows(lines[1..i + 1], currentProgramIndex) ==
            Rows(lines[1..i], currentProgramIndex) + [Row(lines[i], currentProgramIndex)]
  {
    assert lines[1..i + 1][..i - 1] == lines[1..i];
  }

  lemma {:induction false} RowsAt(lines: seq<string>, currentProgramIndex: string, k: nat)
    requires k < |lines|
    ensures Rows(lines, currentProgramIndex)[k] == Row(lines[k], currentProgramIndex)
    decreases |lines|
  {
    if k < |lines| - 1 {
      RowsAt(lines[..|lines| - 1], currentProgramIndex, k);
    }
  }

  /** Building the records line by line gives the parsed program. */
  lemma RowsAreRecords(csvText: string, currentProgramIndex: string)
    ensures Rows(Lines(csvText)[1..|Lines(csvText)|], currentProgramIndex) == Records(csvText, currentProgramIndex)
  {
    var lines := Lines(csvText);
    var items := Rows(lines[1..|lines|], currentProgramIndex);
    forall k | 0 <= k < |items|
      ensures items[k] == Records(csvText, currentProgramIndex)[k]
    {
      RowsAt(lines[1..|lines|], currentProgramIndex, k);
      RecordAt(csvText, currentProgramIndex, k);
    }
  }

  /** What the loop of `parseCSV` ends with is the parsed program, and the position it
      remembers holds the current index. */
  lemma ParsedProgram(csvText: string, currentProgramIndex: string, items: seq<ProgramItem>, found: int)
    requires items == Rows(Lines(csvText)[1..|Lines(csvText)|], currentProgramIndex)
    requires found == LastCurrent(items)
    ensures items == Records(csvText, currentProgramIndex)
    ensures found != -1 ==> items[found].index == currentProgramIndex
  {
    RowsAreRecords(csvText, currentProgramIndex);
    if found != -1 {
      RecordsMarkOnlyTheIndex(csvText, currentProgramIndex, found);
    }
  }

  /** The record `parseCSV` builds from the fields of a line: the first four columns, not
      current, then marked when the current index selects its first column. */
  lemma RowFromValues(line: string, currentProgramIndex: string, values: seq<string>)
    requires values == Csv.Fields(line)
    ensures var item := ProgramItem(values[0], Column(values, 1), Column(values, 2), Column(values, 3), false);
            Row(line, currentProgramIndex) ==
            if Selects(currentProgramIndex, values[0]) then item.(is_current := true) else item
  {
  }

  /** One iteration of `parseCSV` on either page: tokenize the line, take its first four
      columns, and mark the record when the current index selects its first column. */
  method ParseRow(line: string, currentProgramIndex: string) returns (item: ProgramItem)
    ensures item == Row(line, currentProgramIndex)
  {
    var values := Csv.ParseLine(line);
    item := ProgramItem(values[0], Column(values, 1), Column(values, 2), Column(values, 3), false);
    if currentProgramIndex != Sentinel && currentProgramIndex == values[0] {
      item := item.(is_current := true);
    }
    RowFromValues(line, currentProgramIndex, values);
  }

  /** One record per line after the header, in file order; a record's index is its line's
      first field with quotes removed and whitespace trimmed, and it is current exactly when
      the current index is not the sentinel and equals that field. */
  lemma RecordsFollowLines(csvText: string, currentProgramIndex: string)
    ensures var items := Records(csvText, currentProgramIndex);
            var lines := Lines(csvText);
            |items| == |lines| - 1 &&
            forall k :: 0 <= k < |items| ==>
              items[k].index == Csv.Fields(lines[k + 1])[0] &&
              '"' !in items[k].index && Trimmed(items[k].index) &&
              (items[k].is_current <==> currentProgramIndex != Sentinel && items[k].index == currentProgramIndex)
  {
    var items := Records(csvText, currentProgramIndex);
    var lines := Lines(csvText);
    forall k | 0 <= k < |items|
      ensures items[k].index == Csv.Fields(lines[k + 1])[0]
      ensures '"' !in items[k].index && Trimmed(items[k].index)
      ensures items[k].is_current <==> Selects(currentProgramIndex, items[k].index)
    {
      RecordAt(csvText, currentProgramIndex, k);
      RowOf(lines[k + 1], currentProgramIndex);
    }
  }

  /** The sentinel marks nothing, and every marked record carries the current index. */
  lemma RecordsMarkOnlyTheIndex(csvText: string, currentProgramIndex: string, k: nat)
    requires k < |Records(csvText, currentProgramIndex)|
    ensures var item := Records(csvText, currentProgramIndex)[k];
            item.is_current ==> item.index == currentProgramIndex && currentProgramIndex != Sentinel
    ensures currentProgramIndex == Sentinel ==> !Records(csvText, currentProgramIndex)[k].is_current
  {
    RecordAt(csvText, currentProgramIndex, k);
    RowOf(Lines(csvText)[k + 1], currentProgramIndex);
  }

  /** An empty file, or one with only a header, has no records. */
  lemma {:induction false} HeaderOnlyHasNoRecords(header: string, currentProgramIndex: string)
    requires '\n' !in header
    ensures Records(header, currentProgramIndex) == []
  {
    var t := Trim(header);
    assert '\n' !in t;
    CountAbsent(t, '\n');
  }

  /** Indices that are pairwise distinct. */
  predicate DistinctIndices(items: seq<ProgramItem>) {
    forall i, j :: 0 <= i < j < |items| ==> items[i].index != items[j].index
  }

  /** With distinct row indices at most one record is current. */
  lemma AtMostOneCurrent(items: seq<ProgramItem>, v: string, i: nat, j: nat)
    requires DistinctIndices(items)
    requires forall k :: 0 <= k < |items| ==> (items[k].is_current ==> items[k].index == v)
    requires i < |items| && j < |items| && items[i].is_current && items[j].is_current
    ensures i == j
  {
  }

  /** The position of the last current item, -1 when there is none (the display page's
      `currentIndex`, which `parseCSV` reassigns at every matching row). */
  function LastCurrent(items: seq<ProgramItem>): (r: int)
    ensures -1 <= r < |items|
    ensures r == -1 <==> forall k :: 0 <= k < |items| ==> !items[k].is_current
    ensures r >= 0 ==> items[r].is_current && forall k :: r < k < |items| ==> !items[k].is_current
  {
    if items == [] then -1
    else if items[|items| - 1].is_current then |items| - 1
    else LastCurrent(items[..|items| - 1])
  }

  /** Appending an item: it becomes the last current one when it is current. */
  lemma LastCurrentSnoc(items: seq<ProgramItem>, item: ProgramItem)
    ensures LastCurrent(items + [item]) == if item.is_current then |items| else LastCurrent(items)
  {
    assert (items + [item])[..|items|] == items;
  }

  /** The admin page's in-place update: every item's flag becomes "its index equals `v`".
      Unlike `parseCSV`, this test has no sentinel check. */
  function MarkCurrent(items: seq<ProgramItem>, v: string): (r: seq<ProgramItem>)
    ensures |r| == |items|
    ensures forall k :: 0 <= k < |r| ==> (r[k].is_current <==> items[k].index == v)
  {
    seq(|items|, k requires 0 <= k < |items| => items[k].(is_current := items[k].index == v))
  }

  /** Marking keeps the list's length, order and every other column, and afterwards the
      current items are exactly those whose index is `v`. */
  lemma MarkCurrentSelects(items: seq<ProgramItem>, v: string)
    ensures var r := MarkCurrent(items, v);
            |r| == |items| &&
            forall k :: 0 <= k < |r| ==>
              (r[k].is_current <==> items[k].index == v) &&
              r[k].(is_current := items[k].is_current) == items[k]
  {
  }

  lemma MarkCurrentIdempotent(items: seq<ProgramItem>, v: string)
    ensures MarkCurrent(MarkCurrent(items, v), v) == MarkCurrent(items, v)
  {
  }

  /** Marking only looks at the last value: marking with `u` then `v` is marking with `v`. */
  lemma MarkCurrentLastWins(items: seq<ProgramItem>, u: string, v: string)
    ensures MarkCurrent(MarkCurrent(items, u), v) == MarkCurrent(items, v)
  {
  }

  /** For any real index, marking a parsed list agrees with parsing the file again with
      that index: the admin page's immediate update shows what a reload would show. */
  lemma MarkAgreesWithReparse(csvText: string, oldIndex: string, v: string)
    requires v != Sentinel
    ensures MarkCurrent(Records(csvText, oldIndex), v) == Records(csvText, v)
  {
    var lines := Lines(csvText);
    var marked := MarkCurrent(Records(csvText, oldIndex), v);
    assert |marked| == |Records(csvText, v)| == |lines| - 1;
    forall k | 0 <= k < |lines| - 1
      ensures marked[k] == Records(csvText, v)[k]
    {
      RecordAt(csvText, oldIndex, k);
      RecordAt(csvText, v, k);
      MarkAgreesAt(lines[k + 1], oldIndex, v);
    }
  }

  lemma MarkAgreesAt(line: string, oldIndex: string, v: string)
    requires v != Sentinel
    ensures var item := Row(line, oldIndex);
            item.(is_current := item.index == v) == Row(line, v)
  {
  }

  /** Clearing (`v` = "-1") marks exactly the rows whose first column is literally "-1",
      whereas parsing with "-1" marks none. */
  lemma ClearMarksSentinelRows(items: seq<ProgramItem>, k: nat)
    requires k < |items|
    ensures MarkCurrent(items, Sentinel)[k].is_current <==> items[k].index == Sentinel
  {
  }

  /** A one-row file whose row is indexed "-1" shows the difference. */
  lemma ClearDiffersFromReparseOnSentinelRow()
    ensures var csvText := "index\n-1";
            MarkCurrent(Records(csvText, "3"), Sentinel) != Records(csvText, Sentinel)
  {
    var csvText := "index\n-1";
    SentinelFileLines();
    SentinelRowField();
    RowOf("-1", "3");
    RowOf("-1", Sentinel);
    assert MarkCurrent(Records(csvText, "3"), Sentinel)[0].is_current;
    assert !Records(csvText, Sentinel)[0].is_current;
  }

  lemma SentinelFileLines()
    ensures Lines("index\n-1") == ["index", "-1"]
  {
    assert "index\n-1" == "index" + ['\n'] + "-1";
    TwoLines("index", "-1");
  }

  /** A header and one data line, neither with a line break nor with surrounding space. */
  lemma TwoLines(header: string, row: string)
    requires '\n' !in header && '\n' !in row
    requires header != [] && row != [] && !IsSpace(header[0]) && !IsSpace(row[|row| - 1])
    ensures Lines(header + ['\n'] + row) == [header, row]
  {
    var text := header + ['\n'] + row;
    assert Trimmed(text);
    TrimOfTrimmed(text);
    SplitAtFirstSeparator(header, row, '\n');
    SplitWithoutSeparator(row, '\n');
  }

  lemma SentinelRowField()
    ensures Csv.Fields("-1")[0] == "-1"
  {
    Csv.FieldsWithoutQuotes("-1");
    SplitWithoutSeparator("-1", ',');
    assert Trimmed("-1");
    TrimOfTrimmed("-1");
  }

  /** The position of the first item whose index is `v` (`program.find`). */
  function FindFirst(items: seq<ProgramItem>, v: string): (r: Option<nat>)
    ensures r.Some? ==> r.value < |items| && items[r.value].index == v &&
                        forall k :: 0 <= k < r.value ==> items[k].index != v
    ensures r.None? ==> forall k :: 0 <= k < |items| ==> items[k].index != v
  {
    if items == [] then None
    else if items[0].index == v then Some(0)
    else
      match FindFirst(items[1..], v)
      case None => None
      case Some(k) => Some(k + 1)
  }
}

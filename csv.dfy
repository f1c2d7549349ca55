/** The quoted-field line tokenizer shared by the display and admin pages
    (`parseCSVLine`). A double quote flips "inside quotes" and is dropped, a comma
    outside quotes ends a field, every other character is kept, and every field is
    trimmed. Quotes are neither escaped nor checked for balance. */
module Csv {
  import opened Text

  /** Inside quotes after reading `s`, having started in state `q`. */
  function InsideAfter(s: string, q: bool): bool {
    q != (Count(s, '"') % 2 == 1)
  }

  /** Prefix `p` onto the first piece of `pieces`. */
  function Prepend(p: string, pieces: seq<string>): (r: seq<string>)
    requires |pieces| >= 1
    ensures |r| == |pieces|
  {
    [p + pieces[0]] + pieces[1..]
  }

  /** The last piece of `a` continues into the first piece of `b`. */
  function Glue(a: seq<string>, b: seq<string>): (r: seq<string>)
    requires |a| >= 1 && |b| >= 1
    ensures |r| == |a| + |b| - 1
  {
    a[..|a| - 1] + [a[|a| - 1] + b[0]] + b[1..]
  }

  /** Commas met while outside quotes, scanning `s` from state `q`. */
  function UnquotedCommas(s: string, q: bool): nat {
    if s == [] then 0
    else if s[0] == '"' then UnquotedCommas(s[1..], !q)
    else if s[0] == ',' && !q then 1 + UnquotedCommas(s[1..], q)
    else UnquotedCommas(s[1..], q)
  }

  /** The untrimmed fields of `s` read from state `q`: a reference definition of the
      tokenizer that reads the line from its end. */
  function Pieces(s: string, q: bool): (r: seq<string>)
    ensures |r| == UnquotedCommas(s, q) + 1
    ensures forall k :: 0 <= k < |r| ==> '"' !in r[k]
  {
    if s == [] then [""]
    else if s[0] == '"' then Pieces(s[1..], !q)
    else if s[0] == ',' && !q then [""] + Pieces(s[1..], q)
    else Prepend([s[0]], Pieces(s[1..], q))
  }

  /** The fields `parseCSVLine` returns for `line`. */
  function Fields(line: string): (r: seq<string>)
    ensures |r| == UnquotedCommas(line, false) + 1
    ensures forall k :: 0 <= k < |r| ==> '"' !in r[k] && Trimmed(r[k])
  {
    TrimAll(Pieces(line, false))
  }

  /** Every piece trimmed (`current.trim()` at each push). */
  function TrimAll(pieces: seq<string>): (r: seq<string>)
    ensures |r| == |pieces|
  {
    seq(|pieces|, k requires 0 <= k < |pieces| => Trim(pieces[k]))
  }

  lemma TrimAllSnoc(pieces: seq<string>, p: string)
    ensures TrimAll(pieces + [p]) == TrimAll(pieces) + [Trim(p)]
  {
  }

  /** The scan of `line` has reached position `i` with the completed fields `raw`
      (untrimmed), the field buffer `current` and the quote flag `q`. */
  ghost predicate Scanned(line: string, i: nat, raw: seq<string>, current: string, q: bool)
    requires i <= |line|
  {
    Pieces(line, false) == raw + Prepend(current, Pieces(line[i..], q))
  }

  /** The tokenizer as the pages run it: one left-to-right pass with a field buffer
      and a quote flag. */
  method ParseLine(line: string) returns (values: seq<string>)
    ensures values == Fields(line)
    ensures |values| >= 1
  {
    values := [];
    var current := "";
    var inQuotes := false;
    ghost var raw: seq<string> := [];
    var i := 0;
    ScanStart(line);
    while i < |line|
      invariant 0 <= i <= |line|
      invariant values == TrimAll(raw)
      invariant Scanned(line, i, raw, current, inQuotes)
    {
      var ch := line[i];
      if ch == '"' {
        ScanQuote(line, i, raw, current, inQuotes);
        inQuotes := !inQuotes;
      } else if ch == ',' && !inQuotes {
        ScanSeparator(line, i, raw, current, inQuotes);
        TrimAllSnoc(raw, current);
        values := values + [Trim(current)];
        raw := raw + [current];
        current := "";
      } else {
        ScanOther(line, i, raw, current, inQuotes);
        current := current + [ch];
      }
      i := i + 1;
    }
    ScanEnd(line, raw, current, inQuotes);
    TrimAllSnoc(raw, current);
    values := values + [Trim(current)];
    raw := raw + [current];
  }

  lemma ScanStart(line: string)
    ensures Scanned(line, 0, [], "", false)
  {
    assert line[0..] == line;
    PrependEmpty(Pieces(line, false));
  }

  lemma ScanQuote(line: string, i: nat, raw: seq<string>, current: string, q: bool)
    requires i < |line| && line[i] == '"'
    requires Scanned(line, i, raw, current, q)
    ensures Scanned(line, i + 1, raw, current, !q)
  {
    PiecesAt(line, i, q);
  }

  lemma ScanSeparator(line: string, i: nat, raw: seq<string>, current: string, q: bool)
    requires i < |line| && line[i] == ',' && !q
    requires Scanned(line, i, raw, current, q)
    ensures Scanned(line, i + 1, raw + [current], "", q)
  {
    PiecesAt(line, i, q);
    var rest := Pieces(line[i + 1..], q);
    PrependSeparator(current, rest);
    assert raw + Prepend(current, [""] + rest) == (raw + [current]) + Prepend("", rest);
  }

  lemma ScanOther(line: string, i: nat, raw: seq<string>, current: string, q: bool)
    requires i < |line| && line[i] != '"' && !(line[i] == ',' && !q)
    requires Scanned(line, i, raw, current, q)
    ensures Scanned(line, i + 1, raw, current + [line[i]], q)
  {
    PiecesAt(line, i, q);
    PrependPrepend(current, [line[i]], Pieces(line[i + 1..], q));
  }

  lemma ScanEnd(line: string, raw: seq<string>, current: string, q: bool)
    requires Scanned(line, |line|, raw, current, q)
    ensures Pieces(line, false) == raw + [current]
  {
    assert line[|line|..] == [];
    assert current + "" == current;
    assert Prepend(current, [""]) == [current];
  }

  /** One step of the left-to-right scan, in terms of the reference definition. */
  lemma PiecesAt(line: string, i: nat, q: bool)
    requires i < |line|
    ensures Pieces(line[i..], q) ==
            if line[i] == '"' then Pieces(line[i + 1..], !q)
            else if line[i] == ',' && !q then [""] + Pieces(line[i + 1..], q)
            else Prepend([line[i]], Pieces(line[i + 1..], q))
  {
    assert line[i..][0] == line[i] && line[i..][1..] == line[i + 1..];
  }

  lemma PrependSeparator(p: string, rest: seq<string>)
    requires |rest| >= 1
    ensures Prepend(p, [""] + rest) == [p] + Prepend("", rest)
  {
    PrependEmpty(rest);
    assert p + "" == p;
  }

  lemma PrependPrepend(p: string, p': string, rest: seq<string>)
    requires |rest| >= 1
    ensures Prepend(p, Prepend(p', rest)) == Prepend(p + p', rest)
  {
    assert p + (p' + rest[0]) == (p + p') + rest[0];
  }

  // --------------------------------------------------------------- lemmas

  /** Without quotes the tokenizer is a plain split on commas. */
  lemma {:induction false} PiecesWithoutQuotes(s: string)
    requires '"' !in s
    ensures Pieces(s, false) == Split(s, ',')
  {
    if s != [] {
      assert forall c :: c in s[1..] ==> c in s;
      PiecesWithoutQuotes(s[1..]);
    }
  }

  /** A line without quotes gives the comma-separated pieces, each trimmed. */
  lemma FieldsWithoutQuotes(line: string)
    requires '"' !in line
    ensures var parts := Split(line, ',');
            |Fields(line)| == |parts| &&
            forall k :: 0 <= k < |parts| ==> Fields(line)[k] == Trim(parts[k])
  {
    PiecesWithoutQuotes(line);
  }

  /** Inside quotes, a quote-free text is a single piece, commas and all. */
  lemma {:induction false} QuotedRunIsOnePiece(t: string)
    requires '"' !in t
    ensures Pieces(t, true) == [t]
  {
    if t != [] {
      QuotedRunIsOnePiece(t[1..]);
      assert t == [t[0]] + t[1..];
    }
  }

  lemma PrependEmpty(pieces: seq<string>)
    requires |pieces| >= 1
    ensures Prepend("", pieces) == pieces
  {
    assert "" + pieces[0] == pieces[0];
    assert [pieces[0]] + pieces[1..] == pieces;
  }

  lemma GlueOnEmptyFirst(b: seq<string>)
    requires |b| >= 1
    ensures Glue([""], b) == b
  {
    PrependEmpty(b);
    assert [""][..0] == [];
  }

  lemma GluePrepend(p: string, a: seq<string>, b: seq<string>)
    requires |a| >= 1 && |b| >= 1
    ensures Prepend(p, Glue(a, b)) == Glue(Prepend(p, a), b)
  {
    if |a| == 1 {
      assert Prepend(p, a) == [p + a[0]];
      assert p + (a[0] + b[0]) == (p + a[0]) + b[0];
    } else {
      var n := |a| - 1;
      var middle := a[1..n];
      var tail := [a[n] + b[0]] + b[1..];
      assert a[..n] == [a[0]] + middle;
      assert Glue(a, b) == [a[0]] + (middle + tail);
      assert Prepend(p, a)[..n] == [p + a[0]] + middle;
      assert Prepend(p, a)[n] == a[n];
      assert Glue(Prepend(p, a), b) == [p + a[0]] + middle + tail;
    }
  }

  lemma GlueSeparator(a: seq<string>, b: seq<string>)
    requires |a| >= 1 && |b| >= 1
    ensures [""] + Glue(a, b) == Glue([""] + a, b)
  {
    assert ([""] + a)[..|a|] == [""] + a[..|a| - 1];
  }

  /** Reading `s + t` is reading `s`, then reading `t` from the quote state `s` ends in;
      the field open at the end of `s` continues with the first field of `t`. */
  lemma {:induction false} PiecesConcat(s: string, t: string, q: bool)
    ensures Pieces(s + t, q) == Glue(Pieces(s, q), Pieces(t, InsideAfter(s, q)))
  {
    if s == [] {
      assert s + t == t;
      GlueOnEmptyFirst(Pieces(t, q));
    } else {
      var q' := if s[0] == '"' then !q else q;
      PiecesConcat(s[1..], t, q');
      ConcatStep(s, t, q);
    }
  }

  /** The inductive step of PiecesConcat: from the claim for `s[1..]` to the claim for `s`. */
  lemma ConcatStep(s: string, t: string, q: bool)
    requires s != []
    requires var q' := if s[0] == '"' then !q else q;
             Pieces(s[1..] + t, q') == Glue(Pieces(s[1..], q'), Pieces(t, InsideAfter(s[1..], q')))
    ensures Pieces(s + t, q) == Glue(Pieces(s, q), Pieces(t, InsideAfter(s, q)))
  {
    var c := s[0];
    var q' := if c == '"' then !q else q;
    assert (s + t)[0] == c && (s + t)[1..] == s[1..] + t;
    InsideStep(s, q);
    PiecesHead(s + t, q);
    PiecesHead(s, q);
    if c == ',' && !q {
      GlueSeparator(Pieces(s[1..], q), Pieces(t, InsideAfter(s, q)));
    } else if c != '"' {
      GluePrepend([c], Pieces(s[1..], q), Pieces(t, InsideAfter(s, q)));
    }
  }

  lemma InsideStep(s: string, q: bool)
    requires s != []
    ensures InsideAfter(s, q) == InsideAfter(s[1..], if s[0] == '"' then !q else q)
  {
  }

  lemma PiecesHead(s: string, q: bool)
    requires s != []
    ensures Pieces(s, q) ==
            if s[0] == '"' then Pieces(s[1..], !q)
            else if s[0] == ',' && !q then [""] + Pieces(s[1..], q)
            else Prepend([s[0]], Pieces(s[1..], q))
  {
  }

  /** After an unmatched quote the rest of the line is one field: with an odd number of
      quotes in `s` and none in `t`, the commas of `t` add no field and all of `t` ends up
      in the last one. */
  lemma UnclosedQuoteAbsorbsRest(s: string, t: string)
    requires Count(s, '"') % 2 == 1
    requires '"' !in t
    ensures var before := Pieces(s, false);
            |Fields(s + t)| == |Fields(s)| &&
            Fields(s + t)[..|before| - 1] == Fields(s)[..|before| - 1] &&
            Fields(s + t)[|before| - 1] == Trim(before[|before| - 1] + t)
  {
    PiecesConcat(s, t, false);
    QuotedRunIsOnePiece(t);
  }
}

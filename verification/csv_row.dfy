/**
 * The quote-aware comma splitter `parseCSVRow` of the server
 * (server/controllers/shlokController.js) and its character-for-character
 * copy `parseCSV` inside the client fallback (src/components/shlok/DailyShlok.js).
 *
 * The scan is specified as a left fold of `Step` over the characters; the
 * method `ParseCSVRow` is the source's loop, proved to compute that fold.
 */
module CsvRow {
  import opened Text

  /** The loop state: fields pushed so far, the field being built, and the quote mode. */
  datatype Scan = Scan(fields: seq<string>, current: string, inQuotes: bool)

  const Start := Scan([], "", false)

  /** One iteration of the loop body. */
  function Step(st: Scan, c: char): Scan
  {
    if c == '"' then st.(inQuotes := !st.inQuotes)
    else if c == ',' && !st.inQuotes then Scan(st.fields + [Trim(st.current)], "", st.inQuotes)
    else st.(current := st.current + [c])
  }

  /** The state after scanning all of `s` from `st`. */
  function Run(st: Scan, s: string): Scan
    decreases |s|
  {
    if s == [] then st else Run(Step(st, s[0]), s[1..])
  }

  /** After the loop: the last field is pushed, trimmed, only when its raw text is non-empty. */
  function Finish(st: Scan): seq<string>
  {
    if st.current != [] then st.fields + [Trim(st.current)] else st.fields
  }

  /** The fields of one CSV line. */
  function ParseRow(row: string): seq<string>
  {
    Finish(Run(Start, row))
  }

  lemma {:induction false} RunAppend(st: Scan, a: string, b: string)
    ensures Run(st, a + b) == Run(Run(st, a), b)
    decreases |a|
  {
    if a == [] {
      assert a + b == b;
    } else {
      assert (a + b)[0] == a[0] && (a + b)[1..] == a[1..] + b;
      RunAppend(Step(st, a[0]), a[1..], b);
    }
  }

  lemma {:induction false} RunSnoc(st: Scan, s: string, c: char)
    ensures Run(st, s + [c]) == Step(Run(st, s), c)
  {
    RunAppend(st, s, [c]);
  }

  /** The source's loop: flip the quote mode, cut at unquoted commas, copy everything else. */
  method ParseCSVRow(row: string) returns (result: seq<string>)
    ensures result == ParseRow(row)
  {
    result := [];
    var insideQuotes := false;
    var currentValue := "";
    var i := 0;
    while i < |row|
      invariant 0 <= i <= |row|
      invariant Scan(result, currentValue, insideQuotes) == Run(Start, row[..i])
    {
      var ch := row[i];
      RunSnoc(Start, row[..i], ch);
      assert row[..i + 1] == row[..i] + [ch];
      if ch == '"' {
        insideQuotes := !insideQuotes;
      } else if ch == ',' && !insideQuotes {
        result := result + [Trim(currentValue)];
        currentValue := "";
      } else {
        currentValue := currentValue + [ch];
      }
      i := i + 1;
    }
    assert row[..i] == row;
    if currentValue != "" {
      result := result + [Trim(currentValue)];
    }
  }

  // ---------------------------------------------------------------------
  // What every parse guarantees
  // ---------------------------------------------------------------------

  predicate QuoteFree(s: string)
  {
    '"' !in s
  }

  /** Every field is quote-free and has no white space at either end. */
  predicate CleanFields(fields: seq<string>)
  {
    forall k :: 0 <= k < |fields| ==> QuoteFree(fields[k]) && NoSpaceAtEdges(fields[k])
  }

  lemma {:induction false} TrimKeepsQuoteFree(s: string)
    requires QuoteFree(s)
    ensures QuoteFree(Trim(s))
  {
    TrimKeepsAbsent(s, '"');
  }

  lemma {:induction false} RunKeepsClean(st: Scan, s: string)
    requires CleanFields(st.fields) && QuoteFree(st.current)
    ensures CleanFields(Run(st, s).fields) && QuoteFree(Run(st, s).current)
    decreases |s|
  {
    if s != [] {
      if s[0] == ',' && !st.inQuotes {
        TrimKeepsQuoteFree(st.current);
        TrimEdges(st.current);
      }
      RunKeepsClean(Step(st, s[0]), s[1..]);
    }
  }

  /** A quote only switches the mode and never reaches a field; every field is trimmed. */
  lemma {:induction false} ParseRowClean(row: string)
    ensures CleanFields(ParseRow(row))
  {
    RunKeepsClean(Start, row);
    var st := Run(Start, row);
    if st.current != [] {
      TrimKeepsQuoteFree(st.current);
      TrimEdges(st.current);
    }
  }

  /** A trailing comma after a non-empty last field adds no field. */
  lemma TrailingComma(row: string)
    requires !Run(Start, row).inQuotes && Run(Start, row).current != []
    ensures ParseRow(row + [',']) == ParseRow(row)
  {
    RunSnoc(Start, row, ',');
  }

  /** After an empty last field a further comma does push that empty field (trimmed to ""). */
  lemma TrailingCommaAfterEmpty(row: string)
    requires !Run(Start, row).inQuotes && Run(Start, row).current == [] && Run(Start, row).fields != []
    ensures ParseRow(row + [',']) == ParseRow(row) + [""]
  {
    RunSnoc(Start, row, ',');
  }

  // ---------------------------------------------------------------------
  // Round trip: a line of quoted fields parses back to those fields
  // ---------------------------------------------------------------------

  function Quote(f: string): string
  {
    "\"" + f + "\""
  }

  /** The line `"f0","f1",…` for the given fields. */
  function QuotedLine(fs: seq<string>): string
  {
    if fs == [] then ""
    else if |fs| == 1 then Quote(fs[0])
    else Quote(fs[0]) + "," + QuotedLine(fs[1..])
  }

  lemma {:induction false} RunInsideQuotes(fields: seq<string>, cur: string, f: string)
    requires QuoteFree(f)
    ensures Run(Scan(fields, cur, true), f) == Scan(fields, cur + f, true)
    decreases |f|
  {
    if f == [] {
      assert cur + f == cur;
    } else {
      RunInsideQuotes(fields, cur + [f[0]], f[1..]);
      assert cur + [f[0]] + f[1..] == cur + f;
    }
  }

  lemma {:induction false} RunQuoted(fields: seq<string>, cur: string, f: string)
    requires QuoteFree(f)
    ensures Run(Scan(fields, cur, false), Quote(f)) == Scan(fields, cur + f, false)
  {
    RunAppend(Scan(fields, cur, false), "\"", f + "\"");
    RunAppend(Scan(fields, cur, true), f, "\"");
    assert Quote(f) == "\"" + (f + "\"");
    RunInsideQuotes(fields, cur, f);
  }

  lemma {:induction false} QuotedLineCons(fs: seq<string>)
    requires |fs| >= 2
    ensures QuotedLine(fs) == Quote(fs[0]) + ("," + QuotedLine(fs[1..]))
  {
  }

  lemma {:induction false} RunComma(acc: seq<string>, f: string)
    ensures Run(Scan(acc, f, false), ",") == Scan(acc + [Trim(f)], "", false)
  {
    assert ","[0] == ',' && ","[1..] == [];
  }

  lemma {:induction false} CleanTail(fs: seq<string>)
    requires fs != [] && CleanFields(fs)
    ensures CleanFields(fs[1..]) && QuoteFree(fs[0]) && NoSpaceAtEdges(fs[0])
  {
    var rest := fs[1..];
    forall k | 0 <= k < |rest| ensures QuoteFree(rest[k]) && NoSpaceAtEdges(rest[k]) {
      assert rest[k] == fs[k + 1];
    }
  }

  lemma {:induction false} RunQuotedLine(acc: seq<string>, fs: seq<string>)
    requires fs != []
    requires CleanFields(fs)
    ensures Run(Scan(acc, "", false), QuotedLine(fs)) == Scan(acc + fs[..|fs| - 1], fs[|fs| - 1], false)
    decreases |fs|
  {
    var st0 := Scan(acc, "", false);
    var st1 := Scan(acc, fs[0], false);
    CleanTail(fs);
    RunQuoted(acc, "", fs[0]);
    assert "" + fs[0] == fs[0];
    if |fs| == 1 {
      assert fs[..0] == [];
    } else {
      var rest := fs[1..];
      var tail := QuotedLine(rest);
      var st2 := Scan(acc + [fs[0]], "", false);
      calc {
        Run(st0, QuotedLine(fs));
        { QuotedLineCons(fs); }
        Run(st0, Quote(fs[0]) + ("," + tail));
        { RunAppend(st0, Quote(fs[0]), "," + tail); }
        Run(Run(st0, Quote(fs[0])), "," + tail);
        Run(st1, "," + tail);
        { RunAppend(st1, ",", tail); }
        Run(Run(st1, ","), tail);
        { RunComma(acc, fs[0]); TrimOfEdgeless(fs[0]); }
        Run(st2, tail);
        { RunQuotedLine(acc + [fs[0]], rest); }
        Scan(acc + [fs[0]] + rest[..|rest| - 1], rest[|rest| - 1], false);
        { assert acc + [fs[0]] + rest[..|rest| - 1] == acc + fs[..|fs| - 1]; }
        Scan(acc + fs[..|fs| - 1], fs[|fs| - 1], false);
      }
    }
  }

  lemma {:induction false} FinishClosed(line: string, fs: seq<string>)
    requires fs != [] && fs[|fs| - 1] != "" && NoSpaceAtEdges(fs[|fs| - 1])
    requires Run(Start, line) == Scan(fs[..|fs| - 1], fs[|fs| - 1], false)
    ensures ParseRow(line) == fs
  {
    var st := Run(Start, line);
    var last := fs[|fs| - 1];
    assert ParseRow(line) == Finish(st);
    assert st.current == last;
    TrimOfEdgeless(last);
    assert Finish(st) == st.fields + [last];
    assert fs[..|fs| - 1] + [last] == fs;
  }

  /**
   * Fields that are quote-free and trimmed, the last one non-empty, survive
   * being written as a quoted line and parsed back, commas inside them included.
   */
  lemma {:induction false} QuotedLineRoundTrip(fs: seq<string>)
    requires CleanFields(fs)
    requires fs != [] ==> fs[|fs| - 1] != ""
    ensures ParseRow(QuotedLine(fs)) == fs
  {
    if fs != [] {
      RunQuotedLine([], fs);
      assert [] + fs[..|fs| - 1] == fs[..|fs| - 1];
      FinishClosed(QuotedLine(fs), fs);
    }
  }
}

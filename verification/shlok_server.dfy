/**
 * The server's verse corpus and its selectors (server/controllers/shlokController.js):
 * loading the CSV text into an ordered list of records (`readShloksFromCSV`),
 * the deterministic daily index (`getDailyShlok`), the random pick
 * (`getRandomShlok`) and the lookup by chapter and verse (`getShlokByChapterVerse`).
 *
 * The file system becomes two optional contents (primary and fallback path),
 * the clock becomes the calendar components, `Math.random()` a fraction num/den.
 */
module ShlokServer {
  import opened Wrappers
  import opened Text
  import opened CsvRow
  import opened Lists

  /** One verse record, every field kept as text. */
  datatype Shlok = Shlok(
    chapter: string,
    verse: string,
    sanskrit: string,
    transliteration: string,
    englishMeaning: string,
    application: string)

  // ---------------------------------------------------------------------
  // Loading
  // ---------------------------------------------------------------------

  /** `.replace(/^"|"$/g, "")`: drop one leading and one trailing quote. */
  function StripOuterQuotes(s: string): string
  {
    var a := if |s| > 0 && s[0] == '"' then s[1..] else s;
    if |a| > 0 && a[|a| - 1] == '"' then a[..|a| - 1] else a
  }

  /** Fields coming out of the row parser never hold a quote, so the strip changes nothing. */
  lemma StripOuterQuotesOfQuoteFree(s: string)
    requires QuoteFree(s)
    ensures StripOuterQuotes(s) == s
  {
    if |s| > 0 { assert s[0] in s; assert s[|s| - 1] in s; }
  }

  function Clean(field: string): string
  {
    StripOuterQuotes(Trim(field))
  }

  /** The record built from the columns of one line, when there are at least five. */
  function RecordOf(cols: seq<string>): Option<Shlok>
  {
    if |cols| >= 5 then
      Some(Shlok(Trim(cols[0]), Trim(cols[1]), Clean(cols[2]), Clean(cols[3]), Clean(cols[4]),
                 if |cols| > 5 then Clean(cols[5]) else ""))
    else None
  }

  /** The record of one data line: present when the line has at least five columns. */
  function RowRecord(row: string): (r: Option<Shlok>)
    ensures r.Some? <==> |ParseRow(row)| >= 5
  {
    RecordOf(ParseRow(row))
  }

  /** `csvData.split("\n").filter((row) => row.trim().length > 0)`. */
  function NonBlank(lines: seq<string>): (rows: seq<string>)
    ensures |rows| <= |lines|
  {
    if lines == [] then []
    else (if |Trim(lines[0])| > 0 then [lines[0]] else []) + NonBlank(lines[1..])
  }

  function Rows(text: string): seq<string>
  {
    NonBlank(Split(text, '\n'))
  }

  /** A comment line or the header line. */
  predicate IsPreamble(row: string)
  {
    StartsWith(row, "//") || Contains(row, "chapter,verse")
  }

  /** The length of the leading run of preamble rows. */
  function PreambleLength(rows: seq<string>): (n: nat)
    ensures n <= |rows|
    ensures forall k :: 0 <= k < n ==> IsPreamble(rows[k])
    ensures n < |rows| ==> !IsPreamble(rows[n])
  {
    if rows == [] || !IsPreamble(rows[0]) then 0
    else 1 + PreambleLength(rows[1..])
  }

  /** The records of the rows with at least five columns, in row order. */
  function RecordsOf(rows: seq<string>): seq<Shlok>
  {
    FilterMap(RowRecord, rows)
  }

  /** The corpus a CSV text yields: records of the rows after the leading preamble. */
  function CorpusOf(text: string): seq<Shlok>
  {
    var rows := Rows(text);
    var start := PreambleLength(rows);
    if start >= |rows| then [] else RecordsOf(rows[start..])
  }

  /** The primary file wins, then the fallback file; with neither the corpus is empty. */
  function LoadCorpus(primary: Option<string>, fallback: Option<string>): seq<Shlok>
  {
    if primary.Some? then CorpusOf(primary.value)
    else if fallback.Some? then CorpusOf(fallback.value)
    else []
  }

  /** `readShloksFromCSV`: the file choice, the preamble-skipping loop and the parse loop. */
  method ReadShloksFromCSV(primary: Option<string>, fallback: Option<string>) returns (shloks: seq<Shlok>)
    ensures shloks == LoadCorpus(primary, fallback)
    ensures primary.None? && fallback.None? ==> shloks == []
    ensures forall k :: 0 <= k < |shloks| ==> CleanRecord(shloks[k])
  {
    var csvData: string;
    if primary.Some? {
      csvData := primary.value;
    } else if fallback.Some? {
      csvData := fallback.value;
    } else {
      return [];
    }
    var rows := Rows(csvData);
    var startRow := 0;
    while startRow < |rows| && IsPreamble(rows[startRow])
      invariant startRow <= PreambleLength(rows)
    {
      PreambleContinues(rows, startRow);
      startRow := startRow + 1;
    }
    if startRow >= |rows| {
      CorpusClean(csvData);
      return [];
    }
    shloks := ParseDataRows(rows, startRow);
    CorpusClean(csvData);
  }

  /** The parse loop of `readShloksFromCSV`: every row from `startRow` on with five or more columns yields a record. */
  method ParseDataRows(rows: seq<string>, startRow: nat) returns (shloks: seq<Shlok>)
    requires startRow <= |rows|
    ensures shloks == RecordsOf(rows[startRow..])
  {
    shloks := [];
    var i := startRow;
    while i < |rows|
      invariant startRow <= i <= |rows|
      invariant shloks == RecordsOf(rows[startRow..i])
    {
      var columns := ParseCSVRow(rows[i]);
      FilterMapSnoc(RowRecord, rows[startRow..i], rows[i]);
      assert rows[startRow..i + 1] == rows[startRow..i] + [rows[i]];
      if |columns| >= 5 {
        shloks := shloks + [RecordOf(columns).value];
      }
      i := i + 1;
    }
    assert rows[startRow..i] == rows[startRow..];
  }

  /** Below the end of the preamble run, a preamble row means the run goes on. */
  lemma PreambleContinues(rows: seq<string>, j: nat)
    requires j <= PreambleLength(rows) && j < |rows| && IsPreamble(rows[j])
    ensures j < PreambleLength(rows)
  {
  }

  // ---------------------------------------------------------------------
  // What loading guarantees
  // ---------------------------------------------------------------------

  /** Every field of a loaded record is trimmed and quote-free. */
  predicate CleanRecord(s: Shlok)
  {
    CleanFields([s.chapter, s.verse, s.sanskrit, s.transliteration, s.englishMeaning, s.application])
  }

  /** The record of a line is its first six columns as parsed; `application` defaults to "". */
  lemma {:induction false} RowRecordColumns(row: string)
    requires |ParseRow(row)| >= 5
    ensures var cols := ParseRow(row);
            RowRecord(row) == Some(Shlok(cols[0], cols[1], cols[2], cols[3], cols[4], if |cols| > 5 then cols[5] else ""))
  {
    var cols := ParseRow(row);
    ParseRowClean(row);
    CleanField(cols[0]);
    CleanField(cols[1]);
    CleanField(cols[2]);
    CleanField(cols[3]);
    CleanField(cols[4]);
    if |cols| > 5 { CleanField(cols[5]); }
  }

  /** Every field of a loaded record is trimmed and quote-free. */
  lemma {:induction false} RowRecordClean(row: string)
    requires |ParseRow(row)| >= 5
    ensures CleanRecord(RowRecord(row).value)
  {
    var cols := ParseRow(row);
    RowRecordColumns(row);
    ParseRowClean(row);
    var s := RowRecord(row).value;
    var fs := [s.chapter, s.verse, s.sanskrit, s.transliteration, s.englishMeaning, s.application];
    forall k | 0 <= k < 6 ensures QuoteFree(fs[k]) && NoSpaceAtEdges(fs[k]) {
      if k < 5 || |cols| > 5 { assert fs[k] == cols[k]; }
    }
  }

  /** A parsed field is left as it is by the loader's second trim and quote strip. */
  lemma CleanField(field: string)
    requires QuoteFree(field) && NoSpaceAtEdges(field)
    ensures Trim(field) == field && Clean(field) == field
  {
    TrimOfEdgeless(field);
    StripOuterQuotesOfQuoteFree(field);
  }

  lemma RecordsOfClean(rows: seq<string>)
    ensures forall k :: 0 <= k < |RecordsOf(rows)| ==> CleanRecord(RecordsOf(rows)[k])
  {
    forall k | 0 <= k < |RecordsOf(rows)| ensures CleanRecord(RecordsOf(rows)[k]) {
      FilterMapFrom(RowRecord, rows, RecordsOf(rows)[k]);
      var row :| row in rows && RowRecord(row) == Some(RecordsOf(rows)[k]);
      RowRecordClean(row);
    }
  }

  lemma CorpusClean(text: string)
    ensures forall k :: 0 <= k < |CorpusOf(text)| ==> CleanRecord(CorpusOf(text)[k])
  {
    var rows := Rows(text);
    var start := PreambleLength(rows);
    if start < |rows| { RecordsOfClean(rows[start..]); }
  }

  lemma {:induction false} NonBlankOfNonBlank(lines: seq<string>)
    requires forall k :: 0 <= k < |lines| ==> |Trim(lines[k])| > 0
    ensures NonBlank(lines) == lines
  {
    if lines != [] {
      NonBlankOfNonBlank(lines[1..]);
    }
  }

  /** A blank last line adds no row. */
  lemma {:induction false} NonBlankSnocBlank(lines: seq<string>, blank: string)
    requires |Trim(blank)| == 0
    ensures NonBlank(lines + [blank]) == NonBlank(lines)
  {
    var ls := lines + [blank];
    if lines == [] {
      assert ls[1..] == [];
    } else {
      assert ls[1..] == lines[1..] + [blank];
      NonBlankSnocBlank(lines[1..], blank);
    }
  }

  /** The end of a file: a final newline, or none. */
  function Ending(finalNewline: bool): string
  {
    if finalNewline then "\n" else ""
  }

  /** The rows of single lines joined by newlines, with or without a final newline, are the non-blank lines. */
  lemma RowsOfLines(lines: seq<string>, finalNewline: bool)
    requires lines != []
    requires forall k :: 0 <= k < |lines| ==> '\n' !in lines[k]
    ensures Rows(Join(lines, '\n') + Ending(finalNewline)) == NonBlank(lines)
  {
    if finalNewline {
      JoinSnocEmpty(lines, '\n');
      SplitJoin(lines + [""], '\n');
      NonBlankSnocBlank(lines, "");
    } else {
      assert Join(lines, '\n') + Ending(finalNewline) == Join(lines, '\n');
      SplitJoin(lines, '\n');
    }
  }

  lemma {:induction false} PreambleLengthOf(pre: seq<string>, data: seq<string>)
    requires forall k :: 0 <= k < |pre| ==> IsPreamble(pre[k])
    requires data != [] && !IsPreamble(data[0])
    ensures PreambleLength(pre + data) == |pre|
    decreases |pre|
  {
    if pre == [] {
      assert pre + data == data;
    } else {
      assert (pre + data)[1..] == pre[1..] + data;
      PreambleLengthOf(pre[1..], data);
    }
  }

  /**
   * A file of preamble lines (comments, the header) followed by data lines,
   * with or without a final newline, yields exactly the records of its data
   * lines; when every data line has five columns there is one record per
   * data line.
   */
  lemma CorpusOfLayout(pre: seq<string>, data: seq<string>, finalNewline: bool)
    requires data != [] && !IsPreamble(data[0])
    requires forall k :: 0 <= k < |pre| ==> IsPreamble(pre[k])
    requires forall k :: 0 <= k < |pre + data| ==> '\n' !in (pre + data)[k] && |Trim((pre + data)[k])| > 0
    ensures CorpusOf(Join(pre + data, '\n') + Ending(finalNewline)) == RecordsOf(data)
    ensures (forall k :: 0 <= k < |data| ==> |ParseRow(data[k])| >= 5)
            ==> |CorpusOf(Join(pre + data, '\n') + Ending(finalNewline))| == |data|
  {
    var lines := pre + data;
    RowsOfLines(lines, finalNewline);
    NonBlankOfNonBlank(lines);
    PreambleLengthOf(pre, data);
    assert lines[|pre|..] == data;
    if forall k :: 0 <= k < |data| ==> |ParseRow(data[k])| >= 5 {
      FilterMapAll(RowRecord, data);
    }
  }

  // ---------------------------------------------------------------------
  // Selecting
  // ---------------------------------------------------------------------

  /** `${getFullYear()}-${getMonth() + 1}-${getDate()}`, no zero padding. */
  function DateString(year: nat, monthIndex: nat, day: nat): string
  {
    NatToString(year) + "-" + NatToString(monthIndex + 1) + "-" + NatToString(day)
  }

  /** JavaScript's `%`: the remainder takes the sign of the dividend. */
  function JsRemainder(a: int, n: int): (r: int)
    requires n > 0
    ensures -n < r < n
    ensures a >= 0 ==> 0 <= r
  {
    if a >= 0 then a % n else -((-a) % n)
  }

  function Abs(x: int): nat
  {
    if x < 0 then -x else x
  }

  /** `Math.abs(dateHash % n)`: always a valid index. */
  function DailyIndex(hash: int, n: nat): (i: nat)
    requires n > 0
    ensures i < n
  {
    Abs(JsRemainder(hash, n))
  }

  /** For the non-negative date hash the index is the ordinary remainder. */
  lemma DailyIndexOfNatural(hash: nat, n: nat)
    requires n > 0
    ensures DailyIndex(hash, n) == hash % n
  {
  }

  /** The index of today's verse among n records, from the calendar date alone. */
  function DailyIndexForDate(year: nat, monthIndex: nat, day: nat, n: nat): (i: nat)
    requires n > 0
    ensures i < n
  {
    DailyIndex(CharCodeSum(DateString(year, monthIndex, day)), n)
  }

  /** `getDailyShlok` on a loaded corpus. */
  function GetDailyShlok(corpus: seq<Shlok>, year: nat, monthIndex: nat, day: nat): (r: Option<Shlok>)
    ensures r.None? <==> corpus == []
    ensures r.Some? ==> r.value in corpus
  {
    if |corpus| == 0 then None
    else Some(corpus[DailyIndexForDate(year, monthIndex, day, |corpus|)])
  }

  /** The verse depends on the corpus only through its size and the record at the chosen position. */
  lemma {:induction false} DailyDependsOnSizeOnly(c1: seq<Shlok>, c2: seq<Shlok>, year: nat, monthIndex: nat, day: nat)
    requires |c1| == |c2| > 0
    ensures exists i :: 0 <= i < |c1| && GetDailyShlok(c1, year, monthIndex, day) == Some(c1[i])
                                      && GetDailyShlok(c2, year, monthIndex, day) == Some(c2[i])
  {
    var i := DailyIndexForDate(year, monthIndex, day, |c1|);
    assert GetDailyShlok(c1, year, monthIndex, day) == Some(c1[i]);
  }

  /** 15 January 2024 renders as "2024-1-15". */
  lemma DateStringExample()
    ensures DateString(2024, 0, 15) == "2024-1-15"
  {
    assert NatToString(2024) == NatToString(202) + "4";
    assert NatToString(202) == NatToString(20) + "2";
    assert NatToString(20) == NatToString(2) + "0";
    assert NatToString(15) == NatToString(1) + "5";
  }

  /** The character codes of "2024-1-15" sum to 441, so with 700 records that day shows record 441. */
  lemma DailyIndexExample()
    ensures DailyIndexForDate(2024, 0, 15, 700) == 441
  {
    DateStringExample();
    var d := "2024-1-15";
    assert CharCodeSum(d[..1]) == 50 by { assert d[..1][..0] == []; }
    assert CharCodeSum(d[..2]) == 98 by { assert d[..2][..1] == d[..1]; }
    assert CharCodeSum(d[..3]) == 148 by { assert d[..3][..2] == d[..2]; }
    assert CharCodeSum(d[..4]) == 200 by { assert d[..4][..3] == d[..3]; }
    assert CharCodeSum(d[..5]) == 245 by { assert d[..5][..4] == d[..4]; }
    assert CharCodeSum(d[..6]) == 294 by { assert d[..6][..5] == d[..5]; }
    assert CharCodeSum(d[..7]) == 339 by { assert d[..7][..6] == d[..6]; }
    assert CharCodeSum(d[..8]) == 388 by { assert d[..8][..7] == d[..7]; }
    assert CharCodeSum(d) == 441 by { assert d[..8] == d[..|d| - 1]; }
  }

  /** `getRandomShlok` with `Math.random()` given as num/den in [0, 1). */
  function GetRandomShlok(corpus: seq<Shlok>, num: nat, den: nat): (r: Option<Shlok>)
    requires num < den
    ensures r.None? <==> corpus == []
    ensures r.Some? ==> r.value in corpus
  {
    if |corpus| == 0 then None
    else
      var i := RandomIndex(num, den, |corpus|);
      Some(corpus[i])
  }

  /** `Math.floor(Math.random() * n)` stays below n. */
  function RandomIndex(num: nat, den: nat, n: nat): (i: nat)
    requires num < den && n > 0
    ensures i < n
  {
    MulStrict(num, den, n);
    DivBelow(num * n, den, n);
    num * n / den
  }

  lemma {:induction false} MulStrict(a: nat, b: nat, n: nat)
    requires a < b && n > 0
    ensures a * n < b * n
    decreases n
  {
    if n > 1 {
      MulStrict(a, b, n - 1);
      assert a * n == a * (n - 1) + a;
      assert b * n == b * (n - 1) + b;
    }
  }

  lemma {:induction false} DivBelow(x: nat, d: nat, n: nat)
    requires d > 0 && x < d * n
    ensures x / d < n
  {
    var q := x / d;
    assert d * q <= x;
    if q > n {
      MulStrict(n, q, d);
    }
  }

  // ---------------------------------------------------------------------
  // Lookup by chapter and verse
  // ---------------------------------------------------------------------

  predicate Matches(s: Shlok, chapter: string, verse: string)
  {
    Trim(s.chapter) == Trim(chapter) && Trim(s.verse) == Trim(verse)
  }

  /** The position of the first matching record, if any (`Array.prototype.find`). */
  function FindFirst(corpus: seq<Shlok>, chapter: string, verse: string): (r: Option<nat>)
    ensures r.Some? ==> r.value < |corpus| && Matches(corpus[r.value], chapter, verse)
    ensures r.Some? ==> forall j :: 0 <= j < r.value ==> !Matches(corpus[j], chapter, verse)
    ensures r.None? ==> forall j :: 0 <= j < |corpus| ==> !Matches(corpus[j], chapter, verse)
  {
    if corpus == [] then None
    else if Matches(corpus[0], chapter, verse) then Some(0)
    else
      match FindFirst(corpus[1..], chapter, verse)
      case None => None
      case Some(i) => Some(i + 1)
  }

  /** `getShlokByChapterVerse`: the first record in corpus order whose trimmed chapter and verse match. */
  function GetShlokByChapterVerse(corpus: seq<Shlok>, chapter: string, verse: string): (r: Option<Shlok>)
    ensures r.None? <==> forall j :: 0 <= j < |corpus| ==> !Matches(corpus[j], chapter, verse)
    ensures r.Some? ==> exists i :: 0 <= i < |corpus| && corpus[i] == r.value && Matches(r.value, chapter, verse)
                                    && forall j :: 0 <= j < i ==> !Matches(corpus[j], chapter, verse)
  {
    match FindFirst(corpus, chapter, verse)
    case None => None
    case Some(i) => Some(corpus[i])
  }
}

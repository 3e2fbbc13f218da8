/**
 * The browser's fallback for today's verse (src/components/shlok/DailyShlok.js):
 * when the API call fails, the page fetches the CSV itself, drops one leading
 * comment line, takes the first non-blank row as the header and picks a raw
 * data row with the server's date index.  Also the "is this verse
 * bookmarked" test and the removal of that verse's bookmarks.
 *
 * The fetches become the CSV text given as a parameter; the date becomes its
 * calendar components.  The row parser is the server's (`CsvRow`), of which
 * the page's `parseCSV` is a character-for-character copy.
 */
module ClientFallback {
  import opened Wrappers
  import opened Text
  import opened CsvRow
  import opened Lists
  import opened ShlokServer
  import opened Bookmarks

  /** The three errors the fallback throws itself. */
  datatype FallbackError = TooShort | NotEnoughRows | MissingRequiredFields

  /** A verse as the page holds it: an object keyed by the CSV header names. */
  type ShlokFields = map<string, string>

  const StandardHeaders: seq<string> :=
    ["chapter", "verse", "sanskrit", "transliteration", "english_meaning", "application"]

  /** The header line of the bundled corpus. */
  const HeaderLine: string := Join(StandardHeaders, ',')

  /** A server record under the page's key names. */
  function AsFields(s: Shlok): ShlokFields
  {
    map["chapter" := s.chapter, "verse" := s.verse, "sanskrit" := s.sanskrit,
        "transliteration" := s.transliteration, "english_meaning" := s.englishMeaning,
        "application" := s.application]
  }

  /** The verse shown before loading finishes and whenever loading fails (chapter 2, verse 47). */
  const DefaultShlok: Shlok := Shlok(
    "2", "47",
    "कर्मण्येवाधिकारस्ते मा फलेषु कदाचन | मा कर्मफलहेतुर्भूर्मा ते सङ्गोऽस्त्वकर्मणि ||२-४७||",
    "karmaṇy-evādhikāras te mā phaleṣhu kadāchana mā karma-phala-hetur bhūr mā te saṅgo 'stv akarmaṇi",
    "You have a right to perform your prescribed duties, but you are not entitled to the fruits of your actions. Never consider yourself to be the cause of the results of your activities, and never be attached to inaction.",
    "Focus on doing your best work without being attached to results. This approach reduces anxiety and promotes excellence through detachment.")

  // ---------------------------------------------------------------------
  // Preparing the rows
  // ---------------------------------------------------------------------

  /** Text starting with `//` loses everything up to and including its first newline, if it has one. */
  function StripLeadingComment(text: string): (clean: string)
    ensures |clean| <= |text| && clean == text[|text| - |clean|..]
  {
    if StartsWith(text, "//") && '\n' in text then text[IndexOf(text, '\n') + 1..] else text
  }

  /** Exactly one comment line is removed: the text after it is kept whole, further comment lines included. */
  lemma StripCommentLine(comment: string, rest: string)
    requires StartsWith(comment, "//") && '\n' !in comment
    ensures StripLeadingComment(comment + "\n" + rest) == rest
  {
    var text := comment + "\n" + rest;
    assert text[..|comment|] == comment;
    assert text[..2] == comment[..2];
    assert text[|comment|] == '\n';
    var i := IndexOf(text, '\n');
    assert i == |comment|;
    assert text[|comment| + 1..] == rest;
  }

  /** Text not starting with `//` is left as it is. */
  lemma StripNoComment(text: string)
    requires !StartsWith(text, "//")
    ensures StripLeadingComment(text) == text
  {
  }

  function TrimAll(pieces: seq<string>): (r: seq<string>)
    ensures |r| == |pieces|
    ensures forall k :: 0 <= k < |r| ==> r[k] == Trim(pieces[k])
  {
    if pieces == [] then [] else [Trim(pieces[0])] + TrimAll(pieces[1..])
  }

  /** `rows[0].split(",").map((h) => h.trim())`: every comma cuts, quotes or not. */
  function HeaderNames(row: string): seq<string>
  {
    TrimAll(Split(row, ','))
  }

  /** The bundled header line names the six standard fields, in order. */
  lemma HeaderLineNames()
    ensures HeaderNames(HeaderLine) == StandardHeaders
  {
    var h := StandardHeaders;
    StandardNamesPlain();
    SplitJoin(h, ',');
    assert Split(HeaderLine, ',') == h;
  }

  /** A field name: lower-case letters and `_`. */
  predicate IsFieldName(s: string)
  {
    s != [] && forall j :: 0 <= j < |s| ==> 'a' <= s[j] <= 'z' || s[j] == '_'
  }

  lemma FieldNamePlain(s: string)
    requires IsFieldName(s)
    ensures ',' !in s && '\n' !in s && Trim(s) == s
  {
    assert NoSpaceAtEdges(s);
    TrimOfEdgeless(s);
  }

  lemma StandardFieldNames()
    ensures forall k :: 0 <= k < |StandardHeaders| ==> IsFieldName(StandardHeaders[k])
  {
    var h := StandardHeaders;
    assert IsFieldName(h[0]);
    assert IsFieldName(h[1]);
    assert IsFieldName(h[2]);
    assert IsFieldName(h[3]);
    assert IsFieldName(h[4]);
    assert IsFieldName(h[5]);
  }

  /** The standard names hold no comma, no line break and no white space at their edges. */
  lemma StandardNamesPlain()
    ensures forall k :: 0 <= k < |StandardHeaders| ==>
              ',' !in StandardHeaders[k] && '\n' !in StandardHeaders[k] && Trim(StandardHeaders[k]) == StandardHeaders[k]
  {
    StandardFieldNames();
    forall k | 0 <= k < |StandardHeaders|
      ensures ',' !in StandardHeaders[k] && '\n' !in StandardHeaders[k] && Trim(StandardHeaders[k]) == StandardHeaders[k]
    {
      FieldNamePlain(StandardHeaders[k]);
    }
  }

  /** What the row preparation needs of a header line: a preamble row for the server, not a comment, one non-blank line of ten or more characters. */
  predicate PlainHeader(header: string)
  {
    IsPreamble(header) && !StartsWith(header, "//") && '\n' !in header && |Trim(header)| > 0 && |header| >= 10
  }

  lemma HeaderLineHead()
    ensures |HeaderLine| >= 13 && HeaderLine[..13] == "chapter,verse"
  {
    var h := StandardHeaders;
    var rest := Join(h[2..], ',');
    assert h[1..][0] == "verse" && h[1..][1..] == h[2..];
    assert Join(h[1..], ',') == "verse" + [','] + rest;
    assert Join(h, ',') == "chapter" + [','] + ("verse" + [','] + rest);
    var line := "chapter" + [','] + ("verse" + [','] + rest);
    assert line == "chapter,verse" + ([','] + rest);
  }

  lemma HeaderLineSingle()
    ensures '\n' !in HeaderLine
  {
    StandardNamesPlain();
    JoinAvoids(StandardHeaders, ',', '\n');
  }

  /** A line that starts with `chapter,verse` is a preamble row, not a comment, and not blank. */
  lemma ChapterVerseLine(line: string)
    requires |line| >= 13 && line[..13] == "chapter,verse" && '\n' !in line
    ensures PlainHeader(line)
  {
    assert OccursAt(line, "chapter,verse", 0);
    assert line[0] == "chapter,verse"[0];
    NonBlankLine(line);
  }

  /** The header line is a preamble line for the server (it contains `chapter,verse`), a single non-blank line. */
  lemma HeaderLineIsPreamble()
    ensures PlainHeader(HeaderLine)
  {
    HeaderLineHead();
    HeaderLineSingle();
    ChapterVerseLine(HeaderLine);
  }

  /** A line whose first character is not white space survives the blank-row filter. */
  lemma NonBlankLine(line: string)
    requires line != [] && !IsSpace(line[0])
    ensures |Trim(line)| > 0
  {
    TrimEmptyIffSpace(line);
  }

  // ---------------------------------------------------------------------
  // Building the object
  // ---------------------------------------------------------------------

  /**
   * `value.startsWith('"') && value.endsWith('"')` then `substring(1, length - 1)`.
   * A lone `"` both starts and ends with a quote; `substring(1, 0)` swaps its
   * bounds and gives the `"` back, which the `else` branch also does.
   */
  function Unquote(v: string): string
  {
    if |v| >= 2 && v[0] == '"' && v[|v| - 1] == '"' then v[1..|v| - 1] else v
  }

  /** Unquoting undoes quoting, and leaves quote-free text alone. */
  lemma UnquoteQuote(f: string)
    ensures Unquote(Quote(f)) == f
    ensures QuoteFree(f) ==> Unquote(f) == f
  {
    if QuoteFree(f) && |f| >= 2 {
      assert f[0] in f;
    }
  }

  /** The value header `k` receives: field `k` unquoted, or "" past the last field. */
  function ValueAt(fields: seq<string>, k: nat): string
  {
    if k < |fields| then Unquote(fields[k]) else ""
  }

  /** `headers.forEach((header, index) => todayShlok[header] = …)`, the later of two equal headers winning. */
  function RecordFromHeaders(headers: seq<string>, fields: seq<string>): ShlokFields
  {
    if headers == [] then map[]
    else RecordFromHeaders(headers[..|headers| - 1], fields)[headers[|headers| - 1] := ValueAt(fields, |headers| - 1)]
  }

  /** The object has one key per header name. */
  lemma {:induction false} RecordFromHeadersKeys(headers: seq<string>, fields: seq<string>)
    ensures RecordFromHeaders(headers, fields).Keys == set h | h in headers
    decreases |headers|
  {
    if headers != [] {
      var init := headers[..|headers| - 1];
      RecordFromHeadersKeys(init, fields);
      assert headers == init + [headers[|headers| - 1]];
    }
  }

  /** A header that is not repeated later maps to its own column's value; extra fields are ignored. */
  lemma {:induction false} RecordFromHeadersValues(headers: seq<string>, fields: seq<string>, k: nat)
    requires k < |headers| && headers[k] !in headers[k + 1..]
    ensures headers[k] in RecordFromHeaders(headers, fields)
    ensures RecordFromHeaders(headers, fields)[headers[k]] == ValueAt(fields, k)
    decreases |headers|
  {
    var n := |headers|;
    if k < n - 1 {
      var init := headers[..n - 1];
      assert headers[n - 1] == headers[k + 1..][n - 2 - k];
      assert init[k + 1..] == headers[k + 1..n - 1];
      assert init[k] == headers[k];
      RecordFromHeadersValues(init, fields, k);
    }
  }

  /** The `forEach` loop filling `todayShlok` key by key. */
  method FillRecord(headers: seq<string>, fields: seq<string>) returns (todayShlok: ShlokFields)
    ensures todayShlok == RecordFromHeaders(headers, fields)
  {
    todayShlok := map[];
    var index := 0;
    while index < |headers|
      invariant 0 <= index <= |headers|
      invariant todayShlok == RecordFromHeaders(headers[..index], fields)
    {
      var header := headers[index];
      var value: string;
      if index < |fields| {
        value := fields[index];
        if |value| >= 2 && value[0] == '"' && value[|value| - 1] == '"' {
          value := value[1..|value| - 1];
        }
      } else {
        value := "";
      }
      assert headers[..index + 1][..index] == headers[..index];
      todayShlok := todayShlok[header := value];
      index := index + 1;
    }
    assert headers[..index] == headers;
  }

  /** A field read the way `todayShlok.sanskrit` is checked: a missing key reads as "". */
  function FieldOf(r: ShlokFields, key: string): string
  {
    if key in r then r[key] else ""
  }

  /** The six standard keys are distinct, so each reads back its own field. */
  lemma AsFieldsLookup(s: Shlok)
    ensures FieldOf(AsFields(s), "chapter") == s.chapter && FieldOf(AsFields(s), "verse") == s.verse
    ensures FieldOf(AsFields(s), "sanskrit") == s.sanskrit
    ensures FieldOf(AsFields(s), "transliteration") == s.transliteration
    ensures FieldOf(AsFields(s), "english_meaning") == s.englishMeaning
    ensures FieldOf(AsFields(s), "application") == s.application
  {
    assert "transliteration"[0] != "english_meaning"[0];
  }

  /** The six standard headers give an object with the six standard keys, column by column. */
  lemma {:induction false} StandardObject(fields: seq<string>)
    ensures RecordFromHeaders(StandardHeaders, fields) ==
            map["chapter" := ValueAt(fields, 0), "verse" := ValueAt(fields, 1),
                "sanskrit" := ValueAt(fields, 2), "transliteration" := ValueAt(fields, 3),
                "english_meaning" := ValueAt(fields, 4), "application" := ValueAt(fields, 5)]
  {
    var h := StandardHeaders;
    var f := fields;
    assert h[..1][..0] == [];
    assert RecordFromHeaders(h[..1], f) == map[][h[0] := ValueAt(f, 0)];
    assert h[..2][..1] == h[..1];
    assert RecordFromHeaders(h[..2], f) == RecordFromHeaders(h[..1], f)[h[1] := ValueAt(f, 1)];
    assert h[..3][..2] == h[..2];
    assert RecordFromHeaders(h[..3], f) == RecordFromHeaders(h[..2], f)[h[2] := ValueAt(f, 2)];
    assert h[..4][..3] == h[..3];
    assert RecordFromHeaders(h[..4], f) == RecordFromHeaders(h[..3], f)[h[3] := ValueAt(f, 3)];
    assert h[..5][..4] == h[..4];
    assert RecordFromHeaders(h[..5], f) == RecordFromHeaders(h[..4], f)[h[4] := ValueAt(f, 4)];
    assert h[..5] == h[..|h| - 1];
    assert RecordFromHeaders(h, f) == RecordFromHeaders(h[..5], f)[h[5] := ValueAt(f, 5)];
  }

  /** With the six standard headers and a record-sized row, the object is the server's record of that row. */
  lemma StandardRecord(row: string)
    requires |ParseRow(row)| >= 5
    ensures RecordFromHeaders(StandardHeaders, ParseRow(row)) == AsFields(RowRecord(row).value)
  {
    var fields := ParseRow(row);
    RowRecordColumns(row);
    ParseRowClean(row);
    StandardObject(fields);
    forall k | 0 <= k < 6 && k < |fields| ensures ValueAt(fields, k) == fields[k] {
      UnquoteQuote(fields[k]);
    }
  }

  // ---------------------------------------------------------------------
  // The fallback
  // ---------------------------------------------------------------------

  /** Lines 72-97 of the page: the non-blank rows after the comment line, or the error thrown. */
  function FallbackRows(text: string): (r: Result<seq<string>, FallbackError>)
    ensures |text| < 10 <==> r == Err(TooShort)
    ensures r.Ok? ==> |r.value| >= 2 && r.value == Rows(StripLeadingComment(text))
    ensures |text| >= 10 ==> (r.Ok? <==> |Rows(StripLeadingComment(text))| >= 2)
    ensures |text| >= 10 && |Rows(StripLeadingComment(text))| < 2 ==> r == Err(NotEnoughRows)
  {
    if |text| < 10 then Err(TooShort)
    else
      var rows := Rows(StripLeadingComment(text));
      if |rows| < 2 then Err(NotEnoughRows) else Ok(rows)
  }

  /**
   * Lines 96-161: the header row names the keys; today's row is picked among
   * all rows after the header, before any field counting.
   */
  function PickFromRows(rows: seq<string>, year: nat, monthIndex: nat, day: nat): ShlokFields
    requires |rows| >= 2
  {
    var dataRows := rows[1..];
    var todayIndex := DailyIndexForDate(year, monthIndex, day, |dataRows|);
    RecordFromHeaders(HeaderNames(rows[0]), ParseRow(dataRows[todayIndex]))
  }

  /** Lines 167-174: an empty or missing `sanskrit` or `english_meaning` throws. */
  function RequireFields(todayShlok: ShlokFields): (r: Result<ShlokFields, FallbackError>)
    ensures r.Ok? <==> FieldOf(todayShlok, "sanskrit") != "" && FieldOf(todayShlok, "english_meaning") != ""
    ensures r.Ok? ==> r.value == todayShlok
    ensures r.Err? ==> r.error == MissingRequiredFields
  {
    if FieldOf(todayShlok, "sanskrit") == "" || FieldOf(todayShlok, "english_meaning") == "" then
      Err(MissingRequiredFields)
    else Ok(todayShlok)
  }

  /** Lines 72-174 of the page: the fallback's outcome for a CSV text and a date. */
  function FallbackDaily(text: string, year: nat, monthIndex: nat, day: nat): (r: Result<ShlokFields, FallbackError>)
    ensures |text| < 10 <==> r == Err(TooShort)
    ensures r.Ok? ==> FieldOf(r.value, "sanskrit") != "" && FieldOf(r.value, "english_meaning") != ""
  {
    match FallbackRows(text)
    case Err(e) => Err(e)
    case Ok(rows) => RequireFields(PickFromRows(rows, year, monthIndex, day))
  }

  /** The keys of the fallback's object are exactly the header names. */
  lemma FallbackKeys(text: string, year: nat, monthIndex: nat, day: nat)
    requires FallbackDaily(text, year, monthIndex, day).Ok?
    ensures FallbackRows(text).Ok?
    ensures FallbackDaily(text, year, monthIndex, day).value.Keys == set h | h in HeaderNames(FallbackRows(text).value[0])
  {
    var rows := FallbackRows(text).value;
    var dataRows := rows[1..];
    var todayIndex := DailyIndexForDate(year, monthIndex, day, |dataRows|);
    RecordFromHeadersKeys(HeaderNames(rows[0]), ParseRow(dataRows[todayIndex]));
  }

  /** The page's fallback block as written: the same steps, with `parseCSV` and the `forEach` loop. */
  method LocalDailyShlok(text: string, year: nat, monthIndex: nat, day: nat) returns (r: Result<ShlokFields, FallbackError>)
    ensures r == FallbackDaily(text, year, monthIndex, day)
  {
    if |text| < 10 {
      return Err(TooShort);
    }
    var cleanText := text;
    if StartsWith(text, "//") {
      if '\n' in text {
        var firstNewline := IndexOf(text, '\n');
        cleanText := text[firstNewline + 1..];
      }
    }
    assert cleanText == StripLeadingComment(text);
    var rows := Rows(cleanText);
    if |rows| < 2 {
      return Err(NotEnoughRows);
    }
    assert FallbackRows(text) == Ok(rows);
    var headers := HeaderNames(rows[0]);
    var dataRows := rows[1..];
    var dateHash := CharCodeSum(DateString(year, monthIndex, day));
    var todayIndex := DailyIndex(dateHash, |dataRows|);
    var selectedRow := dataRows[todayIndex];
    var fields := ParseCSVRow(selectedRow);
    var todayShlok := FillRecord(headers, fields);
    assert todayShlok == PickFromRows(rows, year, monthIndex, day);
    if FieldOf(todayShlok, "sanskrit") == "" || FieldOf(todayShlok, "english_meaning") == "" {
      return Err(MissingRequiredFields);
    }
    return Ok(todayShlok);
  }

  /** A verse with non-empty Sanskrit and English text. */
  predicate HasText(shown: ShlokFields)
  {
    FieldOf(shown, "sanskrit") != "" && FieldOf(shown, "english_meaning") != ""
  }

  /**
   * What the page shows after one run of the effect: the fallback's verse, or,
   * when loading threw, the verse already on screen (the default one on the
   * first load, since the effect runs again whenever the user changes).
   */
  function Displayed(r: Result<ShlokFields, FallbackError>, onScreen: ShlokFields): (shown: ShlokFields)
    ensures r.Err? ==> shown == onScreen
    ensures r.Ok? ==> shown == r.value
  {
    if r.Ok? then r.value else onScreen
  }

  /** On the first load the default verse 2:47 is on screen, and it has Sanskrit and English text. */
  lemma DefaultHasText()
    ensures HasText(AsFields(DefaultShlok))
    ensures FieldOf(AsFields(DefaultShlok), "chapter") == "2" && FieldOf(AsFields(DefaultShlok), "verse") == "47"
  {
    AsFieldsLookup(DefaultShlok);
  }

  /** Whatever the file holds, each run of the effect keeps a verse with Sanskrit and English text on screen. */
  lemma DisplayedHasText(text: string, year: nat, monthIndex: nat, day: nat, onScreen: ShlokFields)
    requires HasText(onScreen)
    ensures HasText(Displayed(FallbackDaily(text, year, monthIndex, day), onScreen))
  {
  }

  // ---------------------------------------------------------------------
  // Agreement with the server
  // ---------------------------------------------------------------------

  /** The lines before the data: an optional comment line, then a header line. */
  function PreambleWith(comment: Option<string>, header: string): seq<string>
  {
    (if comment.Some? then [comment.value] else []) + [header]
  }

  /** The preamble of the bundled file: an optional comment line, then the standard header line. */
  function Preamble(comment: Option<string>): seq<string>
  {
    PreambleWith(comment, HeaderLine)
  }

  /** A data line the server keeps: one line, not blank, not preamble-looking, five or more columns. */
  predicate GoodDataLine(line: string)
  {
    '\n' !in line && |Trim(line)| > 0 && |ParseRow(line)| >= 5
  }

  /** The lines of the preamble are preamble rows, single lines, and not blank. */
  lemma PreambleLines(header: string, comment: Option<string>)
    requires PlainHeader(header)
    requires comment.Some? ==> StartsWith(comment.value, "//") && '\n' !in comment.value
    ensures var pre := PreambleWith(comment, header);
            forall k :: 0 <= k < |pre| ==> IsPreamble(pre[k]) && '\n' !in pre[k] && |Trim(pre[k])| > 0
  {
    if comment.Some? {
      assert comment.value[0] == '/';
      NonBlankLine(comment.value);
    }
  }

  /** Every line of the file is a single non-blank line. */
  lemma FileLines(header: string, comment: Option<string>, data: seq<string>)
    requires PlainHeader(header)
    requires comment.Some? ==> StartsWith(comment.value, "//") && '\n' !in comment.value
    requires forall k :: 0 <= k < |data| ==> '\n' !in data[k] && |Trim(data[k])| > 0
    ensures var lines := PreambleWith(comment, header) + data;
            forall k :: 0 <= k < |lines| ==> '\n' !in lines[k] && |Trim(lines[k])| > 0
  {
    var pre := PreambleWith(comment, header);
    var lines := pre + data;
    PreambleLines(header, comment);
    forall k | 0 <= k < |lines| ensures '\n' !in lines[k] && |Trim(lines[k])| > 0 {
      if k >= |pre| { assert lines[k] == data[k - |pre|]; }
    }
  }

  /** The file: the preamble and the data lines joined by newlines, with or without a final newline. */
  function FileText(comment: Option<string>, header: string, data: seq<string>, finalNewline: bool): string
  {
    Join(PreambleWith(comment, header) + data, '\n') + Ending(finalNewline)
  }

  /** The server loads one record per data line that has five or more columns, in order. */
  lemma FileCorpus(header: string, comment: Option<string>, data: seq<string>, finalNewline: bool)
    requires PlainHeader(header)
    requires comment.Some? ==> StartsWith(comment.value, "//") && '\n' !in comment.value
    requires data != [] && !IsPreamble(data[0])
    requires forall k :: 0 <= k < |data| ==> '\n' !in data[k] && |Trim(data[k])| > 0
    ensures CorpusOf(FileText(comment, header, data, finalNewline)) == RecordsOf(data)
  {
    PreambleLines(header, comment);
    FileLines(header, comment, data);
    CorpusOfLayout(PreambleWith(comment, header), data, finalNewline);
  }

  /** The server's half: its corpus is the data lines' records, one per line, and it picks line `i`. */
  lemma ServerPicksDataLine(header: string, comment: Option<string>, data: seq<string>, finalNewline: bool,
                            year: nat, monthIndex: nat, day: nat)
    requires PlainHeader(header)
    requires comment.Some? ==> StartsWith(comment.value, "//") && '\n' !in comment.value
    requires data != [] && !IsPreamble(data[0])
    requires forall k :: 0 <= k < |data| ==> GoodDataLine(data[k])
    ensures var line := data[DailyIndexForDate(year, monthIndex, day, |data|)];
            GoodDataLine(line) &&
            GetDailyShlok(CorpusOf(FileText(comment, header, data, finalNewline)), year, monthIndex, day)
              == Some(RowRecord(line).value)
  {
    var i := DailyIndexForDate(year, monthIndex, day, |data|);
    FileCorpus(header, comment, data, finalNewline);
    assert forall k :: 0 <= k < |data| ==> RowRecord(data[k]).Some?;
    FilterMapAll(RowRecord, data);
    assert RecordsOf(data)[i] == RowRecord(data[i]).value;
  }

  /** With no comment line, the text starts with the header line and nothing is stripped. */
  lemma StrippedWithoutComment(header: string, data: seq<string>)
    requires PlainHeader(header)
    ensures StripLeadingComment(Join([header] + data, '\n')) == Join([header] + data, '\n')
  {
    var text := Join([header] + data, '\n');
    JoinLength([header] + data, '\n', 0);
    assert text[..2] == header[..2];
    StripNoComment(text);
  }

  /** Dropping the comment line leaves the header line and the data lines, joined. */
  lemma StrippedLines(header: string, comment: Option<string>, data: seq<string>)
    requires PlainHeader(header)
    requires comment.Some? ==> StartsWith(comment.value, "//") && '\n' !in comment.value
    ensures var lines := PreambleWith(comment, header) + data;
            StripLeadingComment(Join(lines, '\n')) == Join([header] + data, '\n')
            && |Join(lines, '\n')| >= 10
  {
    var pre := PreambleWith(comment, header);
    var lines := pre + data;
    var clean := Join([header] + data, '\n');
    if comment.Some? {
      assert lines == [comment.value] + ([header] + data);
      assert Join(lines, '\n') == comment.value + "\n" + clean;
      StripCommentLine(comment.value, clean);
    } else {
      assert lines == [header] + data;
      StrippedWithoutComment(header, data);
    }
    assert lines[|pre| - 1] == header;
    JoinLength(lines, '\n', |pre| - 1);
  }

  /** A final newline is one more, empty, line. */
  lemma FinalNewlineLine(lines: seq<string>, more: seq<string>)
    requires lines != []
    ensures Join(lines + more + [""], '\n') == Join(lines + more, '\n') + Ending(true)
  {
    JoinSnocEmpty(lines + more, '\n');
    assert lines + more + [""] == (lines + more) + [""];
  }

  /** With a final newline the file is the same lines and one more, empty, line. */
  lemma StrippedWithNewline(header: string, comment: Option<string>, data: seq<string>)
    requires PlainHeader(header)
    requires comment.Some? ==> StartsWith(comment.value, "//") && '\n' !in comment.value
    ensures StripLeadingComment(FileText(comment, header, data, true)) == Join([header] + data, '\n') + Ending(true)
    ensures |FileText(comment, header, data, true)| >= 10
  {
    var pre := PreambleWith(comment, header);
    var d1 := data + [""];
    assert pre + d1 == pre + data + [""];
    assert [header] + d1 == [header] + data + [""];
    FinalNewlineLine(pre, data);
    FinalNewlineLine([header], data);
    var text := FileText(comment, header, data, true);
    assert text == Join(pre + d1, '\n');
    StrippedLines(header, comment, d1);
  }

  /** Dropping the comment line leaves the header line and the data lines, with the file's ending. */
  lemma StrippedWith(header: string, comment: Option<string>, data: seq<string>, finalNewline: bool)
    requires PlainHeader(header)
    requires comment.Some? ==> StartsWith(comment.value, "//") && '\n' !in comment.value
    ensures StripLeadingComment(FileText(comment, header, data, finalNewline))
            == Join([header] + data, '\n') + Ending(finalNewline)
    ensures |FileText(comment, header, data, finalNewline)| >= 10
  {
    if finalNewline {
      StrippedWithNewline(header, comment, data);
    } else {
      StrippedLines(header, comment, data);
      assert FileText(comment, header, data, false) == Join(PreambleWith(comment, header) + data, '\n');
    }
  }

  /** After the comment line goes, the rows are the header line and the data lines. */
  lemma RowsWith(header: string, comment: Option<string>, data: seq<string>, finalNewline: bool)
    requires PlainHeader(header)
    requires comment.Some? ==> StartsWith(comment.value, "//") && '\n' !in comment.value
    requires data != []
    requires forall k :: 0 <= k < |data| ==> '\n' !in data[k] && |Trim(data[k])| > 0
    ensures FallbackRows(FileText(comment, header, data, finalNewline)) == Ok([header] + data)
  {
    StrippedWith(header, comment, data, finalNewline);
    var cleanLines := [header] + data;
    forall k | 0 <= k < |cleanLines| ensures '\n' !in cleanLines[k] && |Trim(cleanLines[k])| > 0 {
      if k > 0 { assert cleanLines[k] == data[k - 1]; }
    }
    RowsOfLines(cleanLines, finalNewline);
    NonBlankOfNonBlank(cleanLines);
  }

  /** The page's half: with a header line naming the standard fields, the object built is the server record of line `i`. */
  lemma ClientPicksDataLine(header: string, comment: Option<string>, data: seq<string>, finalNewline: bool,
                            year: nat, monthIndex: nat, day: nat)
    requires PlainHeader(header) && HeaderNames(header) == StandardHeaders
    requires comment.Some? ==> StartsWith(comment.value, "//") && '\n' !in comment.value
    requires data != []
    requires forall k :: 0 <= k < |data| ==> GoodDataLine(data[k])
    ensures var line := data[DailyIndexForDate(year, monthIndex, day, |data|)];
            GoodDataLine(line) &&
            var s := RowRecord(line).value;
            FallbackDaily(FileText(comment, header, data, finalNewline), year, monthIndex, day)
              == (if s.sanskrit != "" && s.englishMeaning != "" then Ok(AsFields(s)) else Err(MissingRequiredFields))
  {
    var i := DailyIndexForDate(year, monthIndex, day, |data|);
    var text := FileText(comment, header, data, finalNewline);
    RowsWith(header, comment, data, finalNewline);
    FallbackOfRows(text, [header] + data, year, monthIndex, day);
    PickStandard(header, data, year, monthIndex, day);
    RequireShlokFields(RowRecord(data[i]).value);
  }

  lemma FallbackOfRows(text: string, rows: seq<string>, year: nat, monthIndex: nat, day: nat)
    requires FallbackRows(text) == Ok(rows)
    ensures |rows| >= 2
    ensures FallbackDaily(text, year, monthIndex, day) == RequireFields(PickFromRows(rows, year, monthIndex, day))
  {
  }

  /** The required-field check on a server record looks at its Sanskrit and English texts. */
  lemma RequireShlokFields(s: Shlok)
    ensures RequireFields(AsFields(s))
            == if s.sanskrit != "" && s.englishMeaning != "" then Ok(AsFields(s)) else Err(MissingRequiredFields)
  {
    AsFieldsLookup(s);
  }

  /** Under the standard header, the object picked from the rows is the server record of data line `i`. */
  lemma PickStandard(header: string, data: seq<string>, year: nat, monthIndex: nat, day: nat)
    requires HeaderNames(header) == StandardHeaders
    requires data != []
    requires forall k :: 0 <= k < |data| ==> GoodDataLine(data[k])
    ensures var line := data[DailyIndexForDate(year, monthIndex, day, |data|)];
            GoodDataLine(line) && PickFromRows([header] + data, year, monthIndex, day) == AsFields(RowRecord(line).value)
  {
    var i := DailyIndexForDate(year, monthIndex, day, |data|);
    var rows := [header] + data;
    assert rows[0] == header && rows[1..] == data;
    StandardRecord(data[i]);
  }

  /**
   * The fallback picks the server's verse when the file is at most one `//`
   * comment line, then the standard header, then data lines that each parse
   * to at least five columns, the first of which holds no `chapter,verse`
   * and does not start with `//`, with or without a final newline: both pick
   * the record of data line `DailyIndexForDate(…, |data|)`.  The page then
   * shows it, unless its Sanskrit or English text is empty.
   */
  lemma ClientAgreesWithServer(comment: Option<string>, data: seq<string>, finalNewline: bool,
                               year: nat, monthIndex: nat, day: nat)
    requires comment.Some? ==> StartsWith(comment.value, "//") && '\n' !in comment.value
    requires data != [] && !IsPreamble(data[0])
    requires forall k :: 0 <= k < |data| ==> GoodDataLine(data[k])
    ensures var text := FileText(comment, HeaderLine, data, finalNewline);
            var line := data[DailyIndexForDate(year, monthIndex, day, |data|)];
            GoodDataLine(line) &&
            var s := RowRecord(line).value;
            GetDailyShlok(CorpusOf(text), year, monthIndex, day) == Some(s)
            && FallbackDaily(text, year, monthIndex, day)
               == (if s.sanskrit != "" && s.englishMeaning != "" then Ok(AsFields(s)) else Err(MissingRequiredFields))
  {
    HeaderLineIsPreamble();
    HeaderLineNames();
    ServerPicksDataLine(HeaderLine, comment, data, finalNewline, year, monthIndex, day);
    ClientPicksDataLine(HeaderLine, comment, data, finalNewline, year, monthIndex, day);
  }

  /**
   * The two copies part ways as soon as one data line is short: the server's
   * corpus is then smaller than the page's list of data rows, so the two take
   * the date hash modulo different sizes.
   */
  lemma ShortRowShrinksCorpus(comment: Option<string>, data: seq<string>, finalNewline: bool, j: nat)
    requires comment.Some? ==> StartsWith(comment.value, "//") && '\n' !in comment.value
    requires data != [] && !IsPreamble(data[0])
    requires forall k :: 0 <= k < |data| ==> '\n' !in data[k] && |Trim(data[k])| > 0
    requires j < |data| && |ParseRow(data[j])| < 5
    ensures |CorpusOf(FileText(comment, HeaderLine, data, finalNewline))| < |data|
    ensures FallbackRows(FileText(comment, HeaderLine, data, finalNewline)) == Ok([HeaderLine] + data)
  {
    HeaderLineIsPreamble();
    FileCorpus(HeaderLine, comment, data, finalNewline);
    FilterMapLength(RowRecord, data);
    AcceptedAll(RowRecord, data);
    RowsWith(HeaderLine, comment, data, finalNewline);
  }

  /**
   * They also part when the first data line looks like preamble (it holds
   * `chapter,verse` or starts with `//`): the server's skip loop drops it,
   * while the page keeps it as a data row.
   */
  lemma PreambleLookingLineSkipped(comment: Option<string>, data: seq<string>, finalNewline: bool)
    requires comment.Some? ==> StartsWith(comment.value, "//") && '\n' !in comment.value
    requires |data| >= 2 && IsPreamble(data[0]) && !IsPreamble(data[1])
    requires forall k :: 0 <= k < |data| ==> '\n' !in data[k] && |Trim(data[k])| > 0
    ensures CorpusOf(FileText(comment, HeaderLine, data, finalNewline)) == RecordsOf(data[1..])
    ensures |CorpusOf(FileText(comment, HeaderLine, data, finalNewline))| < |data|
    ensures FallbackRows(FileText(comment, HeaderLine, data, finalNewline)) == Ok([HeaderLine] + data)
  {
    HeaderLineIsPreamble();
    SkippedLineCorpus(HeaderLine, comment, data, finalNewline);
    FilterMapLength(RowRecord, data[1..]);
    RowsWith(HeaderLine, comment, data, finalNewline);
  }

  /** The server's half: a preamble-looking first data line joins the skipped preamble. */
  lemma SkippedLineCorpus(header: string, comment: Option<string>, data: seq<string>, finalNewline: bool)
    requires PlainHeader(header)
    requires comment.Some? ==> StartsWith(comment.value, "//") && '\n' !in comment.value
    requires |data| >= 2 && IsPreamble(data[0]) && !IsPreamble(data[1])
    requires forall k :: 0 <= k < |data| ==> '\n' !in data[k] && |Trim(data[k])| > 0
    ensures CorpusOf(FileText(comment, header, data, finalNewline)) == RecordsOf(data[1..])
  {
    var pre := PreambleWith(comment, header);
    PreambleLines(header, comment);
    FileLines(header, comment, data);
    var skipped := pre + [data[0]];
    assert skipped + data[1..] == pre + data;
    assert forall k :: 0 <= k < |skipped| ==> IsPreamble(skipped[k]) by {
      forall k | 0 <= k < |skipped| ensures IsPreamble(skipped[k]) {
        if k < |pre| { assert skipped[k] == pre[k]; }
      }
    }
    CorpusOfLayout(skipped, data[1..], finalNewline);
  }


  // ---------------------------------------------------------------------
  // Bookmarks of the shown verse
  // ---------------------------------------------------------------------

  predicate OfVerse(b: Bookmark, chapter: string, verse: string)
  {
    b.chapter == chapter && b.verse == verse
  }

  /** `bookmarks.some(…)`: the shown verse counts as bookmarked. */
  function IsVerseBookmarked(bookmarks: seq<Bookmark>, chapter: string, verse: string): (b: bool)
    ensures b <==> exists k :: 0 <= k < |bookmarks| && OfVerse(bookmarks[k], chapter, verse)
  {
    AnyOf(x => OfVerse(x, chapter, verse), bookmarks)
  }

  /** `bookmarks.filter(…)`: removing the shown verse's bookmarks. */
  function RemoveVerse(bookmarks: seq<Bookmark>, chapter: string, verse: string): (r: seq<Bookmark>)
    ensures forall b :: b in r <==> b in bookmarks && !OfVerse(b, chapter, verse)
    ensures !IsVerseBookmarked(r, chapter, verse)
  {
    FilterMembers(x => !OfVerse(x, chapter, verse), bookmarks);
    Filter(x => !OfVerse(x, chapter, verse), bookmarks)
  }

  /** Removing a verse's bookmarks keeps the remaining ones in their order. */
  lemma RemoveVerseInOrder(bookmarks: seq<Bookmark>, chapter: string, verse: string)
    ensures IsSubsequence(RemoveVerse(bookmarks, chapter, verse), bookmarks)
  {
    var keep := x => !OfVerse(x, chapter, verse);
    FilterSuffixSubsequence(keep, bookmarks, 0);
    assert Filter(keep, bookmarks)[0..] == Filter(keep, bookmarks);
  }

  /** A bookmark of the verse at position `k` is dropped, so removal shortens the list. */
  lemma RemoveVerseDrops(bookmarks: seq<Bookmark>, chapter: string, verse: string, k: nat)
    requires k < |bookmarks| && OfVerse(bookmarks[k], chapter, verse)
    ensures |RemoveVerse(bookmarks, chapter, verse)| < |bookmarks|
  {
    var keep := x => !OfVerse(x, chapter, verse);
    var pre := bookmarks[..k];
    var post := bookmarks[k + 1..];
    assert bookmarks == pre + [bookmarks[k]] + post;
    FilterAppend(keep, pre + [bookmarks[k]], post);
    FilterAppend(keep, pre, [bookmarks[k]]);
    FilterMembers(keep, pre);
    FilterMembers(keep, post);
    assert Filter(keep, [bookmarks[k]]) == [] by { assert [bookmarks[k]][..0] == []; }
  }

  /** The verse is bookmarked exactly when removing its bookmarks shortens the list, and removal keeps the others in order. */
  lemma RemoveVerseShortens(bookmarks: seq<Bookmark>, chapter: string, verse: string)
    ensures IsVerseBookmarked(bookmarks, chapter, verse) <==> |RemoveVerse(bookmarks, chapter, verse)| < |bookmarks|
    ensures !IsVerseBookmarked(bookmarks, chapter, verse) ==> RemoveVerse(bookmarks, chapter, verse) == bookmarks
    ensures IsSubsequence(RemoveVerse(bookmarks, chapter, verse), bookmarks)
  {
    var keep := x => !OfVerse(x, chapter, verse);
    FilterKeepsAll(keep, bookmarks);
    RemoveVerseInOrder(bookmarks, chapter, verse);
    if IsVerseBookmarked(bookmarks, chapter, verse) {
      var k :| 0 <= k < |bookmarks| && OfVerse(bookmarks[k], chapter, verse);
      RemoveVerseDrops(bookmarks, chapter, verse, k);
    }
  }

}

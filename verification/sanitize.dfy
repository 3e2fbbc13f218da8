/**
 * The browser's input helpers (src/utils/sanitize.js): HTML-entity escaping,
 * the e-mail and `HH:MM` checks, filename and display-name scrubbing, the
 * recursive object sanitiser and the rule-priority validator.
 *
 * JavaScript values are the `JsValue` datatype below; arrays, fractional
 * numbers and `NaN` are not part of this model.  The `URL` parser and the
 * `RegExp` built from a rule's `pattern` are foreign code and become
 * function parameters.
 */
module Sanitize {
  import opened Wrappers
  import opened Text
  import opened Lists

  /** A JavaScript value; objects are plain property maps. */
  datatype JsValue = Undefined | Null | Bool(b: bool) | Num(n: int) | Str(s: string) | Obj(props: map<string, JsValue>)

  /** The values `!v` holds for. */
  predicate Falsy(v: JsValue)
  {
    v.Undefined? || v.Null? || v == Bool(false) || v == Num(0) || v == Str("")
  }

  /** `String(v)`. */
  function ToJsString(v: JsValue): string
  {
    match v
    case Undefined => "undefined"
    case Null => "null"
    case Bool(b) => if b then "true" else "false"
    case Num(n) => IntToString(n)
    case Str(s) => s
    case Obj(_) => "[object Object]"
  }

  // ---------------------------------------------------------------------
  // Entity escaping
  // ---------------------------------------------------------------------

  /** `s.replace(/c/g, rep)` for a single character `c`. */
  function ReplaceAll(s: string, c: char, rep: string): string
  {
    if s == [] then [] else (if s[0] == c then rep else [s[0]]) + ReplaceAll(s[1..], c, rep)
  }

  /** The five `replace` calls, in the source's order: `&` first. */
  function Escape(s: string): string
  {
    ReplaceAll(ReplaceAll(ReplaceAll(ReplaceAll(ReplaceAll(s, '&', "&amp;"), '<', "&lt;"), '>', "&gt;"), '"', "&quot;"), '\'', "&#039;")
  }

  /** The characters an escaped text must not contain. */
  predicate IsMarkup(c: char)
  {
    c == '<' || c == '>' || c == '"' || c == '\''
  }

  predicate IsSpecial(c: char)
  {
    c == '&' || IsMarkup(c)
  }

  predicate NoMarkup(s: string)
  {
    forall k :: 0 <= k < |s| ==> !IsMarkup(s[k])
  }

  /** The entity that stands for one character, or the character itself. */
  function Entity(c: char): string
  {
    if c == '&' then "&amp;"
    else if c == '<' then "&lt;"
    else if c == '>' then "&gt;"
    else if c == '"' then "&quot;"
    else if c == '\'' then "&#039;"
    else [c]
  }

  /** Escaping character by character: the reference the replace chain is proved against. */
  function EscapeEach(s: string): (r: string)
    ensures NoMarkup(r)
    ensures |r| >= |s|
  {
    if s == [] then []
    else
      EntityNoMarkup(s[0]);
      NoMarkupAppend(Entity(s[0]), EscapeEach(s[1..]));
      Entity(s[0]) + EscapeEach(s[1..])
  }

  lemma EntityNoMarkup(c: char)
    ensures NoMarkup(Entity(c)) && |Entity(c)| >= 1
  {
  }

  lemma NoMarkupAppend(a: string, b: string)
    requires NoMarkup(a) && NoMarkup(b)
    ensures NoMarkup(a + b)
  {
    assert forall k :: |a| <= k < |a + b| ==> (a + b)[k] == b[k - |a|];
  }

  lemma {:induction false} ReplaceAllAppend(a: string, b: string, c: char, rep: string)
    ensures ReplaceAll(a + b, c, rep) == ReplaceAll(a, c, rep) + ReplaceAll(b, c, rep)
    decreases |a|
  {
    if a == [] {
      assert a + b == b;
    } else {
      assert (a + b)[1..] == a[1..] + b;
      ReplaceAllAppend(a[1..], b, c, rep);
    }
  }

  lemma {:induction false} ReplaceAllAbsent(s: string, c: char, rep: string)
    requires c !in s
    ensures ReplaceAll(s, c, rep) == s
    decreases |s|
  {
    if s != [] {
      assert s[0] != c;
      ReplaceAllAbsent(s[1..], c, rep);
      assert [s[0]] + s[1..] == s;
    }
  }

  lemma EscapeAppend(a: string, b: string)
    ensures Escape(a + b) == Escape(a) + Escape(b)
  {
    var a1, b1 := ReplaceAll(a, '&', "&amp;"), ReplaceAll(b, '&', "&amp;");
    ReplaceAllAppend(a, b, '&', "&amp;");
    var a2, b2 := ReplaceAll(a1, '<', "&lt;"), ReplaceAll(b1, '<', "&lt;");
    ReplaceAllAppend(a1, b1, '<', "&lt;");
    var a3, b3 := ReplaceAll(a2, '>', "&gt;"), ReplaceAll(b2, '>', "&gt;");
    ReplaceAllAppend(a2, b2, '>', "&gt;");
    var a4, b4 := ReplaceAll(a3, '"', "&quot;"), ReplaceAll(b3, '"', "&quot;");
    ReplaceAllAppend(a3, b3, '"', "&quot;");
    ReplaceAllAppend(a4, b4, '\'', "&#039;");
  }

  lemma ReplaceAllSingle(c: char, ch: char, rep: string)
    ensures ReplaceAll([c], ch, rep) == if c == ch then rep else [c]
  {
    assert [c][1..] == [];
  }

  /** The replacements after the one that produced `e` leave it alone. */
  lemma EscapeTail(e: string, from: nat)
    requires from <= 4
    requires from <= 1 ==> '<' !in e
    requires from <= 2 ==> '>' !in e
    requires from <= 3 ==> '"' !in e
    requires '\'' !in e
    ensures from == 1 ==> ReplaceAll(ReplaceAll(ReplaceAll(ReplaceAll(e, '<', "&lt;"), '>', "&gt;"), '"', "&quot;"), '\'', "&#039;") == e
    ensures from == 2 ==> ReplaceAll(ReplaceAll(ReplaceAll(e, '>', "&gt;"), '"', "&quot;"), '\'', "&#039;") == e
    ensures from == 3 ==> ReplaceAll(ReplaceAll(e, '"', "&quot;"), '\'', "&#039;") == e
    ensures from == 4 ==> ReplaceAll(e, '\'', "&#039;") == e
  {
    if from <= 1 { ReplaceAllAbsent(e, '<', "&lt;"); }
    if from <= 2 { ReplaceAllAbsent(e, '>', "&gt;"); }
    if from <= 3 { ReplaceAllAbsent(e, '"', "&quot;"); }
    ReplaceAllAbsent(e, '\'', "&#039;");
  }

  /** A single character escapes to its entity: no later `replace` touches an earlier entity. */
  lemma EscapeChar(c: char)
    ensures Escape([c]) == Entity(c)
  {
    ReplaceAllSingle(c, '&', "&amp;");
    if c == '&' {
      EscapeTail("&amp;", 1);
    } else {
      ReplaceAllSingle(c, '<', "&lt;");
      if c == '<' {
        EscapeTail("&lt;", 2);
      } else {
        ReplaceAllSingle(c, '>', "&gt;");
        if c == '>' {
          EscapeTail("&gt;", 3);
        } else {
          ReplaceAllSingle(c, '"', "&quot;");
          if c == '"' {
            EscapeTail("&quot;", 4);
          } else {
            ReplaceAllSingle(c, '\'', "&#039;");
          }
        }
      }
    }
  }

  /** The replace chain escapes each character on its own: other characters stay, in order. */
  lemma {:induction false} EscapeIsPerChar(s: string)
    ensures Escape(s) == EscapeEach(s)
    decreases |s|
  {
    if s != [] {
      assert s == [s[0]] + s[1..];
      EscapeAppend([s[0]], s[1..]);
      EscapeChar(s[0]);
      EscapeIsPerChar(s[1..]);
    }
  }

  /** Text without the five special characters is left as it is, and only such text. */
  lemma {:induction false} EscapeIdentity(s: string)
    ensures EscapeEach(s) == s <==> forall k :: 0 <= k < |s| ==> !IsSpecial(s[k])
    decreases |s|
  {
    if s != [] {
      EscapeIdentity(s[1..]);
      assert forall k :: 1 <= k < |s| ==> s[k] == s[1..][k - 1];
      if IsSpecial(s[0]) {
        assert |EscapeEach(s)| >= |Entity(s[0])| - 1 + |s| > |s|;
      } else if EscapeEach(s) == s {
        assert EscapeEach(s[1..]) == s[1..];
      }
    }
  }

  /** Decoding the five entities. */
  function Unescape(s: string): string
    decreases |s|
  {
    if s == [] then []
    else if StartsWith(s, "&amp;") then "&" + Unescape(s[5..])
    else if StartsWith(s, "&lt;") then "<" + Unescape(s[4..])
    else if StartsWith(s, "&gt;") then ">" + Unescape(s[4..])
    else if StartsWith(s, "&quot;") then "\"" + Unescape(s[6..])
    else if StartsWith(s, "&#039;") then "'" + Unescape(s[6..])
    else [s[0]] + Unescape(s[1..])
  }

  /** An entity at the front of a text is decoded first, and nothing else of it. */
  lemma UnescapeEntity(c: char, rest: string)
    ensures Unescape(Entity(c) + rest) == [c] + Unescape(rest)
  {
    var e := Entity(c);
    var t := e + rest;
    assert t[|e|..] == rest;
    if c == '&' {
      assert t[..5] == "&amp;";
    } else if c == '<' {
      assert t[..4] == "&lt;" && t[1] == 'l';
      assert !StartsWith(t, "&amp;");
    } else if c == '>' {
      assert t[..4] == "&gt;" && t[1] == 'g';
      assert !StartsWith(t, "&amp;") && !StartsWith(t, "&lt;");
    } else if c == '"' {
      assert t[..6] == "&quot;" && t[1] == 'q';
      assert !StartsWith(t, "&amp;") && !StartsWith(t, "&lt;") && !StartsWith(t, "&gt;");
    } else if c == '\'' {
      assert t[..6] == "&#039;" && t[1] == '#';
      assert !StartsWith(t, "&amp;") && !StartsWith(t, "&lt;") && !StartsWith(t, "&gt;") && !StartsWith(t, "&quot;");
    } else {
      assert t[0] == c && t[1..] == rest;
      assert !StartsWith(t, "&amp;") && !StartsWith(t, "&lt;") && !StartsWith(t, "&gt;");
      assert !StartsWith(t, "&quot;") && !StartsWith(t, "&#039;");
    }
  }

  /** Decoding the entities recovers the text that was escaped. */
  lemma {:induction false} UnescapeEscape(s: string)
    ensures Unescape(Escape(s)) == s
    decreases |s|
  {
    EscapeIsPerChar(s);
    if s != [] {
      UnescapeEntity(s[0], EscapeEach(s[1..]));
      UnescapeEscape(s[1..]);
      EscapeIsPerChar(s[1..]);
    }
  }

  /** `sanitizeString`: falsy input gives "", anything else is converted and escaped. */
  function SanitizeString(input: JsValue): (r: string)
    ensures Falsy(input) ==> r == ""
    ensures NoMarkup(r)
  {
    EscapeIsPerChar(ToJsString(input));
    if Falsy(input) then "" else Escape(ToJsString(input))
  }

  /** The escaped text decodes back to `String(input)` for every truthy input. */
  lemma SanitizeStringRoundTrip(input: JsValue)
    requires !Falsy(input)
    ensures Unescape(SanitizeString(input)) == ToJsString(input)
  {
    UnescapeEscape(ToJsString(input));
  }

  // ---------------------------------------------------------------------
  // E-mail addresses
  // ---------------------------------------------------------------------

  /** `[a-zA-Z0-9._%+-]` */
  predicate IsLocalChar(c: char)
  {
    IsAsciiLetter(c) || IsDigit(c) || c == '.' || c == '_' || c == '%' || c == '+' || c == '-'
  }

  /** `[a-zA-Z0-9.-]` */
  predicate IsDomainChar(c: char)
  {
    IsAsciiLetter(c) || IsDigit(c) || c == '.' || c == '-'
  }

  /** One way for `e` to match: `e[..at]` local part, `@`, `e[at+1..dot]` domain, `.`, letters `e[dot+1..]`. */
  predicate EmailSplit(e: string, at: int, dot: int)
  {
    0 < at && at + 1 < dot && dot + 2 < |e| && e[at] == '@' && e[dot] == '.'
    && (forall k :: 0 <= k < at ==> IsLocalChar(e[k]))
    && (forall k :: at < k < dot ==> IsDomainChar(e[k]))
    && (forall k :: dot < k < |e| ==> IsAsciiLetter(e[k]))
  }

  /** `/^[a-zA-Z0-9._%+-]+@[a-zA-Z0-9.-]+\.[a-zA-Z]{2,}$/.test(e)`: some split matches. */
  predicate MatchesEmailPattern(e: string)
  {
    exists at, dot :: 0 <= at < |e| && 0 <= dot < |e| && EmailSplit(e, at, dot)
  }

  /** `isValidEmail`: a falsy value is rejected, anything else is matched as `String(email)`. */
  predicate IsValidEmail(email: JsValue)
  {
    !Falsy(email) && MatchesEmailPattern(ToJsString(email))
  }

  /** The length of the trailing run of ASCII letters. */
  function TrailingLetters(s: string): (n: nat)
    ensures n <= |s|
  {
    if s == [] || !IsAsciiLetter(s[|s| - 1]) then 0 else 1 + TrailingLetters(s[..|s| - 1])
  }

  lemma {:induction false} TrailingLettersSpec(s: string)
    ensures forall k :: |s| - TrailingLetters(s) <= k < |s| ==> IsAsciiLetter(s[k])
    ensures TrailingLetters(s) < |s| ==> !IsAsciiLetter(s[|s| - 1 - TrailingLetters(s)])
  {
    if s != [] && IsAsciiLetter(s[|s| - 1]) {
      var init := s[..|s| - 1];
      TrailingLettersSpec(init);
      assert forall k :: 0 <= k < |init| ==> init[k] == s[k];
    }
  }

  lemma {:induction false} TrailingLettersExact(s: string, n: nat)
    requires n <= |s|
    requires forall k :: |s| - n <= k < |s| ==> IsAsciiLetter(s[k])
    requires n < |s| ==> !IsAsciiLetter(s[|s| - 1 - n])
    ensures TrailingLetters(s) == n
  {
    if n > 0 {
      var init := s[..|s| - 1];
      assert forall k :: 0 <= k < |init| ==> init[k] == s[k];
      TrailingLettersExact(init, n - 1);
    }
  }

  /**
   * The shape the pattern describes, read off deterministically: exactly one
   * `@`, a non-empty local part of local characters, a domain of domain
   * characters that ends in `.` and two or more letters with at least one
   * character before that dot.
   */
  predicate EmailShape(e: string)
  {
    '@' in e &&
    var at := IndexOf(e, '@');
    var domain := e[at + 1..];
    var t := TrailingLetters(domain);
    at > 0 && '@' !in domain
    && (forall k :: 0 <= k < at ==> IsLocalChar(e[k]))
    && (forall k :: 0 <= k < |domain| ==> IsDomainChar(domain[k]))
    && t >= 2 && t + 2 <= |domain| && domain[|domain| - 1 - t] == '.'
  }

  lemma EmailShapeMatches(e: string)
    requires EmailShape(e)
    ensures MatchesEmailPattern(e)
  {
    var at := IndexOf(e, '@');
    var domain := e[at + 1..];
    var t := TrailingLetters(domain);
    var dot := at + |domain| - t;
    TrailingLettersSpec(domain);
    assert forall k :: at < k < |e| ==> e[k] == domain[k - at - 1];
    assert EmailSplit(e, at, dot);
  }

  /** The domain after the `@` of a match: domain characters only, ending in a dot and its letters. */
  lemma EmailSplitDomain(e: string, at: int, dot: int)
    requires EmailSplit(e, at, dot)
    ensures var domain := e[at + 1..];
            '@' !in domain && (forall k :: 0 <= k < |domain| ==> IsDomainChar(domain[k]))
            && TrailingLetters(domain) == |e| - dot - 1
  {
    var domain := e[at + 1..];
    assert forall k :: 0 <= k < |domain| ==> domain[k] == e[at + 1 + k];
    assert forall k :: 0 <= k < |domain| ==> IsDomainChar(domain[k]) && domain[k] != '@';
    TrailingLettersExact(domain, |e| - dot - 1);
  }

  lemma MatchesEmailShape(e: string, at: int, dot: int)
    requires EmailSplit(e, at, dot)
    ensures EmailShape(e)
  {
    assert IndexOf(e, '@') == at;
    EmailSplitDomain(e, at, dot);
  }

  /** The pattern holds exactly when the deterministic reading does. */
  lemma EmailPatternIff(e: string)
    ensures MatchesEmailPattern(e) <==> EmailShape(e)
  {
    if MatchesEmailPattern(e) {
      var at, dot :| 0 <= at < |e| && 0 <= dot < |e| && EmailSplit(e, at, dot);
      MatchesEmailShape(e, at, dot);
    }
    if EmailShape(e) {
      EmailShapeMatches(e);
    }
  }

  /** Every character of an address that matches is a letter, a digit or one of `._%+-@`: none of the five specials. */
  lemma PatternHasNoSpecial(e: string, k: int)
    requires MatchesEmailPattern(e) && 0 <= k < |e|
    ensures !IsSpecial(e[k])
  {
    var at, dot :| 0 <= at < |e| && 0 <= dot < |e| && EmailSplit(e, at, dot);
  }

  /** Escaping a text that holds a special character leaves an `&` in it. */
  lemma {:induction false} EscapeKeepsAmpersand(s: string, k: nat)
    requires k < |s| && IsSpecial(s[k])
    ensures '&' in EscapeEach(s)
    decreases k
  {
    if k == 0 {
      assert EscapeEach(s)[0] == Entity(s[0])[0];
    } else {
      EscapeKeepsAmpersand(s[1..], k - 1);
      var i :| 0 <= i < |EscapeEach(s[1..])| && EscapeEach(s[1..])[i] == '&';
      assert EscapeEach(s)[|Entity(s[0])| + i] == '&';
    }
  }

  /**
   * Storing the typed address through `sanitizeString` does not change the
   * verdict of `isValidEmail`: an address that matches has nothing to escape,
   * and one with a special character fails before and after.
   */
  lemma SanitizedEmailValidity(typed: string)
    ensures IsValidEmail(Str(SanitizeString(Str(typed)))) <==> IsValidEmail(Str(typed))
  {
    EscapeIsPerChar(typed);
    EscapeIdentity(typed);
    if exists k :: 0 <= k < |typed| && IsSpecial(typed[k]) {
      var k :| 0 <= k < |typed| && IsSpecial(typed[k]);
      if MatchesEmailPattern(typed) {
        PatternHasNoSpecial(typed, k);
      }
      var e := SanitizeString(Str(typed));
      EscapeKeepsAmpersand(typed, k);
      var i :| 0 <= i < |e| && e[i] == '&';
      if MatchesEmailPattern(e) {
        PatternHasNoSpecial(e, i);
      }
    }
  }

  // ---------------------------------------------------------------------
  // HH:MM times
  // ---------------------------------------------------------------------

  /** `[01]?[0-9]|2[0-3]` as a whole string. */
  predicate HourPattern(h: string)
  {
    (|h| == 1 && IsDigit(h[0]))
    || (|h| == 2 && (h[0] == '0' || h[0] == '1') && IsDigit(h[1]))
    || (|h| == 2 && h[0] == '2' && '0' <= h[1] <= '3')
  }

  /** `/^([01]?[0-9]|2[0-3]):[0-5][0-9]$/.test(t)` */
  predicate TimePattern(t: string)
  {
    |t| >= 3 && t[|t| - 3] == ':' && HourPattern(t[..|t| - 3]) && '0' <= t[|t| - 2] <= '5' && IsDigit(t[|t| - 1])
  }

  /** `isValidTime`: only a non-empty string can pass, and it is matched after `trim()`. */
  predicate IsValidTime(time: JsValue)
  {
    time.Str? && time.s != "" && TimePattern(Trim(time.s))
  }

  predicate AllDigits(s: string)
  {
    forall k :: 0 <= k < |s| ==> IsDigit(s[k])
  }

  lemma DigitsValueShort(s: string)
    requires AllDigits(s) && 1 <= |s| <= 2
    ensures |s| == 1 ==> DigitsValue(s) == (s[0] as int) - ('0' as int)
    ensures |s| == 2 ==> DigitsValue(s) == 10 * ((s[0] as int) - ('0' as int)) + ((s[1] as int) - ('0' as int))
  {
    if |s| == 2 {
      assert s[..1][..0] == [];
    } else {
      assert s[..0] == [];
    }
  }

  /** The pattern means: an hour of one or two digits up to 23, a colon, two minute digits up to 59. */
  lemma TimePatternMeaning(t: string)
    ensures TimePattern(t) <==>
      (|t| == 4 || |t| == 5) && t[|t| - 3] == ':'
      && AllDigits(t[..|t| - 3]) && DigitsValue(t[..|t| - 3]) <= 23
      && AllDigits(t[|t| - 2..]) && DigitsValue(t[|t| - 2..]) <= 59
  {
    if |t| == 4 || |t| == 5 {
      var h, m := t[..|t| - 3], t[|t| - 2..];
      assert m[0] == t[|t| - 2] && m[1] == t[|t| - 1];
      if AllDigits(h) { DigitsValueShort(h); }
      if AllDigits(m) { DigitsValueShort(m); }
    }
  }

  /** `"7:05"` passes. */
  lemma TimeExampleValid()
    ensures IsValidTime(Str("7:05"))
  {
    TrimOfEdgeless("7:05");
  }

  /** `"24:00"` fails: the hour is out of range. */
  lemma TimeExampleBadHour()
    ensures !IsValidTime(Str("24:00"))
  {
    TrimOfEdgeless("24:00");
    assert "24:00"[..2] == "24";
  }

  /** `"7:5"` fails: the minute needs two digits. */
  lemma TimeExampleShortMinute()
    ensures !IsValidTime(Str("7:5"))
  {
    TrimOfEdgeless("7:5");
  }

  // ---------------------------------------------------------------------
  // File names and display names
  // ---------------------------------------------------------------------

  /** `[/\\?%*:|"<>]` */
  predicate ForbiddenInFilename(c: char)
  {
    c == '/' || c == '\\' || c == '?' || c == '%' || c == '*' || c == ':' || c == '|' || c == '"' || c == '<' || c == '>'
  }

  predicate AllowedInFilename(c: char)
  {
    !ForbiddenInFilename(c)
  }

  /** The length of the leading run of dots (`/^\.+/`). */
  function LeadingDots(s: string): (n: nat)
    ensures n <= |s| && (n < |s| ==> s[n] != '.')
  {
    if s == [] || s[0] != '.' then 0 else 1 + LeadingDots(s[1..])
  }

  /** `sanitizeFilename`: drop the forbidden characters, then the leading dots. */
  function SanitizeFilename(filename: string): (r: string)
    ensures forall k :: 0 <= k < |r| ==> AllowedInFilename(r[k])
    ensures r != [] ==> r[0] != '.'
  {
    if filename == "" then ""
    else
      var kept := Filter(AllowedInFilename, filename);
      FilterMembers(AllowedInFilename, filename);
      assert forall k :: 0 <= k < |kept| ==> kept[k] in kept;
      kept[LeadingDots(kept)..]
  }

  /** The result only deletes characters of the name: it is a subsequence of it. */
  lemma FilenameSubsequence(filename: string)
    ensures IsSubsequence(SanitizeFilename(filename), filename)
  {
    if filename != "" {
      var kept := Filter(AllowedInFilename, filename);
      FilterSuffixSubsequence(AllowedInFilename, filename, LeadingDots(kept));
    }
  }

  /** Sanitising a sanitised name changes nothing. */
  lemma FilenameIdempotent(filename: string)
    ensures SanitizeFilename(SanitizeFilename(filename)) == SanitizeFilename(filename)
  {
    var r := SanitizeFilename(filename);
    if r != "" {
      FilterKeepsAll(AllowedInFilename, r);
      assert LeadingDots(r) == 0;
    }
  }

  /** Where a tag opened at `s[0]` ends: just past the next `>`, or at the end of the text. */
  function TagEnd(s: string): (n: nat)
    requires |s| >= 2
    ensures 2 <= n <= |s|
  {
    if '>' in s[1..] then IndexOf(s[1..], '>') + 2 else |s|
  }

  /**
   * `.replace(/<\/?[^>]+(>|$)/g, "")`: a `<` followed by a character other
   * than `>` starts a tag running to the next `>` or to the end; any other
   * character is kept and the scan moves on.
   */
  function StripTags(s: string): (r: string)
    ensures |r| <= |s|
    decreases |s|
  {
    if s == [] then []
    else if s[0] == '<' && |s| >= 2 && s[1] != '>' then StripTags(s[TagEnd(s)..])
    else [s[0]] + StripTags(s[1..])
  }

  lemma {:induction false} StripTagsNoTag(s: string)
    requires '<' !in s
    ensures StripTags(s) == s
    decreases |s|
  {
    if s != [] {
      StripTagsNoTag(s[1..]);
      assert [s[0]] + s[1..] == s;
    }
  }

  /** `[\w\s.,'-]`, with `\s` read as the fixed white-space set of `trim`. */
  predicate AllowedInName(c: char)
  {
    IsAsciiLetter(c) || IsDigit(c) || c == '_' || IsSpace(c) || c == '.' || c == ',' || c == '\'' || c == '-'
  }

  /** `createSafeDisplayName`: non-strings and "" give ""; otherwise tags, then disallowed characters, then outer white space go. */
  function CreateSafeDisplayName(name: JsValue): (r: string)
    ensures !name.Str? ==> r == ""
  {
    if !name.Str? || name.s == "" then ""
    else Trim(Filter(AllowedInName, StripTags(name.s)))
  }

  /** Every character of the result is allowed (so no `<` or `>`), and it has no white space at either end. */
  lemma DisplayNameSafe(name: JsValue)
    ensures var r := CreateSafeDisplayName(name);
            (forall k :: 0 <= k < |r| ==> AllowedInName(r[k])) && NoSpaceAtEdges(r)
  {
    if name.Str? && name.s != "" {
      var kept := Filter(AllowedInName, StripTags(name.s));
      var r := Trim(kept);
      FilterMembers(AllowedInName, StripTags(name.s));
      TrimEdges(kept);
      forall k | 0 <= k < |r| ensures AllowedInName(r[k]) {
        if r[k] !in kept { TrimKeepsAbsent(kept, r[k]); }
      }
    }
  }

  /** A safe display name is its own safe display name. */
  lemma DisplayNameIdempotent(name: JsValue)
    ensures var r := CreateSafeDisplayName(name);
            CreateSafeDisplayName(Str(r)) == r
  {
    var r := CreateSafeDisplayName(name);
    if r != "" {
      DisplayNameSafe(name);
      assert '<' !in r;
      StripTagsNoTag(r);
      FilterKeepsAll(AllowedInName, r);
      TrimOfEdgeless(r);
    }
  }

  // ---------------------------------------------------------------------
  // Objects
  // ---------------------------------------------------------------------

  /** `sanitizeObject` on a whole value: anything but an object comes back as it is. */
  function SanitizeValue(v: JsValue): (r: JsValue)
    ensures !v.Obj? ==> r == v
    ensures v.Obj? ==> r.Obj? && r.props.Keys == v.props.Keys
    decreases v, 0
  {
    match v
    case Obj(props) => Obj(map k | k in props :: SanitizeMember(props[k]))
    case _ => v
  }

  /** One property of the copy: a string is escaped, an object sanitised, anything else kept. */
  function SanitizeMember(v: JsValue): JsValue
    decreases v, 1
  {
    if v.Str? then Str(SanitizeString(v)) else SanitizeValue(v)
  }

  /** The source's `forEach` over a copy of the object, recursing into object properties. */
  method SanitizeObject(obj: JsValue) returns (sanitized: JsValue)
    ensures sanitized == SanitizeValue(obj)
    decreases obj, 1
  {
    if !obj.Obj? {
      return obj;
    }
    var props := obj.props;
    var copy := props;
    var keys := copy.Keys;
    while keys != {}
      invariant keys <= props.Keys && copy.Keys == props.Keys
      invariant forall k :: k in props && k !in keys ==> copy[k] == SanitizeMember(props[k])
      invariant forall k :: k in keys ==> copy[k] == props[k]
      decreases keys
    {
      var key :| key in keys;
      var value := SanitizeProperty(copy[key]);
      copy := copy[key := value];
      keys := keys - {key};
    }
    assert copy == map k | k in props :: SanitizeMember(props[k]);
    sanitized := Obj(copy);
  }

  /** The loop body for one property: escape a string, recurse into an object, keep anything else. */
  method SanitizeProperty(value: JsValue) returns (r: JsValue)
    ensures r == SanitizeMember(value)
    decreases value, 2
  {
    if value.Str? {
      r := Str(SanitizeString(value));
    } else if value.Obj? {
      r := SanitizeObject(value);
    } else {
      r := value;
    }
  }

  /** Every string property, at any depth, is free of `<`, `>`, `"` and `'`. */
  predicate CleanStrings(v: JsValue)
  {
    match v
    case Obj(props) => forall k :: k in props ==> (props[k].Str? ==> NoMarkup(props[k].s)) && CleanStrings(props[k])
    case _ => true
  }

  lemma {:induction false} SanitizeValueClean(v: JsValue)
    ensures v.Obj? ==> CleanStrings(SanitizeValue(v))
    decreases v
  {
    if v.Obj? {
      var r := SanitizeValue(v);
      forall k | k in r.props
        ensures (r.props[k].Str? ==> NoMarkup(r.props[k].s)) && CleanStrings(r.props[k])
      {
        var m := v.props[k];
        assert r.props[k] == SanitizeMember(m);
        if !m.Str? { SanitizeValueClean(m); }
      }
    }
  }

  /** Decoding every string property. */
  function UnescapeValue(v: JsValue): JsValue
  {
    match v
    case Str(s) => Str(Unescape(s))
    case Obj(props) => Obj(map k | k in props :: UnescapeValue(props[k]))
    case _ => v
  }

  /** Decoding the copy's strings gives back the original object: only strings were touched. */
  lemma {:induction false} SanitizeValueRoundTrip(v: JsValue)
    requires v.Obj?
    ensures UnescapeValue(SanitizeValue(v)) == v
    decreases v
  {
    var props := v.props;
    var r := UnescapeValue(SanitizeValue(v));
    forall k | k in props ensures r.props[k] == props[k] {
      var m := props[k];
      assert r.props[k] == UnescapeValue(SanitizeMember(m));
      if m.Str? {
        UnescapeEscape(m.s);
        assert Unescape(SanitizeString(m)) == m.s;
      } else if m.Obj? {
        SanitizeValueRoundTrip(m);
      }
    }
    assert r.props.Keys == props.Keys;
  }

  // ---------------------------------------------------------------------
  // The rule-priority validator
  // ---------------------------------------------------------------------

  /** A field's rules; an absent rule reads as `false`, `0` or "". */
  datatype Rules = Rules(required: bool, email: bool, time: bool, url: bool,
                         minLength: int, maxLength: int, pattern: string, patternMessage: string)

  /** `validations[field] || {}` for a field without rules. */
  const NoRules := Rules(false, false, false, false, 0, 0, "", "")

  /** The seven checks, in the order the source tries them. */
  datatype Rule = Required | Email | Time | Url | MinLength | MaxLength | Pattern

  function Rank(r: Rule): nat
  {
    match r
    case Required => 0 case Email => 1 case Time => 2 case Url => 3
    case MinLength => 4 case MaxLength => 5 case Pattern => 6
  }

  /** `isValidUrl`: only a non-empty string can pass; whether it parses as a URL is the parser's answer. */
  predicate IsValidUrl(url: JsValue, parses: string -> bool)
  {
    url.Str? && url.s != "" && parses(url.s)
  }

  /** Whether one rule rejects a value; `matches(pattern, text)` is `new RegExp(pattern).test(text)`. */
  predicate Fails(rule: Rule, value: JsValue, rules: Rules, parses: string -> bool, matches: (string, string) -> bool)
  {
    match rule
    case Required => rules.required && (Falsy(value) || (value.Str? && Trim(value.s) == ""))
    case Email => rules.email && !IsValidEmail(value)
    case Time => rules.time && !IsValidTime(value)
    case Url => rules.url && !IsValidUrl(value, parses)
    case MinLength => rules.minLength != 0 && value.Str? && |value.s| < rules.minLength
    case MaxLength => rules.maxLength != 0 && value.Str? && |value.s| > rules.maxLength
    case Pattern => rules.pattern != "" && value.Str? && !matches(rules.pattern, value.s)
  }

  /** The source's `if … else if …` chain: the rule whose message the field gets, if any. */
  function FirstFailing(value: JsValue, rules: Rules, parses: string -> bool, matches: (string, string) -> bool): Option<Rule>
  {
    if Fails(Required, value, rules, parses, matches) then Some(Required)
    else if Fails(Email, value, rules, parses, matches) then Some(Email)
    else if Fails(Time, value, rules, parses, matches) then Some(Time)
    else if Fails(Url, value, rules, parses, matches) then Some(Url)
    else if Fails(MinLength, value, rules, parses, matches) then Some(MinLength)
    else if Fails(MaxLength, value, rules, parses, matches) then Some(MaxLength)
    else if Fails(Pattern, value, rules, parses, matches) then Some(Pattern)
    else None
  }

  /** The chain reports the failing rule of lowest rank, and reports none only when every rule passes. */
  lemma FirstFailingIsFirst(value: JsValue, rules: Rules, parses: string -> bool, matches: (string, string) -> bool)
    ensures FirstFailing(value, rules, parses, matches).None? <==> forall r :: !Fails(r, value, rules, parses, matches)
    ensures FirstFailing(value, rules, parses, matches).Some? ==>
              var first := FirstFailing(value, rules, parses, matches).value;
              Fails(first, value, rules, parses, matches)
              && forall r :: Rank(r) < Rank(first) ==> !Fails(r, value, rules, parses, matches)
  {
    var f := FirstFailing(value, rules, parses, matches);
    if f.None? {
      forall r ensures !Fails(r, value, rules, parses, matches) {
        match r
        case Required => case Email => case Time => case Url =>
        case MinLength => case MaxLength => case Pattern =>
      }
    }
  }

  /** The message stored for a field that failed `rule`. */
  function Message(field: string, rule: Rule, rules: Rules): string
  {
    match rule
    case Required => field + " is required"
    case Email => "Please enter a valid email address"
    case Time => "Please enter a valid time in HH:MM format"
    case Url => "Please enter a valid URL"
    case MinLength => field + " must be at least " + IntToString(rules.minLength) + " characters"
    case MaxLength => field + " cannot exceed " + IntToString(rules.maxLength) + " characters"
    case Pattern => if rules.patternMessage != "" then rules.patternMessage else field + " format is invalid"
  }

  function RulesFor(validations: map<string, Rules>, field: string): Rules
  {
    if field in validations then validations[field] else NoRules
  }

  /** A string input is escaped; any other value is stored as it is. */
  function SanitizeInput(value: JsValue): (r: JsValue)
    ensures value.Str? <==> r.Str?
    ensures r.Str? ==> NoMarkup(r.s) && Unescape(r.s) == value.s
    ensures !value.Str? ==> r == value
  {
    if value.Str? then
      UnescapeEscape(value.s);
      Str(SanitizeString(value))
    else value
  }

  datatype Validation = Validation(isValid: bool, errors: map<string, string>, sanitizedInputs: map<string, JsValue>)

  /** The error a field gets, if any. */
  function FieldError(field: string, value: JsValue, validations: map<string, Rules>,
                      parses: string -> bool, matches: (string, string) -> bool): Option<string>
  {
    var rules := RulesFor(validations, field);
    match FirstFailing(value, rules, parses, matches)
    case None => None
    case Some(rule) => Some(Message(field, rule, rules))
  }

  /** The errors of the fields in `done`. */
  function ErrorsOf(inputs: map<string, JsValue>, done: set<string>, validations: map<string, Rules>,
                    parses: string -> bool, matches: (string, string) -> bool): map<string, string>
  {
    map f | f in inputs && f in done && FieldError(f, inputs[f], validations, parses, matches).Some?
      :: FieldError(f, inputs[f], validations, parses, matches).value
  }

  /** The sanitised copies of the fields in `done`. */
  function SanitizedOf(inputs: map<string, JsValue>, done: set<string>): map<string, JsValue>
  {
    map f | f in inputs && f in done :: SanitizeInput(inputs[f])
  }

  lemma ErrorsOfAdd(inputs: map<string, JsValue>, done: set<string>, field: string, validations: map<string, Rules>,
                    parses: string -> bool, matches: (string, string) -> bool)
    requires field in inputs
    ensures var e := FieldError(field, inputs[field], validations, parses, matches);
            ErrorsOf(inputs, done + {field}, validations, parses, matches)
              == if e.Some? then ErrorsOf(inputs, done, validations, parses, matches)[field := e.value]
                 else ErrorsOf(inputs, done, validations, parses, matches)
  {
  }

  lemma SanitizedOfAdd(inputs: map<string, JsValue>, done: set<string>, field: string)
    requires field in inputs
    ensures SanitizedOf(inputs, done + {field}) == SanitizedOf(inputs, done)[field := SanitizeInput(inputs[field])]
  {
  }

  /** What `validateAndSanitizeInputs` returns. */
  function Validate(inputs: map<string, JsValue>, validations: map<string, Rules>,
                    parses: string -> bool, matches: (string, string) -> bool): (v: Validation)
    ensures v.sanitizedInputs.Keys == inputs.Keys
    ensures forall f :: f in inputs ==> v.sanitizedInputs[f] == SanitizeInput(inputs[f])
    ensures forall f :: f in v.errors <==> f in inputs && FieldError(f, inputs[f], validations, parses, matches).Some?
    ensures forall f :: f in v.errors ==> v.errors[f] == FieldError(f, inputs[f], validations, parses, matches).value
    ensures v.isValid <==> forall f :: f in inputs ==> FieldError(f, inputs[f], validations, parses, matches).None?
  {
    var errors := ErrorsOf(inputs, inputs.Keys, validations, parses, matches);
    assert |errors| == 0 <==> errors.Keys == {};
    Validation(|errors| == 0, errors, SanitizedOf(inputs, inputs.Keys))
  }

  /** The chain of checks for one field, each branch storing its message. */
  method CheckField(field: string, value: JsValue, rules: Rules, parses: string -> bool, matches: (string, string) -> bool)
    returns (error: Option<string>)
    ensures error == (match FirstFailing(value, rules, parses, matches)
                      case None => None
                      case Some(rule) => Some(Message(field, rule, rules)))
  {
    ghost var first := FirstFailing(value, rules, parses, matches);
    if Fails(Required, value, rules, parses, matches) {
      assert first == Some(Required);
      error := Some(field + " is required");
    } else if Fails(Email, value, rules, parses, matches) {
      assert first == Some(Email);
      error := Some("Please enter a valid email address");
    } else if Fails(Time, value, rules, parses, matches) {
      assert first == Some(Time);
      error := Some("Please enter a valid time in HH:MM format");
    } else if Fails(Url, value, rules, parses, matches) {
      assert first == Some(Url);
      error := Some("Please enter a valid URL");
    } else if Fails(MinLength, value, rules, parses, matches) {
      assert first == Some(MinLength);
      error := Some(field + " must be at least " + IntToString(rules.minLength) + " characters");
    } else if Fails(MaxLength, value, rules, parses, matches) {
      assert first == Some(MaxLength);
      error := Some(field + " cannot exceed " + IntToString(rules.maxLength) + " characters");
    } else if Fails(Pattern, value, rules, parses, matches) {
      assert first == Some(Pattern);
      error := Some(if rules.patternMessage != "" then rules.patternMessage else field + " format is invalid");
    } else {
      assert first == None;
      error := None;
    }
  }

  /** The source's `forEach` filling `sanitizedInputs` and `errors` field by field. */
  method ValidateAndSanitizeInputs(inputs: map<string, JsValue>, validations: map<string, Rules>,
                                   parses: string -> bool, matches: (string, string) -> bool)
    returns (result: Validation)
    ensures result == Validate(inputs, validations, parses, matches)
  {
    var errors: map<string, string> := map[];
    var sanitizedInputs: map<string, JsValue> := map[];
    var fields := inputs.Keys;
    assert inputs.Keys - fields == {};
    while fields != {}
      invariant fields <= inputs.Keys
      invariant sanitizedInputs == SanitizedOf(inputs, inputs.Keys - fields)
      invariant errors == ErrorsOf(inputs, inputs.Keys - fields, validations, parses, matches)
      decreases fields
    {
      var field :| field in fields;
      var value := inputs[field];
      var rules := RulesFor(validations, field);
      if value.Str? {
        sanitizedInputs := sanitizedInputs[field := Str(SanitizeString(value))];
      } else {
        sanitizedInputs := sanitizedInputs[field := value];
      }
      var error := CheckField(field, value, rules, parses, matches);
      if error.Some? {
        errors := errors[field := error.value];
      }
      ErrorsOfAdd(inputs, inputs.Keys - fields, field, validations, parses, matches);
      SanitizedOfAdd(inputs, inputs.Keys - fields, field);
      assert inputs.Keys - (fields - {field}) == (inputs.Keys - fields) + {field};
      fields := fields - {field};
    }
    assert inputs.Keys - fields == inputs.Keys;
    result := Validation(|errors| == 0, errors, sanitizedInputs);
  }
}

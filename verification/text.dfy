/**
 * String primitives the JavaScript sources rely on: `trim`, `split` on one
 * character, `startsWith`, `includes`, decimal rendering of numbers and
 * `charCodeAt`.  A `string` is a sequence of Unicode scalar values (`char`);
 * this matches JavaScript's UTF-16 code units only for text inside the Basic
 * Multilingual Plane, where each character is one code unit.
 */
module Text {

  /** The characters `String.prototype.trim` removes, as a fixed set. */
  predicate IsSpace(c: char)
  {
    c == ' ' || c == '\t' || c == '\n' || c == '\r' || c == '\U{B}' || c == '\U{C}'
    || c == '\U{A0}' || c == '\U{FEFF}' || c == '\U{2028}' || c == '\U{2029}'
  }

  predicate IsDigit(c: char)
  {
    '0' <= c <= '9'
  }

  predicate IsAsciiLetter(c: char)
  {
    'a' <= c <= 'z' || 'A' <= c <= 'Z'
  }

  predicate NoSpaceAtEdges(s: string)
  {
    s == [] || (!IsSpace(s[0]) && !IsSpace(s[|s| - 1]))
  }

  predicate AllSpace(s: string)
  {
    forall k :: 0 <= k < |s| ==> IsSpace(s[k])
  }

  /** The length of the leading run of white space. */
  function LeadingSpaces(s: string): (n: nat)
    ensures n <= |s|
  {
    if s == [] || !IsSpace(s[0]) then 0 else 1 + LeadingSpaces(s[1..])
  }

  /** The length of the trailing run of white space. */
  function TrailingSpaces(s: string): (n: nat)
    ensures n <= |s|
  {
    if s == [] || !IsSpace(s[|s| - 1]) then 0 else 1 + TrailingSpaces(s[..|s| - 1])
  }

  /** `s.trim()`: the middle of `s` between its leading and trailing white space. */
  function Trim(s: string): string
  {
    var a := s[LeadingSpaces(s)..];
    a[..|a| - TrailingSpaces(a)]
  }

  lemma {:induction false} LeadingSpacesSpec(s: string)
    ensures AllSpace(s[..LeadingSpaces(s)])
    ensures LeadingSpaces(s) < |s| ==> !IsSpace(s[LeadingSpaces(s)])
  {
    if s != [] && IsSpace(s[0]) {
      LeadingSpacesSpec(s[1..]);
      var n := LeadingSpaces(s[1..]);
      var pre := s[..n + 1];
      forall k | 0 <= k < |pre| ensures IsSpace(pre[k]) {
        if k > 0 { assert pre[k] == s[1..][..n][k - 1]; }
      }
    }
  }

  lemma {:induction false} TrailingSpacesSpec(s: string)
    ensures AllSpace(s[|s| - TrailingSpaces(s)..])
    ensures TrailingSpaces(s) < |s| ==> !IsSpace(s[|s| - 1 - TrailingSpaces(s)])
  {
    if s != [] && IsSpace(s[|s| - 1]) {
      var init := s[..|s| - 1];
      TrailingSpacesSpec(init);
      var n := TrailingSpaces(init);
      var post := s[|s| - (n + 1)..];
      forall k | 0 <= k < |post| ensures IsSpace(post[k]) {
        if k < n { assert post[k] == init[|init| - n..][k]; }
      }
    }
  }

  /** The result of `trim` has no white space at either end. */
  lemma TrimEdges(s: string)
    ensures NoSpaceAtEdges(Trim(s))
  {
    LeadingSpacesSpec(s);
    var a := s[LeadingSpaces(s)..];
    TrailingSpacesSpec(a);
    var r := Trim(s);
    if r != [] {
      assert r[0] == a[0];
      assert TrailingSpaces(a) < |a|;
    }
  }

  lemma TrimOfEdgeless(s: string)
    requires NoSpaceAtEdges(s)
    ensures Trim(s) == s
  {
    var a := s[LeadingSpaces(s)..];
    assert a == s;
  }

  /** Trimming only removes characters: whatever is absent from `s` is absent from `s.trim()`. */
  lemma TrimKeepsAbsent(s: string, c: char)
    requires c !in s
    ensures c !in Trim(s)
  {
    var a := s[LeadingSpaces(s)..];
    assert forall k :: 0 <= k < |a| ==> a[k] == s[LeadingSpaces(s) + k];
    var r := Trim(s);
    assert forall k :: 0 <= k < |r| ==> r[k] == a[k];
  }

  lemma {:induction false} LeadingOfAllSpace(s: string)
    requires AllSpace(s)
    ensures LeadingSpaces(s) == |s|
  {
    if s != [] {
      assert IsSpace(s[0]);
      assert AllSpace(s[1..]) by {
        forall k | 0 <= k < |s[1..]| ensures IsSpace(s[1..][k]) { assert s[1..][k] == s[k + 1]; }
      }
      LeadingOfAllSpace(s[1..]);
    }
  }

  /** A line is blank for `row.trim().length > 0` exactly when it is all white space. */
  lemma TrimEmptyIffSpace(s: string)
    ensures Trim(s) == [] <==> AllSpace(s)
  {
    if AllSpace(s) {
      LeadingOfAllSpace(s);
    } else {
      LeadingSpacesSpec(s);
      var n := LeadingSpaces(s);
      var a := s[n..];
      assert a != [] && !IsSpace(a[0]);
      TrailingSpacesSpec(a);
      assert |Trim(s)| == |a| - TrailingSpaces(a) > 0;
    }
  }

  predicate StartsWith(s: string, prefix: string)
  {
    |prefix| <= |s| && s[..|prefix|] == prefix
  }

  /** `s.includes(part)`. */
  predicate Contains(s: string, part: string)
  {
    exists i :: 0 <= i <= |s| - |part| && OccursAt(s, part, i)
  }

  predicate OccursAt(s: string, part: string, i: int)
  {
    0 <= i <= |s| - |part| && s[i..i + |part|] == part
  }

  /** `s.split(sep)` for a one-character separator: the pieces between separators, at least one. */
  function Split(s: string, sep: char): (r: seq<string>)
    ensures |r| >= 1
    ensures forall k :: 0 <= k < |r| ==> sep !in r[k]
  {
    if s == [] then [""]
    else if s[0] == sep then [""] + Split(s[1..], sep)
    else
      var rest := Split(s[1..], sep);
      [[s[0]] + rest[0]] + rest[1..]
  }

  /** `pieces.join(sep)`: the inverse of `Split`. */
  function Join(pieces: seq<string>, sep: char): string
  {
    if pieces == [] then ""
    else if |pieces| == 1 then pieces[0]
    else pieces[0] + [sep] + Join(pieces[1..], sep)
  }

  /** The joined text is at least as long as each piece. */
  lemma {:induction false} JoinLength(pieces: seq<string>, sep: char, k: nat)
    requires k < |pieces|
    ensures |Join(pieces, sep)| >= |pieces[k]|
    decreases |pieces|
  {
    if |pieces| > 1 && k > 0 {
      JoinLength(pieces[1..], sep, k - 1);
    }
  }

  /** A character that is neither the separator nor in any piece is not in the joined text. */
  lemma {:induction false} JoinAvoids(pieces: seq<string>, sep: char, c: char)
    requires c != sep && forall k :: 0 <= k < |pieces| ==> c !in pieces[k]
    ensures c !in Join(pieces, sep)
    decreases |pieces|
  {
    if |pieces| > 1 {
      assert forall k :: 0 <= k < |pieces[1..]| ==> pieces[1..][k] == pieces[k + 1];
      JoinAvoids(pieces[1..], sep, c);
      assert c !in pieces[0];
    }
  }

  /** Splitting and joining back gives the original text. */
  lemma {:induction false} JoinSplit(s: string, sep: char)
    ensures Join(Split(s, sep), sep) == s
  {
    if s == [] {
    } else if s[0] == sep {
      JoinSplit(s[1..], sep);
    } else {
      JoinSplit(s[1..], sep);
      var rest := Split(s[1..], sep);
      if |rest| > 1 {
        assert Split(s, sep)[1..] == rest[1..];
      }
    }
  }

  /** A separator-free head splits off as the first piece. */
  lemma {:induction false} SplitCons(head: string, tail: string, sep: char)
    requires sep !in head
    ensures Split(head + [sep] + tail, sep) == [head] + Split(tail, sep)
  {
    if head == [] {
      assert head + [sep] + tail == [sep] + tail;
    } else {
      var t := head + [sep] + tail;
      assert t[0] == head[0] && t[1..] == head[1..] + [sep] + tail;
      SplitCons(head[1..], tail, sep);
      var rest := Split(t[1..], sep);
      assert Split(t, sep) == [[t[0]] + rest[0]] + rest[1..];
      assert [head[0]] + head[1..] == head;
    }
  }

  /** Text without the separator is a single piece. */
  lemma {:induction false} SplitNone(s: string, sep: char)
    requires sep !in s
    ensures Split(s, sep) == [s]
  {
    if s != [] {
      assert s[0] != sep;
      SplitNone(s[1..], sep);
      assert [s[0]] + s[1..] == s;
    }
  }

  /** An empty last piece adds one separator at the end. */
  lemma {:induction false} JoinSnocEmpty(pieces: seq<string>, sep: char)
    requires pieces != []
    ensures Join(pieces + [""], sep) == Join(pieces, sep) + [sep]
    decreases |pieces|
  {
    var ps := pieces + [""];
    if |pieces| == 1 {
      assert ps[1..] == [""];
    } else {
      assert ps[1..] == pieces[1..] + [""];
      JoinSnocEmpty(pieces[1..], sep);
    }
  }

  /** Joining separator-free pieces and splitting again gives the pieces back. */
  lemma {:induction false} SplitJoin(pieces: seq<string>, sep: char)
    requires pieces != []
    requires forall k :: 0 <= k < |pieces| ==> sep !in pieces[k]
    ensures Split(Join(pieces, sep), sep) == pieces
    decreases |pieces|
  {
    if |pieces| == 1 {
      SplitNone(pieces[0], sep);
    } else {
      SplitCons(pieces[0], Join(pieces[1..], sep), sep);
      SplitJoin(pieces[1..], sep);
    }
  }

  /** `s.indexOf(c)` when `c` occurs. */
  function IndexOf(s: string, c: char): (i: nat)
    requires c in s
    ensures i < |s| && s[i] == c && c !in s[..i]
  {
    if s[0] == c then 0
    else
      var i := IndexOf(s[1..], c);
      assert s[..i + 1] == [s[0]] + s[1..][..i];
      i + 1
  }

  /** Decimal digits of a natural number, without leading zeros (`String(n)`). */
  function NatToString(n: nat): (r: string)
    ensures |r| >= 1 && (forall k :: 0 <= k < |r| ==> IsDigit(r[k]))
    ensures |r| > 1 ==> r[0] != '0'
    decreases n
  {
    if n < 10 then [DigitChar(n)]
    else NatToString(n / 10) + [DigitChar(n % 10)]
  }

  function DigitChar(d: nat): (c: char)
    requires d < 10
    ensures IsDigit(c) && (c as int) - ('0' as int) == d
  {
    ('0' as int + d) as char
  }

  /** `String(i)` for an integer. */
  function IntToString(i: int): string
  {
    if i < 0 then "-" + NatToString(-i) else NatToString(i)
  }

  /** The value of a string of decimal digits. */
  function DigitsValue(s: string): nat
    requires forall k :: 0 <= k < |s| ==> IsDigit(s[k])
  {
    if s == [] then 0
    else
      assert IsDigit(s[|s| - 1]);
      10 * DigitsValue(s[..|s| - 1]) + ((s[|s| - 1] as int) - ('0' as int))
  }

  /** Reading the digits back gives the number. */
  lemma {:induction false} DigitsValueOfNat(n: nat)
    ensures DigitsValue(NatToString(n)) == n
    decreases n
  {
    if n >= 10 {
      DigitsValueOfNat(n / 10);
      var s := NatToString(n);
      assert s[..|s| - 1] == NatToString(n / 10);
    }
  }

  /** The sum of the character codes of `s` (`split("").reduce((a, c) => a + c.charCodeAt(0), 0)`). */
  function CharCodeSum(s: string): nat
  {
    if s == [] then 0 else CharCodeSum(s[..|s| - 1]) + (s[|s| - 1] as int)
  }

  lemma {:induction false} CharCodeSumAppend(a: string, b: string)
    ensures CharCodeSum(a + b) == CharCodeSum(a) + CharCodeSum(b)
  {
    if b != [] {
      assert (a + b)[..|a + b| - 1] == a + b[..|b| - 1];
      CharCodeSumAppend(a, b[..|b| - 1]);
    } else {
      assert a + b == a;
    }
  }
}

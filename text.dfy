/**
 * The Python string primitives the triage tool relies on, as the interpreter
 * defines them: str.isspace and str.strip, str.lower on ASCII letters,
 * str.split and str.join on one separator character, str(int), int(str) and
 * the "0<width>d" format specification.
 */
module Text {
  import opened Wrappers

  /** Python's str.isspace() for one character. */
  predicate IsSpace(c: char) {
    || ('\t' <= c <= '\r')
    || ('\U{1C}' <= c <= '\U{1F}')
    || c == ' ' || c == '\U{85}' || c == '\U{A0}' || c == '\U{1680}'
    || ('\U{2000}' <= c <= '\U{200A}')
    || c == '\U{2028}' || c == '\U{2029}' || c == '\U{202F}' || c == '\U{205F}' || c == '\U{3000}'
  }

  predicate AllSpace(s: string) {
    forall k :: 0 <= k < |s| ==> IsSpace(s[k])
  }

  /** The number of whitespace characters at the start of s. */
  function LeadingSpace(s: string): (n: nat)
    ensures n <= |s|
  {
    if s == [] || !IsSpace(s[0]) then 0 else LeadingSpace(s[1..]) + 1
  }

  /** The number of whitespace characters at the end of s. */
  function TrailingSpace(s: string): (n: nat)
    ensures n <= |s|
  {
    if s == [] || !IsSpace(s[|s| - 1]) then 0 else TrailingSpace(s[..|s| - 1]) + 1
  }

  /** The leading run counted is all whitespace and is followed by a character that is not. */
  lemma {:induction false} LeadingSpaceIsRun(s: string)
    ensures AllSpace(s[..LeadingSpace(s)])
    ensures LeadingSpace(s) < |s| ==> !IsSpace(s[LeadingSpace(s)])
  {
    if s != [] && IsSpace(s[0]) {
      LeadingSpaceIsRun(s[1..]);
      var m := LeadingSpace(s[1..]);
      assert s[..m + 1] == [s[0]] + s[1..][..m];
    }
  }

  /** The trailing run counted is all whitespace and is preceded by a character that is not. */
  lemma {:induction false} TrailingSpaceIsRun(s: string)
    ensures AllSpace(s[|s| - TrailingSpace(s)..])
    ensures TrailingSpace(s) < |s| ==> !IsSpace(s[|s| - TrailingSpace(s) - 1])
  {
    if s != [] && IsSpace(s[|s| - 1]) {
      TrailingSpaceIsRun(s[..|s| - 1]);
      var m := TrailingSpace(s[..|s| - 1]);
      assert s[|s| - (m + 1)..] == s[..|s| - 1][|s| - 1 - m..] + [s[|s| - 1]];
    }
  }

  /** Python's str.strip() with no argument: s without its leading and trailing whitespace. */
  function Strip(s: string): (r: string)
    ensures |r| <= |s|
  {
    var a := LeadingSpace(s);
    var b := TrailingSpace(s[a..]);
    s[a..|s| - b]
  }

  /** What strip leaves is a slice of s with only whitespace around it, and it neither starts nor ends with whitespace. */
  lemma StripIsSlice(s: string) returns (i: nat)
    ensures i + |Strip(s)| <= |s| && Strip(s) == s[i..i + |Strip(s)|]
    ensures AllSpace(s[..i]) && AllSpace(s[i + |Strip(s)|..])
    ensures Strip(s) == [] || (!IsSpace(Strip(s)[0]) && !IsSpace(Strip(s)[|Strip(s)| - 1]))
  {
    i := LeadingSpace(s);
    LeadingSpaceIsRun(s);
    var t := s[i..];
    var b := TrailingSpace(t);
    TrailingSpaceIsRun(t);
    assert s[|s| - b..] == t[|t| - b..];
    var r := Strip(s);
    if r != [] {
      assert r[0] == s[i];
      assert r[|r| - 1] == t[|t| - b - 1];
    }
  }

  lemma {:induction false} LeadingOfPadded(p: string, t: string)
    requires AllSpace(p)
    requires t == [] || !IsSpace(t[0])
    ensures LeadingSpace(p + t) == |p|
  {
    if p != [] {
      assert (p + t)[0] == p[0] && (p + t)[1..] == p[1..] + t;
      LeadingOfPadded(p[1..], t);
    } else {
      assert p + t == t;
    }
  }

  lemma {:induction false} TrailingOfPadded(t: string, q: string)
    requires AllSpace(q)
    requires t == [] || !IsSpace(t[|t| - 1])
    ensures TrailingSpace(t + q) == |q|
  {
    if q != [] {
      var s := t + q;
      assert s[|s| - 1] == q[|q| - 1] && s[..|s| - 1] == t + q[..|q| - 1];
      TrailingOfPadded(t, q[..|q| - 1]);
    } else {
      assert t + q == t;
    }
  }

  /** Stripping removes exactly the whitespace padding around a word that neither starts nor ends with whitespace. */
  lemma StripPadded(p: string, w: string, q: string)
    requires AllSpace(p) && AllSpace(q)
    requires w == [] || (!IsSpace(w[0]) && !IsSpace(w[|w| - 1]))
    ensures Strip(p + w + q) == w
  {
    var s := p + w + q;
    if w == [] {
      assert s == (p + q) + [];
      assert AllSpace(p + q) by {
        forall k | 0 <= k < |p + q| ensures IsSpace((p + q)[k]) {
          if k < |p| { assert (p + q)[k] == p[k]; } else { assert (p + q)[k] == q[k - |p|]; }
        }
      }
      LeadingOfPadded(p + q, []);
    } else {
      assert s == p + (w + q);
      LeadingOfPadded(p, w + q);
      assert s[|p|..] == w + q;
      TrailingOfPadded(w, q);
    }
  }

  lemma StripUnpadded(w: string)
    requires w == [] || (!IsSpace(w[0]) && !IsSpace(w[|w| - 1]))
    ensures Strip(w) == w
  {
    StripPadded([], w, []);
    assert [] + w + [] == w;
  }

  /** Python's str.lower() restricted to ASCII letters; every other character is left as it is. */
  function LowerChar(c: char): char {
    if 'A' <= c <= 'Z' then (c as int + 32) as char else c
  }

  function LowerAscii(s: string): string {
    seq(|s|, k requires 0 <= k < |s| => LowerChar(s[k]))
  }

  /** Python's sep.join(parts) for a one-character separator. */
  function Join(parts: seq<string>, sep: char): string {
    if |parts| == 0 then ""
    else if |parts| == 1 then parts[0]
    else parts[0] + [sep] + Join(parts[1..], sep)
  }

  /** Python's s.split(sep) for a one-character separator: the pieces between separators, never an empty list. */
  function Split(s: string, sep: char): (r: seq<string>)
    ensures |r| >= 1
    ensures forall k :: 0 <= k < |r| ==> sep !in r[k]
    ensures Join(r, sep) == s
  {
    if s == [] then [[]]
    else
      var rest := Split(s[1..], sep);
      if s[0] == sep then
        assert ([[]] + rest)[1..] == rest;
        [[]] + rest
      else
        var r := [[s[0]] + rest[0]] + rest[1..];
        assert r[1..] == rest[1..];
        assert forall k :: 1 <= k < |r| ==> r[k] == rest[k];
        r
  }

  lemma {:induction false} SplitNoSep(p: string, sep: char)
    requires sep !in p
    ensures Split(p, sep) == [p]
  {
    if p != [] {
      SplitNoSep(p[1..], sep);
      assert [p[0]] + p[1..] == p;
    }
  }

  lemma {:induction false} SplitAtSep(p: string, sep: char, t: string)
    requires sep !in p
    ensures Split(p + [sep] + t, sep) == [p] + Split(t, sep)
  {
    var s := p + [sep] + t;
    if p == [] {
      assert s[0] == sep && s[1..] == t;
    } else {
      assert s[0] == p[0] && s[1..] == p[1..] + [sep] + t;
      SplitAtSep(p[1..], sep, t);
      assert [p[0]] + p[1..] == p;
    }
  }

  /** Splitting a join gives back the parts, when no part contains the separator. */
  lemma {:induction false} SplitOfJoin(parts: seq<string>, sep: char)
    requires |parts| >= 1
    requires forall k :: 0 <= k < |parts| ==> sep !in parts[k]
    ensures Split(Join(parts, sep), sep) == parts
  {
    if |parts| == 1 {
      SplitNoSep(parts[0], sep);
    } else {
      SplitOfJoin(parts[1..], sep);
      SplitAtSep(parts[0], sep, Join(parts[1..], sep));
      assert [parts[0]] + parts[1..] == parts;
    }
  }

  predicate IsDigit(c: char) {
    '0' <= c <= '9'
  }

  function DigitValue(c: char): nat
    requires IsDigit(c)
  {
    c as int - '0' as int
  }

  function DigitChar(d: nat): (c: char)
    requires d < 10
    ensures IsDigit(c) && DigitValue(c) == d
  {
    ('0' as int + d) as char
  }

  predicate DigitsOrUnderscores(s: string) {
    forall k :: 0 <= k < |s| ==> IsDigit(s[k]) || s[k] == '_'
  }

  /** The value of a decimal literal, underscores skipped. */
  function DigitsValue(s: string): nat
    requires DigitsOrUnderscores(s)
  {
    if s == [] then 0
    else if s[|s| - 1] == '_' then DigitsValue(s[..|s| - 1])
    else 10 * DigitsValue(s[..|s| - 1]) + DigitValue(s[|s| - 1])
  }

  /** The digits Python's int() accepts in base 10: digits, each underscore between two digits. */
  predicate IsDigitRun(s: string) {
    && |s| >= 1 && IsDigit(s[0]) && IsDigit(s[|s| - 1])
    && DigitsOrUnderscores(s)
    && forall k :: 0 <= k < |s| - 1 ==> !(s[k] == '_' && s[k + 1] == '_')
  }

  /** Python's str() of a non-negative int: its decimal digits, without leading zeros. */
  function NatToString(n: nat): (r: string)
    ensures |r| >= 1 && forall k :: 0 <= k < |r| ==> IsDigit(r[k])
    ensures DigitsValue(r) == n
    ensures |r| > 1 ==> r[0] != '0'
  {
    if n < 10 then
      var r := [DigitChar(n)];
      assert r[..0] == [];
      r
    else
      var x := NatToString(n / 10);
      var r := x + [DigitChar(n % 10)];
      assert r[..|r| - 1] == x;
      r
  }

  /** Python's str() of an int. */
  function IntToString(n: int): string {
    if n < 0 then "-" + NatToString(-n) else NatToString(n)
  }

  /** Python's int(s) in base 10; None where int() raises ValueError. Non-ASCII digits are not modelled. */
  function PyInt(s: string): Option<int> {
    var t := Strip(s);
    if |t| >= 1 && (t[0] == '-' || t[0] == '+') then
      if IsDigitRun(t[1..]) then
        var v: int := DigitsValue(t[1..]);
        Some(if t[0] == '-' then -v else v)
      else None
    else if IsDigitRun(t) then Some(DigitsValue(t))
    else None
  }

  /** int() of an optional minus sign followed by a run of digits. */
  lemma PyIntOfSigned(r: string, body: string, neg: bool)
    requires IsDigitRun(body)
    requires r == (if neg then "-" else "") + body
    ensures PyInt(r) == Some(if neg then -(DigitsValue(body) as int) else DigitsValue(body) as int)
  {
    assert r[|r| - 1] == body[|body| - 1];
    assert !IsSpace(r[0]) && !IsSpace(r[|r| - 1]);
    StripUnpadded(r);
    if neg {
      assert r[0] == '-' && r[1..] == body;
    } else {
      assert r == body && r[0] != '-' && r[0] != '+';
    }
  }

  /** int(str(n)) == n. */
  lemma PyIntOfIntToString(n: int)
    ensures PyInt(IntToString(n)) == Some(n)
  {
    var d := NatToString(if n < 0 then -n else n);
    PyIntOfSigned(IntToString(n), d, n < 0);
  }

  function Zeros(k: nat): (r: string)
    ensures |r| == k && forall j :: 0 <= j < k ==> r[j] == '0'
  {
    seq(k, j => '0')
  }

  lemma {:induction false} LeadingZeros(k: nat, d: string)
    requires DigitsOrUnderscores(d)
    ensures DigitsOrUnderscores(Zeros(k) + d)
    ensures DigitsValue(Zeros(k) + d) == DigitsValue(d)
    decreases |d|, k
  {
    var s := Zeros(k) + d;
    if d == [] {
      assert s == Zeros(k);
      if k > 0 {
        assert s[..|s| - 1] == Zeros(k - 1) + [];
        LeadingZeros(k - 1, []);
      }
    } else {
      assert s[..|s| - 1] == Zeros(k) + d[..|d| - 1];
      LeadingZeros(k, d[..|d| - 1]);
    }
  }

  function Max(a: int, b: int): int {
    if a < b then b else a
  }

  lemma DigitRunOfPadded(pad: nat, digits: string)
    requires |digits| >= 1 && forall k :: 0 <= k < |digits| ==> IsDigit(digits[k])
    ensures IsDigitRun(Zeros(pad) + digits)
    ensures DigitsValue(Zeros(pad) + digits) == DigitsValue(digits)
  {
    var body := Zeros(pad) + digits;
    assert forall k :: 0 <= k < |body| ==> IsDigit(body[k]);
    assert body[|body| - 1] == digits[|digits| - 1];
    LeadingZeros(pad, digits);
  }

  /**
   * Python's format(n, "0<width>d"): the sign, then zeros, then the digits
   * of |n|, padded to at least width characters.
   */
  function ZeroPadded(n: int, width: nat): string
  {
    var sign := if n < 0 then "-" else "";
    var digits := NatToString(if n < 0 then -n else n);
    var used := |sign| + |digits|;
    var pad := if width > used then width - used else 0;
    sign + (Zeros(pad) + digits)
  }

  /** The padded string is the sign, some zeros, then str() of the magnitude of n. */
  lemma ZeroPaddedParts(n: int, width: nat) returns (pad: nat)
    ensures ZeroPadded(n, width) == (if n < 0 then "-" else "") + (Zeros(pad) + NatToString(if n < 0 then -n else n))
  {
    if n < 0 {
      var digits := NatToString(-n);
      pad := if width > 1 + |digits| then width - 1 - |digits| else 0;
    } else {
      var digits := NatToString(n);
      pad := if width > |digits| then width - |digits| else 0;
    }
  }

  /** The padded string is as long as the width, or as str(n) when that is longer. */
  lemma ZeroPaddedLength(n: int, width: nat)
    ensures |ZeroPadded(n, width)| == Max(width, |IntToString(n)|)
  {
    var pad := ZeroPaddedParts(n, width);
  }

  /** The padded string is the sign followed by a digit run whose value is the magnitude of n. */
  lemma ZeroPaddedShape(n: int, width: nat) returns (body: string)
    ensures IsDigitRun(body) && DigitsValue(body) == if n < 0 then -n else n
    ensures ZeroPadded(n, width) == (if n < 0 then "-" else "") + body
  {
    var pad := ZeroPaddedParts(n, width);
    var digits := NatToString(if n < 0 then -n else n);
    body := Zeros(pad) + digits;
    DigitRunOfPadded(pad, digits);
  }

  /** Whatever the width, int() reads the padded string back as the number. */
  lemma ZeroPaddedParses(n: int, width: nat)
    ensures PyInt(ZeroPadded(n, width)) == Some(n)
  {
    var body := ZeroPaddedShape(n, width);
    PyIntOfSigned(ZeroPadded(n, width), body, n < 0);
  }
}

/**
 * What `_comb_logs` keeps from one log file, and what it writes to the report
 * for each configured log path.
 *
 * A log line is selected when the pattern `^.*error.*$|^.*warning.*$`
 * (IGNORECASE, MULTILINE) matches it: with MULTILINE, `^` and `$` sit at the
 * ends of each newline-delimited line and `.` never crosses a newline, so every
 * match is one whole line. A selected line is kept when it starts with a
 * `YYYY-MM-DD HH:MM:SS` stamp that `strptime` accepts and that is at or after
 * the cutoff. A stamp that has the right shape but is no real date makes
 * `strptime` raise, and the whole file then contributes nothing but its header.
 */
module LogComb {
  import opened Wrappers
  import opened Text

  // ---------------------------------------------------------------------------
  // Naive datetimes, as Python's datetime compares them

  datatype DateTime = DateTime(year: int, month: int, day: int, hour: int, minute: int, second: int, microsecond: int)

  predicate IsLeapYear(y: int) {
    y % 4 == 0 && (y % 100 != 0 || y % 400 == 0)
  }

  function DaysInMonth(y: int, m: int): int
    requires 1 <= m <= 12
  {
    if m == 2 then (if IsLeapYear(y) then 29 else 28)
    else if m == 4 || m == 6 || m == 9 || m == 11 then 30
    else 31
  }

  /** The values datetime(...) accepts without raising ValueError. */
  predicate ValidDateTime(t: DateTime) {
    && 1 <= t.year <= 9999
    && 1 <= t.month <= 12
    && 1 <= t.day <= DaysInMonth(t.year, t.month)
    && 0 <= t.hour <= 23
    && 0 <= t.minute <= 59
    && 0 <= t.second <= 59
    && 0 <= t.microsecond <= 999999
  }

  /** t >= c for naive datetimes: field by field, most significant first. */
  predicate AtOrAfter(t: DateTime, c: DateTime) {
    if t.year != c.year then t.year > c.year
    else if t.month != c.month then t.month > c.month
    else if t.day != c.day then t.day > c.day
    else if t.hour != c.hour then t.hour > c.hour
    else if t.minute != c.minute then t.minute > c.minute
    else if t.second != c.second then t.second > c.second
    else t.microsecond >= c.microsecond
  }

  /** The window is closed at the cutoff and the comparison is a total order. */
  lemma AtOrAfterIsTotalOrder(a: DateTime, b: DateTime, c: DateTime)
    ensures AtOrAfter(a, a)
    ensures AtOrAfter(a, b) || AtOrAfter(b, a)
    ensures AtOrAfter(a, b) && AtOrAfter(b, a) ==> a == b
    ensures AtOrAfter(a, b) && AtOrAfter(b, c) ==> AtOrAfter(a, c)
  {
  }

  // ---------------------------------------------------------------------------
  // The timestamp prefix: the pattern `^(\d{4}-\d{2}-\d{2} \d{2}:\d{2}:\d{2})`
  // followed by strptime(..., "%Y-%m-%d %H:%M:%S")

  /** The line starts with the 19 characters the time pattern matches (ASCII digits). */
  predicate HasStampShape(line: string) {
    && |line| >= 19
    && IsDigit(line[0]) && IsDigit(line[1]) && IsDigit(line[2]) && IsDigit(line[3]) && line[4] == '-'
    && IsDigit(line[5]) && IsDigit(line[6]) && line[7] == '-'
    && IsDigit(line[8]) && IsDigit(line[9]) && line[10] == ' '
    && IsDigit(line[11]) && IsDigit(line[12]) && line[13] == ':'
    && IsDigit(line[14]) && IsDigit(line[15]) && line[16] == ':'
    && IsDigit(line[17]) && IsDigit(line[18])
  }

  function TwoDigits(a: char, b: char): nat
    requires IsDigit(a) && IsDigit(b)
  {
    10 * DigitValue(a) + DigitValue(b)
  }

  /** The fields strptime reads from the stamp; a parsed datetime has no microseconds. */
  function StampFields(line: string): DateTime
    requires HasStampShape(line)
  {
    DateTime(100 * TwoDigits(line[0], line[1]) + TwoDigits(line[2], line[3]),
             TwoDigits(line[5], line[6]), TwoDigits(line[8], line[9]),
             TwoDigits(line[11], line[12]), TwoDigits(line[14], line[15]), TwoDigits(line[17], line[18]), 0)
  }

  /** Outcome of the stamp test on one line: no stamp, a stamp strptime rejects, or a datetime. */
  datatype Stamp = NoStamp | BadStamp | Stamp(at: DateTime)

  function ReadStamp(line: string): Stamp {
    if !HasStampShape(line) then NoStamp
    else
      var t := StampFields(line);
      if ValidDateTime(t) then Stamp(t) else BadStamp
  }

  function Pad2(v: nat): string
    requires v < 100
  {
    [DigitChar(v / 10), DigitChar(v % 10)]
  }

  predicate Printable(t: DateTime) {
    0 <= t.year <= 9999 && 0 <= t.month <= 99 && 0 <= t.day <= 99
    && 0 <= t.hour <= 99 && 0 <= t.minute <= 99 && 0 <= t.second <= 99
  }

  /** strftime("%Y-%m-%d %H:%M:%S") of a datetime whose fields fit their widths. */
  function FormatStamp(t: DateTime): string
    requires Printable(t)
  {
    Pad2(t.year / 100) + Pad2(t.year % 100) + "-" + Pad2(t.month) + "-" + Pad2(t.day) + " "
    + Pad2(t.hour) + ":" + Pad2(t.minute) + ":" + Pad2(t.second)
  }

  lemma Pad2OfTwoDigits(a: char, b: char)
    requires IsDigit(a) && IsDigit(b)
    ensures TwoDigits(a, b) < 100 && Pad2(TwoDigits(a, b)) == [a, b]
  {
    var v := TwoDigits(a, b);
    assert v / 10 == DigitValue(a) && v % 10 == DigitValue(b);
  }

  lemma TwoDigitsOfPad2(v: nat)
    requires v < 100
    ensures TwoDigits(Pad2(v)[0], Pad2(v)[1]) == v
  {
  }

  /** A stamp that strptime accepts prints back as the line's first 19 characters. */
  lemma StampRoundTrip(line: string)
    requires ReadStamp(line).Stamp?
    ensures ReadStamp(line).at.microsecond == 0 && ValidDateTime(ReadStamp(line).at)
    ensures FormatStamp(ReadStamp(line).at) == line[..19]
  {
    var t := ReadStamp(line).at;
    var hi, lo := TwoDigits(line[0], line[1]), TwoDigits(line[2], line[3]);
    Pad2OfTwoDigits(line[0], line[1]);
    Pad2OfTwoDigits(line[2], line[3]);
    assert t.year / 100 == hi && t.year % 100 == lo;
    Pad2OfTwoDigits(line[5], line[6]);
    Pad2OfTwoDigits(line[8], line[9]);
    Pad2OfTwoDigits(line[11], line[12]);
    Pad2OfTwoDigits(line[14], line[15]);
    Pad2OfTwoDigits(line[17], line[18]);
    assert line[..19] == [line[0], line[1]] + [line[2], line[3]] + "-" + [line[5], line[6]] + "-" + [line[8], line[9]] + " "
      + [line[11], line[12]] + ":" + [line[14], line[15]] + ":" + [line[17], line[18]];
  }

  /** Every real datetime, printed at the head of a line, is read back (without its microseconds). */
  lemma StampComplete(t: DateTime, rest: string)
    requires ValidDateTime(t)
    ensures ReadStamp(FormatStamp(t) + rest) == Stamp(t.(microsecond := 0))
  {
    var line := FormatStamp(t) + rest;
    TwoDigitsOfPad2(t.year / 100);
    TwoDigitsOfPad2(t.year % 100);
    TwoDigitsOfPad2(t.month);
    TwoDigitsOfPad2(t.day);
    TwoDigitsOfPad2(t.hour);
    TwoDigitsOfPad2(t.minute);
    TwoDigitsOfPad2(t.second);
    assert line[0] == Pad2(t.year / 100)[0] && line[1] == Pad2(t.year / 100)[1];
    assert line[2] == Pad2(t.year % 100)[0] && line[3] == Pad2(t.year % 100)[1];
    assert line[5] == Pad2(t.month)[0] && line[6] == Pad2(t.month)[1];
    assert line[8] == Pad2(t.day)[0] && line[9] == Pad2(t.day)[1];
    assert line[11] == Pad2(t.hour)[0] && line[12] == Pad2(t.hour)[1];
    assert line[14] == Pad2(t.minute)[0] && line[15] == Pad2(t.minute)[1];
    assert line[17] == Pad2(t.second)[0] && line[18] == Pad2(t.second)[1];
    assert HasStampShape(line);
    assert StampFields(line) == t.(microsecond := 0);
  }

  /** A stamp strptime rejects is the print of no real datetime. */
  lemma BadStampIsNoDate(line: string, t: DateTime)
    requires ReadStamp(line).BadStamp?
    requires ValidDateTime(t)
    ensures FormatStamp(t) != line[..19]
  {
    var rest := line[19..];
    StampComplete(t, rest);
    assert ReadStamp(FormatStamp(t) + rest) != ReadStamp(line);
    assert line == line[..19] + rest;
  }

  /** The stamp is a month that does not exist: strptime raises. */
  lemma ThirteenthMonthIsBad()
    ensures ReadStamp("2024-13-01 00:00:00 ERROR: sensor lost") == BadStamp
  {
  }

  /** A kept line: it carries a stamp strptime accepts, at or after the cutoff. */
  predicate Recent(line: string, cutoff: DateTime) {
    var s := ReadStamp(line);
    s.Stamp? && AtOrAfter(s.at, cutoff)
  }

  /** A line stamped exactly at the cutoff is kept: the comparison is inclusive. */
  lemma CutoffIsInclusive(t: DateTime, rest: string)
    requires ValidDateTime(t) && t.microsecond == 0
    ensures Recent(FormatStamp(t) + rest, t)
  {
    StampComplete(t, rest);
  }

  // ---------------------------------------------------------------------------
  // Line selection: `^.*error.*$|^.*warning.*$` with IGNORECASE | MULTILINE

  /**
   * Whether re's IGNORECASE matching lets subject character c match the
   * lower-case pattern letter p (one of the letters of "error" and
   * "warning"): ASCII case folding, and for 'i' also U+0130 and U+0131.
   */
  predicate FoldsTo(c: char, p: char) {
    LowerChar(c) == p || (p == 'i' && (c == '\U{130}' || c == '\U{131}'))
  }

  /** s equals word up to IGNORECASE folding. */
  predicate FoldEqual(s: string, word: string) {
    |s| == |word| && forall k :: 0 <= k < |word| ==> FoldsTo(s[k], word[k])
  }

  predicate MatchesAt(line: string, word: string, i: nat)
    requires i + |word| <= |line|
  {
    FoldEqual(line[i..i + |word|], word)
  }

  /** A left-to-right scan for word, as the regex engine tries every start position. */
  function ContainsFolded(line: string, word: string): bool
    decreases |line|
  {
    |line| >= |word| && (MatchesAt(line, word, 0) || ContainsFolded(line[1..], word))
  }

  lemma {:induction false} ContainsFoldedIff(line: string, word: string)
    ensures ContainsFolded(line, word) <==> exists i :: 0 <= i <= |line| - |word| && MatchesAt(line, word, i)
    decreases |line|
  {
    if |line| >= |word| && |line| > 0 {
      ContainsFoldedIff(line[1..], word);
      forall i | 1 <= i <= |line| - |word|
        ensures MatchesAt(line, word, i) <==> MatchesAt(line[1..], word, i - 1)
      {
        assert line[1..][i - 1..i - 1 + |word|] == line[i..i + |word|];
      }
      if ContainsFolded(line, word) && !MatchesAt(line, word, 0) {
        var j :| 0 <= j <= |line| - 1 - |word| && MatchesAt(line[1..], word, j);
        assert MatchesAt(line, word, j + 1);
      }
      if i0 :| 0 <= i0 <= |line| - |word| && MatchesAt(line, word, i0) {
        if i0 > 0 {
          assert MatchesAt(line[1..], word, i0 - 1);
        }
      }
    } else if |line| >= |word| {
      assert MatchesAt(line, word, 0);
    }
  }

  /** The line holds "error" or "warning" in any letter case. */
  predicate Mentions(line: string) {
    ContainsFolded(line, "error") || ContainsFolded(line, "warning")
  }

  /** The lines the MULTILINE anchors delimit. */
  function Lines(text: string): seq<string> {
    Split(text, '\n')
  }

  /** a occurs in b in order, possibly with gaps. */
  predicate Subsequence<T(==)>(a: seq<T>, b: seq<T>)
    decreases |b|
  {
    if a == [] then true
    else if b == [] then false
    else (a[0] == b[0] && Subsequence(a[1..], b[1..])) || Subsequence(a, b[1..])
  }

  lemma {:induction false} SubsequenceTransitive<T>(a: seq<T>, b: seq<T>, c: seq<T>)
    requires Subsequence(a, b) && Subsequence(b, c)
    ensures Subsequence(a, c)
    decreases |c|
  {
    if a != [] {
      if Subsequence(b, c[1..]) {
        SubsequenceTransitive(a, b, c[1..]);
      } else if a[0] == b[0] && Subsequence(a[1..], b[1..]) {
        SubsequenceTransitive(a[1..], b[1..], c[1..]);
      } else {
        SubsequenceTransitive(a, b[1..], c[1..]);
      }
    }
  }

  /** re.findall over the text: the selected lines, in file order, each once. */
  function SelectMentions(lines: seq<string>): (r: seq<string>)
    ensures Subsequence(r, lines)
    ensures forall l :: multiset(r)[l] == if Mentions(l) then multiset(lines)[l] else 0
  {
    if lines == [] then []
    else
      var rest := SelectMentions(lines[1..]);
      assert lines == [lines[0]] + lines[1..];
      if Mentions(lines[0]) then
        assert ([lines[0]] + rest)[1..] == rest;
        [lines[0]] + rest
      else rest
  }

  /**
   * The list comprehension over the matches: keep each stamped line at or
   * after the cutoff, in order; None when strptime raises on some line.
   */
  function KeepRecent(matches: seq<string>, cutoff: DateTime): (r: Option<seq<string>>)
    ensures r.None? <==> exists l :: l in matches && ReadStamp(l).BadStamp?
    ensures r.Some? ==> Subsequence(r.value, matches)
    ensures r.Some? ==> forall l :: multiset(r.value)[l] == if Recent(l, cutoff) then multiset(matches)[l] else 0
  {
    if matches == [] then Some([])
    else
      var head := matches[0];
      assert matches == [head] + matches[1..];
      match ReadStamp(head)
      case BadStamp => None
      case NoStamp => KeepRecent(matches[1..], cutoff)
      case Stamp(t) =>
        var rest := KeepRecent(matches[1..], cutoff);
        if rest.None? then None
        else if AtOrAfter(t, cutoff) then
          assert ([head] + rest.value)[1..] == rest.value;
          Some([head] + rest.value)
        else rest
  }

  /**
   * The lines `_comb_logs` writes for one file's text: None when strptime
   * raises on a selected line, otherwise every line that mentions error or
   * warning and carries a stamp at or after the cutoff, in file order.
   */
  function CombText(text: string, cutoff: DateTime): (r: Option<seq<string>>)
    ensures r.None? <==> exists l :: l in Lines(text) && Mentions(l) && ReadStamp(l).BadStamp?
    ensures r.Some? ==> Subsequence(r.value, Lines(text))
    ensures r.Some? ==> forall l :: multiset(r.value)[l] == if Mentions(l) && Recent(l, cutoff) then multiset(Lines(text))[l] else 0
  {
    var selected := SelectMentions(Lines(text));
    var r := KeepRecent(selected, cutoff);
    assert forall l :: l in selected <==> l in Lines(text) && Mentions(l) by {
      forall l ensures l in selected <==> l in Lines(text) && Mentions(l) {
        assert l in selected <==> multiset(selected)[l] > 0;
        assert l in Lines(text) <==> multiset(Lines(text))[l] > 0;
      }
    }
    assert r.Some? ==> Subsequence(r.value, Lines(text)) by {
      if r.Some? { SubsequenceTransitive(r.value, selected, Lines(text)); }
    }
    r
  }

  /** A word found in s is still found once text is put in front of s. */
  lemma ContainsAfterPrefix(p: string, s: string, word: string)
    requires ContainsFolded(s, word)
    ensures ContainsFolded(p + s, word)
  {
    ContainsFoldedIff(s, word);
    var i :| 0 <= i <= |s| - |word| && MatchesAt(s, word, i);
    assert (p + s)[|p| + i..|p| + i + |word|] == s[i..i + |word|];
    assert MatchesAt(p + s, word, |p| + i);
    ContainsFoldedIff(p + s, word);
  }

  lemma MentionsAfterPrefix(p: string, s: string)
    requires Mentions(s)
    ensures Mentions(p + s)
  {
    if ContainsFolded(s, "error") {
      ContainsAfterPrefix(p, s, "error");
    } else {
      ContainsAfterPrefix(p, s, "warning");
    }
  }

  /** A formatted stamp holds digits and separators only, never a newline. */
  lemma StampHasNoNewline(t: DateTime)
    requires Printable(t)
    ensures '\n' !in FormatStamp(t)
  {
    var f := FormatStamp(t);
    assert forall k :: 0 <= k < |f| ==> IsDigit(f[k]) || f[k] in "- :";
  }

  /** A text of two lines splits into exactly those two lines. */
  lemma TwoLines(l1: string, l2: string)
    requires '\n' !in l1 && '\n' !in l2
    ensures Lines(l1 + "\n" + l2) == [l1, l2]
  {
    assert [l1, l2][1..] == [l2];
    assert Join([l1, l2], '\n') == l1 + "\n" + l2;
    SplitOfJoin([l1, l2], '\n');
  }

  /** Of two selected lines, the one stamped before the cutoff is dropped and the recent one is kept. */
  lemma CombTwoLines(l1: string, l2: string, cutoff: DateTime)
    requires '\n' !in l1 && '\n' !in l2
    requires Mentions(l1) && Mentions(l2)
    requires ReadStamp(l1).Stamp? && !AtOrAfter(ReadStamp(l1).at, cutoff)
    requires Recent(l2, cutoff)
    ensures CombText(l1 + "\n" + l2, cutoff) == Some([l2])
  {
    TwoLines(l1, l2);
    assert [l1, l2][1..] == [l2];
    assert SelectMentions([l2]) == [l2];
    assert SelectMentions([l1, l2]) == [l1, l2];
    assert KeepRecent([l2], cutoff) == Some([l2]);
  }

  /**
   * Two stamped lines that both mention an error or a warning: the one
   * stamped before the cutoff is dropped and the one stamped at or after it
   * is kept, alone.
   */
  lemma CutoffSeparatesLines(t1: DateTime, m1: string, t2: DateTime, m2: string, cutoff: DateTime)
    requires ValidDateTime(t1) && ValidDateTime(t2)
    requires !AtOrAfter(t1.(microsecond := 0), cutoff) && AtOrAfter(t2.(microsecond := 0), cutoff)
    requires Mentions(m1) && Mentions(m2)
    requires '\n' !in m1 && '\n' !in m2
    ensures CombText((FormatStamp(t1) + m1) + "\n" + (FormatStamp(t2) + m2), cutoff) == Some([FormatStamp(t2) + m2])
  {
    var l1, l2 := FormatStamp(t1) + m1, FormatStamp(t2) + m2;
    StampHasNoNewline(t1);
    StampHasNoNewline(t2);
    MentionsAfterPrefix(FormatStamp(t1), m1);
    MentionsAfterPrefix(FormatStamp(t2), m2);
    StampComplete(t1, m1);
    StampComplete(t2, m2);
    CombTwoLines(l1, l2, cutoff);
  }

  // ---------------------------------------------------------------------------
  // Reading the file in text mode

  /** Universal-newline translation of open(path, 'r').read(): "\r\n" and "\r" become "\n". */
  function TranslateNewlines(s: string): (r: string)
    ensures '\r' !in r
    ensures '\r' !in s ==> r == s
  {
    if s == [] then []
    else if s[0] == '\r' then
      if |s| >= 2 && s[1] == '\n' then "\n" + TranslateNewlines(s[2..])
      else "\n" + TranslateNewlines(s[1..])
    else
      assert s == [s[0]] + s[1..];
      [s[0]] + TranslateNewlines(s[1..])
  }

  lemma ConsBack(a: string, m: string, z: string)
    requires a != []
    ensures [a[0]] + (a[1..] + m + z) == a + m + z
  {
    assert [a[0]] + a[1..] == a;
  }

  /** A "\r\n" pair becomes one "\n"; the text before it is read unchanged. */
  lemma {:induction false} TranslateCrLf(a: string, b: string)
    requires '\r' !in a
    ensures TranslateNewlines(a + "\r\n" + b) == a + "\n" + TranslateNewlines(b)
    decreases |a|
  {
    var s := a + "\r\n" + b;
    if a == [] {
      assert s == "\r\n" + b && s[2..] == b;
    } else {
      var t := a[1..] + "\r\n" + b;
      assert s[0] == a[0] && s[0] != '\r' && s[1..] == t;
      assert TranslateNewlines(s) == [a[0]] + TranslateNewlines(t);
      TranslateCrLf(a[1..], b);
      ConsBack(a, "\n", TranslateNewlines(b));
    }
  }

  /** A "\r" not followed by "\n" becomes one "\n"; the text before it is read unchanged. */
  lemma {:induction false} TranslateLoneCr(a: string, b: string)
    requires '\r' !in a
    requires b == [] || b[0] != '\n'
    ensures TranslateNewlines(a + "\r" + b) == a + "\n" + TranslateNewlines(b)
    decreases |a|
  {
    var s := a + "\r" + b;
    if a == [] {
      assert s == "\r" + b && s[1..] == b;
      assert !(|s| >= 2 && s[1] == '\n');
    } else {
      var t := a[1..] + "\r" + b;
      assert s[0] == a[0] && s[0] != '\r' && s[1..] == t;
      assert TranslateNewlines(s) == [a[0]] + TranslateNewlines(t);
      TranslateLoneCr(a[1..], b);
      ConsBack(a, "\n", TranslateNewlines(b));
    }
  }

  /** In a log written with bare carriage returns, each one still ends a line. */
  lemma CrSeparatesLines(l1: string, l2: string)
    requires '\r' !in l1 && '\n' !in l1 && '\r' !in l2 && '\n' !in l2
    ensures Lines(TranslateNewlines(l1 + "\r" + l2)) == [l1, l2]
  {
    TranslateLoneCr(l1, l2);
    TwoLines(l1, l2);
  }

  // ---------------------------------------------------------------------------
  // What the comb loop writes to the report

  /** Each configured path maps to the text read from it, or to None when it exists but cannot be read. */
  type FileSystem = map<string, Option<string>>

  function Header(path: string): string {
    "\n\n=====" + path + "=====\n"
  }

  function Terminated(lines: seq<string>): seq<string> {
    seq(|lines|, k requires 0 <= k < |lines| => lines[k] + "\n")
  }

  /** The report chunks one pass of the loop appends for one path. */
  function LogSection(path: string, fs: FileSystem, cutoff: DateTime): seq<string> {
    [Header(path)] +
    if path in fs && fs[path].Some? then
      match CombText(TranslateNewlines(fs[path].value), cutoff)
      case Some(lines) => Terminated(lines)
      case None => []
    else []
  }

  /** The report chunks the whole loop appends, path by path in configuration order. */
  function CombAll(paths: seq<string>, fs: FileSystem, cutoff: DateTime): seq<string> {
    if paths == [] then [] else LogSection(paths[0], fs, cutoff) + CombAll(paths[1..], fs, cutoff)
  }

  lemma {:induction false} CombAllConcat(a: seq<string>, b: seq<string>, fs: FileSystem, cutoff: DateTime)
    ensures CombAll(a + b, fs, cutoff) == CombAll(a, fs, cutoff) + CombAll(b, fs, cutoff)
  {
    if a == [] {
      assert a + b == b;
    } else {
      assert (a + b)[0] == a[0] && (a + b)[1..] == a[1..] + b;
      CombAllConcat(a[1..], b, fs, cutoff);
    }
  }

  /** The section of a path that is missing or cannot be read, or whose combing raised, is its header alone. */
  lemma SectionHeaderOnly(path: string, fs: FileSystem, cutoff: DateTime)
    requires path !in fs || fs[path].None? || CombText(TranslateNewlines(fs[path].value), cutoff).None?
    ensures LogSection(path, fs, cutoff) == [Header(path)]
  {
  }

  /** The section of a readable file whose combing succeeded is its header and then each kept line with its newline. */
  lemma SectionWithLines(path: string, fs: FileSystem, cutoff: DateTime, lines: seq<string>)
    requires path in fs && fs[path].Some?
    requires CombText(TranslateNewlines(fs[path].value), cutoff) == Some(lines)
    ensures LogSection(path, fs, cutoff) == [Header(path)] + Terminated(lines)
  {
  }

  lemma AppendAssoc(a: seq<string>, b: seq<string>, c: seq<string>)
    ensures a + b + c == a + (b + c)
  {
  }

  /** Combing one more path appends that path's section. */
  lemma CombAllSnoc(paths: seq<string>, i: nat, fs: FileSystem, cutoff: DateTime)
    requires i < |paths|
    ensures CombAll(paths[..i + 1], fs, cutoff) == CombAll(paths[..i], fs, cutoff) + LogSection(paths[i], fs, cutoff)
  {
    assert paths[..i + 1] == paths[..i] + [paths[i]];
    CombAllConcat(paths[..i], [paths[i]], fs, cutoff);
    assert CombAll([paths[i]], fs, cutoff) == LogSection(paths[i], fs, cutoff) + CombAll([], fs, cutoff);
  }

  /** Writing one more kept line appends it with its newline. */
  lemma TerminatedSnoc(lines: seq<string>, j: nat)
    requires j < |lines|
    ensures Terminated(lines[..j + 1]) == Terminated(lines[..j]) + [lines[j] + "\n"]
  {
  }

  /** A missing or unreadable log leaves only its header, and the logs after it are combed as usual. */
  lemma SkippedLogOnlyHeader(before: seq<string>, path: string, after: seq<string>, fs: FileSystem, cutoff: DateTime)
    requires path !in fs || fs[path].None?
    ensures CombAll(before + [path] + after, fs, cutoff)
         == CombAll(before, fs, cutoff) + [Header(path)] + CombAll(after, fs, cutoff)
  {
    CombAllConcat(before + [path], after, fs, cutoff);
    CombAllConcat(before, [path], fs, cutoff);
    SectionHeaderOnly(path, fs, cutoff);
    assert [path][1..] == [];
    assert CombAll([path], fs, cutoff) == [Header(path)];
  }

  /** A selected line whose stamp strptime rejects costs the whole file: only its header is written. */
  lemma BadStampOnlyHeader(path: string, fs: FileSystem, cutoff: DateTime, line: string)
    requires path in fs && fs[path].Some?
    requires line in Lines(TranslateNewlines(fs[path].value))
    requires Mentions(line) && ReadStamp(line).BadStamp?
    ensures LogSection(path, fs, cutoff) == [Header(path)]
  {
  }

  /** A chunk that begins with a newline: only headers do. */
  predicate IsHeader(chunk: string) {
    |chunk| > 0 && chunk[0] == '\n'
  }

  function HeadersOf(chunks: seq<string>): seq<string> {
    if chunks == [] then []
    else (if IsHeader(chunks[0]) then [chunks[0]] else []) + HeadersOf(chunks[1..])
  }

  function Headers(paths: seq<string>): seq<string> {
    if paths == [] then [] else [Header(paths[0])] + Headers(paths[1..])
  }

  lemma {:induction false} HeadersOfConcat(a: seq<string>, b: seq<string>)
    ensures HeadersOf(a + b) == HeadersOf(a) + HeadersOf(b)
  {
    if a == [] {
      assert a + b == b;
    } else {
      assert (a + b)[0] == a[0] && (a + b)[1..] == a[1..] + b;
      HeadersOfConcat(a[1..], b);
    }
  }

  lemma {:induction false} NoHeadersWritten(lines: seq<string>)
    requires forall k :: 0 <= k < |lines| ==> |lines[k]| > 0 && lines[k][0] != '\n'
    ensures HeadersOf(Terminated(lines)) == []
  {
    if lines != [] {
      assert Terminated(lines) == [lines[0] + "\n"] + Terminated(lines[1..]);
      HeadersOfConcat([lines[0] + "\n"], Terminated(lines[1..]));
      NoHeadersWritten(lines[1..]);
    }
  }

  /** The only header of a path's section is its own, at the front. */
  lemma SectionHeaders(path: string, fs: FileSystem, cutoff: DateTime)
    ensures HeadersOf(LogSection(path, fs, cutoff)) == [Header(path)]
  {
    var section := LogSection(path, fs, cutoff);
    var written := section[1..];
    assert section == [Header(path)] + written;
    HeadersOfConcat([Header(path)], written);
    if path in fs && fs[path].Some? {
      var text := TranslateNewlines(fs[path].value);
      var r := CombText(text, cutoff);
      if r.Some? {
        var lines := r.value;
        forall k | 0 <= k < |lines| ensures |lines[k]| > 0 && lines[k][0] != '\n' {
          var l := lines[k];
          assert multiset(lines)[l] > 0;
          assert Mentions(l) && multiset(Lines(text))[l] > 0;
          assert l in Lines(text);
          var i :| 0 <= i < |Lines(text)| && Lines(text)[i] == l;
          assert '\n' !in l;
        }
        NoHeadersWritten(lines);
      }
    }
  }

  /** Every configured path gets its header, in configuration order, whether or not the file exists. */
  lemma {:induction false} HeadersInOrder(paths: seq<string>, fs: FileSystem, cutoff: DateTime)
    ensures HeadersOf(CombAll(paths, fs, cutoff)) == Headers(paths)
  {
    if paths != [] {
      HeadersOfConcat(LogSection(paths[0], fs, cutoff), CombAll(paths[1..], fs, cutoff));
      SectionHeaders(paths[0], fs, cutoff);
      HeadersInOrder(paths[1..], fs, cutoff);
    }
  }
}

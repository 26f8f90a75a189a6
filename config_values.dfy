/**
 * The values `load_config` derives from the configuration: the email_alerts
 * flag, the list of VNC session numbers, the report file name and the text the
 * report starts with.
 */
module ConfigValues {
  import opened Wrappers
  import opened Text

  /** email_alerts is on when the configured value, lower-cased and stripped, is "true". */
  function EmailAlertsFlag(value: string): bool {
    Strip(LowerAscii(value)) == "true"
  }

  lemma LowerKeepsSpace(s: string)
    ensures |LowerAscii(s)| == |s|
    ensures AllSpace(LowerAscii(s)) <==> AllSpace(s)
  {
    forall k | 0 <= k < |s| ensures IsSpace(LowerAscii(s)[k]) <==> IsSpace(s[k]) {
      if 'A' <= s[k] <= 'Z' {
        assert 'a' <= LowerAscii(s)[k] <= 'z';
      }
    }
  }

  lemma LowerSlice(s: string, i: nat, j: nat)
    requires i <= j <= |s|
    ensures LowerAscii(s)[i..j] == LowerAscii(s[i..j])
  {
  }

  /** The value is "true" in some letter case at i, with only whitespace before and after it. */
  predicate TrueAt(value: string, i: nat)
    requires i + 4 <= |value|
  {
    AllSpace(value[..i]) && AllSpace(value[i + 4..]) && LowerAscii(value[i..i + 4]) == "true"
  }

  lemma PaddingLowered(value: string, i: nat)
    requires i + 4 <= |value|
    ensures var low := LowerAscii(value);
      TrueAt(value, i) <==> (AllSpace(low[..i]) && AllSpace(low[i + 4..]) && low[i..i + 4] == "true")
  {
    var low := LowerAscii(value);
    LowerSlice(value, 0, i);
    LowerSlice(value, i, i + 4);
    LowerSlice(value, i + 4, |value|);
    assert low[..i] == low[0..i] && value[..i] == value[0..i];
    assert low[i + 4..] == low[i + 4..|value|] && value[i + 4..] == value[i + 4..|value|];
    LowerKeepsSpace(value[..i]);
    LowerKeepsSpace(value[i + 4..]);
  }

  lemma FlagHasTrueAt(value: string) returns (i: nat)
    requires EmailAlertsFlag(value)
    ensures i + 4 <= |value| && TrueAt(value, i)
  {
    var low := LowerAscii(value);
    i := StripIsSlice(low);
    assert |Strip(low)| == 4;
    PaddingLowered(value, i);
  }

  lemma TrueAtGivesFlag(value: string, i: nat)
    requires i + 4 <= |value| && TrueAt(value, i)
    ensures EmailAlertsFlag(value)
  {
    var low := LowerAscii(value);
    PaddingLowered(value, i);
    assert low == low[..i] + low[i..i + 4] + low[i + 4..];
    StripPadded(low[..i], "true", low[i + 4..]);
  }

  /** The flag is on exactly for "true" in any letter case, surrounded by any whitespace. */
  lemma EmailAlertsFlagIff(value: string)
    ensures EmailAlertsFlag(value) <==> exists i: nat :: i + 4 <= |value| && TrueAt(value, i)
  {
    if EmailAlertsFlag(value) {
      var i := FlagHasTrueAt(value);
    }
    if exists i: nat :: i + 4 <= |value| && TrueAt(value, i) {
      var i: nat :| i + 4 <= |value| && TrueAt(value, i);
      TrueAtGivesFlag(value, i);
    }
  }

  /** int(num.strip()) for one piece; None when int() raises ValueError. */
  function ParsePiece(piece: string): Option<int> {
    PyInt(Strip(piece))
  }

  /** The list comprehension over the pieces: None when int() raises on any of them. */
  function ParseInts(pieces: seq<string>): Option<seq<int>> {
    if forall k :: 0 <= k < |pieces| ==> ParsePiece(pieces[k]).Some? then
      Some(seq(|pieces|, k requires 0 <= k < |pieces| => ParsePiece(pieces[k]).value))
    else None
  }

  /** The vnc_sessions value: comma-separated session numbers. */
  function ParseSessionList(value: string): Option<seq<int>> {
    ParseInts(Split(value, ','))
  }

  function IntStrings(xs: seq<int>): (r: seq<string>)
    ensures |r| == |xs| && forall k :: 0 <= k < |xs| ==> r[k] == IntToString(xs[k])
  {
    seq(|xs|, k requires 0 <= k < |xs| => IntToString(xs[k]))
  }

  /** str(x) consists of an optional minus sign and decimal digits. */
  lemma IntStringChars(x: int)
    ensures forall k :: 0 <= k < |IntToString(x)| ==> IntToString(x)[k] == '-' || IsDigit(IntToString(x)[k])
    ensures IsDigit(IntToString(x)[|IntToString(x)| - 1])
  {
    var s := IntToString(x);
    var d := NatToString(if x < 0 then -x else x);
    if x < 0 {
      forall k | 0 < k < |s| ensures IsDigit(s[k]) {
        assert s[k] == d[k - 1];
      }
    }
  }

  lemma PieceRoundTrip(x: int)
    ensures ',' !in IntToString(x)
    ensures ParsePiece(IntToString(x)) == Some(x)
  {
    var s := IntToString(x);
    IntStringChars(x);
    assert !IsSpace(s[0]) && !IsSpace(s[|s| - 1]);
    StripUnpadded(s);
    PyIntOfIntToString(x);
  }

  lemma ParseIntStrings(xs: seq<int>)
    ensures forall k :: 0 <= k < |xs| ==> ',' !in IntStrings(xs)[k]
    ensures ParseInts(IntStrings(xs)) == Some(xs)
  {
    var pieces := IntStrings(xs);
    forall k | 0 <= k < |pieces| ensures ',' !in pieces[k] && ParsePiece(pieces[k]) == Some(xs[k]) {
      PieceRoundTrip(xs[k]);
    }
    var r := ParseInts(pieces);
    assert r.Some?;
    assert |r.value| == |xs|;
    assert forall k :: 0 <= k < |xs| ==> r.value[k] == xs[k];
    assert r.value == xs;
  }

  /** Writing the sessions back as a comma-separated list and parsing it gives the same sessions, in order. */
  lemma SessionListRoundTrip(xs: seq<int>)
    requires |xs| >= 1
    ensures ParseSessionList(Join(IntStrings(xs), ',')) == Some(xs)
  {
    ParseIntStrings(xs);
    SplitOfJoin(IntStrings(xs), ',');
  }

  /** An empty vnc_sessions value is one empty piece, which int() rejects. */
  lemma EmptySessionListFails()
    ensures ParseSessionList("") == None
  {
    assert Split("", ',') == [""];
  }

  /** The report file: <report_path>/<UTC date>/gecko_report_<UTC time>.txt */
  function ReportName(reportsPath: string, utcDate: string, utcTime: string): string {
    reportsPath + "/" + utcDate + "/gecko_report_" + utcTime + ".txt"
  }

  const UserHeader := "=========Reported Error From User==========\n"

  /** The two writes that open the report: the banner, then the user's message and a blank line. */
  function InitialReport(message: string): seq<string> {
    [UserHeader, message + "\n\n"]
  }
}

/**
 * The names `_take_screenshots` derives for each VNC session: the zero-padded
 * session string, the VNC connect target, the screenshot file name and path,
 * and the trailing-slash normalisation of the reports directory.
 */
module Screenshots {
  import opened Wrappers
  import opened Text

  /** f"{session:02d}" */
  function SessionString(session: int): string {
    ZeroPadded(session, 2)
  }

  /** The session string has at least two characters, more only when str(session) is longer. */
  lemma SessionStringLength(session: int)
    ensures |SessionString(session)| >= 2
    ensures |SessionString(session)| == Max(2, |IntToString(session)|)
  {
    ZeroPaddedLength(session, 2);
  }

  /** The session string reads back as the session number. */
  lemma SessionStringParses(session: int)
    ensures PyInt(SessionString(session)) == Some(session)
  {
    ZeroPaddedParses(session, 2);
  }

  /** Single-digit sessions get a leading zero; all others print as str() prints them. */
  lemma SessionStringDigits(session: int)
    ensures 0 <= session < 10 ==> SessionString(session) == ['0', DigitChar(session)]
    ensures (session < 0 || 10 <= session) ==> SessionString(session) == IntToString(session)
  {
    var digits := NatToString(if session < 0 then -session else session);
    if 0 <= session < 10 {
      assert digits == [DigitChar(session)];
      assert Zeros(1) == ['0'];
    } else {
      assert |digits| >= 2 || session < 0;
      assert Zeros(0) == [];
    }
  }

  /** The address handed to the VNC client: host, ":59", the session string. */
  function ConnectTarget(host: string, session: int): string {
    host + ":59" + SessionString(session)
  }

  function ScreenshotName(session: int, utcTime: string): string {
    "gecko_screenshot_" + SessionString(session) + "_" + utcTime + ".png"
  }

  lemma ConcatCancel(head: string, x: string, y: string, tail: string)
    requires head + x + tail == head + y + tail
    ensures x == y
  {
    var s := head + x + tail;
    assert |x| == |y|;
    assert s[|head|..|head| + |x|] == x;
    assert (head + y + tail)[|head|..|head| + |y|] == y;
  }

  lemma Reassociate(a: string, b: string, c: string, d: string, e: string)
    ensures a + b + c + d + e == a + b + (c + d + e)
  {
  }

  lemma SessionStringInjective(a: int, b: int)
    requires SessionString(a) == SessionString(b)
    ensures a == b
  {
    SessionStringParses(a);
    SessionStringParses(b);
  }

  /** Two sessions share a connect target only if they are the same session. */
  lemma ConnectTargetInjective(host: string, a: int, b: int)
    requires ConnectTarget(host, a) == ConnectTarget(host, b)
    ensures a == b
  {
    ConcatCancel(host + ":59", SessionString(a), SessionString(b), "");
    SessionStringInjective(a, b);
  }

  /** Within one run, two sessions write the same screenshot name only if they are the same session. */
  lemma ScreenshotNameInjective(a: int, b: int, utcTime: string)
    requires ScreenshotName(a, utcTime) == ScreenshotName(b, utcTime)
    ensures a == b
  {
    var tail := "_" + utcTime + ".png";
    Reassociate("gecko_screenshot_", SessionString(a), "_", utcTime, ".png");
    Reassociate("gecko_screenshot_", SessionString(b), "_", utcTime, ".png");
    ConcatCancel("gecko_screenshot_", SessionString(a), SessionString(b), tail);
    SessionStringInjective(a, b);
  }

  predicate EndsWithSlash(p: string) {
    |p| > 0 && p[|p| - 1] == '/'
  }

  /** reports_path after `_take_screenshots`: a "/" appended unless it already ends with one. */
  function NormalizeDir(p: string): (r: string)
    ensures EndsWithSlash(r)
    ensures |p| <= |r| <= |p| + 1 && r[..|p|] == p
    ensures EndsWithSlash(p) ==> r == p
  {
    if EndsWithSlash(p) then p else p + "/"
  }

  lemma NormalizeDirIdempotent(p: string)
    ensures NormalizeDir(NormalizeDir(p)) == NormalizeDir(p)
  {
  }

  /** os.path.join(dir, name) on POSIX for two components. */
  function PathJoin(dir: string, name: string): string {
    if |name| > 0 && name[0] == '/' then name
    else if dir == [] || EndsWithSlash(dir) then dir + name
    else dir + "/" + name
  }

  /** Under the normalised directory a relative name is joined by plain concatenation. */
  lemma JoinUnderNormalized(p: string, name: string)
    requires name == [] || name[0] != '/'
    ensures PathJoin(NormalizeDir(p), name) == NormalizeDir(p) + name
  {
  }

  /** One pass of the session loop: the names it derives and whether the capture succeeded. */
  datatype Capture = Capture(session: string, target: string, path: string, saved: bool)

  /**
   * The capture attempt for one session. The VNC connect-and-capture is the
   * oracle grab(target, password, path); false stands for any exception it
   * raises, which the loop catches and reports.
   */
  function Attempt(host: string, password: string, dir: string, utcTime: string, session: int,
                   grab: (string, string, string) -> bool): Capture
  {
    var path := PathJoin(dir, ScreenshotName(session, utcTime));
    Capture(SessionString(session), ConnectTarget(host, session), path, grab(ConnectTarget(host, session), password, path))
  }

  /** One pass of the session loop: derive the names, then try the capture. */
  method CaptureOne(host: string, password: string, dir: string, utcTime: string, session: int,
                    grab: (string, string, string) -> bool) returns (capture: Capture)
    ensures capture == Attempt(host, password, dir, utcTime, session, grab)
  {
    var sessionString := SessionString(session);
    var name := ScreenshotName(session, utcTime);
    var path := PathJoin(dir, name);
    var target := ConnectTarget(host, session);
    var saved := grab(target, password, path);
    capture := Capture(sessionString, target, path, saved);
  }

  /**
   * The session loop of `_take_screenshots`: one capture attempt per session,
   * in order. A failed attempt is caught and reported, and the loop goes on.
   */
  method CaptureAll(host: string, password: string, dir: string, utcTime: string, sessions: seq<int>,
                    grab: (string, string, string) -> bool) returns (captures: seq<Capture>)
    ensures |captures| == |sessions|
    ensures forall i :: 0 <= i < |sessions| ==> captures[i] == Attempt(host, password, dir, utcTime, sessions[i], grab)
  {
    captures := [];
    for i := 0 to |sessions|
      invariant |captures| == i
      invariant forall k :: 0 <= k < i ==> captures[k] == Attempt(host, password, dir, utcTime, sessions[k], grab)
    {
      var capture := CaptureOne(host, password, dir, utcTime, sessions[i], grab);
      captures := captures + [capture];
    }
  }

  /** Distinct sessions never overwrite each other's screenshot, nor share a connection. */
  lemma AttemptsDoNotCollide(host: string, password: string, dir: string, utcTime: string, a: int, b: int,
                             grab: (string, string, string) -> bool)
    requires a != b
    ensures Attempt(host, password, dir, utcTime, a, grab).path != Attempt(host, password, dir, utcTime, b, grab).path
    ensures Attempt(host, password, dir, utcTime, a, grab).target != Attempt(host, password, dir, utcTime, b, grab).target
  {
    var na, nb := ScreenshotName(a, utcTime), ScreenshotName(b, utcTime);
    assert na[0] == 'g' && nb[0] == 'g';
    if PathJoin(dir, na) == PathJoin(dir, nb) {
      var m := if dir == [] || EndsWithSlash(dir) then |dir| else |dir| + 1;
      assert PathJoin(dir, na)[m..] == na;
      assert PathJoin(dir, nb)[m..] == nb;
      ScreenshotNameInjective(a, b, utcTime);
    }
    if ConnectTarget(host, a) == ConnectTarget(host, b) {
      ConnectTargetInjective(host, a, b);
    }
  }

  /**
   * When the capture raises for one session's target and for no other, that
   * session is the only one whose screenshot is not saved.
   */
  lemma OnlyFailedSessionUnsaved(host: string, password: string, dir: string, utcTime: string, bad: int, session: int,
                                 grab: (string, string, string) -> bool)
    requires forall target, pw, path :: grab(target, pw, path) <==> target != ConnectTarget(host, bad)
    ensures Attempt(host, password, dir, utcTime, session, grab).saved <==> session != bad
  {
    if ConnectTarget(host, session) == ConnectTarget(host, bad) {
      ConnectTargetInjective(host, session, bad);
    }
  }
}

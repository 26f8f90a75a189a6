/**
 * The Triage_Tools object: its state after construction and load_config, the
 * log-combing loop that appends to the report, and the screenshot loop that
 * normalises the reports directory and attempts a capture per VNC session.
 */
module Triage {
  import opened Wrappers
  import opened LogComb
  import opened ConfigValues
  import opened Screenshots

  /**
   * The configuration values load_config reads, as strings: [Report]
   * email_alerts, instrument_master_email and report_path, [VNC] host,
   * password and vnc_sessions, and the values of the [Logs] section in
   * configuration order.
   */
  datatype Config = Config(
    emailAlerts: string,
    instrumentMasterEmail: string,
    reportPath: string,
    host: string,
    password: string,
    vncSessions: string,
    logs: seq<string>)

  class TriageTools {
    const message: string
    /** str(datetime.now(timezone.utc).date()) and str(...time()) of the run. */
    const utcDate: string
    const utcTime: string
    /** Log lines stamped before this instant are not reported. */
    const cutoff: DateTime

    var config: Config
    var emailAlerts: bool
    var targetEmail: string
    var reportsPath: string
    var host: string
    var password: string
    var vncSessions: seq<int>
    var reportName: string
    /** The writes made to the report file, in order. */
    var report: seq<string>

    /**
     * __init__ up to the call of load_config: the clock readings and the
     * cutoff are passed in. No report file exists yet.
     */
    constructor (message: string, utcDate: string, utcTime: string, cutoff: DateTime)
      ensures this.message == message && this.utcDate == utcDate && this.utcTime == utcTime && this.cutoff == cutoff
      ensures report == [] && vncSessions == []
    {
      this.message := message;
      this.utcDate := utcDate;
      this.utcTime := utcTime;
      this.cutoff := cutoff;
      config := Config("", "", "", "", "", "", []);
      emailAlerts := false;
      targetEmail := "";
      reportsPath := "";
      host := "";
      password := "";
      vncSessions := [];
      reportName := "";
      report := [];
    }

    /**
     * The assignments load_config makes once the values are derived: every
     * setting, and when the session list parsed, the sessions, the report
     * name and the report's first two writes.
     */
    method Store(cfg: Config, flag: bool, sessions: Option<seq<int>>) returns (ok: bool)
      modifies this
      ensures config == cfg && emailAlerts == flag
      ensures targetEmail == cfg.instrumentMasterEmail && reportsPath == cfg.reportPath
      ensures host == cfg.host && password == cfg.password
      ensures ok == sessions.Some?
      ensures ok ==> vncSessions == sessions.value
      ensures ok ==> reportName == ReportName(cfg.reportPath, utcDate, utcTime)
      ensures ok ==> report == InitialReport(message)
      ensures !ok ==> vncSessions == old(vncSessions) && reportName == old(reportName) && report == old(report)
    {
      config := cfg;
      emailAlerts := flag;
      targetEmail := cfg.instrumentMasterEmail;
      reportsPath := cfg.reportPath;
      host := cfg.host;
      password := cfg.password;
      if sessions.None? {
        return false;
      }
      vncSessions := sessions.value;
      reportName := ReportName(reportsPath, utcDate, utcTime);
      report := [UserHeader];
      report := report + [message + "\n\n"];
      ok := true;
    }

    /**
     * load_config: reads the settings in order; when a session number is not
     * an int, int() raises and nothing after it happens (the result is false).
     * Otherwise the report file is (re)created holding the user's message.
     */
    method LoadConfig(cfg: Config) returns (ok: bool)
      modifies this
      ensures config == cfg
      ensures emailAlerts == EmailAlertsFlag(cfg.emailAlerts)
      ensures targetEmail == cfg.instrumentMasterEmail && reportsPath == cfg.reportPath
      ensures host == cfg.host && password == cfg.password
      ensures ok <==> ParseSessionList(cfg.vncSessions).Some?
      ensures ok ==> vncSessions == ParseSessionList(cfg.vncSessions).value
      ensures ok ==> reportName == ReportName(cfg.reportPath, utcDate, utcTime)
      ensures ok ==> report == InitialReport(message)
      ensures !ok ==> vncSessions == old(vncSessions) && reportName == old(reportName) && report == old(report)
    {
      var flag := EmailAlertsFlag(cfg.emailAlerts);
      var sessions := ParseSessionList(cfg.vncSessions);
      ok := Store(cfg, flag, sessions);
    }

    /**
     * _take_screenshots: makes reports_path end with "/", then attempts a
     * capture for every session in order; a failed capture is reported and
     * the loop goes on with the next session.
     */
    method TakeScreenshots(grab: (string, string, string) -> bool) returns (captures: seq<Capture>)
      modifies this`reportsPath
      ensures reportsPath == NormalizeDir(old(reportsPath))
      ensures |captures| == |vncSessions|
      ensures forall i :: 0 <= i < |vncSessions| ==>
        captures[i] == Attempt(host, password, reportsPath, utcTime, vncSessions[i], grab)
    {
      if !EndsWithSlash(reportsPath) {
        reportsPath := reportsPath + "/";
      }
      captures := CaptureAll(host, password, reportsPath, utcTime, vncSessions, grab);
    }

    /** The inner loop of _comb_logs: one write per kept line, each followed by a newline. */
    method WriteLines(lines: seq<string>)
      modifies this`report
      ensures report == old(report) + Terminated(lines)
    {
      for j := 0 to |lines|
        invariant report == old(report) + Terminated(lines[..j])
      {
        TerminatedSnoc(lines, j);
        report := report + [lines[j] + "\n"];
      }
      assert lines[..|lines|] == lines;
    }

    /**
     * One pass of the _comb_logs loop: the path's header, then, when the file
     * exists and can be read, each kept line followed by a newline.
     */
    method CombOne(path: string, fs: FileSystem)
      modifies this`report
      ensures report == old(report) + LogSection(path, fs, cutoff)
    {
      ghost var before := report;
      report := report + [Header(path)];
      if path in fs && fs[path].Some? {
        var text := TranslateNewlines(fs[path].value);
        var kept := CombText(text, cutoff);
        if kept.Some? {
          var lines := kept.value;
          WriteLines(lines);
          SectionWithLines(path, fs, cutoff, lines);
          AppendAssoc(before, [Header(path)], Terminated(lines));
        } else {
          // strptime raised inside the comprehension: nothing is written
          SectionHeaderOnly(path, fs, cutoff);
        }
      } else {
        // the file is missing, or open() or read() raised and the error is printed
        SectionHeaderOnly(path, fs, cutoff);
      }
    }

    /**
     * _comb_logs: for each configured log path, in order, appends the path's
     * header and then the kept lines of the file, one write per line.
     */
    method CombLogs(fs: FileSystem)
      modifies this`report
      ensures report == old(report) + CombAll(config.logs, fs, cutoff)
    {
      var logs := config.logs;
      for i := 0 to |logs|
        invariant report == old(report) + CombAll(logs[..i], fs, cutoff)
      {
        CombAllSnoc(logs, i, fs, cutoff);
        CombOne(logs[i], fs);
        AppendAssoc(old(report), CombAll(logs[..i], fs, cutoff), LogSection(logs[i], fs, cutoff));
      }
      assert logs[..|logs|] == logs;
    }
  }
}

/**
 * `PrinterManager`: the CUPS front end. The commands it runs (`lpstat -p`,
 * `lp ...`) are not executed here; each call receives the finished process
 * as a `RunResult`, or, for `lp`, as a function from the argument list to its
 * result, so that the model states which command would have been run. What
 * remains is the parsing of `lpstat`/`lp` output, the printer choice and the
 * construction of the `lp` argument lists.
 */
module Printer {
  import opened Wrappers
  import opened PyText
  import opened RangeWalk

  /** What `subprocess.run` delivered: a finished process, a timeout, or another exception's text. */
  datatype RunResult =
    | Completed(returncode: int, stdout: string, stderr: string)
    | TimedOut(message: string)
    | Raised(message: string)

  /** One entry of the printer list. */
  datatype PrinterInfo = PrinterInfo(name: string, status: string, isDefault: bool)

  /** The report of `get_available_printers`. */
  datatype PrinterList =
    | Listed(printers: seq<PrinterInfo>, defaultPrinter: Option<string>)
    | ListFailed(error: string)

  /** The paper size of an image job, the font size of a text job. */
  datatype JobSetting = PaperSize(size: string) | FontSize(points: int)

  /** The report of `print_image` and `print_text_file` (messages and timestamp aside). */
  datatype PrintResult =
    | Submitted(jobId: Option<string>, printer: string, filePath: string, copies: int, setting: JobSetting)
    | PrintFailed(error: string, failedOn: Option<string>)

  /** Python truthiness of an optional string: present and non-empty. */
  predicate Truthy(s: Option<string>) {
    s.Some? && s.value != ""
  }

  // ---------------------------------------------------------------------------
  // lpstat -p

  /** `stdout.strip().split('\n')`. */
  function OutputLines(stdout: string): (lines: seq<string>)
    ensures |lines| >= 1
    ensures forall l :: l in lines ==> '\n' !in l
  {
    SplitOn(Strip(stdout), '\n')
  }

  /**
   * The default printer `_detect_printers` finds: token 1 of the first output
   * line, when the command succeeded and that line contains `printer`. A line
   * with fewer than two tokens raises `IndexError`, which is caught: nothing found.
   */
  function DetectedDefault(lpstat: RunResult): (d: Option<string>)
    ensures d.Some? ==>
              && lpstat.Completed? && lpstat.returncode == 0
              && Contains(OutputLines(lpstat.stdout)[0], "printer")
              && |Words(OutputLines(lpstat.stdout)[0])| >= 2
              && d.value == Words(OutputLines(lpstat.stdout)[0])[1]
    ensures d.Some? ==> IsToken(d.value)
  {
    match lpstat
    case Completed(rc, out, _) =>
      if rc != 0 then None
      else
        var first := OutputLines(out)[0];
        if first != "" && Contains(first, "printer") && |Words(first)| >= 2 then Some(Words(first)[1])
        else None
    case _ => None
  }

  /** One line of `lpstat -p` as `get_available_printers` reads it. */
  function EntryOf(line: string, defaultPrinter: Option<string>): (e: Option<PrinterInfo>)
    ensures e.Some? <==> StartsWith(line, "printer") && |Words(line)| >= 2
    ensures e.Some? ==> e.value.name == Words(line)[1]
    ensures e.Some? ==> (e.value.isDefault <==> defaultPrinter == Some(e.value.name))
    ensures e.Some? && |Words(line)| == 2 ==> e.value.status == "Unknown"
    ensures e.Some? && |Words(line)| > 2 ==> Words(e.value.status) == Words(line)[2..]
  {
    if StartsWith(line, "printer") then
      var parts := Words(line);
      if |parts| >= 2 then
        var status := if |parts| > 2 then Join(" ", parts[2..]) else "Unknown";
        assert |parts| > 2 ==> Words(status) == parts[2..] by {
          if |parts| > 2 {
            WordsOfJoin(parts[2..]);
          }
        }
        Some(PrinterInfo(parts[1], status, Some(parts[1]) == defaultPrinter))
      else None
    else None
  }

  /** The entries of all lines, in line order. */
  function Entries(lines: seq<string>, defaultPrinter: Option<string>): seq<PrinterInfo>
    decreases |lines|
  {
    if lines == [] then []
    else Entries(lines[..|lines| - 1], defaultPrinter) + Emitted(EntryOf(lines[|lines| - 1], defaultPrinter))
  }

  /** One more line adds that line's entry, if any, at the end. */
  lemma EntriesStep(lines: seq<string>, i: int, defaultPrinter: Option<string>)
    requires 0 <= i < |lines|
    ensures Entries(lines[..i + 1], defaultPrinter) == Entries(lines[..i], defaultPrinter) + Emitted(EntryOf(lines[i], defaultPrinter))
  {
    assert lines[..i + 1][..i] == lines[..i];
  }

  /** Entries of consecutive blocks of lines are listed block after block. */
  lemma {:induction false} EntriesAppend(a: seq<string>, b: seq<string>, defaultPrinter: Option<string>)
    ensures Entries(a + b, defaultPrinter) == Entries(a, defaultPrinter) + Entries(b, defaultPrinter)
    decreases |b|
  {
    if b != [] {
      var b' := b[..|b| - 1];
      assert (a + b)[..|a + b| - 1] == a + b';
      assert (a + b)[|a + b| - 1] == b[|b| - 1];
      EntriesAppend(a, b', defaultPrinter);
    } else {
      assert a + b == a;
    }
  }

  /** Every listed printer comes from one line of the output, and every qualifying line is listed. */
  lemma {:induction false} EntriesExact(lines: seq<string>, defaultPrinter: Option<string>)
    ensures forall p :: p in Entries(lines, defaultPrinter) ==>
              exists l :: l in lines && EntryOf(l, defaultPrinter) == Some(p)
    ensures forall l :: l in lines && StartsWith(l, "printer") && |Words(l)| >= 2 ==>
              EntryOf(l, defaultPrinter).value in Entries(lines, defaultPrinter)
    ensures |Entries(lines, defaultPrinter)| <= |lines|
    decreases |lines|
  {
    if lines != [] {
      var init := lines[..|lines| - 1];
      var last := lines[|lines| - 1];
      EntriesExact(init, defaultPrinter);
      assert lines == init + [last];
      forall l | l in lines ensures l in init || l == last {
      }
      forall p | p in Entries(lines, defaultPrinter)
        ensures exists l :: l in lines && EntryOf(l, defaultPrinter) == Some(p)
      {
        if p in Entries(init, defaultPrinter) {
          var l :| l in init && EntryOf(l, defaultPrinter) == Some(p);
          assert l in lines;
        } else {
          assert EntryOf(last, defaultPrinter) == Some(p);
        }
      }
    }
  }

  /** In the ordinary output the detected default is the first printer listed, flagged as default. */
  lemma DetectedDefaultListed(stdout: string, stderr: string)
    requires var first := OutputLines(stdout)[0];
             StartsWith(first, "printer") && |Words(first)| >= 2
    ensures var lines := OutputLines(stdout);
            var d := DetectedDefault(Completed(0, stdout, stderr));
            && d == Some(Words(lines[0])[1])
            && Entries(lines, d) != []
            && Entries(lines, d)[0].name == d.value
            && Entries(lines, d)[0].isDefault
  {
    var lines := OutputLines(stdout);
    var first := lines[0];
    assert first[..|"printer"|] == "printer";
    assert Contains(first, "printer");
    var d := DetectedDefault(Completed(0, stdout, stderr));
    assert lines == [first] + lines[1..];
    EntriesAppend([first], lines[1..], d);
    assert [first][..0] == [];
  }

  // ---------------------------------------------------------------------------
  // the job id printed by lp

  /** `parts[i]` is an `id` token with two more tokens after it. */
  predicate IdAt(parts: seq<string>, i: int) {
    0 <= i && i + 2 < |parts| && parts[i] == "id"
  }

  /** The search of the `enumerate(parts)` loop, from position `i` on. */
  function JobIdFrom(parts: seq<string>, i: nat): Option<string>
    decreases |parts| - i
  {
    if i >= |parts| then None
    else if IdAt(parts, i) then Some(parts[i + 2])
    else JobIdFrom(parts, i + 1)
  }

  /** The job id read from `lp`'s standard output. */
  function JobId(stdout: string): Option<string> {
    if stdout == "" then None else JobIdFrom(Words(stdout), 0)
  }

  /** `k` is the first position from `i` on where an `id` with two tokens after it stands. */
  predicate FirstIdFrom(parts: seq<string>, i: int, k: int) {
    i <= k && IdAt(parts, k) && forall j :: i <= j < k ==> !IdAt(parts, j)
  }

  lemma {:induction false} JobIdFromFirst(parts: seq<string>, i: nat)
    ensures JobIdFrom(parts, i).Some? ==>
              exists k :: FirstIdFrom(parts, i, k) && JobIdFrom(parts, i) == Some(parts[k + 2])
    ensures JobIdFrom(parts, i).None? ==> forall k :: i <= k ==> !IdAt(parts, k)
    decreases |parts| - i
  {
    if i < |parts| && !IdAt(parts, i) {
      JobIdFromFirst(parts, i + 1);
      if JobIdFrom(parts, i + 1).Some? {
        var k :| FirstIdFrom(parts, i + 1, k) && JobIdFrom(parts, i + 1) == Some(parts[k + 2]);
        assert FirstIdFrom(parts, i, k);
      }
    } else if i < |parts| {
      assert FirstIdFrom(parts, i, i);
    }
  }

  /**
   * The job id is the token two places after the first `id` that has two
   * tokens after it, and there is none exactly when no `id` has.
   */
  lemma JobIdSpec(stdout: string)
    ensures JobId(stdout).Some? ==>
              exists k :: FirstIdFrom(Words(stdout), 0, k) && JobId(stdout) == Some(Words(stdout)[k + 2])
    ensures JobId(stdout).None? <==> forall k :: !IdAt(Words(stdout), k)
  {
    var parts := Words(stdout);
    JobIdFromFirst(parts, 0);
    if stdout == "" {
      assert parts == [];
      assert forall k :: !IdAt(parts, k);
    } else if JobIdFrom(parts, 0).Some? {
      var k :| FirstIdFrom(parts, 0, k) && JobIdFrom(parts, 0) == Some(parts[k + 2]);
      assert JobId(stdout) == JobIdFrom(parts, 0);
      assert IdAt(Words(stdout), k);
      assert !forall k :: !IdAt(Words(stdout), k);
    } else {
      forall k ensures !IdAt(parts, k) {
        if 0 <= k {
          assert !IdAt(parts, k);
        }
      }
    }
  }

  /** The first `id` token decides: an `id` too near the end gives no job id even if another follows. */
  lemma {:induction false} JobIdFirstIdToken(parts: seq<string>, i: nat)
    requires i < |parts| && parts[i] == "id"
    requires forall j :: 0 <= j < i ==> parts[j] != "id"
    ensures JobIdFrom(parts, 0) == if i + 2 < |parts| then Some(parts[i + 2]) else None
  {
    FromFirstIdToken(parts, i, 0);
  }

  lemma {:induction false} FromFirstIdToken(parts: seq<string>, i: nat, from: nat)
    requires from <= i < |parts| && parts[i] == "id"
    requires forall j :: from <= j < i ==> parts[j] != "id"
    ensures JobIdFrom(parts, from) == if i + 2 < |parts| then Some(parts[i + 2]) else None
    decreases |parts| - from
  {
    if from < i {
      FromFirstIdToken(parts, i, from + 1);
    } else if i + 2 >= |parts| {
      JobIdFromFirst(parts, i + 1);
      assert forall k :: i + 1 <= k ==> !IdAt(parts, k);
    }
  }

  /** The loop over the tokens of `lp`'s output, stopping at the first match. */
  method ExtractJobId(stdout: string) returns (jobId: Option<string>)
    ensures jobId == JobId(stdout)
  {
    jobId := None;
    if stdout != "" {
      var parts := Words(stdout);
      var i := 0;
      while i < |parts|
        invariant 0 <= i <= |parts|
        invariant JobIdFrom(parts, i) == JobIdFrom(parts, 0)
        invariant jobId == None
      {
        if parts[i] == "id" && i + 2 < |parts| {
          jobId := Some(parts[i + 2]);
          break;
        }
        i := i + 1;
      }
    }
  }

  // ---------------------------------------------------------------------------
  // lp argument lists, and how lp reads them back

  /** The `lp` command of `print_image`. */
  function ImageCommand(printer: string, copies: int, paperSize: string, filePath: string): (cmd: seq<string>)
    ensures |cmd| == 10 && cmd[0] == "lp" && cmd[9] == filePath
  {
    ["lp", "-d", printer, "-n", IntToString(copies), "-o", "media=" + paperSize, "-o", "fit-to-page", filePath]
  }

  /** The `lp` command of `print_text_file`: 12 characters and 8 lines per inch. */
  function TextCommand(printer: string, copies: int, fontSize: int, filePath: string): (cmd: seq<string>)
    ensures |cmd| == 12 && cmd[0] == "lp" && cmd[11] == filePath
  {
    ["lp", "-d", printer, "-n", IntToString(copies), "-o", "cpi=12", "-o", "lpi=8",
     "-o", "font-size=" + IntToString(fontSize), filePath]
  }

  /** A print job as `lp` understands its arguments. */
  datatype LpJob = LpJob(destination: Option<string>, copies: Option<int>, options: seq<string>, files: seq<string>)

  /**
   * A reading of `lp`'s arguments: `-d NAME`, `-n COUNT`, `-o OPTION`, and
   * file names that do not start with `-`; anything else is refused.
   */
  function ReadLpArgs(args: seq<string>, job: LpJob): Option<LpJob>
    decreases |args|
  {
    if args == [] then Some(job)
    else if args[0] == "-d" && |args| >= 2 then ReadLpArgs(args[2..], job.(destination := Some(args[1])))
    else if args[0] == "-n" && |args| >= 2 then
      if IsIntText(args[1]) then ReadLpArgs(args[2..], job.(copies := Some(ParseInt(args[1])))) else None
    else if args[0] == "-o" && |args| >= 2 then ReadLpArgs(args[2..], job.(options := job.options + [args[1]]))
    else if args[0] != [] && args[0][0] == '-' then None
    else ReadLpArgs(args[1..], job.(files := job.files + [args[0]]))
  }

  function ReadLp(cmd: seq<string>): Option<LpJob> {
    if cmd != [] && cmd[0] == "lp" then ReadLpArgs(cmd[1..], LpJob(None, None, [], [])) else None
  }

  /** Reading `-d name` sets the destination and goes on after the pair. */
  lemma ReadDestination(cmd: seq<string>, k: nat, job: LpJob)
    requires k + 2 <= |cmd| && cmd[k] == "-d"
    ensures ReadLpArgs(cmd[k..], job) == ReadLpArgs(cmd[k + 2..], job.(destination := Some(cmd[k + 1])))
  {
    assert cmd[k..][2..] == cmd[k + 2..];
  }

  /** Reading `-n count` with a numeral sets the copy count and goes on after the pair. */
  lemma ReadCopies(cmd: seq<string>, k: nat, job: LpJob)
    requires k + 2 <= |cmd| && cmd[k] == "-n" && IsIntText(cmd[k + 1])
    ensures ReadLpArgs(cmd[k..], job) == ReadLpArgs(cmd[k + 2..], job.(copies := Some(ParseInt(cmd[k + 1]))))
  {
    assert cmd[k..][2..] == cmd[k + 2..];
  }

  /** Reading `-o option` appends the option and goes on after the pair. */
  lemma ReadOption(cmd: seq<string>, k: nat, job: LpJob)
    requires k + 2 <= |cmd| && cmd[k] == "-o"
    ensures ReadLpArgs(cmd[k..], job) == ReadLpArgs(cmd[k + 2..], job.(options := job.options + [cmd[k + 1]]))
  {
    assert cmd[k..][2..] == cmd[k + 2..];
  }

  /** A last argument that is not a flag is the one file. */
  lemma ReadLastFile(cmd: seq<string>, job: LpJob)
    requires |cmd| >= 1 && (cmd[|cmd| - 1] == [] || cmd[|cmd| - 1][0] != '-')
    ensures ReadLpArgs(cmd[|cmd| - 1..], job) == Some(job.(files := job.files + [cmd[|cmd| - 1]]))
  {
    var last := cmd[|cmd| - 1..];
    assert last == [cmd[|cmd| - 1]];
    assert last[1..] == [];
  }

  /** The image command sends one file to the chosen printer, with the copy count, paper and fit-to-page. */
  lemma ImageCommandReadsBack(printer: string, copies: int, paperSize: string, filePath: string)
    requires filePath == [] || filePath[0] != '-'
    ensures ReadLp(ImageCommand(printer, copies, paperSize, filePath)) ==
            Some(LpJob(Some(printer), Some(copies), ["media=" + paperSize, "fit-to-page"], [filePath]))
  {
    var cmd := ImageCommand(printer, copies, paperSize, filePath);
    ParseIntToString(copies);
    var j0 := LpJob(None, None, [], []);
    var j1 := j0.(destination := Some(cmd[2]));
    var j2 := j1.(copies := Some(ParseInt(cmd[4])));
    var j3 := j2.(options := j2.options + [cmd[6]]);
    var j4 := j3.(options := j3.options + [cmd[8]]);
    ReadDestination(cmd, 1, j0);
    ReadCopies(cmd, 3, j1);
    ReadOption(cmd, 5, j2);
    ReadOption(cmd, 7, j3);
    ReadLastFile(cmd, j4);
    assert j4.options == ["media=" + paperSize, "fit-to-page"];
    assert j4.files + [cmd[9]] == [filePath];
    assert j4.(files := j4.files + [cmd[9]]) == LpJob(Some(printer), Some(copies), j4.options, [filePath]);
  }

  /** The text command sends one file with the copy count, the pitch and the font size. */
  lemma TextCommandReadsBack(printer: string, copies: int, fontSize: int, filePath: string)
    requires filePath == [] || filePath[0] != '-'
    ensures ReadLp(TextCommand(printer, copies, fontSize, filePath)) ==
            Some(LpJob(Some(printer), Some(copies), ["cpi=12", "lpi=8", "font-size=" + IntToString(fontSize)], [filePath]))
  {
    var cmd := TextCommand(printer, copies, fontSize, filePath);
    ParseIntToString(copies);
    var j0 := LpJob(None, None, [], []);
    var j1 := j0.(destination := Some(cmd[2]));
    var j2 := j1.(copies := Some(ParseInt(cmd[4])));
    var j3 := j2.(options := j2.options + [cmd[6]]);
    var j4 := j3.(options := j3.options + [cmd[8]]);
    var j5 := j4.(options := j4.options + [cmd[10]]);
    ReadDestination(cmd, 1, j0);
    ReadCopies(cmd, 3, j1);
    ReadOption(cmd, 5, j2);
    ReadOption(cmd, 7, j3);
    ReadOption(cmd, 9, j4);
    ReadLastFile(cmd, j5);
    assert j5.options == ["cpi=12", "lpi=8", "font-size=" + IntToString(fontSize)];
    assert j5.files + [cmd[11]] == [filePath];
    assert j5.(files := j5.files + [cmd[11]]) == LpJob(Some(printer), Some(copies), j5.options, [filePath]);
  }

  // ---------------------------------------------------------------------------
  // printing

  /** `printer_name or self.default_printer`, then `if not printer`. */
  function ChoosePrinter(printerName: Option<string>, defaultPrinter: Option<string>): (p: Option<string>)
    ensures p.None? <==> !Truthy(printerName) && !Truthy(defaultPrinter)
    ensures Truthy(printerName) ==> p == printerName
    ensures !Truthy(printerName) && Truthy(defaultPrinter) ==> p == defaultPrinter
    ensures p.Some? ==> p.value != ""
  {
    if Truthy(printerName) then printerName
    else if Truthy(defaultPrinter) then defaultPrinter
    else None
  }

  /** The error of a failed `lp`: the trimmed standard error, or a fixed text when it is empty. */
  function FailureError(stderr: string): (e: string)
    ensures stderr == "" ==> e == "Unknown print error"
    ensures stderr != "" ==> e == Strip(stderr) && (e == [] || (!IsSpace(e[0]) && !IsSpace(e[|e| - 1])))
  {
    if stderr != "" then Strip(stderr) else "Unknown print error"
  }

  /** Standard error made only of whitespace gives an empty error text, not the fixed one. */
  lemma FailureErrorOfBlankStderr()
    ensures FailureError(" \n") == ""
  {
    var s := " \n";
    assert IsSpace(s[0]) && s[1..] == "\n";
    assert IsSpace(s[1..][0]) && s[1..][1..] == "";
    assert LStrip(s) == "";
  }

  /** How a finished `lp` run becomes the report. */
  function LpOutcome(run: RunResult, printer: string, filePath: string, copies: int, setting: JobSetting): (res: PrintResult)
    ensures res.Submitted? <==> run.Completed? && run.returncode == 0
    ensures res.Submitted? ==> res == Submitted(JobId(run.stdout), printer, filePath, copies, setting)
    ensures run.Completed? && run.returncode != 0 ==> res == PrintFailed(FailureError(run.stderr), Some(printer))
    ensures run.TimedOut? ==> res == PrintFailed("Print command timeout", None)
    ensures run.Raised? ==> res == PrintFailed(run.message, None)
  {
    match run
    case Completed(rc, out, err) =>
      if rc == 0 then Submitted(JobId(out), printer, filePath, copies, setting)
      else PrintFailed(FailureError(err), Some(printer))
    case TimedOut(_) => PrintFailed("Print command timeout", None)
    case Raised(m) => PrintFailed(m, None)
  }

  class PrinterManager {
    var defaultPrinter: Option<string>

    /** `__init__`: no default, then one detection run. */
    constructor(lpstat: RunResult)
      ensures defaultPrinter == DetectedDefault(lpstat)
    {
      defaultPrinter := None;
      new;
      DetectPrinters(lpstat);
    }

    /** `_detect_printers`: records a detected default; otherwise the field keeps its value. */
    method DetectPrinters(lpstat: RunResult)
      modifies this
      ensures defaultPrinter == if DetectedDefault(lpstat).Some? then DetectedDefault(lpstat) else old(defaultPrinter)
    {
      if lpstat.Completed? && lpstat.returncode == 0 {
        var lines := OutputLines(lpstat.stdout);
        if |lines| > 0 && lines[0] != "" {
          var firstLine := lines[0];
          if Contains(firstLine, "printer") {
            var parts := Words(firstLine);
            if |parts| >= 2 {
              defaultPrinter := Some(parts[1]);
            }
          }
        }
      }
    }

    /** `get_available_printers`: one entry per qualifying line, in order, flagged against the default. */
    method GetAvailablePrinters(lpstat: RunResult) returns (res: PrinterList)
      ensures lpstat.Completed? ==>
                res == Listed(if lpstat.returncode == 0 then Entries(OutputLines(lpstat.stdout), defaultPrinter) else [],
                              defaultPrinter)
      ensures !lpstat.Completed? ==> res == ListFailed(lpstat.message)
    {
      if !lpstat.Completed? {
        return ListFailed(lpstat.message);
      }
      var printers := [];
      if lpstat.returncode == 0 {
        var lines := OutputLines(lpstat.stdout);
        for i := 0 to |lines|
          invariant printers == Entries(lines[..i], defaultPrinter)
        {
          var line := lines[i];
          EntriesStep(lines, i, defaultPrinter);
          if StartsWith(line, "printer") {
            var parts := Words(line);
            if |parts| >= 2 {
              var printerName := parts[1];
              var status := if |parts| > 2 then Join(" ", parts[2..]) else "Unknown";
              printers := printers + [PrinterInfo(printerName, status, Some(printerName) == defaultPrinter)];
            }
          }
        }
        assert lines[..|lines|] == lines;
      }
      res := Listed(printers, defaultPrinter);
    }

    /** The shared shape of `print_image` and `print_text_file`. */
    method Submit(filePath: string, fileExists: bool, printerName: Option<string>, copies: int,
                  setting: JobSetting, lp: seq<string> -> RunResult) returns (res: PrintResult)
      ensures !fileExists ==> res == PrintFailed("File not found", None)
      ensures fileExists && ChoosePrinter(printerName, defaultPrinter).None? ==>
                res == PrintFailed("No printer available", None)
      ensures fileExists && ChoosePrinter(printerName, defaultPrinter).Some? ==>
                var p := ChoosePrinter(printerName, defaultPrinter).value;
                res == LpOutcome(lp(CommandFor(p, copies, setting, filePath)), p, filePath, copies, setting)
    {
      if !fileExists {
        return PrintFailed("File not found", None);
      }
      var printer := if Truthy(printerName) then printerName else defaultPrinter;
      if !Truthy(printer) {
        return PrintFailed("No printer available", None);
      }
      var cmd := CommandFor(printer.value, copies, setting, filePath);
      var run := lp(cmd);
      match run {
        case Completed(rc, out, err) =>
          if rc == 0 {
            var jobId := ExtractJobId(out);
            res := Submitted(jobId, printer.value, filePath, copies, setting);
          } else {
            res := PrintFailed(FailureError(err), printer);
          }
        case TimedOut(_) =>
          res := PrintFailed("Print command timeout", None);
        case Raised(m) =>
          res := PrintFailed(m, None);
      }
    }

    /** `print_image`. */
    method PrintImage(filePath: string, fileExists: bool, printerName: Option<string>, copies: int,
                      paperSize: string, lp: seq<string> -> RunResult) returns (res: PrintResult)
      ensures !fileExists ==> res == PrintFailed("File not found", None)
      ensures fileExists && ChoosePrinter(printerName, defaultPrinter).None? ==>
                res == PrintFailed("No printer available", None)
      ensures fileExists && ChoosePrinter(printerName, defaultPrinter).Some? ==>
                var p := ChoosePrinter(printerName, defaultPrinter).value;
                res == LpOutcome(lp(ImageCommand(p, copies, paperSize, filePath)), p, filePath, copies, PaperSize(paperSize))
    {
      res := Submit(filePath, fileExists, printerName, copies, PaperSize(paperSize), lp);
    }

    /** `print_text_file`. */
    method PrintTextFile(filePath: string, fileExists: bool, printerName: Option<string>, copies: int,
                         fontSize: int, lp: seq<string> -> RunResult) returns (res: PrintResult)
      ensures !fileExists ==> res == PrintFailed("File not found", None)
      ensures fileExists && ChoosePrinter(printerName, defaultPrinter).None? ==>
                res == PrintFailed("No printer available", None)
      ensures fileExists && ChoosePrinter(printerName, defaultPrinter).Some? ==>
                var p := ChoosePrinter(printerName, defaultPrinter).value;
                res == LpOutcome(lp(TextCommand(p, copies, fontSize, filePath)), p, filePath, copies, FontSize(fontSize))
    {
      res := Submit(filePath, fileExists, printerName, copies, FontSize(fontSize), lp);
    }
  }

  /** The command for a job's setting. */
  function CommandFor(printer: string, copies: int, setting: JobSetting, filePath: string): seq<string> {
    match setting
    case PaperSize(size) => ImageCommand(printer, copies, size, filePath)
    case FontSize(points) => TextCommand(printer, copies, points, filePath)
  }
}

/**
 * The log-request runner: a script whose `ECHO` output is wanted is queued,
 * handed to the renderer once, and its standard output and standard error
 * are classified into echoed values, warnings and errors. The renderer
 * itself (finding the binary, the temporary script file, the process) is
 * outside the model: each request is given the outcome of its run.
 */
module LogManaging {
  import opened Strings
  import opened ErrorLogging

  // ---------------------------------------------------------------------
  // The script

  /** A line starting with `--` loses those two characters; any other line is kept. */
  function Undashed(line: string): string {
    if StartsWith(line, "--") then line[2..] else line
  }

  /** Undashing takes off exactly one `--` and leaves undashed lines alone. */
  lemma UndashedRoundTrip(s: string)
    ensures Undashed("--" + s) == s
    ensures !StartsWith(s, "--") ==> Undashed(s) == s
  {
    assert ("--" + s)[..2] == "--";
  }

  /** The script as the request keeps it: one line per given line, each undashed. */
  function ScriptOf(lines: seq<string>): (r: seq<string>)
    ensures |r| == |lines|
    ensures forall i :: 0 <= i < |lines| ==> r[i] == Undashed(lines[i])
  {
    if lines == [] then [] else [Undashed(lines[0])] + ScriptOf(lines[1..])
  }

  // ---------------------------------------------------------------------
  // `ECHO:\s*(.+)$` matched at the start of a line

  /** The markers the renderer's output is scanned for. */
  const EchoTag := "ECHO:"
  const WarningTag := "WARNING:"
  const ErrorTag := "ERROR:"

  /**
   * `(.+)$` at the start of `u`: one or more characters other than a
   * newline reaching the end of `u`, or stopping just before a final newline.
   */
  function DotsToEnd(u: string): (r: Option<string>)
    ensures r.Some? ==> r.value != [] && '\n' !in r.value && (r.value == u || r.value + "\n" == u)
  {
    if u != [] && '\n' !in u then Some(u)
    else if |u| >= 2 && u[|u| - 1] == '\n' && '\n' !in u[..|u| - 1] then
      assert u[..|u| - 1] + "\n" == u;
      Some(u[..|u| - 1])
    else None
  }

  /**
   * The greedy `\s*` takes the first `k` characters of `t`; when `(.+)$`
   * fails after them, it gives back one character at a time.
   */
  function EchoFrom(t: string, k: nat): Option<string>
    requires k <= |t|
  {
    match DotsToEnd(t[k..])
      case Some(v) => Some(v)
      case None => if k == 0 then None else EchoFrom(t, k - 1)
  }

  /** The capture of `ECHO:\s*(.+)$` under `re.match`, None when the line does not match. */
  function EchoMatch(line: string): Option<string> {
    if !StartsWith(line, EchoTag) then None
    else
      var t := line[|EchoTag|..];
      EchoFrom(t, |t| - |LStrip(t)|)
  }

  /** Whatever the backtracking finds is a non-empty, newline-free tail of `t`, or one before a final newline. */
  lemma {:induction false} EchoFromSpec(t: string, k: nat)
    requires k <= |t|
    ensures var r := EchoFrom(t, k);
      r.Some? ==> r.value != [] && '\n' !in r.value && (EndsWith(t, r.value) || EndsWith(t, r.value + "\n"))
  {
    var u := t[k..];
    match DotsToEnd(u)
    case Some(v) =>
      EndsWithTail(t, k, v);
      EndsWithTail(t, k, v + "\n");
      assert v == u || v + "\n" == u;
      assert EndsWith(u, u);
    case None =>
      if k > 0 {
        EchoFromSpec(t, k - 1);
      }
  }

  /** A capture is only found after `ECHO:`, is non-empty, has no newline and ends the line (up to a final newline). */
  lemma EchoMatchSpec(line: string)
    ensures var r := EchoMatch(line);
      r.Some? ==> (StartsWith(line, EchoTag) && r.value != [] && '\n' !in r.value
        && (EndsWith(line, r.value) || EndsWith(line, r.value + "\n")))
  {
    if StartsWith(line, EchoTag) {
      var t := line[|EchoTag|..];
      var k := |t| - |LStrip(t)|;
      var r := EchoFrom(t, k);
      assert EchoMatch(line) == r;
      EchoFromSpec(t, k);
      if r.Some? {
        SuffixLift(line, |EchoTag|, r.value);
      }
    }
  }

  /** A tail of a tail of `s` (possibly before a final newline) is such a tail of `s`. */
  lemma SuffixLift(s: string, n: nat, v: string)
    requires n <= |s| && (EndsWith(s[n..], v) || EndsWith(s[n..], v + "\n"))
    ensures EndsWith(s, v) || EndsWith(s, v + "\n")
  {
    EndsWithTail(s, n, v);
    EndsWithTail(s, n, v + "\n");
  }

  lemma EndsWithTail(s: string, n: nat, p: string)
    requires n <= |s|
    ensures EndsWith(s[n..], p) ==> EndsWith(s, p)
  {
    if EndsWith(s[n..], p) {
      assert s[n..][|s[n..]| - |p|..] == s[|s| - |p|..];
    }
  }

  /** Blanks before the echoed value are skipped: `ECHO:` then blanks then `v` captures `v`. */
  lemma EchoRoundTrip(w: string, v: string)
    requires forall i :: 0 <= i < |w| ==> IsSpace(w[i])
    requires v != [] && '\n' !in v && !IsSpace(v[0])
    ensures EchoMatch(EchoTag + w + v) == Some(v)
  {
    var line := EchoTag + w + v;
    var t := line[|EchoTag|..];
    assert t == w + v;
    SpacesThen(w, v);
    assert t[|w|..] == v;
  }

  /** Whitespace followed by a non-blank start strips to what follows it. */
  lemma {:induction false} SpacesThen(w: string, v: string)
    requires forall i :: 0 <= i < |w| ==> IsSpace(w[i])
    requires v == [] || !IsSpace(v[0])
    ensures LStrip(w + v) == v
  {
    if w != [] {
      assert (w + v)[1..] == w[1..] + v;
      SpacesThen(w[1..], v);
    }
  }

  /**
   * With nothing but blanks after `ECHO:`, the pattern still matches: `\s*`
   * gives back the last blank, which becomes the echoed value.
   */
  lemma EchoOfBlanks(w: string)
    requires w != [] && '\n' !in w && forall i :: 0 <= i < |w| ==> IsSpace(w[i])
    ensures EchoMatch(EchoTag + w) == Some([w[|w| - 1]])
  {
    var line := EchoTag + w;
    var t := line[|EchoTag|..];
    assert t == w;
    SpacesThen(w, []);
    assert w + [] == w;
    var k := |w|;
    assert |t| - |LStrip(t)| == k;
    assert t[k..] == [];
    assert EchoFrom(t, k) == EchoFrom(t, k - 1);
    var c := [w[k - 1]];
    assert t[k - 1..] == c && '\n' !in c;
    assert DotsToEnd(c) == Some(c);
  }

  /** A line that does not start with `ECHO:` echoes nothing. */
  lemma NoEchoWithoutPrefix(line: string)
    requires !StartsWith(line, EchoTag)
    ensures EchoMatch(line).None?
  {
  }

  // ---------------------------------------------------------------------
  // Classifying the output

  /** The captures `f` finds in the first `n` lines, in order; lines without one add nothing. */
  function Captured<T>(xs: seq<string>, f: string -> Option<T>, n: nat): (r: seq<T>)
    requires n <= |xs|
    ensures |r| <= n
  {
    if n == 0 then []
    else Captured(xs, f, n - 1) + (match f(xs[n - 1]) case Some(v) => [v] case None => [])
  }

  /** The first `n` lines that satisfy `p`, in order. */
  function Kept(xs: seq<string>, p: string -> bool, n: nat): (r: seq<string>)
    requires n <= |xs|
    ensures |r| <= n
  {
    if n == 0 then [] else Kept(xs, p, n - 1) + (if p(xs[n - 1]) then [xs[n - 1]] else [])
  }

  /** Every capture comes from some line, and every line with a capture contributes it. */
  lemma {:induction false} CapturedSpec<T>(xs: seq<string>, f: string -> Option<T>, n: nat)
    requires n <= |xs|
    ensures forall v :: v in Captured(xs, f, n) ==> exists i :: 0 <= i < n && f(xs[i]) == Some(v)
    ensures forall i :: 0 <= i < n && f(xs[i]).Some? ==> f(xs[i]).value in Captured(xs, f, n)
  {
    if n > 0 {
      CapturedSpec(xs, f, n - 1);
      var prev := Captured(xs, f, n - 1);
      var m := f(xs[n - 1]);
      var last: seq<T> := if m.Some? then [m.value] else [];
      assert Captured(xs, f, n) == prev + last;
      forall v | v in prev + last ensures exists i :: 0 <= i < n && f(xs[i]) == Some(v) {
        if v !in prev {
          assert m == Some(v);
        }
      }
    }
  }

  /** A line is kept iff it satisfies `p`. */
  lemma {:induction false} KeptSpec(xs: seq<string>, p: string -> bool, n: nat)
    requires n <= |xs|
    ensures forall x :: x in Kept(xs, p, n) <==> exists i :: 0 <= i < n && xs[i] == x && p(x)
  {
    if n > 0 {
      KeptSpec(xs, p, n - 1);
      var x := xs[n - 1];
      assert forall y :: y in Kept(xs, p, n) <==> y in Kept(xs, p, n - 1) || (y == x && p(x));
    }
  }

  /** Two exclusive tests split the lines into disjoint parts, together no more than the lines. */
  lemma {:induction false} KeptApart(xs: seq<string>, p: string -> bool, q: string -> bool, n: nat)
    requires n <= |xs| && forall x :: p(x) ==> !q(x)
    ensures forall x :: x in Kept(xs, p, n) ==> x !in Kept(xs, q, n)
    ensures |Kept(xs, p, n)| + |Kept(xs, q, n)| <= n
  {
    KeptSpec(xs, p, n);
    KeptSpec(xs, q, n);
    if n > 0 {
      KeptApart(xs, p, q, n - 1);
    }
  }

  function EchosOf(lines: seq<string>): seq<string> { Captured(lines, EchoMatch, |lines|) }

  predicate IsWarningLine(line: string) { Contains(line, WarningTag) }
  /** An error line mentions `ERROR:` and no `WARNING:`; a line with both is a warning only. */
  predicate IsErrorLine(line: string) { !Contains(line, WarningTag) && Contains(line, ErrorTag) }

  function WarningsOf(lines: seq<string>): seq<string> { Kept(lines, IsWarningLine, |lines|) }
  function ErrorsOf(lines: seq<string>): seq<string> { Kept(lines, IsErrorLine, |lines|) }

  /** The echoed values are exactly the captures of the standard-output lines that match. */
  lemma EchosCaptured(lines: seq<string>)
    ensures forall e :: e in EchosOf(lines) ==> exists i :: 0 <= i < |lines| && EchoMatch(lines[i]) == Some(e)
    ensures forall i :: 0 <= i < |lines| && EchoMatch(lines[i]).Some? ==> EchoMatch(lines[i]).value in EchosOf(lines)
  {
    CapturedSpec(lines, EchoMatch, |lines|);
  }

  /**
   * The standard error is split without loss of classification: warnings
   * are exactly the lines mentioning `WARNING:`, errors exactly the other
   * lines mentioning `ERROR:`, and no line lands in both.
   */
  lemma StderrSplit(lines: seq<string>)
    ensures var w, e := WarningsOf(lines), ErrorsOf(lines);
      (forall x :: x in w <==> exists i :: 0 <= i < |lines| && lines[i] == x && IsWarningLine(x))
      && (forall x :: x in e <==> exists i :: 0 <= i < |lines| && lines[i] == x && IsErrorLine(x))
      && (forall x :: x in w ==> x !in e)
      && |w| + |e| <= |lines|
  {
    KeptSpec(lines, IsWarningLine, |lines|);
    KeptSpec(lines, IsErrorLine, |lines|);
    KeptApart(lines, IsWarningLine, IsErrorLine, |lines|);
  }

  // ---------------------------------------------------------------------
  // The outcome rule

  /** A run that finished: FAIL iff the return code is non-zero or some stderr line mentions `ERROR:`. */
  function RanStatus(rc: int, stderr: seq<string>): string {
    if rc != 0 || exists i :: 0 <= i < |stderr| && Contains(stderr[i], ErrorTag) then "FAIL" else "SUCCESS"
  }

  /** A successful run returned zero and leaves no error lines. */
  lemma {:induction false} SuccessHasNoErrors(rc: int, stderr: seq<string>, n: nat)
    requires n <= |stderr| && RanStatus(rc, stderr) == "SUCCESS"
    ensures rc == 0 && Kept(stderr, IsErrorLine, n) == []
  {
    if n > 0 {
      SuccessHasNoErrors(rc, stderr, n - 1);
      assert !Contains(stderr[n - 1], ErrorTag);
    }
  }

  /**
   * A line mentioning both `ERROR:` and `WARNING:` fails the run although
   * the request then lists no error: the line is counted as a warning.
   */
  lemma FailWithoutErrors()
    ensures var err := ["WARNING: ERROR: x"];
      RanStatus(0, err) == "FAIL" && ErrorsOf(err) == [] && WarningsOf(err) == err
  {
    var err := ["WARNING: ERROR: x"];
    var line := err[0];
    assert line[9..][..6] == ErrorTag;
    assert Contains(line[9..], ErrorTag);
    ContainsFrom(line, 9, ErrorTag);
    assert StartsWith(line, WarningTag) && IsWarningLine(line) && !IsErrorLine(line);
    assert Kept(err, IsErrorLine, 1) == Kept(err, IsErrorLine, 0) == [];
    assert Kept(err, IsWarningLine, 1) == Kept(err, IsWarningLine, 0) + [line] == err;
  }

  lemma {:induction false} ContainsFrom(s: string, k: nat, sub: string)
    requires k <= |s| && Contains(s[k..], sub)
    ensures Contains(s, sub)
    decreases k
  {
    if k > 0 {
      assert s[1..][k - 1..] == s[k..];
      ContainsFrom(s[1..], k - 1, sub);
    }
  }

  /** How a run can end, as seen by `process_request`. */
  datatype Run =
    | NoBinary(msg: string)                                  // the renderer binary was not found
    | Ran(stdout: seq<string>, stderr: seq<string>, rc: int)  // the renderer ran to completion
    | TimedOut                                               // the run exceeded its time limit
    | Crashed(msg: string)                                   // starting or running it raised

  /** The arguments `completed` receives for a run: status, stdout, stderr and return code. */
  function Completion(run: Run): (string, seq<string>, seq<string>, int) {
    match run
      case NoBinary(msg) => ("FAIL", [], [msg], -1)
      case Ran(o, e, rc) => (RanStatus(rc, e), o, e, rc)
      case TimedOut => ("FAIL", [], ["Timeout expired"], -1)
      case Crashed(msg) => ("FAIL", [], [msg], -1)
  }

  /** The error-log entries a run adds for a request from `file` at `line`. */
  function RunEntries(run: Run, file: string, line: int): seq<Entry> {
    match run
      case NoBinary(msg) => [Entry(file, line, msg, FAIL)]
      case Ran(_, _, _) => []
      case TimedOut => [Entry(file, line, "OpenSCAD execution timed out", FAIL)]
      case Crashed(msg) => [Entry(file, line, "OpenSCAD execution failed: " + msg, FAIL)]
  }

  /**
   * Only a run that finished can succeed, and it is logged nowhere; every
   * other run fails with return code -1 and exactly one error entry.
   */
  lemma OutcomeCases(run: Run, file: string, line: int)
    ensures Completion(run).0 == "SUCCESS" <==>
      run.Ran? && run.rc == 0 && forall i :: 0 <= i < |run.stderr| ==> !Contains(run.stderr[i], ErrorTag)
    ensures run.Ran? <==> RunEntries(run, file, line) == []
    ensures !run.Ran? ==> (Completion(run).0 == "FAIL" && Completion(run).3 == -1
      && |RunEntries(run, file, line)| == 1 && RunEntries(run, file, line)[0].level == FAIL
      && AnyFail(RunEntries(run, file, line)))
  {
  }

  // ---------------------------------------------------------------------
  // Requests and the manager

  function OrEmpty(lines: Option<seq<string>>): seq<string> {
    if lines.Some? then lines.value else []
  }

  /** The loop over standard output: keeps what `f` captures from each line, in order. */
  method CollectCaptures<T>(xs: seq<string>, f: string -> Option<T>) returns (r: seq<T>)
    ensures r == Captured(xs, f, |xs|)
  {
    r := [];
    var i := 0;
    while i < |xs|
      invariant 0 <= i <= |xs|
      invariant r == Captured(xs, f, i)
    {
      var m := f(xs[i]);
      if m.Some? {
        r := r + [m.value];
      }
      i := i + 1;
    }
  }

  /** The loop over standard error: a line is a warning, else possibly an error, else dropped. */
  method SplitStderr(e: seq<string>) returns (warns: seq<string>, errs: seq<string>)
    ensures warns == WarningsOf(e) && errs == ErrorsOf(e)
  {
    warns, errs := [], [];
    var j := 0;
    while j < |e|
      invariant 0 <= j <= |e|
      invariant warns == Kept(e, IsWarningLine, j) && errs == Kept(e, IsErrorLine, j)
    {
      if Contains(e[j], WarningTag) {
        warns := warns + [e[j]];
      } else if Contains(e[j], ErrorTag) {
        errs := errs + [e[j]];
      }
      j := j + 1;
    }
  }

  class LogRequest {
    const srcFile: string
    const srcLine: int
    const scriptLines: seq<string>
    const hasCompletionCb: bool

    var complete: bool
    var status: string
    var success: bool
    var cmdline: seq<string>
    var returnCode: Option<int>
    var stdout: seq<string>
    var stderr: seq<string>
    var echos: seq<string>
    var warnings: seq<string>
    var errors: seq<string>
    /** How many times the completion callback has run. */
    var completions: nat

    constructor (srcFile: string, srcLine: int, lines: seq<string>, hasCompletionCb: bool)
      ensures this.srcFile == srcFile && this.srcLine == srcLine && this.hasCompletionCb == hasCompletionCb
      ensures scriptLines == ScriptOf(lines)
      ensures !complete && status == "INCOMPLETE" && !success && completions == 0
      ensures cmdline == [] && returnCode == None && stdout == [] && stderr == []
      ensures echos == [] && warnings == [] && errors == []
    {
      this.srcFile := srcFile;
      this.srcLine := srcLine;
      this.hasCompletionCb := hasCompletionCb;
      scriptLines := ScriptOf(lines);
      complete, status, success := false, "INCOMPLETE", false;
      cmdline, returnCode, stdout, stderr := [], None, [], [];
      echos, warnings, errors := [], [], [];
      completions := 0;
    }

    /**
     * `completed`: records the status (success iff "SUCCESS") and the
     * output, missing output read as empty, then collects the echoed values
     * from stdout and the warnings and errors from stderr, and runs the
     * completion callback once.
     */
    method Completed(st: string, out: Option<seq<string>>, err: Option<seq<string>>, rc: Option<int>)
      modifies this
      ensures complete && status == st && success == (st == "SUCCESS") && returnCode == rc
      ensures stdout == OrEmpty(out) && stderr == OrEmpty(err)
      ensures echos == EchosOf(stdout)
      ensures warnings == WarningsOf(stderr) && errors == ErrorsOf(stderr)
      ensures cmdline == old(cmdline)
      ensures completions == old(completions) + if hasCompletionCb then 1 else 0
    {
      complete, status, success, returnCode := true, st, st == "SUCCESS", rc;
      Classify(OrEmpty(out), OrEmpty(err));
      if hasCompletionCb {
        completions := completions + 1;
      }
    }

    /** Stores the output and what is parsed out of it; the other fields keep their values. */
    method Classify(o: seq<string>, e: seq<string>)
      modifies this`stdout, this`stderr, this`echos, this`warnings, this`errors
      ensures stdout == o && stderr == e
      ensures echos == EchosOf(o) && warnings == WarningsOf(e) && errors == ErrorsOf(e)
    {
      var ech := CollectCaptures(o, EchoMatch);
      var warns, errs := SplitStderr(e);
      stdout, stderr, echos, warnings, errors := o, e, ech, warns, errs;
    }
  }

  /** No request object appears twice in the queue. */
  ghost predicate Distinct(rs: seq<LogRequest>) {
    forall a, b :: 0 <= a < b < |rs| ==> rs[a] != rs[b]
  }

  lemma DistinctAppend(rs: seq<LogRequest>, r: LogRequest)
    requires Distinct(rs) && r !in rs
    ensures Distinct(rs + [r])
  {
    var s := rs + [r];
    forall a, b | 0 <= a < b < |s| ensures s[a] != s[b] {
      assert s[a] == rs[a];
      if b == |rs| { assert s[b] == r; } else { assert s[b] == rs[b]; }
    }
  }

  /** The error-log entries of the first `n` requests of a queue, in order. */
  function EntriesUpTo(rs: seq<LogRequest>, runs: seq<Run>, n: nat): (r: seq<Entry>)
    requires n <= |rs| == |runs|
  {
    if n == 0 then [] else EntriesUpTo(rs, runs, n - 1) + RunEntries(runs[n - 1], rs[n - 1].srcFile, rs[n - 1].srcLine)
  }

  /** The log gets an entry for each request whose run did not finish, and for no other. */
  lemma {:induction false} EntriesCount(rs: seq<LogRequest>, runs: seq<Run>, n: nat)
    requires n <= |rs| == |runs|
    ensures |EntriesUpTo(rs, runs, n)| == |set i | 0 <= i < n && !runs[i].Ran?|
    ensures (forall i :: 0 <= i < n ==> runs[i].Ran?) <==> EntriesUpTo(rs, runs, n) == []
  {
    if n > 0 {
      EntriesCount(rs, runs, n - 1);
      var before := set i | 0 <= i < n - 1 && !runs[i].Ran?;
      var all := set i | 0 <= i < n && !runs[i].Ran?;
      if runs[n - 1].Ran? {
        assert all == before;
      } else {
        assert all == before + {n - 1};
        assert n - 1 !in before;
      }
    }
  }

  class LogManager {
    var requests: seq<LogRequest>
    var testOnly: bool

    ghost predicate Valid()
      reads this
    {
      Distinct(requests)
    }

    constructor ()
      ensures Valid() && requests == [] && !testOnly
    {
      requests := [];
      testOnly := false;
    }

    /** `purge_requests`: the queue is emptied. */
    method PurgeRequests()
      modifies this
      ensures Valid() && requests == [] && testOnly == old(testOnly)
    {
      requests := [];
    }

    /** `new_request`: queues exactly one new request at the end and returns it. */
    method NewRequest(srcFile: string, srcLine: int, lines: seq<string>, hasCompletionCb: bool)
      returns (req: LogRequest)
      requires Valid()
      modifies this
      ensures Valid() && testOnly == old(testOnly)
      ensures fresh(req) && requests == old(requests) + [req]
      ensures req.srcFile == srcFile && req.srcLine == srcLine && req.scriptLines == ScriptOf(lines)
      ensures !req.complete && req.status == "INCOMPLETE"
    {
      req := new LogRequest(srcFile, srcLine, lines, hasCompletionCb);
      DistinctAppend(requests, req);
      requests := requests + [req];
    }

    /**
     * `process_request` given how the run ended: the request is completed
     * with the run's status and output, and a run that did not finish adds
     * its error entry to the log.
     */
    method ProcessRequest(req: LogRequest, run: Run, log: ErrorLog)
      requires log.Valid()
      modifies req, log
      ensures log.Valid()
      ensures log.errlist == old(log.errlist) + RunEntries(run, req.srcFile, req.srcLine)
      ensures var c := Completion(run);
        req.complete && req.status == c.0 && req.stdout == c.1 && req.stderr == c.2
        && req.returnCode == Some(c.3)
      ensures req.success == (req.status == "SUCCESS") && req.echos == EchosOf(req.stdout)
      ensures req.warnings == WarningsOf(req.stderr) && req.errors == ErrorsOf(req.stderr)
      ensures req.cmdline == old(req.cmdline)
      ensures req.completions == old(req.completions) + if req.hasCompletionCb then 1 else 0
    {
      match run
      case NoBinary(msg) =>
        req.Completed("FAIL", Some([]), Some([msg]), Some(-1));
        log.AddEntry(req.srcFile, req.srcLine, msg, FAIL);
      case Ran(o, e, rc) =>
        var st := if rc != 0 || exists i :: 0 <= i < |e| && Contains(e[i], ErrorTag) then "FAIL" else "SUCCESS";
        req.Completed(st, Some(o), Some(e), Some(rc));
      case TimedOut =>
        req.Completed("FAIL", Some([]), Some(["Timeout expired"]), Some(-1));
        log.AddEntry(req.srcFile, req.srcLine, "OpenSCAD execution timed out", FAIL);
      case Crashed(msg) =>
        req.Completed("FAIL", Some([]), Some([msg]), Some(-1));
        log.AddEntry(req.srcFile, req.srcLine, "OpenSCAD execution failed: " + msg, FAIL);
    }

    /** Processes request `i`; the log and the completed prefix of the queue grow by one. */
    method ProcessNext(rs: seq<LogRequest>, runs: seq<Run>, i: nat, log: ErrorLog, ghost start: seq<Entry>)
      requires i < |rs| == |runs| && Distinct(rs) && log.Valid()
      requires log.errlist == start + EntriesUpTo(rs, runs, i)
      requires forall k :: 0 <= k < i ==> rs[k].complete && rs[k].status == Completion(runs[k]).0
      modifies rs[i], log
      ensures log.Valid() && log.errlist == start + EntriesUpTo(rs, runs, i + 1)
      ensures forall k :: 0 <= k < i + 1 ==> rs[k].complete && rs[k].status == Completion(runs[k]).0
    {
      ProcessRequest(rs[i], runs[i], log);
    }

    /**
     * `process_requests`: each queued request runs once, in queue order,
     * with its run; then the queue is empty.
     */
    method ProcessRequests(testOnlyMode: bool, runs: seq<Run>, log: ErrorLog)
      requires Valid() && |runs| == |requests| && log.Valid()
      modifies this, requests, log
      ensures Valid() && requests == [] && testOnly == testOnlyMode
      ensures log.Valid() && log.errlist == old(log.errlist) + EntriesUpTo(old(requests), runs, |runs|)
      ensures forall k :: 0 <= k < |runs| ==>
        old(requests)[k].complete && old(requests)[k].status == Completion(runs[k]).0
    {
      testOnly := testOnlyMode;
      ProcessAll(requests, runs, log);
      requests := [];
    }

    /** The loop of `process_requests` over a queue of distinct requests. */
    method ProcessAll(rs: seq<LogRequest>, runs: seq<Run>, log: ErrorLog)
      requires Distinct(rs) && |runs| == |rs| && log.Valid()
      modifies rs, log
      ensures log.Valid() && log.errlist == old(log.errlist) + EntriesUpTo(rs, runs, |rs|)
      ensures forall k :: 0 <= k < |rs| ==> rs[k].complete && rs[k].status == Completion(runs[k]).0
    {
      ghost var start := log.errlist;
      for i := 0 to |rs|
        invariant log.Valid() && log.errlist == start + EntriesUpTo(rs, runs, i)
        invariant forall k :: 0 <= k < i ==> rs[k].complete && rs[k].status == Completion(runs[k]).0
      {
        ProcessNext(rs, runs, i, log, start);
      }
    }
  }
}

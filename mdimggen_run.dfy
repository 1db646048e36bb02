/**
 * `MarkdownImageGen.processFiles` for one Markdown file: the scanned
 * blocks are queued as image requests, the output is written unless in
 * test mode, the requests run when the file changed (or when forced or
 * testing), every failed image is filed in the error log, and the hashes
 * file is brought up to date.
 */
module MdImgGen {
  import opened Strings
  import opened Paths
  import opened ErrorLogging
  import opened FileHashing
  import opened ImageManaging
  import opened MarkdownFences

  const HashFile := ".source_hashes"
  const NoRenderTag := "NORENDER"

  /** The command-line options `processFiles` reads. */
  datatype Opts = Opts(docsDir: string, filePrefix: string, imageRoot: string,
                       testOnly: bool, force: bool, pngAnimation: bool)

  /** Where the images of `infile` go; each request puts the camera lines of its type in front of the script. */
  function WhereOf(opts: Opts, infile: string): Where {
    Where(FileRoot(infile), opts.docsDir, opts.imageRoot, opts.pngAnimation, VpPrefix)
  }

  /** The Markdown file written for `infile`. */
  function OutFile(opts: Opts, infile: string): string {
    PathJoin(opts.docsDir, opts.filePrefix + FileRoot(infile) + ".md")
  }

  /** The hashes file kept in the docs directory. */
  function HashPath(opts: Opts): string { PathJoin(opts.docsDir, HashFile) }

  // ---------------------------------------------------------------------
  // Queueing the blocks

  /** Why `new_request` would refuse the block, if it would. */
  function RefusalOf(w: Where, f: Fence): Option<RequestError> {
    if Contains(f.meta, NoRenderTag) then Some(NoRender)
    else if w.camera(f.meta) + f.script == [] then Some(EmptyScript)
    else None
  }

  /** The refusal of the first block that is refused: it ends the whole run. */
  function Refusal(w: Where, fs: seq<Fence>): Option<RequestError>
    decreases |fs|
  {
    if fs == [] then None
    else if RefusalOf(w, fs[0]).Some? then RefusalOf(w, fs[0])
    else Refusal(w, fs[1..])
  }

  /** Queueing goes through exactly when no block is refused, and stops at the first refused one. */
  lemma {:induction false} RefusalFirst(w: Where, fs: seq<Fence>)
    ensures Refusal(w, fs).None? <==> forall i :: 0 <= i < |fs| ==> RefusalOf(w, fs[i]).None?
    ensures Refusal(w, fs).Some? ==> exists i :: (0 <= i < |fs| && Refusal(w, fs) == RefusalOf(w, fs[i])
      && forall k :: 0 <= k < i ==> RefusalOf(w, fs[k]).None?)
    decreases |fs|
  {
    if fs != [] {
      RefusalFirst(w, fs[1..]);
      if RefusalOf(w, fs[0]).None? {
        assert forall i :: 1 <= i < |fs| ==> fs[i] == fs[1..][i - 1];
        if Refusal(w, fs).Some? {
          var j :| 0 <= j < |fs[1..]| && Refusal(w, fs[1..]) == RefusalOf(w, fs[1..][j])
            && forall k :: 0 <= k < j ==> RefusalOf(w, fs[1..][k]).None?;
          assert Refusal(w, fs) == RefusalOf(w, fs[j + 1]);
          forall k | 0 <= k < j + 1 ensures RefusalOf(w, fs[k]).None? {
            if k > 0 { assert fs[k] == fs[1..][k - 1]; }
          }
        }
      }
    }
  }

  lemma RefusalStep(w: Where, fs: seq<Fence>, i: nat)
    requires i < |fs|
    ensures Refusal(w, fs[i..]) == if RefusalOf(w, fs[i]).Some? then RefusalOf(w, fs[i]) else Refusal(w, fs[i + 1..])
  {
    assert fs[i..][0] == fs[i] && fs[i..][1..] == fs[i + 1..];
  }

  /** The request block `f` becomes, as its fields are set. */
  predicate RequestFor(r: ImageRequest, w: Where, src: string, f: Fence) {
    r.srcFile == src && r.srcLine == f.srcLine && r.imageFile == ImageFile(w, f)
    && r.imageMeta == f.meta && r.scriptLines == w.camera(f.meta) + f.script && r.hasCompletionCb
  }

  /** The image files the blocks ask for, in order. */
  function TargetsFor(w: Where, fs: seq<Fence>): (r: seq<string>)
    ensures |r| == |fs| && forall i :: 0 <= i < |fs| ==> r[i] == ImageFile(w, fs[i])
  {
    if fs == [] then [] else [ImageFile(w, fs[0])] + TargetsFor(w, fs[1..])
  }

  /**
   * One `new_request` call, for block `i`, once the blocks before it have
   * become the requests `rs`: refused as `RefusalOf` says, else queued at
   * the end.
   */
  method QueueNext(im: ImageManager, w: Where, src: string, fences: seq<Fence>, rs: seq<ImageRequest>, i: nat)
    returns (req: ImageRequest?, err: Option<RequestError>)
    requires im.Valid() && w.camera == VpPrefix && i < |fences| && im.requests == rs && |rs| == i
    requires RequestsFor(rs, w, src, fences)
    modifies im
    ensures im.Valid() && im.testOnly == old(im.testOnly)
    ensures err == RefusalOf(w, fences[i])
    ensures Refusal(w, fences[i..]) == if err.Some? then err else Refusal(w, fences[i + 1..])
    ensures err.None? ==> (req != null && fresh(req) && im.requests == rs + [req]
      && RequestsFor(rs + [req], w, src, fences))
  {
    RefusalStep(w, fences, i);
    req, err := im.NewRequest(src, fences[i].srcLine, ImageFile(w, fences[i]), fences[i].script, fences[i].meta, true);
    if err.None? {
      RequestsGrow(rs, req, w, src, fences);
    }
  }

  /**
   * The `new_request` calls of the scanning loop, one per closed block in
   * order, filed under `src`; the first refusal stops them.
   */
  method QueueFences(im: ImageManager, w: Where, src: string, fences: seq<Fence>)
    returns (rs: seq<ImageRequest>, err: Option<RequestError>)
    requires im.Valid() && im.requests == [] && w.camera == VpPrefix
    modifies im
    ensures im.Valid() && im.testOnly == old(im.testOnly)
    ensures err == Refusal(w, fences)
    ensures err.None? ==> (im.requests == rs && |rs| == |fences|
      && forall i :: 0 <= i < |rs| ==> fresh(rs[i]) && RequestFor(rs[i], w, src, fences[i]))
  {
    rs := [];
    err := None;
    assert fences[0..] == fences;
    for i := 0 to |fences|
      invariant im.Valid() && im.testOnly == old(im.testOnly)
      invariant Refusal(w, fences[i..]) == Refusal(w, fences)
      invariant im.requests == rs && |rs| == i && err.None?
      invariant forall k :: 0 <= k < i ==> fresh(rs[k])
      invariant RequestsFor(rs, w, src, fences)
    {
      var req;
      req, err := QueueNext(im, w, src, fences, rs, i);
      if err.Some? {
        return;
      }
      rs := rs + [req];
    }
    assert fences[|fences|..] == [];
  }

  /** The first `|rs|` blocks have become the requests `rs`. */
  predicate RequestsFor(rs: seq<ImageRequest>, w: Where, src: string, fences: seq<Fence>) {
    |rs| <= |fences| && forall k :: 0 <= k < |rs| ==> RequestFor(rs[k], w, src, fences[k])
  }

  lemma RequestsGrow(rs: seq<ImageRequest>, req: ImageRequest, w: Where, src: string, fences: seq<Fence>)
    requires RequestsFor(rs, w, src, fences) && |rs| < |fences| && RequestFor(req, w, src, fences[|rs|])
    ensures RequestsFor(rs + [req], w, src, fences)
  {
    assert forall k :: 0 <= k < |rs| ==> (rs + [req])[k] == rs[k];
  }

  // ---------------------------------------------------------------------
  // The completion callback

  /** `n` slashes. */
  function Slashes(n: nat): (r: string)
    ensures |r| == n && forall i :: 0 <= i < n ==> r[i] == '/'
  {
    if n == 0 then "" else "/" + Slashes(n - 1)
  }

  /** The banner line of a failure message: seventy slashes. */
  const Rule := Slashes(70) + "\n"

  /** Each line followed by a line end. */
  function LinesText(xs: seq<string>): string
    decreases |xs|
  {
    if xs == [] then "" else xs[0] + "\n" + LinesText(xs[1..])
  }

  /** Reading the text back line by line gives the lines again, each with its line end. */
  lemma {:induction false} LinesTextReadBack(xs: seq<string>)
    requires forall i :: 0 <= i < |xs| ==> '\n' !in xs[i]
    ensures |ReadLines(LinesText(xs))| == |xs|
    ensures forall i :: 0 <= i < |xs| ==> ReadLines(LinesText(xs))[i] == xs[i] + "\n"
    decreases |xs|
  {
    if xs != [] {
      ReadLinesCons(xs[0], LinesText(xs[1..]));
      assert forall i :: 0 <= i < |xs[1..]| ==> xs[1..][i] == xs[i + 1];
      LinesTextReadBack(xs[1..]);
      var r := ReadLines(LinesText(xs));
      assert r == [xs[0] + "\n"] + ReadLines(LinesText(xs[1..]));
      forall i | 1 <= i < |xs| ensures r[i] == xs[i] + "\n" {
        assert r[i] == ReadLines(LinesText(xs[1..]))[i - 1] && xs[1..][i - 1] == xs[i];
      }
    }
  }

  /** What the completion callback reads of a completed request. */
  datatype Done = Done(srcFile: string, srcLine: int, imageFile: string, scriptLines: seq<string>,
                       success: bool, echos: seq<string>, warnings: seq<string>, errors: seq<string>)

  function DoneOf(r: ImageRequest): Done
    reads r
  {
    Done(r.srcFile, r.srcLine, r.imageFile, r.scriptLines, r.success, r.echos, r.warnings, r.errors)
  }

  /**
   * The message `img_completed` files for a failed image: the run's
   * echoes, warnings and errors, a banner naming the source, the line and
   * the image, and the script.
   */
  function FailureText(d: Done): string {
    "\n\n" + LinesText(d.echos) + LinesText(d.warnings) + LinesText(d.errors)
    + Rule + "// LibFile: " + d.srcFile + "  Line: " + IntText(d.srcLine) + "  Image: " + Basename(d.imageFile) + "\n"
    + Rule + LinesText(d.scriptLines) + Rule
  }

  /** The entry `img_completed` files for a completed request, if any: only failures are filed. */
  function Filing(d: Done): Option<Entry> {
    if d.success then None else Some(Entry(d.srcFile, d.srcLine, FailureText(d), FAIL))
  }

  /** The value held, as a sequence of none or one. */
  function AsSeq<T>(o: Option<T>): seq<T> {
    if o.Some? then [o.value] else []
  }

  /** The entries filed for a queue: each request's own filing, in queue order. */
  function Filed<T>(xs: seq<T>, f: T -> Option<Entry>): seq<Entry>
    decreases |xs|
  {
    if xs == [] then [] else AsSeq(f(xs[0])) + Filed(xs[1..], f)
  }

  /** Filing from position `i` on is the filing of `xs[i]`, then the rest. */
  lemma FiledStep<T>(xs: seq<T>, f: T -> Option<Entry>, i: nat)
    requires i < |xs|
    ensures Filed(xs[i..], f) == AsSeq(f(xs[i])) + Filed(xs[i + 1..], f)
  {
    assert xs[i..][0] == xs[i] && xs[i..][1..] == xs[i + 1..];
  }

  /** Every filing is in the result, and the result holds nothing else. */
  lemma {:induction false} FiledSpec<T>(xs: seq<T>, f: T -> Option<Entry>)
    ensures forall i :: 0 <= i < |xs| && f(xs[i]).Some? ==> f(xs[i]).value in Filed(xs, f)
    ensures forall e :: e in Filed(xs, f) ==> exists i :: 0 <= i < |xs| && f(xs[i]) == Some(e)
    decreases |xs|
  {
    if xs != [] {
      FiledSpec(xs[1..], f);
      var head := AsSeq(f(xs[0]));
      assert Filed(xs, f) == head + Filed(xs[1..], f);
      forall i | 1 <= i < |xs| ensures xs[i] == xs[1..][i - 1] { }
      forall e | e in Filed(xs, f) ensures exists i :: 0 <= i < |xs| && f(xs[i]) == Some(e) {
        if e in head {
          assert f(xs[0]) == Some(e);
        } else {
          var j :| 0 <= j < |xs[1..]| && f(xs[1..][j]) == Some(e);
          assert f(xs[j + 1]) == Some(e);
        }
      }
    }
  }

  /** The completed requests, as the callback sees them. */
  function DoneAll(rs: seq<ImageRequest>): (r: seq<Done>)
    reads rs
    ensures |r| == |rs| && forall i :: 0 <= i < |rs| ==> r[i] == DoneOf(rs[i])
  {
    if rs == [] then [] else [DoneOf(rs[0])] + DoneAll(rs[1..])
  }

  /**
   * A failed request is filed under its source, at its line, as an error;
   * and every filed entry is such an error for some failed request.
   */
  lemma FailuresFiled(ds: seq<Done>)
    ensures forall i :: 0 <= i < |ds| && !ds[i].success ==>
      Entry(ds[i].srcFile, ds[i].srcLine, FailureText(ds[i]), FAIL) in Filed(ds, Filing)
    ensures forall e :: e in Filed(ds, Filing) ==> (e.level == FAIL
      && exists i :: 0 <= i < |ds| && !ds[i].success && e.file == ds[i].srcFile && e.line == ds[i].srcLine)
  {
    FiledSpec(ds, Filing);
  }

  lemma SeqAssoc<T>(a: seq<T>, b: seq<T>, c: seq<T>)
    ensures a + (b + c) == (a + b) + c
  {
  }

  /**
   * When all requests come from one source, what is filed is errors
   * under that source, and one failed request is enough to file one.
   */
  lemma FiledUnder(ds: seq<Done>, src: string)
    requires forall i :: 0 <= i < |ds| ==> ds[i].srcFile == src
    ensures (exists i :: 0 <= i < |ds| && !ds[i].success) ==> exists e :: e in Filed(ds, Filing) && e.file == src
    ensures forall e :: e in Filed(ds, Filing) ==> e.file == src && e.level == FAIL
  {
    FailuresFiled(ds);
  }

  /** `img_completed` for one completed request: a failure is filed, a success only reported. */
  method FileOne(d: Done, log: ErrorLog)
    requires log.Valid()
    modifies log
    ensures log.Valid()
    ensures log.errlist == old(log.errlist) + AsSeq(Filing(d))
  {
    if !d.success {
      log.AddEntry(d.srcFile, d.srcLine, FailureText(d), FAIL);
    }
  }

  /** `img_completed` for each request of the queue, in the order the requests completed. */
  method LogFailures(rs: seq<ImageRequest>, log: ErrorLog)
    requires log.Valid()
    modifies log
    ensures log.Valid()
    ensures log.errlist == old(log.errlist) + Filed(DoneAll(rs), Filing)
  {
    var ds := DoneAll(rs);
    var i := 0;
    assert ds[0..] == ds;
    while i < |ds|
      invariant 0 <= i <= |ds| && log.Valid()
      invariant log.errlist + Filed(ds[i..], Filing) == old(log.errlist) + Filed(ds, Filing)
    {
      FiledStep(ds, Filing, i);
      ghost var before := log.errlist;
      FileOne(ds[i], log);
      SeqAssoc(before, AsSeq(Filing(ds[i])), Filed(ds[i + 1..], Filing));
      i := i + 1;
    }
    assert ds[i..] == [];
  }

  // ---------------------------------------------------------------------
  // Rendering, and keeping the hashes

  /**
   * Some request of the run did not succeed: it failed the checks, or
   * the renderer itself reported no success.
   */
  predicate AnyFailed(statuses: seq<string>, results: seq<RunResult>)
    requires |statuses| == |results|
  {
    exists i :: 0 <= i < |results| && !(statuses[i] != "FAIL" && results[i].success)
  }

  /**
   * `process_requests` with the completion callback: each queued request
   * runs once, and each one that failed is filed under its source.
   */
  method RenderAll(im: ImageManager, rs: seq<ImageRequest>, ghost src: string,
                   log: ErrorLog, testOnly: bool, results: seq<RunResult>, close: set<(string, string)>,
                   files: map<string, string>)
    returns (jobs: seq<RenderJob>, newFiles: map<string, string>)
    requires im.Valid() && im.requests == rs && |results| == |rs| && log.Valid()
    requires forall i :: 0 <= i < |rs| ==> rs[i].srcFile == src
    modifies im, rs, log
    ensures im.Valid() && im.requests == [] && log.Valid() && |jobs| == |rs|
    ensures var run := RunAll(TargetsOf(rs), results, testOnly, close, files);
      newFiles == run.1
      && (AnyFailed(run.0, results) ==> src in FilesOf(log.errlist))
    ensures old(log.errlist) <= log.errlist
    ensures forall i :: |old(log.errlist)| <= i < |log.errlist| ==> log.errlist[i].file == src && log.errlist[i].level == FAIL
  {
    jobs, newFiles := im.ProcessRequests(testOnly, results, close, files);
    ghost var run := RunAll(TargetsOf(rs), results, testOnly, close, files);
    LogRendered(rs, src, log, run.0, results);
  }

  /** The completion pass of `RenderAll`, once every request has run and holds its outcome. */
  method LogRendered(rs: seq<ImageRequest>, ghost src: string, log: ErrorLog, ghost statuses: seq<string>,
                     ghost results: seq<RunResult>)
    requires log.Valid() && |results| == |rs| == |statuses|
    requires forall i :: 0 <= i < |rs| ==> rs[i].srcFile == src
    requires forall i :: 0 <= i < |rs| ==> rs[i].success == (statuses[i] != "FAIL" && results[i].success)
    modifies log
    ensures log.Valid() && old(log.errlist) <= log.errlist
    ensures AnyFailed(statuses, results) ==> src in FilesOf(log.errlist)
    ensures forall i :: |old(log.errlist)| <= i < |log.errlist| ==> log.errlist[i].file == src && log.errlist[i].level == FAIL
  {
    ghost var before := log.errlist;
    LogFailures(rs, log);
    RenderedLog(DoneAll(rs), src, statuses, results, before, log.errlist);
  }

  /** The queued requests target the image files their blocks name. */
  lemma TargetsMatch(rs: seq<ImageRequest>, w: Where, src: string, fences: seq<Fence>)
    requires |rs| == |fences|
    requires forall i :: 0 <= i < |rs| ==> RequestFor(rs[i], w, src, fences[i])
    ensures TargetsOf(rs) == TargetsFor(w, fences)
  {
  }

  /** What the completion pass leaves in the log after one file's images were rendered. */
  lemma RenderedLog(ds: seq<Done>, src: string, statuses: seq<string>, results: seq<RunResult>,
                    before: seq<Entry>, after: seq<Entry>)
    requires |ds| == |results| == |statuses|
    requires forall i :: 0 <= i < |ds| ==> ds[i].srcFile == src
    requires forall i :: 0 <= i < |ds| ==> ds[i].success == (statuses[i] != "FAIL" && results[i].success)
    requires after == before + Filed(ds, Filing)
    ensures AnyFailed(statuses, results) ==> src in FilesOf(after)
    ensures before <= after
    ensures forall i :: |before| <= i < |after| ==> after[i].file == src && after[i].level == FAIL
  {
    FiledUnder(ds, src);
    ghost var added := Filed(ds, Filing);
    if AnyFailed(statuses, results) {
      assert exists i :: 0 <= i < |ds| && !ds[i].success;
      var e :| e in added && e.file == src;
      var k :| 0 <= k < |added| && added[k] == e;
      assert after[|before| + k] == e;
    }
    forall i | |before| <= i < |after|
      ensures after[i].file == src && after[i].level == FAIL
    {
      assert after[i] == added[i - |before|];
    }
  }

  /** As written: `file_has_errors(infile)` asks about the path of the input file. */
  predicate HasErrorsAsWritten(entries: seq<Entry>, infile: string) {
    infile in FilesOf(entries)
  }

  /** Corrected: the file also has errors when entries were filed under the source name its requests carry. */
  predicate HasErrors(entries: seq<Entry>, infile: string) {
    infile in FilesOf(entries) || SourceName(infile) in FilesOf(entries)
  }

  /** A failed image of `docs/a.md` is filed under `a.md`, which the check as written does not look at. */
  lemma AsWrittenMissesFailedImage()
    ensures SourceName("docs/a.md") == "a.md"
    ensures var log := [Entry("a.md", 3, "image failed", FAIL)];
      !HasErrorsAsWritten(log, "docs/a.md") && HasErrors(log, "docs/a.md")
  {
    BaseOfDocs();
    StemOfBase();
    var log := [Entry("a.md", 3, "image failed", FAIL)];
    assert log[0].file == "a.md" != "docs/a.md";
  }

  lemma BaseOfDocs()
    ensures Basename("docs/a.md") == "a.md"
  {
    var p := "docs/a.md";
    assert p[..5][4] == '/';
    assert Basename(p[..5]) == [];
    assert p[..6][..5] == p[..5] && p[..6][5] == 'a';
    assert Basename(p[..6]) == "a";
    assert p[..7][..6] == p[..6] && p[..7][6] == '.';
    assert Basename(p[..7]) == "a.";
    assert p[..8][..7] == p[..7] && p[..8][7] == 'm';
    assert Basename(p[..8]) == "a.m";
    assert p[..8] == p[..|p| - 1] && p[8] == 'd';
  }

  lemma StemOfBase()
    ensures Stem("a.md") == "a"
  {
    var b := "a.md";
    assert b[..3][..2] == b[..2];
    assert b[..3] == b[..|b| - 1];
    assert LastDot(b[..2]) == Some(1);
    assert LastDot(b) == Some(1);
    assert b[0] != '.';
  }

  /** A file whose image failed is forgotten by the hashes, whatever its digest. */
  lemma FailedForgotten(d: Dict, infile: string, digest: string, entries: seq<Entry>, failed: bool)
    requires DictValid(d) && (failed ==> SourceName(infile) in FilesOf(entries))
    ensures failed ==> infile !in CacheAfter(d, infile, digest, HasErrors(entries, infile)).hashes
  {
    if failed {
      CacheAfterSpec(d, infile, digest, true, digest);
    }
  }

  class MarkdownImageGen {
    const opts: Opts
    const filehashes: FileHashes

    /** The generator with the hashes read from the hashes file's text (`None` when there is no such file). */
    constructor (opts: Opts, hashText: Option<string>)
      ensures this.opts == opts && fresh(filehashes) && filehashes.Valid()
      ensures filehashes.Table() == LoadSpec(hashText)
    {
      this.opts := opts;
      filehashes := new FileHashes(hashText);
    }

    /** The end of one file's turn: forget the file if it had errors, then save the hashes. */
    method CacheStep(infile: string, log: ErrorLog) returns (saved: string)
      requires filehashes.Valid() && log.Valid() && infile in filehashes.fileHashes
      modifies filehashes
      ensures filehashes.Valid()
      ensures HasErrors(log.errlist, infile) ==> filehashes.Table() == Pop(old(filehashes.Table()), infile)
      ensures !HasErrors(log.errlist, infile) ==> filehashes.Table() == old(filehashes.Table())
      ensures saved == SaveText(filehashes.Table())
    {
      if log.FileHasErrors(infile) || log.FileHasErrors(SourceName(infile)) {
        filehashes.Invalidate(infile);
      }
      saved := filehashes.Save();
    }

    /**
     * The part of `processFiles` after a file's requests were queued: the
     * run, only when the file changed or when forced or testing.
     */
    method RunIfChanged(infile: string, digest: string, rs: seq<ImageRequest>, im: ImageManager, log: ErrorLog,
                        results: seq<RunResult>, close: set<(string, string)>, files: map<string, string>)
      returns (ran: bool, jobs: seq<RenderJob>, newFiles: map<string, string>)
      requires im.Valid() && im.requests == rs && |results| == |rs| && log.Valid() && filehashes.Valid()
      requires forall i :: 0 <= i < |rs| ==> rs[i].srcFile == SourceName(infile)
      modifies im, rs, log, filehashes
      ensures log.Valid() && filehashes.Valid() && im.Valid() && im.requests == []
      ensures filehashes.Table() == IsChangedSpec(old(filehashes.Table()), infile, digest).1
      ensures ran == (opts.force || opts.testOnly || IsChangedSpec(old(filehashes.Table()), infile, digest).0)
      ensures !ran ==> jobs == [] && newFiles == files && log.errlist == old(log.errlist)
      ensures ran ==> (var run := RunAll(TargetsOf(rs), results, opts.testOnly, close, files);
        |jobs| == |rs| && newFiles == run.1 && (AnyFailed(run.0, results) ==> SourceName(infile) in FilesOf(log.errlist)))
    {
      var changed := filehashes.IsChanged(infile, digest);
      ran, jobs, newFiles := opts.force || opts.testOnly || changed, [], files;
      if ran {
        jobs, newFiles := RenderAll(im, rs, SourceName(infile), log, opts.testOnly, results, close, files);
      }
      im.PurgeRequests();
    }

    /**
     * `processFiles` for one input file with these lines and this digest:
     * the scan, the requests, the written output, the run (only when the
     * file changed, or when forced or testing) and the hashes saved.
     */
    method ProcessFile(infile: string, lines: seq<string>, digest: string, im: ImageManager, log: ErrorLog,
                       results: seq<RunResult>, close: set<(string, string)>, files: map<string, string>)
      returns (err: Option<RequestError>, written: Option<seq<string>>, ran: bool, jobs: seq<RenderJob>,
               newFiles: map<string, string>, saved: string)
      requires im.Valid() && im.requests == [] && log.Valid() && filehashes.Valid()
      requires |results| == |ScanOf(WhereOf(opts, infile), lines).fences|
      modifies im, log, filehashes
      ensures log.Valid() && filehashes.Valid() && im.Valid()
      ensures err == Refusal(WhereOf(opts, infile), ScanOf(WhereOf(opts, infile), lines).fences)
      ensures err.Some? ==> (written.None? && !ran && log.errlist == old(log.errlist)
        && filehashes.Table() == old(filehashes.Table()))
      ensures err.None? ==> (im.requests == []
        && written == (if opts.testOnly then None else Some(ScanOf(WhereOf(opts, infile), lines).out))
        && ran == (opts.force || opts.testOnly || IsChangedSpec(old(filehashes.Table()), infile, digest).0))
      ensures err.None? && !ran ==> jobs == [] && newFiles == files && log.errlist == old(log.errlist)
      ensures err.None? && ran ==> (var w := WhereOf(opts, infile); var fs := ScanOf(w, lines).fences;
        var run := RunAll(TargetsFor(w, fs), results, opts.testOnly, close, files);
        |jobs| == |fs| && newFiles == run.1 && (AnyFailed(run.0, results) ==> infile !in filehashes.Table().hashes))
      ensures err.None? ==> (filehashes.Table() == CacheAfter(old(filehashes.Table()), infile, digest, HasErrors(log.errlist, infile))
        && saved == SaveText(filehashes.Table()))
    {
      var w := WhereOf(opts, infile);
      var out, fences := ScanFile(w, lines);
      var rs;
      rs, err := QueueFences(im, w, SourceName(infile), fences);
      if err.Some? {
        written, ran, jobs, newFiles, saved := None, false, [], files, "";
        return;
      }
      written := if opts.testOnly then None else Some(out);
      TargetsMatch(rs, w, SourceName(infile), fences);
      ghost var d := filehashes.Table();
      ran, jobs, newFiles := RunIfChanged(infile, digest, rs, im, log, results, close, files);
      saved := CacheStep(infile, log);
      ghost var failed := ran && AnyFailed(RunAll(TargetsOf(rs), results, opts.testOnly, close, files).0, results);
      FailedForgotten(d, infile, digest, log.errlist, failed);
    }
  }
}

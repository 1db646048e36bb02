/**
 * The image step of `write_docs_files` for one file block, with the
 * completion callback `ImageBlock._img_proc_done` of the requests image
 * blocks queue.  The hashes decide whether a file's images are rendered;
 * a failed render is filed as an error under the request's source; and a
 * file the error log names is forgotten by the hashes, so that the next
 * run renders it again.
 */
module DocsImages {
  import opened Strings
  import opened Paths
  import opened ErrorLogging
  import opened FileHashing
  import opened ImageManaging
  import opened MdImgGen

  /** What `_img_proc_done` reads of a completed request. */
  datatype BlockDone = BlockDone(srcFile: string, srcLine: int, imageFile: string, cmdline: seq<string>,
                                 stdout: seq<string>, stderr: seq<string>, returnCode: Option<int>,
                                 scriptLines: seq<string>, success: bool)

  function BlockDoneOf(r: ImageRequest): BlockDone
    reads r
  {
    BlockDone(r.srcFile, r.srcLine, r.imageFile, r.cmdline, r.stdout, r.stderr, r.returnCode, r.scriptLines, r.success)
  }

  /** The completed requests, as the callback sees them. */
  function BlockDoneAll(rs: seq<ImageRequest>): (r: seq<BlockDone>)
    reads rs
    ensures |r| == |rs| && forall i :: 0 <= i < |rs| ==> r[i] == BlockDoneOf(rs[i])
  {
    if rs == [] then [] else [BlockDoneOf(rs[0])] + BlockDoneAll(rs[1..])
  }

  /** `s * n`. */
  function Repeat(s: string, n: nat): (r: string)
    ensures |r| == n * |s|
  {
    if n == 0 then "" else Repeat(s, n - 1) + s
  }

  /** Each line after the prefix, and followed by a line end. */
  function Prefixed(pfx: string, xs: seq<string>): string
    decreases |xs|
  {
    if xs == [] then "" else pfx + xs[0] + "\n" + Prefixed(pfx, xs[1..])
  }

  /** `"{}".format(code)`: the number, or `None` when the renderer gave none. */
  function CodeText(code: Option<int>): string {
    if code.None? then "None" else IntText(code.value)
  }

  /** The indent of each line of the message. */
  const Pfx := "     "

  /**
   * The message `_img_proc_done` files for a failed image: the image, the
   * command line, the run's output and error lines, the return code, then
   * the script between two banners.
   */
  function ProcFailureText(d: BlockDone): string {
    "Failed OpenSCAD script:\n"
    + Pfx + "Image: " + Basename(d.imageFile) + "\n"
    + Pfx + "cmd-line = " + Join(d.cmdline, " ") + "\n"
    + Prefixed(Pfx, d.stdout) + Prefixed(Pfx, d.stderr)
    + Pfx + "Return code = " + CodeText(d.returnCode) + "\n"
    + Pfx + Repeat("-=", 32) + "-\n"
    + Prefixed(Pfx, d.scriptLines)
    + Pfx + Repeat("=-", 32) + "="
  }

  /** The entry `_img_proc_done` files for a completed request, if any: only failures are filed. */
  function ProcFiling(d: BlockDone): Option<Entry> {
    if d.success then None else Some(Entry(d.srcFile, d.srcLine, ProcFailureText(d), FAIL))
  }

  /**
   * A failed request is filed under its source, at its line, as a
   * failure; and every filed entry is such a failure of some request.
   */
  lemma ProcFailuresFiled(ds: seq<BlockDone>)
    ensures forall i :: 0 <= i < |ds| && !ds[i].success ==>
      Entry(ds[i].srcFile, ds[i].srcLine, ProcFailureText(ds[i]), FAIL) in Filed(ds, ProcFiling)
    ensures forall e :: e in Filed(ds, ProcFiling) ==> (e.level == FAIL
      && exists i :: 0 <= i < |ds| && !ds[i].success && e.file == ds[i].srcFile && e.line == ds[i].srcLine)
  {
    FiledSpec(ds, ProcFiling);
  }

  /** `_img_proc_done` for one completed request: a failure is filed, a success only reported. */
  method ProcDone(d: BlockDone, log: ErrorLog)
    requires log.Valid()
    modifies log
    ensures log.Valid()
    ensures log.errlist == old(log.errlist) + AsSeq(ProcFiling(d))
  {
    if !d.success {
      log.AddEntry(d.srcFile, d.srcLine, ProcFailureText(d), FAIL);
    }
  }

  /** `_img_proc_done` for each request of the queue, in the order the requests completed. */
  method LogProcFailures(rs: seq<ImageRequest>, log: ErrorLog)
    requires log.Valid()
    modifies log
    ensures log.Valid()
    ensures log.errlist == old(log.errlist) + Filed(BlockDoneAll(rs), ProcFiling)
  {
    var ds := BlockDoneAll(rs);
    var i := 0;
    assert ds[0..] == ds;
    while i < |ds|
      invariant 0 <= i <= |ds| && log.Valid()
      invariant log.errlist + Filed(ds[i..], ProcFiling) == old(log.errlist) + Filed(ds, ProcFiling)
    {
      FiledStep(ds, ProcFiling, i);
      ghost var before := log.errlist;
      ProcDone(ds[i], log);
      SeqAssoc(before, AsSeq(ProcFiling(ds[i])), Filed(ds[i + 1..], ProcFiling));
      i := i + 1;
    }
    assert ds[i..] == [];
  }

  /** What one element files shows up, under its file, among all that is filed. */
  lemma {:induction false} FiledFile<T>(xs: seq<T>, f: T -> Option<Entry>, i: nat)
    requires i < |xs| && f(xs[i]).Some?
    ensures exists k :: 0 <= k < |Filed(xs, f)| && Filed(xs, f)[k].file == f(xs[i]).value.file
  {
    var head := AsSeq(f(xs[0]));
    assert Filed(xs, f) == head + Filed(xs[1..], f);
    if i == 0 {
      assert Filed(xs, f)[0] == f(xs[0]).value;
    } else {
      assert xs[1..][i - 1] == xs[i];
      FiledFile(xs[1..], f, i - 1);
      var k :| 0 <= k < |Filed(xs[1..], f)| && Filed(xs[1..], f)[k].file == f(xs[i]).value.file;
      assert Filed(xs, f)[|head| + k] == Filed(xs[1..], f)[k];
    }
  }

  /** A failed request from source `src` leaves an entry for `src` in the log. */
  lemma FailureNamesFile(ds: seq<BlockDone>, before: seq<Entry>, src: string, i: nat)
    requires i < |ds| && !ds[i].success && ds[i].srcFile == src
    ensures src in FilesOf(before + Filed(ds, ProcFiling))
  {
    FiledFile(ds, ProcFiling, i);
    var added := Filed(ds, ProcFiling);
    var k :| 0 <= k < |added| && added[k].file == src;
    assert (before + added)[|before| + k] == added[k];
  }

  /** As written (parser.py:695): errors are looked up under the file block's stripped subtitle. */
  predicate FileErrorsAsWritten(entries: seq<Entry>, name: string) {
    name in FilesOf(entries)
  }

  /**
   * Corrected: the file also has errors when entries were filed under the
   * path it was parsed from, which is the source every one of its image
   * requests carries.
   */
  predicate FileErrors(entries: seq<Entry>, name: string, origin: string) {
    name in FilesOf(entries) || origin in FilesOf(entries)
  }

  /**
   * A file parsed from `lib/shapes.scad` whose header names it `shapes.scad`:
   * its failed image is filed under the parsed path, the lookup as written
   * misses it, the digest is kept, and the next run with the same contents
   * does not render the file again.  The corrected lookup finds it.
   */
  lemma AsWrittenKeepsFailedDigest(d: Dict, digest: string)
    requires DictValid(d)
    ensures var failed := BlockDone("lib/shapes.scad", 7, "images/shapes/cube.png", [], [], [], Some(1), ["cube(5);"], false);
      var entries := Filed([failed], ProcFiling);
      var after := CacheAfter(d, "shapes.scad", digest, FileErrorsAsWritten(entries, "shapes.scad"));
      && !FileErrorsAsWritten(entries, "shapes.scad")
      && after.hashes == d.hashes["shapes.scad" := digest]
      && !IsChangedSpec(after, "shapes.scad", digest).0
      && FileErrors(entries, "shapes.scad", "lib/shapes.scad")
  {
    var failed := BlockDone("lib/shapes.scad", 7, "images/shapes/cube.png", [], [], [], Some(1), ["cube(5);"], false);
    var e := Entry("lib/shapes.scad", 7, ProcFailureText(failed), FAIL);
    assert Filed([failed], ProcFiling) == [e] + Filed([failed][1..], ProcFiling);
    assert Filed([failed], ProcFiling) == [e];
    assert "lib/shapes.scad" != "shapes.scad" by { assert "lib/shapes.scad"[0] != "shapes.scad"[0]; }
    assert FilesOf([e]) == {"lib/shapes.scad"};
    CacheAfterSpec(d, "shapes.scad", digest, false, digest);
  }

  /**
   * The image step of `write_docs_files` for a file block with this
   * subtitle, parsed from `origin`, whose file has this digest, outside
   * test mode: the file's name is the stripped subtitle; the queue runs
   * when forced or when the hashes report a change, and is emptied either
   * way; the file is forgotten when the log holds an entry for it, under
   * either name (the corrected lookup); the hashes are saved.
   */
  method FileImages(subtitle: string, origin: string, digest: string, force: bool, fh: FileHashes, im: ImageManager,
                    log: ErrorLog, results: seq<RunResult>, close: set<(string, string)>, files: map<string, string>)
    returns (ran: bool, jobs: seq<RenderJob>, newFiles: map<string, string>, saved: string)
    requires fh.Valid() && im.Valid() && log.Valid() && |results| == |im.requests|
    modifies fh, im, im.requests, log
    ensures fh.Valid() && im.Valid() && log.Valid() && im.requests == []
    ensures var name := Strip(subtitle);
      && ran == (force || IsChangedSpec(old(fh.Table()), name, digest).0)
      && fh.Table() == CacheAfter(old(fh.Table()), name, digest, FileErrors(log.errlist, name, origin))
      && saved == SaveText(fh.Table())
    ensures !ran ==> jobs == [] && newFiles == files && log.errlist == old(log.errlist)
    ensures ran ==> (var rs := old(im.requests);
      jobs == JobsOf(rs, false) && newFiles == RunAll(TargetsOf(rs), results, false, close, files).1
      && log.errlist == old(log.errlist) + Filed(BlockDoneAll(rs), ProcFiling))
  {
    var name := Strip(subtitle);
    ghost var rs := im.requests;
    ran, jobs, newFiles := RunImages(name, digest, force, fh, im, log, results, close, files);
    ghost var logged, done := log.errlist, BlockDoneAll(rs);
    saved := ForgetFailed(name, origin, fh, log);
    assert log.errlist == logged && BlockDoneAll(rs) == done;
  }

  /** The first half of the image step: `is_changed`, then the queue when forced or changed; the queue is emptied either way. */
  method RunImages(name: string, digest: string, force: bool, fh: FileHashes, im: ImageManager, log: ErrorLog,
                   results: seq<RunResult>, close: set<(string, string)>, files: map<string, string>)
    returns (ran: bool, jobs: seq<RenderJob>, newFiles: map<string, string>)
    requires fh.Valid() && im.Valid() && log.Valid() && |results| == |im.requests|
    modifies fh, im, im.requests, log
    ensures fh.Valid() && im.Valid() && log.Valid() && im.requests == []
    ensures (ran, fh.Table()) == (force || IsChangedSpec(old(fh.Table()), name, digest).0, IsChangedSpec(old(fh.Table()), name, digest).1)
    ensures name in fh.fileHashes
    ensures !ran ==> jobs == [] && newFiles == files && log.errlist == old(log.errlist)
    ensures ran ==> (var rs := old(im.requests);
      jobs == JobsOf(rs, false) && newFiles == RunAll(TargetsOf(rs), results, false, close, files).1
      && log.errlist == old(log.errlist) + Filed(BlockDoneAll(rs), ProcFiling))
  {
    var changed := fh.IsChanged(name, digest);
    ran, jobs, newFiles := force || changed, [], files;
    if ran {
      jobs, newFiles := ProcessQueue(false, im, log, results, close, files);
    } else {
      im.PurgeRequests();
    }
  }

  /** The second half: the file is forgotten when the log names it under either name, and the hashes are saved. */
  method ForgetFailed(name: string, origin: string, fh: FileHashes, log: ErrorLog) returns (saved: string)
    requires fh.Valid() && log.Valid() && name in fh.fileHashes
    modifies fh
    ensures fh.Valid()
    ensures fh.Table() == (if FileErrors(log.errlist, name, origin) then Pop(old(fh.Table()), name) else old(fh.Table()))
    ensures saved == SaveText(fh.Table())
  {
    if log.FileHasErrors(name) || log.FileHasErrors(origin) {
      fh.Invalidate(name);
    }
    saved := fh.Save();
  }

  /**
   * What the image step promises the next run, with the corrected lookup:
   * a file one of whose images failed here, filed under the path it was
   * parsed from or under its own name, is forgotten, so the next run finds
   * it changed whatever its digest; a file with no entry in the log keeps
   * its digest and is not rendered again while its contents stay the same.
   */
  lemma RenderAgainAfterFailure(d: Dict, name: string, origin: string, digest: string, before: seq<Entry>,
                                ds: seq<BlockDone>, i: nat, next: string)
    requires DictValid(d) && i < |ds| && !ds[i].success && (ds[i].srcFile == origin || ds[i].srcFile == name)
    ensures var after := CacheAfter(d, name, digest, FileErrors(before + Filed(ds, ProcFiling), name, origin));
      name !in after.hashes && IsChangedSpec(after, name, next).0
  {
    FailureNamesFile(ds, before, ds[i].srcFile, i);
    CacheAfterSpec(d, name, digest, true, next);
  }

  /** A clean file keeps its digest, and the next run with the same contents does not render it. */
  lemma CleanKept(d: Dict, name: string, digest: string, entries: seq<Entry>)
    requires DictValid(d) && name !in FilesOf(entries)
    ensures var after := CacheAfter(d, name, digest, name in FilesOf(entries));
      after.hashes == d.hashes[name := digest] && !IsChangedSpec(after, name, digest).0
  {
    CacheAfterSpec(d, name, digest, false, digest);
  }

  /**
   * `process_requests` with the completion callback: the whole queue runs,
   * in test mode or not, and each failure is filed.  The test-mode branch
   * of `write_docs_files` is this step with `testOnly` set, and reads or
   * keeps no hash.
   */
  method ProcessQueue(testOnly: bool, im: ImageManager, log: ErrorLog, results: seq<RunResult>, close: set<(string, string)>,
                  files: map<string, string>)
    returns (jobs: seq<RenderJob>, newFiles: map<string, string>)
    requires im.Valid() && log.Valid() && |results| == |im.requests|
    modifies im, im.requests, log
    ensures im.Valid() && log.Valid() && im.requests == []
    ensures var rs := old(im.requests);
      jobs == JobsOf(rs, testOnly) && newFiles == RunAll(TargetsOf(rs), results, testOnly, close, files).1
      && log.errlist == old(log.errlist) + Filed(BlockDoneAll(rs), ProcFiling)
  {
    var rs := im.requests;
    jobs, newFiles := im.ProcessRequests(testOnly, results, close, files);
    LogProcFailures(rs, log);
  }
}

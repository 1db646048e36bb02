/**
 * The Markdown image generator: a Markdown file is scanned line by line,
 * each ```` ```openscad ```` block becomes an image request and an image
 * link in the output, and the requests are rendered only when the file
 * changed. File reading and writing, the console messages and the
 * renderer itself are outside the model.
 */
module MarkdownFences {
  import opened Strings
  import opened Paths

  // ---------------------------------------------------------------------
  // File names

  /** The file root of a source file: its base name without extension. */
  function FileRoot(infile: string): string { Stem(Basename(infile)) }

  /** The source name the file's image requests and their failures are filed under. */
  function SourceName(infile: string): string { FileRoot(infile) + ".md" }

  // ---------------------------------------------------------------------
  // The fence scanner

  const FenceOpen := "```openscad"
  const FenceClose := "```"

  /** The text between the first and the second `-` of `s`, as `s.split("-")[1]`. */
  function SecondField(s: string): string {
    UpTo(After(s, '-'), '-')
  }

  /** What follows the first `c` in `s` (empty when there is none). */
  function After(s: string, c: char): (r: string)
    ensures |r| <= |s|
  {
    if s == [] then [] else if s[0] == c then s[1..] else After(s[1..], c)
  }

  /** The longest prefix of `s` without `c`. */
  function UpTo(s: string, c: char): (r: string)
    ensures c !in r && StartsWith(s, r)
    ensures |r| < |s| ==> s[|r|] == c
  {
    if s == [] || s[0] == c then []
    else
      var r := [s[0]] + UpTo(s[1..], c);
      assert s == [s[0]] + s[1..];
      r
  }

  /** The image type written after the fence: `-Type` following "```openscad", else "". */
  function FenceType(line: string): string {
    if '-' in line then SecondField(line) else ""
  }

  const Png := "png"
  const Gif := "gif"
  const ImgOnly := "ImgOnly"

  /** png for APNG animations, otherwise gif for spinning or animated images, else png. */
  function ExtOf(pngAnimation: bool, meta: string): string {
    if pngAnimation then Png
    else if Contains(meta, AnimTag) || Contains(meta, SpinTag) then Gif
    else Png
  }

  const AnimTag := "Anim"
  const SpinTag := "Spin"

  function ImageName(fileroot: string, n: nat, ext: string): string {
    fileroot + "_" + NatToString(n) + "." + ext
  }

  function FigureLine(n: nat, url: string): string {
    "![Figure " + NatToString(n) + "](" + url + ")"
  }

  /**
   * Where the images of a file go, and the lines an image request puts in
   * front of a script of a given type (the request changes the scanner's
   * own list, so they show up in the output too).
   */
  datatype Where = Where(fileroot: string, docsDir: string, imageRoot: string, pngAnimation: bool,
                         camera: string -> seq<string>)

  /** A closed block: its number, the line of its closing fence, its script and its type. */
  datatype Fence = Fence(num: nat, srcLine: nat, script: seq<string>, meta: string)

  /** The scanner's variables after some lines; `next` is the number of lines read. */
  datatype Scan = Scan(out: seq<string>, fences: seq<Fence>, script: seq<string>, extyp: string,
                       inScript: bool, imgnum: nat, showScript: bool, next: nat)

  const Start := Scan([], [], [], "", false, 0, true, 0)

  /** The link to a block's image, under the image root. */
  function Url(w: Where, f: Fence): string {
    PathJoin(w.imageRoot, ImageName(w.fileroot, f.num, ExtOf(w.pngAnimation, f.meta)))
  }

  /** The file a block's image is written to, under the docs directory. */
  function ImageFile(w: Where, f: Fence): string {
    PathJoin(w.docsDir, Url(w, f))
  }

  /**
   * What a closed block puts in the output: the script again (with the
   * camera lines the image request put in front of the same list) unless
   * the type says ImgOnly, then the image link.
   */
  function Emitted(w: Where, show: bool, f: Fence): seq<string> {
    (if show then [FenceOpen] + w.camera(f.meta) + f.script + [FenceClose] else []) + [FigureLine(f.num, Url(w, f))]
  }

  /** An opening fence of type `t`: a new, empty block with the next number. */
  function Opened(st: Scan, t: string): Scan {
    st.(inScript := true, extyp := t, showScript := !Contains(t, ImgOnly), script := [],
        imgnum := st.imgnum + 1, next := st.next + 1)
  }

  /** The block being closed at the current line. */
  function Current(st: Scan): Fence {
    Fence(st.imgnum, st.next, st.script, st.extyp)
  }

  /** The closing fence: the block is queued and emitted; type and ImgOnly are reset. */
  function Closed(w: Where, st: Scan): Scan {
    st.(inScript := false, fences := st.fences + [Current(st)],
        out := st.out + Emitted(w, st.showScript, Current(st)),
        showScript := true, extyp := "", next := st.next + 1)
  }

  /** One line of input, its line end already removed. */
  function Step(w: Where, st: Scan, line: string): Scan {
    if StartsWith(line, FenceOpen) then Opened(st, FenceType(line))
    else if st.inScript then
      if line == FenceClose then Closed(w, st)
      else st.(script := st.script + [line], next := st.next + 1)
    else st.(out := st.out + [line], next := st.next + 1)
  }

  function Chomp(line: string): string { RStripChar(line, '\n') }

  /** The scanner run over `lines` from state `st`. */
  function Run(w: Where, st: Scan, lines: seq<string>): Scan
    decreases |lines|
  {
    if lines == [] then st else Run(w, Step(w, st, Chomp(lines[0])), lines[1..])
  }

  function ScanOf(w: Where, lines: seq<string>): Scan { Run(w, Start, lines) }

  /** Scanning two parts one after the other is scanning them together. */
  lemma {:induction false} RunAppend(w: Where, st: Scan, a: seq<string>, b: seq<string>)
    ensures Run(w, st, a + b) == Run(w, Run(w, st, a), b)
    decreases |a|
  {
    if a == [] {
      assert a + b == b;
    } else {
      var st1 := Step(w, st, Chomp(a[0]));
      assert (a + b)[0] == a[0] && (a + b)[1..] == a[1..] + b;
      assert Run(w, st, a + b) == Run(w, st1, a[1..] + b);
      RunAppend(w, st1, a[1..], b);
    }
  }

  /** A line that neither opens a block nor ends with a line end. */
  predicate Plain(line: string) {
    (line == [] || line[|line| - 1] != '\n') && !StartsWith(line, FenceOpen)
  }

  lemma ChompBare(line: string)
    requires line == [] || line[|line| - 1] != '\n'
    ensures Chomp(line) == line
  {
  }

  /** Outside a block, lines that open none are copied to the output verbatim and in order. */
  lemma {:induction false} PlainCopied(w: Where, st: Scan, a: seq<string>)
    requires !st.inScript && forall i :: 0 <= i < |a| ==> Plain(a[i])
    ensures Run(w, st, a) == st.(out := st.out + a, next := st.next + |a|)
    decreases |a|
  {
    if a != [] {
      ChompBare(a[0]);
      var st1 := st.(out := st.out + [a[0]], next := st.next + 1);
      assert Step(w, st, a[0]) == st1;
      PlainCopied(w, st1, a[1..]);
      assert st.out + [a[0]] + a[1..] == st.out + a;
    }
  }

  /** A file without blocks comes out unchanged and asks for no image. */
  lemma NoFencesNoChange(w: Where, lines: seq<string>)
    requires forall i :: 0 <= i < |lines| ==> Plain(lines[i])
    ensures ScanOf(w, lines).out == lines && ScanOf(w, lines).fences == []
  {
    PlainCopied(w, Start, lines);
  }

  /** A line inside a block: neither a closing fence nor an opening one, and without line end. */
  predicate Inner(line: string) {
    Plain(line) && line != FenceClose
  }

  /** Inside a block, inner lines are collected into the script and nothing is output. */
  lemma {:induction false} InnerCollected(w: Where, st: Scan, a: seq<string>)
    requires st.inScript && forall i :: 0 <= i < |a| ==> Inner(a[i])
    ensures Run(w, st, a) == st.(script := st.script + a, next := st.next + |a|)
    decreases |a|
  {
    if a != [] {
      ChompBare(a[0]);
      var st1 := st.(script := st.script + [a[0]], next := st.next + 1);
      assert Step(w, st, a[0]) == st1;
      InnerCollected(w, st1, a[1..]);
      assert st.script + [a[0]] + a[1..] == st.script + a;
    }
  }

  /**
   * A whole block: the opening fence numbers it, its inner lines become
   * its script, and the closing fence queues exactly one image for it and
   * puts its script (unless ImgOnly) and its image link in the output.
   */
  lemma FenceBlock(w: Where, st: Scan, open: string, body: seq<string>)
    requires open == [] || open[|open| - 1] != '\n'
    requires StartsWith(open, FenceOpen) && forall i :: 0 <= i < |body| ==> Inner(body[i])
    ensures var t := FenceType(open);
      var f := Fence(st.imgnum + 1, st.next + |body| + 1, body, t);
      var r := Run(w, st, [open] + body + [FenceClose]);
      r.out == st.out + Emitted(w, !Contains(t, ImgOnly), f)
      && r.fences == st.fences + [f] && !r.inScript && r.imgnum == f.num && r.next == st.next + |body| + 2
  {
    var t := FenceType(open);
    var st2 := Opened(st, t).(script := body, next := st.next + 1 + |body|);
    OpenedCollects(w, st, open, body);
    RunAppend(w, st, [open] + body, [FenceClose]);
    assert Chomp(FenceClose) == FenceClose;
    assert Run(w, st2, [FenceClose]) == Step(w, st2, FenceClose);
    ClosedBlock(w, st2);
    assert Current(st2) == Fence(st.imgnum + 1, st.next + |body| + 1, body, t);
  }

  /** The opening fence and the inner lines leave an open block holding exactly those lines. */
  lemma OpenedCollects(w: Where, st: Scan, open: string, body: seq<string>)
    requires open == [] || open[|open| - 1] != '\n'
    requires StartsWith(open, FenceOpen) && forall i :: 0 <= i < |body| ==> Inner(body[i])
    ensures Run(w, st, [open] + body) == Opened(st, FenceType(open)).(script := body, next := st.next + 1 + |body|)
  {
    ChompBare(open);
    var st1 := Opened(st, FenceType(open));
    assert Step(w, st, open) == st1;
    RunAppend(w, st, [open], body);
    assert Run(w, st, [open]) == st1;
    InnerCollected(w, st1, body);
    assert st1.script + body == body;
  }

  lemma ClosedBlock(w: Where, st: Scan)
    requires st.inScript
    ensures Step(w, st, FenceClose) == Closed(w, st)
  {
    assert !StartsWith(FenceClose, FenceOpen);
  }

  /** A block that is never closed leaves nothing in the output and asks for no image. */
  lemma UnclosedDropped(w: Where, st: Scan, open: string, body: seq<string>)
    requires open == [] || open[|open| - 1] != '\n'
    requires StartsWith(open, FenceOpen) && forall i :: 0 <= i < |body| ==> Inner(body[i])
    ensures var r := Run(w, st, [open] + body);
      r.out == st.out && r.fences == st.fences && r.inScript && r.imgnum == st.imgnum + 1
  {
    ChompBare(open);
    RunAppend(w, st, [open], body);
    assert Run(w, st, [open]) == Step(w, st, open);
    InnerCollected(w, Step(w, st, open), body);
  }

  /** How many of the lines open a block. */
  function Opens(lines: seq<string>): nat
    decreases |lines|
  {
    if lines == [] then 0 else (if StartsWith(Chomp(lines[0]), FenceOpen) then 1 else 0) + Opens(lines[1..])
  }

  /**
   * The numbering invariant: closed blocks carry the numbers 1 to `imgnum`
   * in increasing order, and an open block's number is above all of them.
   */
  predicate NumOk(st: Scan) {
    |st.fences| <= st.imgnum
    && (st.inScript ==> |st.fences| < st.imgnum)
    && (forall k :: 0 <= k < |st.fences| ==> 1 <= st.fences[k].num <= st.imgnum)
    && (forall k :: 0 <= k < |st.fences| - 1 ==> st.fences[k].num < st.fences[k + 1].num)
    && (st.inScript && st.fences != [] ==> st.fences[|st.fences| - 1].num < st.imgnum)
  }

  lemma OpenedNumOk(st: Scan, t: string)
    requires NumOk(st)
    ensures NumOk(Opened(st, t))
  {
  }

  lemma ClosedNumOk(w: Where, st: Scan)
    requires NumOk(st) && st.inScript
    ensures NumOk(Closed(w, st))
  {
    var fs := st.fences + [Current(st)];
    assert Closed(w, st).fences == fs && Closed(w, st).imgnum == st.imgnum;
    assert fs[|fs| - 1].num == st.imgnum;
  }

  /** One line keeps the numbering invariant and counts an opening fence. */
  lemma StepNumOk(w: Where, st: Scan, line: string)
    requires NumOk(st)
    ensures NumOk(Step(w, st, line))
    ensures Step(w, st, line).imgnum == st.imgnum + (if StartsWith(line, FenceOpen) then 1 else 0)
  {
    if StartsWith(line, FenceOpen) {
      OpenedNumOk(st, FenceType(line));
    } else if st.inScript && line == FenceClose {
      ClosedNumOk(w, st);
    }
  }

  /**
   * Every opening fence counts one more image, every closed block is
   * numbered with the count so far, and no more blocks close than open.
   */
  lemma {:induction false} Numbering(w: Where, st: Scan, lines: seq<string>)
    requires NumOk(st)
    ensures NumOk(Run(w, st, lines)) && Run(w, st, lines).imgnum == st.imgnum + Opens(lines)
    decreases |lines|
  {
    if lines != [] {
      StepNumOk(w, st, Chomp(lines[0]));
      Numbering(w, Step(w, st, Chomp(lines[0])), lines[1..]);
    }
  }

  /** In a whole file, the blocks are numbered 1, 2, ... in increasing order, one number per opening fence. */
  lemma FileNumbering(w: Where, lines: seq<string>)
    ensures var r := ScanOf(w, lines);
      r.imgnum == Opens(lines) && |r.fences| <= r.imgnum
      && (forall k :: 0 <= k < |r.fences| ==> 1 <= r.fences[k].num <= r.imgnum)
      && (forall k :: 0 <= k < |r.fences| - 1 ==> r.fences[k].num < r.fences[k + 1].num)
  {
    Numbering(w, Start, lines);
  }

  /** The run from line `i` on is one step and then the run from line `i + 1`. */
  lemma RunStep(w: Where, st: Scan, lines: seq<string>, i: nat)
    requires i < |lines|
    ensures Run(w, st, lines[i..]) == Run(w, Step(w, st, Chomp(lines[i])), lines[i + 1..])
  {
    assert lines[i..][0] == lines[i] && lines[i..][1..] == lines[i + 1..];
  }

  /** Appends a closed block to the output: its script unless hidden, then its image link. */
  method EmitBlock(w: Where, out: seq<string>, show: bool, f: Fence) returns (r: seq<string>)
    ensures r == out + Emitted(w, show, f)
  {
    r := out;
    if show {
      r := r + [FenceOpen] + w.camera(f.meta) + f.script + [FenceClose];
    }
    r := r + [FigureLine(f.num, Url(w, f))];
  }

  /**
   * The scanning loop of `processFiles`, on the loop's own variables: it
   * computes the output lines and the closed blocks of `ScanOf`.
   */
  method ScanFile(w: Where, lines: seq<string>) returns (out: seq<string>, fences: seq<Fence>)
    ensures out == ScanOf(w, lines).out && fences == ScanOf(w, lines).fences
  {
    var script: seq<string> := [];
    var extyp := "";
    var inScript := false;
    var imgnum: nat := 0;
    var showScript := true;
    out, fences := [], [];
    var i := 0;
    assert lines[0..] == lines;
    while i < |lines|
      invariant 0 <= i <= |lines|
      invariant Run(w, Scan(out, fences, script, extyp, inScript, imgnum, showScript, i), lines[i..]) == ScanOf(w, lines)
    {
      ghost var st := Scan(out, fences, script, extyp, inScript, imgnum, showScript, i);
      var line := Chomp(lines[i]);
      RunStep(w, st, lines, i);
      if StartsWith(line, FenceOpen) {
        inScript := true;
        extyp := FenceType(line);
        showScript := !Contains(extyp, ImgOnly);
        script := [];
        imgnum := imgnum + 1;
        assert Step(w, st, line) == Opened(st, extyp);
      } else if inScript {
        if line == FenceClose {
          inScript := false;
          var f := Fence(imgnum, i, script, extyp);
          fences := fences + [f];
          out := EmitBlock(w, out, showScript, f);
          showScript := true;
          extyp := "";
          assert Step(w, st, line) == Closed(w, st);
        } else {
          script := script + [line];
        }
      } else {
        out := out + [line];
      }
      i := i + 1;
      assert Scan(out, fences, script, extyp, inScript, imgnum, showScript, i) == Step(w, st, line);
    }
  }
}

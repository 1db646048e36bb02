/**
 * Image render requests and the queue that runs them.
 *
 * A request decodes its meta string (`Spin`, `Size=640x480`, `VPR=[...]`,
 * ...) into renderer settings, prefixing camera assignments to the script.
 * The manager queues requests, hands each to the renderer, and decides from
 * the renderer's result and the existing image file whether the image is
 * FAIL, SKIP, NEW or REPLACE. The renderer and the image comparison are
 * parameters: a result record per request and a comparison predicate.
 */
module ImageManaging {
  import opened Strings

  // ---------------------------------------------------------------------
  // Hand-written recognisers for the meta-string regular expressions

  /** The leading run of decimal digits. */
  function LeadingDigits(s: string): (r: string)
    ensures |r| <= |s| && r == s[..|r|]
    ensures forall i :: 0 <= i < |r| ==> IsDigit(r[i])
    ensures |r| == |s| || !IsDigit(s[|r|])
  {
    if s != [] && IsDigit(s[0]) then [s[0]] + LeadingDigits(s[1..]) else []
  }

  /** `([0-9]+)` at the start of `s`, greedy: the number and what follows it. */
  function NumberAt(s: string): (r: Option<(nat, string)>)
    ensures r.Some? <==> s != [] && IsDigit(s[0])
  {
    var d := LeadingDigits(s);
    if d == [] then None else Some((ParseNat(d), s[|d|..]))
  }

  /** ` *= *` at the start of `s`: what follows the blanks after the equals sign. */
  function AfterEquals(s: string): (r: Option<string>)
    ensures r.Some? ==> r.value == [] || r.value[0] != ' '
  {
    var t := LStripChar(s, ' ');
    if t != [] && t[0] == '=' then Some(LStripChar(t[1..], ' ')) else None
  }

  /** `Key *= *([0-9]+)` anchored at the start of `s`. */
  function KeyNumAt(s: string, key: string): (r: Option<nat>)
    ensures r.Some? ==> StartsWith(s, key)
  {
    if !StartsWith(s, key) then None
    else match AfterEquals(s[|key|..])
      case None => None
      case Some(u) => match NumberAt(u)
        case None => None
        case Some(p) => Some(p.0)
  }

  /** `Key *= *([0-9]+)` anchored at the start of `s`, giving the digits as written (leading zeros kept). */
  function KeyDigitsAt(s: string, key: string): (r: Option<string>)
    ensures r.Some? ==> StartsWith(s, key) && r.value != [] && forall i :: 0 <= i < |r.value| ==> IsDigit(r.value[i])
  {
    if !StartsWith(s, key) then None
    else match AfterEquals(s[|key|..])
      case None => None
      case Some(u) => var d := LeadingDigits(u); if d == [] then None else Some(d)
  }

  /** The digits as written are the number the keyed matcher reads. */
  lemma KeyDigitsNumber(s: string, key: string)
    ensures KeyDigitsAt(s, key).Some? <==> KeyNumAt(s, key).Some?
    ensures KeyDigitsAt(s, key).Some? ==> KeyNumAt(s, key) == Some(ParseNat(KeyDigitsAt(s, key).value))
  {
  }

  /** `Size *= *([0-9]+) *x *([0-9]+)` anchored at the start of `s`. */
  function SizeAt(s: string): (r: Option<(nat, nat)>)
    ensures r.Some? ==> StartsWith(s, "Size")
  {
    if !StartsWith(s, "Size") then None
    else match AfterEquals(s[4..])
      case None => None
      case Some(u) => DimsAt(u)
  }

  /** `([0-9]+) *x *([0-9]+)` anchored at the start of `u`. */
  function DimsAt(u: string): Option<(nat, nat)> {
    match NumberAt(u)
      case None => None
      case Some(p) =>
        var t := LStripChar(p.1, ' ');
        if t == [] || t[0] != 'x' then None
        else match NumberAt(LStripChar(t[1..], ' '))
          case None => None
          case Some(q) => Some((p.0, q.0))
  }

  /** `Key *= *\[([^]]+)\]` anchored at the start of `s`: the text up to the first `]`. */
  function BracketAt(s: string, key: string): (r: Option<string>)
    ensures r.Some? ==> StartsWith(s, key) && r.value != [] && ']' !in r.value
  {
    if !StartsWith(s, key) then None
    else match AfterEquals(s[|key|..])
      case None => None
      case Some(u) =>
        if u == [] || u[0] != '[' then None
        else match IndexOf(u[1..], ']')
          case None => None
          case Some(j) => if j == 0 then None else Some(u[1..][..j])
  }

  predicate SchemeChar(c: char) { IsAlpha(c) || IsDigit(c) || c == ' ' }

  function SchemeRun(s: string): (r: string)
    ensures |r| <= |s| && r == s[..|r|]
    ensures forall i :: 0 <= i < |r| ==> SchemeChar(r[i])
    ensures |r| == |s| || !SchemeChar(s[|r|])
  {
    if s != [] && SchemeChar(s[0]) then [s[0]] + SchemeRun(s[1..]) else []
  }

  /**
   * `ColorScheme *= *([a-zA-Z0-9 ]+)` anchored at the start of `s`. When no
   * scheme character follows the blanks, the regex gives one blank back to
   * the group, so the scheme is then a single space.
   */
  function SchemeAt(s: string): (r: Option<string>)
    ensures r.Some? ==> StartsWith(s, "ColorScheme") && r.value != []
  {
    if !StartsWith(s, "ColorScheme") then None
    else
      var t := LStripChar(s[11..], ' ');
      if t == [] || t[0] != '=' then None
      else
        var v := t[1..];
        var u := LStripChar(v, ' ');
        if u != [] && SchemeChar(u[0]) then Some(SchemeRun(u))
        else if |u| < |v| then Some(" ")
        else None
  }

  /** `re.search`: the match at the leftmost position where the anchored matcher succeeds. */
  function Search<T>(s: string, at: string -> Option<T>): Option<T>
    decreases |s|
  {
    if at(s).Some? then at(s)
    else if s == [] then None
    else Search(s[1..], at)
  }

  /**
   * The search finds a match iff the matcher succeeds at some position, and
   * what it finds is the match at the leftmost such position.
   */
  lemma {:induction false} SearchLeftmost<T>(s: string, at: string -> Option<T>)
    ensures Search(s, at).Some? <==> exists k :: 0 <= k <= |s| && at(s[k..]).Some?
    ensures Search(s, at).Some? ==> exists k :: (0 <= k <= |s| && at(s[k..]) == Search(s, at)
      && forall j :: 0 <= j < k ==> at(s[j..]).None?)
    decreases |s|
  {
    assert s[0..] == s;
    if at(s).Some? {
    } else if s == [] {
    } else {
      SearchLeftmost(s[1..], at);
      var r := Search(s[1..], at);
      if r.Some? {
        var k :| 0 <= k <= |s[1..]| && at(s[1..][k..]) == r && forall j :: 0 <= j < k ==> at(s[1..][j..]).None?;
        assert s[1..][k..] == s[k + 1..];
        forall j | 0 <= j < k + 1 ensures at(s[j..]).None? {
          if j > 0 { assert s[j..] == s[1..][j - 1..]; }
        }
      } else {
        forall k | 0 <= k <= |s| ensures at(s[k..]).None? {
          if k > 0 { assert s[k..] == s[1..][k - 1..]; }
        }
      }
    }
  }

  /** A number written right after its key is found again by the keyed matcher. */
  lemma KeyNumRoundTrip(key: string, n: nat, rest: string)
    requires rest == [] || !IsDigit(rest[0])
    ensures KeyNumAt(key + "=" + NatToString(n) + rest, key) == Some(n)
  {
    var d := NatToString(n);
    var u := d + rest;
    Assoc3(key + "=", d, rest);
    assert u[0] == d[0];
    KeyEquals(key, u);
    WrittenNumber(n, rest);
    KeyNumOf(key + "=" + u, key, u, n);
  }

  lemma KeyNumOf(s: string, key: string, u: string, n: nat)
    requires StartsWith(s, key) && AfterEquals(s[|key|..]) == Some(u)
    requires NumberAt(u).Some? && NumberAt(u).value.0 == n
    ensures KeyNumAt(s, key) == Some(n)
  {
  }

  lemma {:induction false} DigitsOf(d: string, rest: string)
    requires forall i :: 0 <= i < |d| ==> IsDigit(d[i])
    requires rest == [] || !IsDigit(rest[0])
    ensures LeadingDigits(d + rest) == d
  {
    if d != [] {
      assert (d + rest)[1..] == d[1..] + rest;
      DigitsOf(d[1..], rest);
    }
  }

  // ---------------------------------------------------------------------
  // Decoding the meta string

  datatype RenderMode = Preview | RenderFull | ThrownTogether | TestOnlyMode

  /** `ThrownTogether` wins over `Render`; the default is a preview. */
  function ModeOf(meta: string): (r: RenderMode)
    ensures r == ThrownTogether <==> Contains(meta, "ThrownTogether")
    ensures r == RenderFull <==> !Contains(meta, "ThrownTogether") && Contains(meta, "Render")
    ensures r != TestOnlyMode
  {
    if Contains(meta, "ThrownTogether") then ThrownTogether
    else if Contains(meta, "Render") then RenderFull
    else Preview
  }

  function SizeMatch(meta: string): Option<(nat, nat)> { Search(meta, SizeAt) }

  /**
   * The size scale: 1 after an explicit `Size=WxH`, else the first of
   * Small, Med, Big, Huge that occurs, else 1.
   */
  function Scale(meta: string): (r: real)
    ensures SizeMatch(meta).Some? ==> r == 1.0
    ensures r in {0.75, 1.0, 1.5, 2.0, 2.5}
  {
    if SizeMatch(meta).Some? then 1.0
    else if Contains(meta, "Small") then 0.75
    else if Contains(meta, "Med") then 1.5
    else if Contains(meta, "Big") then 2.0
    else if Contains(meta, "Huge") then 2.5
    else 1.0
  }

  /** The image size in pixels: 320 by 240 unless `Size=` gives one, times the scale. */
  function ImgSize(meta: string): (r: (real, real))
    ensures SizeMatch(meta).Some? ==> r == (SizeMatch(meta).value.0 as real, SizeMatch(meta).value.1 as real)
    ensures SizeMatch(meta).None? ==> r == (320.0 * Scale(meta), 240.0 * Scale(meta))
  {
    match SizeMatch(meta)
      case Some(wh) => (wh.0 as real, wh.1 as real)
      case None => (320.0 * Scale(meta), 240.0 * Scale(meta))
  }

  /** How a size is written in the meta string. */
  function SizeSpec(w: nat, h: nat): string {
    "Size=" + NatToString(w) + "x" + NatToString(h)
  }

  /**
   * A written size is read back by the search, and the image then has
   * exactly that size: an explicit size is never scaled, whatever size
   * keyword (`Huge`, say) the tail holds.
   */
  lemma ExplicitSizeWins(w: nat, h: nat, tail: string)
    requires tail == [] || !IsDigit(tail[0])
    ensures SizeMatch(SizeSpec(w, h) + tail) == Some((w, h))
    ensures ImgSize(SizeSpec(w, h) + tail) == (w as real, h as real)
  {
    SizeWritten(w, h, tail);
    SearchAtStart(SizeSpec(w, h) + tail, SizeAt);
  }

  /** A search succeeds at once when the matcher matches at the start. */
  lemma SearchAtStart<T>(s: string, at: string -> Option<T>)
    requires at(s).Some?
    ensures Search(s, at) == at(s)
  {
  }

  /** `Size=WxH` written out is read back by the size matcher. */
  lemma SizeWritten(w: nat, h: nat, tail: string)
    requires tail == [] || !IsDigit(tail[0])
    ensures SizeAt(SizeSpec(w, h) + tail) == Some((w, h))
  {
    var dw := NatToString(w);
    var dh := NatToString(h);
    var u := dw + ("x" + (dh + tail));
    Assoc5("Size=", dw, "x", dh, tail);
    assert u[0] == dw[0];
    SizeAtKey(u);
    DimsWritten(w, h, tail);
  }

  lemma Assoc5<T>(a: seq<T>, b: seq<T>, c: seq<T>, d: seq<T>, e: seq<T>)
    ensures a + b + c + d + e == a + (b + (c + (d + e)))
  {
  }

  lemma SizeAtKey(u: string)
    requires u == [] || u[0] != ' '
    ensures SizeAt("Size=" + u) == DimsAt(u)
  {
    var s := "Size=" + u;
    assert s[..4] == "Size";
    assert s[4..] == "=" + u;
    Unblanked("=" + u);
    assert ("=" + u)[1..] == u;
    Unblanked(u);
  }

  lemma DimsWritten(w: nat, h: nat, tail: string)
    requires tail == [] || !IsDigit(tail[0])
    ensures DimsAt(NatToString(w) + ("x" + (NatToString(h) + tail))) == Some((w, h))
  {
    var dh := NatToString(h);
    var v := dh + tail;
    var xv := "x" + v;
    assert v[0] == dh[0];
    WrittenNumber(w, xv);
    Unblanked(xv);
    Unblanked(v);
    assert xv[1..] == v;
    WrittenNumber(h, tail);
  }

  /** `key=u` with `u` not starting with a blank is matched by ` *= *` right after the key. */
  lemma KeyEquals(key: string, u: string)
    requires u == [] || u[0] != ' '
    ensures StartsWith(key + "=" + u, key)
    ensures AfterEquals((key + "=" + u)[|key|..]) == Some(u)
  {
    var s := key + "=" + u;
    assert s[..|key|] == key;
    assert s[|key|..] == "=" + u;
    Unblanked("=" + u);
    assert ("=" + u)[1..] == u;
    Unblanked(u);
  }

  lemma Unblanked(s: string)
    requires s == [] || s[0] != ' '
    ensures LStripChar(s, ' ') == s
  {
  }

  /** A rendered count followed by a non-digit is read back with what follows it. */
  lemma WrittenNumber(n: nat, tail: string)
    requires tail == [] || !IsDigit(tail[0])
    ensures NumberAt(NatToString(n) + tail) == Some((n, tail))
  {
    var d := NatToString(n);
    DigitsOf(d, tail);
    ParseNatToString(n);
    assert (d + tail)[|d|..] == tail;
  }

  /** The keyword scale takes effect only without `Size=`, and a later keyword never overrides an earlier one. */
  lemma KeywordScaling(meta: string)
    requires SizeMatch(meta).None? && Contains(meta, "Small")
    ensures ImgSize(meta) == (240.0, 180.0)
  {
  }

  function VprLine(v: string): string { "$vpr = [" + v + "];" }
  function VptLine(v: string): string { "$vpt = [" + v + "];" }
  function VpdLine(v: string): string { "$vpd = " + v + ";" }
  const FlatSpinLine: string := "$vpr = [55, 0, 360*$t];"
  const SpinLine: string := "$vpr = [90-45*cos(360*$t), 0, 360*$t];"

  function VprMatch(meta: string): Option<string> { Search(meta, s => BracketAt(s, "VPR")) }
  function VptMatch(meta: string): Option<string> { Search(meta, s => BracketAt(s, "VPT")) }
  function VpdMatch(meta: string): Option<string> { Search(meta, s => KeyDigitsAt(s, "VPD")) }

  /** Each `$vp` assignment sets the camera from the script, so no explicit camera is passed. */
  predicate HasVpSplat(meta: string) {
    VprMatch(meta).Some? || VptMatch(meta).Some? || VpdMatch(meta).Some?
    || Contains(meta, "FlatSpin") || Contains(meta, "Spin")
  }

  /** The spin line, if any: `FlatSpin` first, else `Spin` with the `VPR` rotation or the default wobble. */
  function SpinPrefix(meta: string): seq<string> {
    if Contains(meta, "FlatSpin") then [FlatSpinLine]
    else if Contains(meta, "Spin") then
      (if VprMatch(meta).Some? then [VprLine(VprMatch(meta).value)] else [SpinLine])
    else []
  }

  function VprPart(meta: string): seq<string> {
    if VprMatch(meta).Some? then [VprLine(VprMatch(meta).value)] else []
  }
  function VptPart(meta: string): seq<string> {
    if VptMatch(meta).Some? then [VptLine(VptMatch(meta).value)] else []
  }
  function VpdPart(meta: string): seq<string> {
    if VpdMatch(meta).Some? then [VpdLine(VpdMatch(meta).value)] else []
  }

  /**
   * The lines put in front of the script. Each is inserted at position 0
   * in the order VPR, VPT, VPD, spin, so the last inserted comes first.
   */
  function VpPrefix(meta: string): (r: seq<string>)
  {
    SpinPrefix(meta) + (VpdPart(meta) + (VptPart(meta) + VprPart(meta)))
  }

  /** The default camera of a 3D or 2D image, used only when the script sets none. */
  function CameraOf(meta: string): (r: Option<seq<int>>)
  {
    if HasVpSplat(meta) then None
    else if Contains(meta, "3D") then Some([0, 0, 0, 55, 0, 25, 444])
    else if Contains(meta, "2D") then Some([0, 0, 0, 0, 0, 0, 444])
    else None
  }

  /**
   * Script camera lines and an explicit camera exclude each other: the
   * script gets a prefix exactly when the meta asks for a `$vp` setting,
   * and an explicit camera is passed only when it gets none.
   */
  lemma {:induction false} CameraXorPrefix(meta: string)
    ensures VpPrefix(meta) != [] <==> HasVpSplat(meta)
    ensures CameraOf(meta).Some? ==> VpPrefix(meta) == []
    ensures VpPrefix(meta) == [] ==>
      (CameraOf(meta).Some? <==> Contains(meta, "3D") || Contains(meta, "2D"))
  {
    if Contains(meta, "FlatSpin") || Contains(meta, "Spin") {
      assert |SpinPrefix(meta)| == 1;
    }
  }

  /** 36 frames for a spin or animation, overridden by `Frames=N`; still images have none. */
  function FramesOf(meta: string): (r: Option<nat>)
    ensures Search(meta, s => KeyNumAt(s, "Frames")).Some? ==> r == Search(meta, s => KeyNumAt(s, "Frames"))
    ensures Search(meta, s => KeyNumAt(s, "Frames")).None? ==>
      (r.Some? <==> Contains(meta, "Spin") || Contains(meta, "Anim")) && (r.Some? ==> r.value == 36)
  {
    var f := Search(meta, s => KeyNumAt(s, "Frames"));
    if f.Some? then f
    else if Contains(meta, "Spin") || Contains(meta, "Anim") then Some(36)
    else None
  }

  /** 250 ms per frame unless `FrameMS=N` gives it. */
  function FrameMsOf(meta: string): (r: nat)
    ensures Search(meta, s => KeyNumAt(s, "FrameMS")).None? ==> r == 250
  {
    match Search(meta, s => KeyNumAt(s, "FrameMS"))
      case None => 250
      case Some(n) => n
  }

  const DefaultColorScheme: string := "Cornfield"

  /** The scheme `ColorScheme=` names, else the default. */
  function ColorSchemeOf(meta: string): (r: string)
    ensures Search(meta, SchemeAt).None? ==> r == DefaultColorScheme
    ensures Search(meta, SchemeAt).Some? ==> r == Search(meta, SchemeAt).value
  {
    match Search(meta, SchemeAt)
      case None => DefaultColorScheme
      case Some(v) => v
  }

  /** The length of the longest line; `max` of an empty list fails, so lines are required. */
  function MaxLen(lines: seq<string>): (r: nat)
    requires lines != []
    ensures forall i :: 0 <= i < |lines| ==> |lines[i]| <= r
    ensures exists i :: 0 <= i < |lines| && |lines[i]| == r
  {
    if |lines| == 1 then |lines[0]|
    else
      var m := MaxLen(lines[1..]);
      assert forall i :: 1 <= i < |lines| ==> lines[i] == lines[1..][i - 1];
      if |lines[0]| >= m then |lines[0]| else m
  }

  /** The script goes under the image when some line is too wide beside it, or on request. */
  predicate ScriptUnder(meta: string, lines: seq<string>)
    requires lines != []
  {
    MaxLen(lines) as real > (880.0 - ImgSize(meta).0) / 9.0 || Contains(meta, "ScriptUnder")
  }

  lemma {:induction false} ScriptUnderIff(meta: string, lines: seq<string>)
    requires lines != []
    ensures ScriptUnder(meta, lines) <==>
      (exists i :: 0 <= i < |lines| && 9.0 * |lines[i]| as real > 880.0 - ImgSize(meta).0)
      || Contains(meta, "ScriptUnder")
  {
    var m := MaxLen(lines);
    if exists i :: 0 <= i < |lines| && 9.0 * |lines[i]| as real > 880.0 - ImgSize(meta).0 {
      var i :| 0 <= i < |lines| && 9.0 * |lines[i]| as real > 880.0 - ImgSize(meta).0;
      assert |lines[i]| <= m;
    }
  }

  // ---------------------------------------------------------------------
  // The renderer's interface

  /** What the renderer reports about one run. */
  datatype RunResult = RunResult(
    good: bool, success: bool, cmdline: seq<string>, returnCode: int,
    stdout: seq<string>, stderr: seq<string>, echos: seq<string>,
    warnings: seq<string>, errors: seq<string>,
    image: string)

  /** The warning the renderer emits when the script fixes the camera; it is not a failure. */
  const ViewAllNotice: string := "Viewall and autocenter disabled"

  /** The warnings without the camera notices, in their order. */
  function DropViewAllNotices(ws: seq<string>): (r: seq<string>)
    ensures |r| <= |ws|
  {
    DropContaining(ws, ViewAllNotice)
  }

  /** The list without the lines that contain `pat`, in order. */
  function DropContaining(ws: seq<string>, pat: string): (r: seq<string>)
    ensures |r| <= |ws|
  {
    if ws == [] then []
    else (if Contains(ws[0], pat) then [] else [ws[0]]) + DropContaining(ws[1..], pat)
  }

  /**
   * Exactly the camera notices are dropped: no kept warning is one, every
   * warning that is not one is kept, and a list without them is unchanged.
   */
  lemma DropViewAllNoticesSpec(ws: seq<string>)
    ensures var r := DropViewAllNotices(ws);
      (forall i :: 0 <= i < |r| ==> !Contains(r[i], ViewAllNotice))
      && (forall w :: w in ws && !Contains(w, ViewAllNotice) ==> w in r)
      && ((forall i :: 0 <= i < |ws| ==> !Contains(ws[i], ViewAllNotice)) ==> r == ws)
  {
    DropContainingSpec(ws, ViewAllNotice);
  }

  lemma {:induction false} DropContainingSpec(ws: seq<string>, pat: string)
    ensures var r := DropContaining(ws, pat);
      (forall i :: 0 <= i < |r| ==> !Contains(r[i], pat))
      && (forall w :: w in ws && !Contains(w, pat) ==> w in r)
      && ((forall i :: 0 <= i < |ws| ==> !Contains(ws[i], pat)) ==> r == ws)
  {
    if ws != [] {
      DropContainingSpec(ws[1..], pat);
      assert forall w :: w in ws ==> w == ws[0] || w in ws[1..];
      if forall i :: 0 <= i < |ws| ==> !Contains(ws[i], pat) {
        assert forall i :: 0 <= i < |ws[1..]| ==> !Contains(ws[1..][i], pat);
        assert ws == [ws[0]] + ws[1..];
      }
    }
  }

  /** What the renderer is asked to do for one request. */
  datatype RenderJob = RenderJob(
    script: seq<string>, mode: RenderMode, animate: Option<nat>, frameMs: nat,
    imgSize: (real, real), camera: Option<seq<int>>, autoCenter: bool,
    colorScheme: string, showEdges: bool, showAxes: bool, showScales: bool)

  /** No script line mentions `$vp`: the renderer then centres the view itself. */
  predicate NoVp(script: seq<string>) {
    forall i :: 0 <= i < |script| ==> !Contains(script[i], "$vp")
  }

  /** The status a finished run gives the request. */
  function Outcome(osc: RunResult, testOnly: bool, targetExists: bool, same: bool): (st: string)
  {
    if !osc.good || DropViewAllNotices(osc.warnings) != [] || osc.errors != [] then "FAIL"
    else if testOnly then "SKIP"
    else if !targetExists then "NEW"
    else if same then "SKIP"
    else "REPLACE"
  }

  /**
   * The four outcomes, each with exactly its own conditions: a failed or
   * noisy run is FAIL; a clean run is SKIP in test mode; otherwise NEW for
   * a missing target, SKIP for an equal image and REPLACE for a differing one.
   */
  lemma OutcomeCases(osc: RunResult, testOnly: bool, targetExists: bool, same: bool)
    ensures var st := Outcome(osc, testOnly, targetExists, same);
      var clean := osc.good && DropViewAllNotices(osc.warnings) == [] && osc.errors == [];
      (st == "FAIL" <==> !clean)
      && (st == "NEW" <==> clean && !testOnly && !targetExists)
      && (st == "REPLACE" <==> clean && !testOnly && targetExists && !same)
      && (st == "SKIP" <==> clean && (testOnly || (targetExists && same)))
  {
  }

  /** The image files after one request: only NEW and REPLACE write the target, with the new image. */
  function FilesAfter(files: map<string, string>, target: string, st: string, image: string): (r: map<string, string>)
    ensures st != "NEW" && st != "REPLACE" ==> r == files
  {
    if st == "NEW" || st == "REPLACE" then files[target := image] else files
  }

  /** Every file but the target keeps its contents. */
  lemma FilesAfterKeepsOthers(files: map<string, string>, target: string, st: string, image: string, p: string)
    requires p != target
    ensures var r := FilesAfter(files, target, st, image);
      (p in r <==> p in files) && (p in r ==> r[p] == files[p])
  {
  }

  /**
   * `image_compare` on the target and the freshly rendered image: GIF
   * animations must be byte for byte equal; other images are compared by
   * their pixel difference, which `close` stands for (the pairs of contents
   * whose RMS difference is at most 2.0).
   */
  predicate ImageCompare(target: string, current: string, rendered: string, close: set<(string, string)>) {
    if EndsWith(target, ".gif") then current == rendered else (current, rendered) in close
  }

  /** One request's run: its status and the image files after it. */
  function Step(target: string, osc: RunResult, testOnly: bool, close: set<(string, string)>,
                files: map<string, string>): (string, map<string, string>)
  {
    var st := Outcome(osc, testOnly, target in files, target in files && ImageCompare(target, files[target], osc.image, close));
    (st, FilesAfter(files, target, st, osc.image))
  }

  /**
   * A failed, skipped or test run leaves the image files as they were; NEW
   * and REPLACE leave the target holding the new image, NEW only when the
   * target did not exist and REPLACE only when it did.
   */
  lemma StepWritesOnlyNewOrReplace(target: string, osc: RunResult, testOnly: bool, close: set<(string, string)>,
                                   files: map<string, string>)
    ensures var step := Step(target, osc, testOnly, close, files);
      (step.0 == "FAIL" || step.0 == "SKIP" || testOnly ==> step.1 == files)
      && (step.0 == "NEW" || step.0 == "REPLACE" ==> step.1 == files[target := osc.image])
      && (step.0 == "NEW" ==> target !in files)
      && (step.0 == "REPLACE" ==> target in files && !ImageCompare(target, files[target], osc.image, close))
  {
  }

  /** Everything a request decodes from its meta string and script. */
  datatype Settings = Settings(
    mode: RenderMode, imgSize: (real, real), camera: Option<seq<int>>, frames: Option<nat>,
    frameMs: nat, showEdges: bool, showAxes: bool, showScales: bool, orthographic: bool,
    colorScheme: string, scriptUnder: bool)

  function Decode(meta: string, script: seq<string>): Settings
    requires script != []
  {
    Settings(ModeOf(meta), ImgSize(meta), CameraOf(meta), FramesOf(meta), FrameMsOf(meta),
      Contains(meta, "Edges"), !Contains(meta, "NoAxes"), !Contains(meta, "NoScales"),
      !Contains(meta, "Perspective"), ColorSchemeOf(meta), ScriptUnder(meta, script))
  }

  /**
   * The camera part of the request constructor: each `$vp` line is
   * inserted at the front of the script as it is found, and a default
   * camera is chosen only when no such line was inserted.
   */
  method PrefixCamera(meta: string, lines: seq<string>) returns (script: seq<string>, cam: Option<seq<int>>)
    ensures script == VpPrefix(meta) + lines
    ensures cam == CameraOf(meta)
  {
    script := lines;
    var splat := false;
    if VprMatch(meta).Some? {
      script := [VprLine(VprMatch(meta).value)] + script;
      splat := true;
    }
    ghost var s1 := script;
    assert s1 == VprPart(meta) + lines;
    if VptMatch(meta).Some? {
      script := [VptLine(VptMatch(meta).value)] + script;
      splat := true;
    }
    ghost var s2 := script;
    assert s2 == VptPart(meta) + s1;
    if VpdMatch(meta).Some? {
      script := [VpdLine(VpdMatch(meta).value)] + script;
      splat := true;
    }
    ghost var s3 := script;
    assert s3 == VpdPart(meta) + s2;
    cam := None;
    if Contains(meta, "FlatSpin") {
      script := [FlatSpinLine] + script;
      splat := true;
    } else if Contains(meta, "Spin") {
      if VprMatch(meta).Some? {
        script := [VprLine(VprMatch(meta).value)] + script;
      } else {
        script := [SpinLine] + script;
      }
      splat := true;
    } else if Contains(meta, "3D") {
      cam := Some([0, 0, 0, 55, 0, 25, 444]);
    } else if Contains(meta, "2D") {
      cam := Some([0, 0, 0, 0, 0, 0, 444]);
    }
    assert script == SpinPrefix(meta) + s3;
    PrefixAssoc(SpinPrefix(meta), VpdPart(meta), VptPart(meta), VprPart(meta), lines);
    assert splat == HasVpSplat(meta);
    if splat {
      cam := None;
    }
  }

  lemma PrefixAssoc<T>(a: seq<T>, b: seq<T>, c: seq<T>, d: seq<T>, e: seq<T>)
    ensures a + (b + (c + (d + e))) == (a + (b + (c + d))) + e
  {
  }

  // ---------------------------------------------------------------------
  // Requests and the manager

  class ImageRequest {
    const srcFile: string
    const srcLine: int
    const imageFile: string
    const imageMeta: string
    /** The script with the camera lines in front; the caller's list is changed the same way. */
    const scriptLines: seq<string>
    const hasCompletionCb: bool
    const renderMode: RenderMode
    const imgSize: (real, real)
    const camera: Option<seq<int>>
    const animationFrames: Option<nat>
    const frameMs: nat
    const showEdges: bool
    const showAxes: bool
    const showScales: bool
    const orthographic: bool
    const colorScheme: string
    const scriptUnder: bool

    var complete: bool
    var status: string
    var success: bool
    var cmdline: seq<string>
    var returnCode: Option<int>
    var stdout: seq<string>
    var stderr: seq<string>
    var echos: seq<string>
    var warnings: seq<string>
    var errors: seq<string>
    /** How many times the completion callback has run. */
    var completions: nat

    /** The decoded settings, gathered into one value. */
    function Decoded(): Settings {
      Settings(renderMode, imgSize, camera, animationFrames, frameMs, showEdges, showAxes,
        showScales, orthographic, colorScheme, scriptUnder)
    }

    /** Decodes the meta string; the camera lines go in front of the script. */
    constructor (srcFile: string, srcLine: int, imageFile: string, lines: seq<string>, meta: string, hasCompletionCb: bool)
      requires VpPrefix(meta) + lines != []
      ensures this.srcFile == srcFile && this.srcLine == srcLine && this.imageFile == imageFile
      ensures imageMeta == meta && this.hasCompletionCb == hasCompletionCb
      ensures scriptLines == VpPrefix(meta) + lines
      ensures Decoded() == Decode(meta, scriptLines)
      ensures !complete && status == "INCOMPLETE" && !success && completions == 0
      ensures returnCode == None && cmdline == [] && stdout == [] && stderr == []
      ensures echos == [] && warnings == [] && errors == []
    {
      this.srcFile := srcFile;
      this.srcLine := srcLine;
      this.imageFile := imageFile;
      this.imageMeta := meta;
      this.hasCompletionCb := hasCompletionCb;
      renderMode := ModeOf(meta);
      imgSize := ImgSize(meta);
      var script, cam := PrefixCamera(meta, lines);
      camera := cam;
      scriptLines := script;
      animationFrames := FramesOf(meta);
      frameMs := FrameMsOf(meta);
      showEdges := Contains(meta, "Edges");
      showAxes := !Contains(meta, "NoAxes");
      showScales := !Contains(meta, "NoScales");
      orthographic := !Contains(meta, "Perspective");
      colorScheme := ColorSchemeOf(meta);
      scriptUnder := ScriptUnder(meta, script);
      complete, status, success := false, "INCOMPLETE", false;
      cmdline, returnCode, stdout, stderr := [], None, [], [];
      echos, warnings, errors := [], [], [];
      completions := 0;
    }

    /** The renderer call for this request; a test run checks the script without rendering or animating. */
    function Job(testOnly: bool): (j: RenderJob)
      ensures testOnly ==> j.mode == TestOnlyMode && j.animate.None?
      ensures !testOnly ==> j.mode == renderMode && j.animate == animationFrames
      ensures j.autoCenter <==> NoVp(scriptLines)
    {
      RenderJob(scriptLines, if testOnly then TestOnlyMode else renderMode,
        if testOnly then None else animationFrames, frameMs, imgSize, camera,
        NoVp(scriptLines), colorScheme, showEdges, showAxes, showScales)
    }

    /**
     * `completed`: marks the request done with the status, takes the run's
     * details from the renderer result (success is true without one) and
     * runs the completion callback once.
     */
    method Completed(st: string, osc: Option<RunResult>)
      modifies this
      ensures complete && status == st
      ensures success == (if osc.Some? then osc.value.success else true)
      ensures osc.Some? ==> (cmdline == osc.value.cmdline && returnCode == Some(osc.value.returnCode)
        && stdout == osc.value.stdout && stderr == osc.value.stderr && echos == osc.value.echos
        && warnings == osc.value.warnings && errors == osc.value.errors)
      ensures osc.None? ==> (cmdline == old(cmdline) && returnCode == old(returnCode)
        && stdout == old(stdout) && stderr == old(stderr) && echos == old(echos)
        && warnings == old(warnings) && errors == old(errors))
      ensures completions == old(completions) + (if hasCompletionCb then 1 else 0)
    {
      complete, status := true, st;
      success := if osc.Some? then osc.value.success else true;
      if osc.Some? {
        var run := osc.value;
        cmdline, returnCode, stdout, stderr := run.cmdline, Some(run.returnCode), run.stdout, run.stderr;
        echos, warnings, errors := run.echos, run.warnings, run.errors;
      }
      completions := completions + if hasCompletionCb then 1 else 0;
    }
  }

  /** Why `new_request` refuses: a NORENDER image, or an empty script (`max` of no lines). */
  datatype RequestError = NoRender | EmptyScript

  /**
   * The statuses and the image files after running the first `n` requests
   * with these targets and results in order: the last request runs on the
   * files the ones before it left.
   */
  function RunPrefix(targets: seq<string>, results: seq<RunResult>, n: nat, testOnly: bool,
                     close: set<(string, string)>, files: map<string, string>): (r: (seq<string>, map<string, string>))
    requires n <= |targets| == |results|
    ensures |r.0| == n
  {
    if n == 0 then ([], files)
    else
      var prev := RunPrefix(targets, results, n - 1, testOnly, close, files);
      var step := Step(targets[n - 1], results[n - 1], testOnly, close, prev.1);
      (prev.0 + [step.0], step.1)
  }

  /** The whole run. */
  function RunAll(targets: seq<string>, results: seq<RunResult>, testOnly: bool,
                  close: set<(string, string)>, files: map<string, string>): (r: (seq<string>, map<string, string>))
    requires |targets| == |results|
    ensures |r.0| == |targets|
  {
    RunPrefix(targets, results, |targets|, testOnly, close, files)
  }

  /** An image file no request targets keeps its contents through a whole run. */
  lemma RunAllKeepsOthers(targets: seq<string>, results: seq<RunResult>, testOnly: bool,
                          close: set<(string, string)>, files: map<string, string>, p: string)
    requires |targets| == |results|
    requires p !in targets
    ensures var f := RunAll(targets, results, testOnly, close, files).1;
      (p in f <==> p in files) && (p in f ==> f[p] == files[p])
  {
    PrefixKeepsOthers(targets, results, |targets|, testOnly, close, files, p);
  }

  lemma {:induction false} PrefixKeepsOthers(targets: seq<string>, results: seq<RunResult>, n: nat, testOnly: bool,
                                             close: set<(string, string)>, files: map<string, string>, p: string)
    requires n <= |targets| == |results|
    requires p !in targets
    ensures var f := RunPrefix(targets, results, n, testOnly, close, files).1;
      (p in f <==> p in files) && (p in f ==> f[p] == files[p])
  {
    if n > 0 {
      PrefixKeepsOthers(targets, results, n - 1, testOnly, close, files, p);
      var prev := RunPrefix(targets, results, n - 1, testOnly, close, files);
      var step := Step(targets[n - 1], results[n - 1], testOnly, close, prev.1);
      FilesAfterKeepsOthers(prev.1, targets[n - 1], step.0, results[n - 1].image, p);
    }
  }

  /** A test run writes no image file, and every request ends FAIL or SKIP. */
  lemma TestRunWritesNothing(targets: seq<string>, results: seq<RunResult>,
                             close: set<(string, string)>, files: map<string, string>)
    requires |targets| == |results|
    ensures RunAll(targets, results, true, close, files).1 == files
    ensures forall i :: 0 <= i < |targets| ==> RunAll(targets, results, true, close, files).0[i] in {"FAIL", "SKIP"}
  {
    TestPrefixWritesNothing(targets, results, |targets|, close, files);
  }

  lemma {:induction false} TestPrefixWritesNothing(targets: seq<string>, results: seq<RunResult>, n: nat,
                                                   close: set<(string, string)>, files: map<string, string>)
    requires n <= |targets| == |results|
    ensures RunPrefix(targets, results, n, true, close, files).1 == files
    ensures forall i :: 0 <= i < n ==> RunPrefix(targets, results, n, true, close, files).0[i] in {"FAIL", "SKIP"}
  {
    if n > 0 {
      TestPrefixWritesNothing(targets, results, n - 1, close, files);
    }
  }

  /** The renderer calls of a queue, one per request in queue order. */
  function JobsOf(rs: seq<ImageRequest>, testOnly: bool): (r: seq<RenderJob>)
    ensures |r| == |rs|
  {
    if rs == [] then [] else [rs[0].Job(testOnly)] + JobsOf(rs[1..], testOnly)
  }

  /** The i-th renderer call is the i-th request's job. */
  lemma {:induction false} JobsInQueueOrder(rs: seq<ImageRequest>, testOnly: bool)
    ensures forall i :: 0 <= i < |rs| ==> JobsOf(rs, testOnly)[i] == rs[i].Job(testOnly)
  {
    if rs != [] {
      JobsInQueueOrder(rs[1..], testOnly);
      var js := JobsOf(rs, testOnly);
      assert js == [rs[0].Job(testOnly)] + JobsOf(rs[1..], testOnly);
      forall i | 1 <= i < |rs| ensures js[i] == rs[i].Job(testOnly) {
        assert js[i] == JobsOf(rs[1..], testOnly)[i - 1] && rs[1..][i - 1] == rs[i];
      }
    }
  }

  function TargetsOf(rs: seq<ImageRequest>): (r: seq<string>)
    ensures |r| == |rs| && forall i :: 0 <= i < |rs| ==> r[i] == rs[i].imageFile
  {
    if rs == [] then [] else [rs[0].imageFile] + TargetsOf(rs[1..])
  }

  /** No object appears twice in the queue. */
  ghost predicate Distinct(rs: seq<ImageRequest>) {
    forall a, b :: 0 <= a < b < |rs| ==> rs[a] != rs[b]
  }

  lemma DistinctAppend(rs: seq<ImageRequest>, r: ImageRequest)
    requires Distinct(rs) && r !in rs
    ensures Distinct(rs + [r])
  {
    var s := rs + [r];
    forall a, b | 0 <= a < b < |s| ensures s[a] != s[b] {
      assert s[a] == rs[a];
      if b == |rs| { assert s[b] == r; } else { assert s[b] == rs[b]; }
    }
  }

  class ImageManager {
    var requests: seq<ImageRequest>
    var testOnly: bool

    /** Every queued request is a distinct object. */
    ghost predicate Valid()
      reads this
    {
      Distinct(requests)
    }

    constructor ()
      ensures Valid() && requests == [] && !testOnly
    {
      requests := [];
      testOnly := false;
    }

    /** `purge_requests`: the queue is emptied. */
    method PurgeRequests()
      modifies this
      ensures Valid() && requests == [] && testOnly == old(testOnly)
    {
      requests := [];
    }

    /**
     * `new_request`: refuses NORENDER images; otherwise queues exactly one
     * new request at the end and returns it.
     */
    method NewRequest(srcFile: string, srcLine: int, imageFile: string, lines: seq<string>,
                      meta: string, hasCompletionCb: bool)
      returns (req: ImageRequest?, err: Option<RequestError>)
      requires Valid()
      modifies this
      ensures Valid() && testOnly == old(testOnly)
      ensures Contains(meta, "NORENDER") ==> err == Some(NoRender) && req == null && requests == old(requests)
      ensures !Contains(meta, "NORENDER") && VpPrefix(meta) + lines == [] ==>
        err == Some(EmptyScript) && req == null && requests == old(requests)
      ensures err.None? <==> !Contains(meta, "NORENDER") && VpPrefix(meta) + lines != []
      ensures err.None? ==> (req != null && fresh(req) && requests == old(requests) + [req]
        && req.srcFile == srcFile && req.srcLine == srcLine && req.imageFile == imageFile
        && req.imageMeta == meta && req.hasCompletionCb == hasCompletionCb
        && req.scriptLines == VpPrefix(meta) + lines && !req.complete)
    {
      if Contains(meta, "NORENDER") {
        return null, Some(NoRender);
      }
      if VpPrefix(meta) + lines == [] {
        return null, Some(EmptyScript);
      }
      req := new ImageRequest(srcFile, srcLine, imageFile, lines, meta, hasCompletionCb);
      DistinctAppend(requests, req);
      requests := requests + [req];
      err := None;
    }

    /**
     * The outcome branch of `process_request`: given the renderer's result
     * and the image files, completes the request and returns the new files.
     */
    method ProcessRequest(req: ImageRequest, osc: RunResult, close: set<(string, string)>,
                          files: map<string, string>)
      returns (st: string, newFiles: map<string, string>)
      modifies req
      ensures (st, newFiles) == Step(req.imageFile, osc, testOnly, close, files)
      ensures req.complete && req.status == st
      ensures req.success == (st != "FAIL" && osc.success)
      ensures req.warnings == DropViewAllNotices(osc.warnings) && req.errors == osc.errors
      ensures req.echos == osc.echos && req.returnCode == Some(osc.returnCode)
      ensures req.completions == old(req.completions) + (if req.hasCompletionCb then 1 else 0)
    {
      var run := osc.(warnings := DropViewAllNotices(osc.warnings));
      var target := req.imageFile;
      newFiles := files;
      if !run.good || run.warnings != [] || run.errors != [] {
        st := "FAIL";
        req.Completed(st, Some(run.(success := false)));
        return;
      }
      if testOnly {
        st := "SKIP";
        req.Completed(st, Some(run));
        return;
      }
      if target !in files {
        newFiles := files[target := run.image];
        st := "NEW";
      } else if ImageCompare(target, files[target], run.image, close) {
        st := "SKIP";
      } else {
        newFiles := files[target := run.image];
        st := "REPLACE";
      }
      req.Completed(st, Some(run));
    }

    /**
     * Runs request `i` of the queue on the files the earlier ones left: the
     * run so far grows by one, and the earlier requests keep their status.
     */
    method RunNext(rs: seq<ImageRequest>, targets: seq<string>, results: seq<RunResult>, i: nat,
                   close: set<(string, string)>, files: map<string, string>, ghost sts: seq<string>,
                   current: map<string, string>)
      returns (st: string, newFiles: map<string, string>)
      requires |results| == |targets| == |rs| && i < |rs| && rs[i].imageFile == targets[i] && |sts| == i
      requires Distinct(rs)
      requires RunPrefix(targets, results, i, testOnly, close, files).0 == sts
      requires RunPrefix(targets, results, i, testOnly, close, files).1 == current
      requires forall k :: 0 <= k < i ==> rs[k].complete && rs[k].status == sts[k]
      requires forall k :: 0 <= k < i ==> rs[k].success == (sts[k] != "FAIL" && results[k].success)
      modifies rs[i]
      ensures RunPrefix(targets, results, i + 1, testOnly, close, files).0 == sts + [st]
      ensures RunPrefix(targets, results, i + 1, testOnly, close, files).1 == newFiles
      ensures forall k :: 0 <= k < i + 1 ==> rs[k].complete && rs[k].status == (sts + [st])[k]
      ensures forall k :: 0 <= k < i + 1 ==> rs[k].success == ((sts + [st])[k] != "FAIL" && results[k].success)
    {
      st, newFiles := ProcessRequest(rs[i], results[i], close, current);
    }

    /** Runs the given requests in order, each once with its result, threading the image files through. */
    method RunQueue(rs: seq<ImageRequest>, results: seq<RunResult>, close: set<(string, string)>,
                    files: map<string, string>)
      returns (newFiles: map<string, string>)
      requires |results| == |rs| && Distinct(rs)
      modifies rs
      ensures var run := RunAll(TargetsOf(rs), results, testOnly, close, files);
        newFiles == run.1
        && (forall i :: 0 <= i < |rs| ==> rs[i].complete && rs[i].status == run.0[i])
        && forall i :: 0 <= i < |rs| ==> rs[i].success == (run.0[i] != "FAIL" && results[i].success)
    {
      var targets := TargetsOf(rs);
      ghost var sts: seq<string> := [];
      newFiles := files;
      var i := 0;
      while i < |rs|
        invariant 0 <= i <= |rs| && |sts| == i
        invariant RunPrefix(targets, results, i, testOnly, close, files).0 == sts
        invariant RunPrefix(targets, results, i, testOnly, close, files).1 == newFiles
        invariant forall k :: 0 <= k < i ==> rs[k].complete && rs[k].status == sts[k]
        invariant forall k :: 0 <= k < i ==> rs[k].success == (sts[k] != "FAIL" && results[k].success)
      {
        var st;
        st, newFiles := RunNext(rs, targets, results, i, close, files, sts, newFiles);
        sts := sts + [st];
        i := i + 1;
      }
    }

    /**
     * `process_requests`: each queued request is handed to the renderer
     * once, in queue order, with the next result; then the queue is empty.
     */
    method ProcessRequests(testOnlyMode: bool, results: seq<RunResult>, close: set<(string, string)>,
                           files: map<string, string>)
      returns (jobs: seq<RenderJob>, newFiles: map<string, string>)
      requires Valid() && |results| == |requests|
      modifies this, requests
      ensures Valid() && requests == [] && testOnly == testOnlyMode
      ensures jobs == JobsOf(old(requests), testOnlyMode)
      ensures var run := RunAll(TargetsOf(old(requests)), results, testOnlyMode, close, files);
        newFiles == run.1
        && (forall i :: 0 <= i < |old(requests)| ==>
          old(requests)[i].complete && old(requests)[i].status == run.0[i])
        && forall i :: 0 <= i < |old(requests)| ==>
          old(requests)[i].success == (run.0[i] != "FAIL" && results[i].success)
    {
      testOnly := testOnlyMode;
      var rs := requests;
      jobs := JobsOf(rs, testOnlyMode);
      newFiles := RunQueue(rs, results, close, files);
      requests := [];
    }
  }
}

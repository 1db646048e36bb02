/**
 * The GitHub wiki output profile. It differs from the plain wiki profile in
 * how images and code are laid out: images become left-floated `<img>`
 * tags, code is indented instead of fenced, and a clearing `<br>` keeps
 * code and image apart.
 */
module TargetGitHubWiki {
  import opened Strings
  import TargetWiki

  /** An image dimension as it is passed in: absent (`''`) or a pixel count. */
  datatype Dim = NoDim | Px(n: nat)

  /** Python truthiness of a dimension: absent and 0 are both false. */
  predicate Truthy(d: Dim) { d.Px? && d.n != 0 }

  function DimText(d: Dim): string {
    match d
      case NoDim => ""
      case Px(n) => NatToString(n)
  }

  /** The width attribute: present iff the width is truthy. */
  function WidthAttr(width: Dim): (r: string)
    ensures Truthy(width) <==> r != ""
  {
    if Truthy(width) then " width=\"" + DimText(width) + "\"" else ""
  }

  /** The height attribute: present iff the WIDTH is truthy, as the source tests `width` for both. */
  function HeightAttr(height: Dim, width: Dim): (r: string)
    ensures Truthy(width) <==> r != ""
  {
    if Truthy(width) then " height=\"" + DimText(height) + "\"" else ""
  }

  /** `image`: a left-aligned `<img>` with escaped alt text and the URL verbatim. */
  function Image(itemName: string, imgType: string, relUrl: string, height: Dim, width: Dim): (r: seq<string>)
    ensures |r| == 2 && r[1] == ""
    ensures var alt := TargetWiki.EscapeSpec(itemName) + " " + TargetWiki.EscapeSpec(imgType);
      StartsWith(r[0], "<img align=\"left\" alt=\"" + alt + "\" src=\"" + relUrl + "\"")
  {
    var alt := TargetWiki.EscapeSpec(itemName) + " " + TargetWiki.EscapeSpec(imgType);
    var head := "<img align=\"left\" alt=\"" + alt + "\" src=\"" + relUrl + "\"";
    [head + WidthAttr(width) + HeightAttr(height, width) + ">", ""]
  }

  /** A height without a width is dropped: the tag is the same as with no height at all. */
  lemma HeightNeedsWidth(itemName: string, imgType: string, relUrl: string, height: Dim, width: Dim)
    requires !Truthy(width)
    ensures Image(itemName, imgType, relUrl, height, width) == Image(itemName, imgType, relUrl, NoDim, NoDim)
  {
  }

  /** `code_block`: nothing for no code, otherwise the code indented by four spaces and a blank line. */
  function CodeBlock(code: seq<string>): (r: seq<string>)
    ensures code == [] <==> r == []
    ensures code != [] ==> (|r| == |code| + 1 && r[|code|] == ""
      && forall i :: 0 <= i < |code| ==> r[i] == "    " + code[i])
  {
    if code == [] then [] else TargetWiki.IndentLines(code) + [""]
  }

  const BrBefore: string := "<br clear=\"all\" />"
  const BrAfter: string := "<br clear=\"all\" /><br/>"

  /** The image lines: none when there is no image URL (`""` stands for none). */
  function ImagePart(itemName: string, imgType: string, relUrl: string, height: Dim, width: Dim): (r: seq<string>)
    ensures relUrl == "" <==> r == []
  {
    if relUrl != "" then Image(itemName, imgType, relUrl, height, width) else []
  }

  /**
   * What follows the image: the clearing break before the code when the
   * code goes below, or after the code otherwise.
   */
  function AfterImage(code: seq<string>, codeBelow: bool): (r: seq<string>)
  {
    if codeBelow then TargetWiki.Paragraphed([BrBefore]) + CodeBlock(code)
    else CodeBlock(code) + TargetWiki.Paragraphed([BrAfter])
  }

  /**
   * `image_block`: the header with the subtitle unescaped, the image, the
   * code and one clearing break.
   */
  function ImageBlock(itemName: string, title: string, subtitle: string, code: seq<string>,
                      codeBelow: bool, relUrl: string, width: Dim, height: Dim): (r: seq<string>)
  {
    TargetWiki.BlockHeader(title, subtitle, false) + ImagePart(itemName, title, relUrl, height, width)
      + AfterImage(code, codeBelow)
  }

  /**
   * The header comes first with the subtitle unescaped, then the image;
   * exactly one clearing break follows, directly after the image when the
   * code goes below, as the last paragraph otherwise.
   */
  lemma ImageBlockLayout(itemName: string, title: string, subtitle: string, code: seq<string>,
                         codeBelow: bool, relUrl: string, width: Dim, height: Dim)
    ensures var r := ImageBlock(itemName, title, subtitle, code, codeBelow, relUrl, width, height);
      var img := ImagePart(itemName, title, relUrl, height, width);
      var cb := CodeBlock(code);
      |r| == 4 + |img| + |cb|
      && r[0] == "**" + TargetWiki.EscapeSpec(title) + ":** " + subtitle && r[1] == ""
      && r[2..2 + |img|] == img
      && (codeBelow ==> r[2 + |img|] == BrBefore && r[4 + |img|..] == cb)
      && (!codeBelow ==> r[2 + |img|..2 + |img| + |cb|] == cb && r[|r| - 2] == BrAfter)
  {
    var h := TargetWiki.BlockHeader(title, subtitle, false);
    var img := ImagePart(itemName, title, relUrl, height, width);
    var a := AfterImage(code, codeBelow);
    AfterImageShape(code, codeBelow);
    assert h[0] == "**" + TargetWiki.EscapeSpec(title) + ":** " + subtitle;
    Layout(h, img, CodeBlock(code), a, codeBelow);
  }

  /** The clearing break is the first line after the image when the code goes below, the last but one otherwise. */
  lemma AfterImageShape(code: seq<string>, codeBelow: bool)
    ensures var a := AfterImage(code, codeBelow);
      var cb := CodeBlock(code);
      |a| == 2 + |cb|
      && (codeBelow ==> a[0] == BrBefore && a[2..] == cb)
      && (!codeBelow ==> a[..|cb|] == cb && a[|a| - 2] == BrAfter)
  {
    var cb := CodeBlock(code);
    if codeBelow {
      assert AfterImage(code, codeBelow) == [BrBefore, ""] + cb;
    } else {
      assert AfterImage(code, codeBelow) == cb + [BrAfter, ""];
    }
  }

  lemma Layout(h: seq<string>, img: seq<string>, cb: seq<string>, a: seq<string>, codeBelow: bool)
    requires |h| == 2 && h[1] == "" && |a| == 2 + |cb|
    requires codeBelow ==> a[0] == BrBefore && a[2..] == cb
    requires !codeBelow ==> a[..|cb|] == cb && a[|a| - 2] == BrAfter
    ensures var r := h + img + a;
      |r| == 4 + |img| + |cb| && r[0] == h[0] && r[1] == ""
      && r[2..2 + |img|] == img
      && (codeBelow ==> r[2 + |img|] == BrBefore && r[4 + |img|..] == cb)
      && (!codeBelow ==> r[2 + |img|..2 + |img| + |cb|] == cb && r[|r| - 2] == BrAfter)
  {
    var r := h + img + a;
    var n := 2 + |img|;
    assert r[n..] == a;
    if codeBelow {
      assert r[n + 2..] == a[2..];
    } else {
      assert r[n..n + |cb|] == a[..|cb|];
    }
  }
}

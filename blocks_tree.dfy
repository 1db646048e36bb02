/**
 * The block tree: the node kinds of the document tree, the arena that
 * holds the nodes, and what constructing each kind of block does to the
 * tree. A node is attached by appending it to the arena and its index to
 * its parent's `children`; the side effects a constructor has on its
 * parent (the synopsis, the syntax tags, the topics, the see-also list,
 * the includes, the figure and example counters) are updates of the
 * parent's node.
 *
 * A `DocsGenException` raised by a constructor is the outcome `Raised`,
 * with the changes made before the raise kept, as they are in the
 * objects; an exception Python raises on its own (a missing attribute or
 * key) is the outcome `Crashed`.
 */
module BlockTree {
  import opened Strings
  import opened Paths

  /** The block classes; `Figure` and `Example` are the two image classes. */
  datatype Kind =
    | Generic | Label | Synopsis | SynTags | Topics | SeeAlso | Headerless | Text
    | BulletList | NumberedList | Table | File | Includes | Section | Subsection | Item
    | Figure | Example

  /** Label blocks and their subclasses (an item is a label block too). */
  predicate IsLabel(k: Kind) {
    k == Label || k == Synopsis || k == SynTags || k == Topics || k == SeeAlso || k == Item
  }

  /** A block as the parser hands it over: header, body and where it was declared. */
  datatype Decl = Decl(title: string, subtitle: string, body: seq<string>, file: string, line: int)

  /** A footnote of a file: the stripped `mark=note` parts and where it was declared. */
  datatype Footnote = Footnote(parts: seq<string>, file: string, line: int)

  /**
   * A block. Fields that only one class has keep their initial value on
   * the other kinds; which kinds really have them matters where a
   * constructor reads them from a parent, and is checked there.
   */
  datatype Node = Node(
    kind: Kind, title: string, subtitle: string, body: seq<string>, file: string, line: int,
    parent: Option<nat>, children: seq<nat>, extra: Extra)

  /** The fields only some block classes use. */
  datatype Extra = Extra(
    figureNum: nat,
    // file blocks
    includes: seq<string>, commonCode: seq<string>, footnotes: seq<Footnote>, summary: string, group: string,
    // item blocks (topics and see-also also on Topics and See Also blocks)
    exampleNum: nat, deprecated: bool, topics: seq<string>, aliases: seq<string>, seeAlso: seq<string>,
    synopsis: string, syntags: map<string, string>,
    // table blocks
    headerSets: seq<seq<string>>,
    // image blocks
    meta: string, imageNum: nat, rawScript: seq<string>, imageUrlRel: string, imageUrl: string)

  /** A newly constructed block: no children, every counter and list empty. */
  function Fresh(kind: Kind, d: Decl, parent: Option<nat>): (n: Node)
    ensures n.kind == kind && n.parent == parent && n.children == []
    ensures n.title == d.title && n.subtitle == d.subtitle && n.body == d.body && n.file == d.file && n.line == d.line
  {
    Node(kind, d.title, d.subtitle, d.body, d.file, d.line, parent, [], NoExtra)
  }

  /** The class-specific fields of a new block: every counter zero, every list empty. */
  const NoExtra := Extra(0, [], [], [], "", "", 0, false, [], [], [], "", map[], [], "", 0, [], "", "")

  /** What `str(DocsGenException(block, message))` reads. */
  function Failure(block: string, message: string): Outcome {
    Raised(message + " \"" + block + "\"")
  }

  /** How a constructor ends: the index of the new block, a raised error, or a Python error. */
  datatype Outcome = Made(id: nat) | Raised(msg: string) | Crashed

  // ---------------------------------------------------------------------
  // The arena

  /**
   * Parents come before their children, every child lists its parent,
   * and every block with a parent is among that parent's children.
   */
  predicate WellFormed(nodes: seq<Node>) {
    (forall i {:trigger nodes[i].parent} :: 0 <= i < |nodes| && nodes[i].parent.Some? ==>
       nodes[i].parent.value < i && i in nodes[nodes[i].parent.value].children)
    && (forall i, k {:trigger nodes[i].children[k]} :: 0 <= i < |nodes| && 0 <= k < |nodes[i].children| ==>
          i < nodes[i].children[k] < |nodes| && nodes[nodes[i].children[k]].parent == Some(i))
  }

  predicate ParentIn(nodes: seq<Node>, parent: Option<nat>) {
    parent.Some? ==> parent.value < |nodes|
  }

  /** `GenericBlock.__init__`: the block is appended, and so is its index to its parent's children. */
  function Attached(nodes: seq<Node>, n: Node): seq<Node>
    requires ParentIn(nodes, n.parent)
  {
    var ns := if n.parent.Some? then
      nodes[n.parent.value := nodes[n.parent.value].(children := nodes[n.parent.value].children + [|nodes|])]
    else nodes;
    ns + [n]
  }

  /**
   * Attaching appends the block at the end, appends its index at the end
   * of its parent's children, and changes nothing else.
   */
  lemma AttachedSpec(nodes: seq<Node>, n: Node)
    requires ParentIn(nodes, n.parent)
    ensures var r := Attached(nodes, n);
      |r| == |nodes| + 1 && r[|nodes|] == n
      && (forall i :: 0 <= i < |nodes| && Some(i) != n.parent ==> r[i] == nodes[i])
      && (n.parent.Some? ==> r[n.parent.value] == nodes[n.parent.value].(children := nodes[n.parent.value].children + [|nodes|]))
  {
  }

  /** Attaching a block without children keeps the tree well formed. */
  lemma AttachedWellFormed(nodes: seq<Node>, n: Node)
    requires ParentIn(nodes, n.parent) && WellFormed(nodes) && n.children == []
    ensures WellFormed(Attached(nodes, n))
  {
    var r := Attached(nodes, n);
    AttachedLinks(nodes, n);
    forall i | 0 <= i < |r| && r[i].parent.Some?
      ensures r[i].parent.value < i && i in r[r[i].parent.value].children
    {
      if i < |nodes| {
        assert i in nodes[nodes[i].parent.value].children;
      }
    }
    forall i, k | 0 <= i < |r| && 0 <= k < |r[i].children|
      ensures i < r[i].children[k] < |r| && r[r[i].children[k]].parent == Some(i)
    {
      if i < |nodes| && k < |nodes[i].children| {
        assert r[i].children[k] == nodes[i].children[k];
      }
    }
  }

  /** How attaching changes the parent and children fields, and only those. */
  lemma AttachedLinks(nodes: seq<Node>, n: Node)
    requires ParentIn(nodes, n.parent)
    ensures var r := Attached(nodes, n);
      |r| == |nodes| + 1 && r[|nodes|].parent == n.parent && r[|nodes|].children == n.children
      && (forall i :: 0 <= i < |nodes| ==> r[i].parent == nodes[i].parent)
      && (forall i :: 0 <= i < |nodes| ==>
            r[i].children == if Some(i) == n.parent then nodes[i].children + [|nodes|] else nodes[i].children)
  {
  }

  /** Replacing a block by one with the same parent and children keeps the tree well formed. */
  lemma UpdatedWellFormed(nodes: seq<Node>, p: nat, m: Node)
    requires WellFormed(nodes) && p < |nodes|
    requires m.parent == nodes[p].parent && m.children == nodes[p].children
    ensures WellFormed(nodes[p := m])
  {
    var r := nodes[p := m];
    forall i | 0 <= i < |r| && r[i].parent.Some?
      ensures r[i].parent.value < i && i in r[r[i].parent.value].children
    {
      assert r[i].parent == nodes[i].parent;
      assert r[nodes[i].parent.value].children == nodes[nodes[i].parent.value].children;
    }
  }

  /** The root of the chain of parents above block `i`. */
  function Root(nodes: seq<Node>, i: nat): (r: nat)
    requires WellFormed(nodes) && i < |nodes|
    ensures r <= i && nodes[r].parent.None?
    decreases i
  {
    if nodes[i].parent.Some? then Root(nodes, nodes[i].parent.value) else i
  }

  /** Attaching a block does not change the root above an existing block. */
  lemma {:induction false} RootAttached(nodes: seq<Node>, n: Node, i: nat)
    requires WellFormed(nodes) && ParentIn(nodes, n.parent) && n.children == [] && i < |nodes|
    ensures WellFormed(Attached(nodes, n)) && Root(Attached(nodes, n), i) == Root(nodes, i)
    decreases i
  {
    AttachedWellFormed(nodes, n);
    AttachedLinks(nodes, n);
    if nodes[i].parent.Some? {
      RootAttached(nodes, n, nodes[i].parent.value);
    }
  }

  /** Changing a block's fields other than its links does not change any root. */
  lemma {:induction false} RootUpdated(nodes: seq<Node>, p: nat, m: Node, i: nat)
    requires WellFormed(nodes) && p < |nodes| && m.parent == nodes[p].parent && m.children == nodes[p].children
    requires i < |nodes|
    ensures WellFormed(nodes[p := m]) && Root(nodes[p := m], i) == Root(nodes, i)
    decreases i
  {
    UpdatedWellFormed(nodes, p, m);
    if nodes[i].parent.Some? {
      RootUpdated(nodes, p, m, nodes[i].parent.value);
    }
  }

  // ---------------------------------------------------------------------
  // Values the constructors compute

  /** `[x.strip() for x in s.split(",")]`. */
  function CommaList(s: string): (r: seq<string>)
    ensures |r| >= 1
  {
    StripAll(Split(s, ","))
  }

  /**
   * A Headerless or Text block moves a non-empty subtitle to the front of
   * its body and is left without a subtitle.
   */
  function Moved(d: Decl): (r: Decl)
    ensures r.subtitle == "" && r.title == d.title && r.file == d.file && r.line == d.line
  {
    if d.subtitle != "" then d.(body := [d.subtitle] + d.body, subtitle := "") else d
  }

  /** No line is lost or reordered: the body is the old subtitle, when there was one, then the old body. */
  lemma MovedKeepsLines(d: Decl)
    ensures Moved(d).body == (if d.subtitle == "" then [] else [d.subtitle]) + d.body
    ensures Moved(Moved(d)) == Moved(d)
  {
    if d.subtitle == "" {
      assert [] + d.body == d.body;
    }
  }

  /** `tags[k] = data[tag]` for each tag in turn. */
  function AddTags(m: map<string, string>, tags: seq<string>, data: map<string, string>): map<string, string>
    requires forall k :: 0 <= k < |tags| ==> tags[k] in data
  {
    if tags == [] then m
    else AddTags(m, tags[..|tags| - 1], data)[tags[|tags| - 1] := data[tags[|tags| - 1]]]
  }

  /** The tags given get their text from the table; every other entry stays as it was. */
  lemma {:induction false} AddTagsSpec(m: map<string, string>, tags: seq<string>, data: map<string, string>)
    requires forall k :: 0 <= k < |tags| ==> tags[k] in data
    ensures forall t :: t in AddTags(m, tags, data) <==> t in m || t in tags
    ensures forall t :: t in tags ==> AddTags(m, tags, data)[t] == data[t]
    ensures forall t :: t in m && t !in tags ==> AddTags(m, tags, data)[t] == m[t]
  {
    if tags != [] {
      var init := tags[..|tags| - 1];
      AddTagsSpec(m, init, data);
      assert forall t :: t in tags <==> t in init || t == tags[|tags| - 1];
    }
  }

  /** The number of `---` lines, the table separators. */
  function Dashes(body: seq<string>): nat {
    if body == [] then 0 else Dashes(body[..|body| - 1]) + (if body[|body| - 1] == "---" then 1 else 0)
  }

  /** A body holds no separator exactly when it counts none. */
  lemma {:induction false} DashesZero(body: seq<string>)
    ensures Dashes(body) == 0 <==> forall k :: 0 <= k < |body| ==> body[k] != "---"
  {
    if body != [] {
      DashesZero(body[..|body| - 1]);
      assert forall k :: 0 <= k < |body| - 1 ==> body[..|body| - 1][k] == body[k];
    }
  }

  /** `\([^\)]+\)` found somewhere: an opening parenthesis, some text, a closing one. */
  predicate ParenText(s: string)
    decreases |s|
  {
    |s| >= 3 && ((s[0] == '(' && s[1] != ')' && ')' in s[2..]) || ParenText(s[1..]))
  }

  const BodyNotSupported := "Body not supported, while declaring block:"
  const MoreTables := "More tables than header_sets, while declaring block:"
  const TextInParens := "Text between parentheses, while declaring block:"

  // ---------------------------------------------------------------------
  // Images

  /** `[A-Za-z0-9_-]`, what an image name keeps of its parent's subtitle. */
  predicate SanChar(c: char) { IsAlpha(c) || IsDigit(c) || c == '_' || c == '-' }

  function KeepSan(s: string): (r: string)
    ensures forall k :: 0 <= k < |r| ==> SanChar(r[k])
    ensures |r| <= |s|
  {
    if s == [] then [] else (if SanChar(s[0]) then [s[0]] else []) + KeepSan(s[1..])
  }

  /** The sanitised name: stripped, lower-cased, spaces to dashes, last path component, odd characters dropped. */
  function SanName(subtitle: string): string {
    KeepSan(Basename(ReplaceChar(Lower(Strip(subtitle)), ' ', "-")))
  }

  /** gif for animated images unless PNG animations are used, png otherwise. */
  function ImageExt(meta: string, useApngs: bool): string {
    if useApngs then "png"
    else if Contains(meta, "Spin") || Contains(meta, "Anim") then "gif"
    else "png"
  }

  /** The file name of figure `n`, by the title of the block it belongs to. */
  function FigureName(ptitle: string, san: string, n: nat, ext: string): string {
    if ptitle == "File" || ptitle == "LibFile" then "figure" + NatToString(n) + "." + ext
    else if ptitle == "Section" || ptitle == "Subsection" then Lower(ptitle) + "-" + san + "_fig" + NatToString(n) + "." + ext
    else san + "_fig" + NatToString(n) + "." + ext
  }

  /** The file name of example `n`: the first one carries no number. */
  function ExampleName(san: string, n: nat, ext: string): string {
    san + (if n > 1 then "_" + NatToString(n) else "") + "." + ext
  }

  /** `os.path.join("images", stem of the file's base name, name)`. */
  function ImageUrlRel(file: string, name: string): string {
    PathJoin(PathJoin("images", Stem(Basename(Strip(file)))), name)
  }

  /** `os.path.join(directory of the file, rel)`. */
  function ImageUrl(file: string, rel: string): string {
    PathJoin(Head(Strip(file)), rel)
  }

  /** A script line: one whose stripped text starts with `--` runs without that prefix. */
  function ScriptLine(line: string): string {
    var s := Strip(line);
    if StartsWith(s, "--") then s[2..] else line
  }

  /** `raw_script`: the root file's includes, its common code, then the block's body lines. */
  function RawScript(includes: seq<string>, common: seq<string>, body: seq<string>): (r: seq<string>)
    ensures |r| == |includes| + |common| + |body|
  {
    includes + common + seq(|body|, k requires 0 <= k < |body| => ScriptLine(body[k]))
  }

  /**
   * `ImageBlock.__init__` as a whole: the new block's number is the next
   * figure number of its parent when its title is exactly "Figure", the
   * next example number otherwise; its script comes from the root file
   * block; its file name from the parent's title and subtitle. A parent
   * that is not an item has no example counter, and a root that is not a
   * file block has no includes: both are Python errors.
   */
  function ImageAfter(nodes: seq<Node>, kind: Kind, d: Decl, p: nat, meta: string, useApngs: bool): (r: (seq<Node>, Outcome))
    requires WellFormed(nodes) && p < |nodes|
    ensures r.1 == Crashed || r.1 == Made(|nodes|)
    ensures r.1.Made? ==> |r.0| == |nodes| + 1 && r.0[|nodes|].parent == Some(p) && r.0[|nodes|].kind == kind
  {
    var root := Root(nodes, p);
    var figure := d.title == "Figure";
    if nodes[root].kind != File || (!figure && nodes[p].kind != Item) then
      (Attached(nodes, Fresh(kind, d, Some(p))), Crashed)
    else
      var n := if figure then nodes[p].extra.figureNum + 1 else nodes[p].extra.exampleNum + 1;
      (Placed(nodes, ImageNode(kind, d, p, nodes[p].title, nodes[p].subtitle, nodes[root], n, meta, useApngs), figure, n),
       Made(|nodes|))
  }

  /** Unfolds `ImageAfter` when the block is accepted. */
  lemma ImageAfterMade(nodes: seq<Node>, kind: Kind, d: Decl, p: nat, meta: string, useApngs: bool)
    requires WellFormed(nodes) && p < |nodes|
    requires nodes[Root(nodes, p)].kind == File && (d.title == "Figure" || nodes[p].kind == Item)
    ensures var figure := d.title == "Figure";
      var n := if figure then nodes[p].extra.figureNum + 1 else nodes[p].extra.exampleNum + 1;
      var img := ImageNode(kind, d, p, nodes[p].title, nodes[p].subtitle, nodes[Root(nodes, p)], n, meta, useApngs);
      ImageAfter(nodes, kind, d, p, meta, useApngs) == (Placed(nodes, img, figure, n), Made(|nodes|))
  {
  }

  /** The image block itself, number `n`, below block `p`, in the tree of a file block `root`. */
  function ImageNode(kind: Kind, d: Decl, p: nat, ptitle: string, psub: string, root: Node, n: nat, meta: string,
                     useApngs: bool): (img: Node)
    ensures img.kind == kind && img.parent == Some(p) && img.children == [] && img.extra.imageNum == n
  {
    var ext := ImageExt(meta, useApngs);
    var san := SanName(psub);
    var name := if d.title == "Figure" then FigureName(ptitle, san, n, ext) else ExampleName(san, n, ext);
    var rel := ImageUrlRel(root.file, name);
    Fresh(kind, d, Some(p)).(title := d.title + " " + NatToString(n),
      extra := NoExtra.(meta := meta, imageNum := n, rawScript := RawScript(root.extra.includes, root.extra.commonCode, d.body),
                        imageUrlRel := rel, imageUrl := ImageUrl(root.file, rel)))
  }

  /** The image block attached, and its number stored in the parent's figure or example counter. */
  function Placed(nodes: seq<Node>, img: Node, figure: bool, n: nat): (r: seq<Node>)
    requires img.parent.Some? && img.parent.value < |nodes|
    ensures |r| == |nodes| + 1 && r[|nodes|] == img
  {
    var p := img.parent.value;
    var a := Attached(nodes, img);
    a[p := if figure then a[p].(extra := a[p].extra.(figureNum := n)) else a[p].(extra := a[p].extra.(exampleNum := n))]
  }

  /** Placing changes no block but the parent, which gets the new child and the new count. */
  lemma PlacedFrame(nodes: seq<Node>, img: Node, figure: bool, n: nat)
    requires img.parent.Some? && img.parent.value < |nodes|
    ensures var r := Placed(nodes, img, figure, n); var p := img.parent.value;
      && |r| == |nodes| + 1 && r[|nodes|] == img
      && (forall i :: 0 <= i < |nodes| && i != p ==> r[i] == nodes[i])
      && r[p].children == nodes[p].children + [|nodes|]
      && (if figure then r[p].extra.figureNum == n && r[p].extra.exampleNum == nodes[p].extra.exampleNum
          else r[p].extra.exampleNum == n && r[p].extra.figureNum == nodes[p].extra.figureNum)
  {
    AttachedSpec(nodes, img);
  }

  /**
   * An image block changes no block but its parent, whose figure or
   * example counter goes up by one and becomes the image's number.
   */
  lemma ImageAfterFrame(nodes: seq<Node>, kind: Kind, d: Decl, p: nat, meta: string, useApngs: bool)
    requires WellFormed(nodes) && p < |nodes|
    ensures var (r, o) := ImageAfter(nodes, kind, d, p, meta, useApngs);
      o.Made? ==>
        && (forall i :: 0 <= i < |nodes| && i != p ==> r[i] == nodes[i])
        && r[p].children == nodes[p].children + [|nodes|]
        && (if d.title == "Figure"
            then r[p].extra.figureNum == nodes[p].extra.figureNum + 1 == r[|nodes|].extra.imageNum && r[p].extra.exampleNum == nodes[p].extra.exampleNum
            else r[p].extra.exampleNum == nodes[p].extra.exampleNum + 1 == r[|nodes|].extra.imageNum && r[p].extra.figureNum == nodes[p].extra.figureNum)
  {
    var root := Root(nodes, p);
    var figure := d.title == "Figure";
    if nodes[root].kind == File && (figure || nodes[p].kind == Item) {
      var n := if figure then nodes[p].extra.figureNum + 1 else nodes[p].extra.exampleNum + 1;
      PlacedFrame(nodes, ImageNode(kind, d, p, nodes[p].title, nodes[p].subtitle, nodes[root], n, meta, useApngs), figure, n);
    }
  }

  /** `b` is `a` but for the children and the two image counters. */
  predicate SameFields(a: Node, b: Node) {
    b == a.(children := b.children, extra := a.extra.(figureNum := b.extra.figureNum, exampleNum := b.extra.exampleNum))
  }

  /** Every block has `SameFields` with itself. */
  lemma SameFieldsRefl(a: Node)
    ensures SameFields(a, a)
  {
  }

  /** `SameFields` composes. */
  lemma SameFieldsTrans(a: Node, b: Node, c: Node)
    requires SameFields(a, b) && SameFields(b, c)
    ensures SameFields(a, c)
  {
  }

  /**
   * Made or not, an image block keeps the tree well formed and every
   * root, and changes its parent only in its children and counters.
   */
  lemma ImageAfterKeeps(nodes: seq<Node>, kind: Kind, d: Decl, p: nat, meta: string, useApngs: bool)
    requires WellFormed(nodes) && p < |nodes|
    ensures var r := ImageAfter(nodes, kind, d, p, meta, useApngs).0;
      WellFormed(r) && |r| == |nodes| + 1 && Root(r, p) == Root(nodes, p) && SameFields(nodes[p], r[p])
  {
    if nodes[Root(nodes, p)].kind == File && (d.title == "Figure" || nodes[p].kind == Item) {
      ImageMadeKeeps(nodes, kind, d, p, meta, useApngs);
    } else {
      var bare := Fresh(kind, d, Some(p));
      assert ImageAfter(nodes, kind, d, p, meta, useApngs).0 == Attached(nodes, bare);
      RootAttached(nodes, bare, p);
      AttachedSpec(nodes, bare);
    }
  }

  /** `ImageAfterKeeps` for an accepted block. */
  lemma ImageMadeKeeps(nodes: seq<Node>, kind: Kind, d: Decl, p: nat, meta: string, useApngs: bool)
    requires WellFormed(nodes) && p < |nodes|
    requires nodes[Root(nodes, p)].kind == File && (d.title == "Figure" || nodes[p].kind == Item)
    ensures var r := ImageAfter(nodes, kind, d, p, meta, useApngs).0;
      WellFormed(r) && |r| == |nodes| + 1 && Root(r, p) == Root(nodes, p) && SameFields(nodes[p], r[p])
  {
    var figure := d.title == "Figure";
    var n := if figure then nodes[p].extra.figureNum + 1 else nodes[p].extra.exampleNum + 1;
    var img := ImageNode(kind, d, p, nodes[p].title, nodes[p].subtitle, nodes[Root(nodes, p)], n, meta, useApngs);
    ImageAfterMade(nodes, kind, d, p, meta, useApngs);
    ImagePlacedKeeps(nodes, img, figure, n);
  }

  /** `ImageAfterKeeps` for an image block that is placed. */
  lemma ImagePlacedKeeps(nodes: seq<Node>, img: Node, figure: bool, n: nat)
    requires WellFormed(nodes) && img.parent.Some? && img.parent.value < |nodes| && img.children == []
    ensures var r := Placed(nodes, img, figure, n); var p := img.parent.value;
      WellFormed(r) && Root(r, p) == Root(nodes, p) && SameFields(nodes[p], r[p])
  {
    var p := img.parent.value;
    RootAttached(nodes, img, p);
    AttachedSpec(nodes, img);
    var a := Attached(nodes, img);
    var m := if figure then a[p].(extra := a[p].extra.(figureNum := n)) else a[p].(extra := a[p].extra.(exampleNum := n));
    RootUpdated(a, p, m, p);
  }

  /** An image block depends only on its root's file, includes and common code. */
  lemma ImageNodeSameRoot(kind: Kind, d: Decl, p: nat, ptitle: string, psub: string, r1: Node, r2: Node, n: nat,
                          meta: string, useApngs: bool)
    requires SameFields(r1, r2)
    ensures ImageNode(kind, d, p, ptitle, psub, r1, n, meta, useApngs) == ImageNode(kind, d, p, ptitle, psub, r2, n, meta, useApngs)
  {
    assert r1.file == r2.file && r1.extra.includes == r2.extra.includes && r1.extra.commonCode == r2.extra.commonCode;
  }

  /** The title of the single blocks `Figures` and `Examples` make. */
  function ImageTitle(kind: Kind): string {
    if kind == Figure then "Figure" else "Example"
  }

  /** The counter of block `n` that numbers images of class `kind`. */
  function Counter(n: Node, kind: Kind): nat {
    if kind == Figure then n.extra.figureNum else n.extra.exampleNum
  }

  /** Whether `ImageAfter` accepts an image of class `kind` under block `p`. */
  predicate ImageAllowed(nodes: seq<Node>, kind: Kind, p: nat) {
    WellFormed(nodes) && p < |nodes| && nodes[Root(nodes, p)].kind == File && (kind == Figure || nodes[p].kind == Item)
  }

  /**
   * The loop of `Figures` and `Examples` under block `p`: one `ImageAfter`
   * per body line of `d`, with subtitle `sub` on the first only; `ok` is
   * false once one of them fails.
   */
  function ImagesAfter(nodes: seq<Node>, kind: Kind, d: Decl, sub: string, lines: seq<string>, p: nat,
                       meta: string, useApngs: bool): (r: (seq<Node>, bool))
    requires WellFormed(nodes) && p < |nodes|
    ensures WellFormed(r.0)
    ensures r.1 ==> |r.0| == |nodes| + |lines|
    decreases |lines|
  {
    if lines == [] then (nodes, true)
    else
      var a := ImageAfter(nodes, kind, Decl(ImageTitle(kind), sub, [lines[0]], d.file, d.line), p, meta, useApngs);
      ImageAfterKeeps(nodes, kind, Decl(ImageTitle(kind), sub, [lines[0]], d.file, d.line), p, meta, useApngs);
      if a.1 == Crashed then (a.0, false)
      else ImagesAfter(a.0, kind, d, "", lines[1..], p, meta, useApngs)
  }

  /** One turn of `ImagesAfter`. */
  lemma ImagesAfterUnfold(nodes: seq<Node>, kind: Kind, d: Decl, sub: string, lines: seq<string>, p: nat,
                          meta: string, useApngs: bool)
    requires WellFormed(nodes) && p < |nodes| && lines != []
    ensures var (a, o) := ImageAfter(nodes, kind, Decl(ImageTitle(kind), sub, [lines[0]], d.file, d.line), p, meta, useApngs);
      WellFormed(a) && p < |a|
      && ImagesAfter(nodes, kind, d, sub, lines, p, meta, useApngs)
         == if o == Crashed then (a, false) else ImagesAfter(a, kind, d, "", lines[1..], p, meta, useApngs)
  {
    ImageAfterKeeps(nodes, kind, Decl(ImageTitle(kind), sub, [lines[0]], d.file, d.line), p, meta, useApngs);
  }

  /**
   * The image block `ImagesAfter` makes from line `k` of tree `nodes` under
   * block `p`, whose root is block `r`: numbered `k + 1` past the parent's
   * counter.
   */
  function LineImageAt(nodes: seq<Node>, kind: Kind, d: Decl, sub: string, lines: seq<string>, k: nat, p: nat, r: nat,
                       meta: string, useApngs: bool): Node
    requires p < |nodes| && r < |nodes| && k < |lines|
  {
    ImageNode(kind, Decl(ImageTitle(kind), if k == 0 then sub else "", [lines[k]], d.file, d.line), p,
              nodes[p].title, nodes[p].subtitle, nodes[r], Counter(nodes[p], kind) + k + 1, meta, useApngs)
  }
  /** `LineImageAt` under the root of block `p`. */
  function LineImage(nodes: seq<Node>, kind: Kind, d: Decl, sub: string, lines: seq<string>, k: nat, p: nat,
                     meta: string, useApngs: bool): Node
    requires WellFormed(nodes) && p < |nodes| && k < |lines|
  {
    LineImageAt(nodes, kind, d, sub, lines, k, p, Root(nodes, p), meta, useApngs)
  }


  /**
   * `Figures` and `Examples` in full: either every line is accepted or,
   * when the first is refused, the loop stops there; when all are
   * accepted, line `k` becomes block `|nodes| + k`, numbered one past the
   * parent's counter plus `k`, with the subtitle on the first only, the
   * parent's counter goes up by the number of lines, and no other block
   * changes.
   */
  lemma {:induction false} ImagesAfterSpec(nodes: seq<Node>, kind: Kind, d: Decl, sub: string, lines: seq<string>, p: nat,
                                           meta: string, useApngs: bool)
    requires WellFormed(nodes) && p < |nodes| && (kind == Figure || kind == Example)
    ensures var (t, ok) := ImagesAfter(nodes, kind, d, sub, lines, p, meta, useApngs);
      var c := Counter(nodes[p], kind);
      && (ok <==> lines == [] || ImageAllowed(nodes, kind, p))
      && (ok ==>
            && |t| == |nodes| + |lines|
            && (forall q :: 0 <= q < |nodes| && q != p ==> t[q] == nodes[q])
            && SameFields(nodes[p], t[p]) && Counter(t[p], kind) == c + |lines|
            && (forall j :: |nodes| <= j < |t| ==>
                  t[j] == LineImage(nodes, kind, d, sub, lines, j - |nodes|, p, meta, useApngs)))
    decreases |lines|, 2
  {
    if lines != [] {
      var d0 := Decl(ImageTitle(kind), sub, [lines[0]], d.file, d.line);
      var a := ImageAfter(nodes, kind, d0, p, meta, useApngs);
      ImageAfterKeeps(nodes, kind, d0, p, meta, useApngs);
      if ImageAllowed(nodes, kind, p) {
        ImagesAfterStep(nodes, kind, d, sub, lines, p, meta, useApngs);
      }
    }
  }

  /** `ImageAfterMade` for the blocks of that loop, numbered by `Counter`. */
  lemma ImageAfterAccepted(nodes: seq<Node>, kind: Kind, d0: Decl, p: nat, meta: string, useApngs: bool)
    requires WellFormed(nodes) && p < |nodes| && (kind == Figure || kind == Example)
    requires d0.title == ImageTitle(kind) && ImageAllowed(nodes, kind, p)
    ensures var img := ImageNode(kind, d0, p, nodes[p].title, nodes[p].subtitle, nodes[Root(nodes, p)],
                                 Counter(nodes[p], kind) + 1, meta, useApngs);
      ImageAfter(nodes, kind, d0, p, meta, useApngs) == (Placed(nodes, img, kind == Figure, Counter(nodes[p], kind) + 1), Made(|nodes|))
  {
    var figure := d0.title == "Figure";
    if kind != Figure {
      assert d0.title[0] == 'E';
    }
    assert figure == (kind == Figure);
    var n := if figure then nodes[p].extra.figureNum + 1 else nodes[p].extra.exampleNum + 1;
    assert n == Counter(nodes[p], kind) + 1;
    ImageAfterMade(nodes, kind, d0, p, meta, useApngs);
  }

  /**
   * Tree `a` is `nodes` with image `img` placed under `p`: the new last
   * block, the parent's counter one up, no other block changed, and images
   * still allowed under `p`.
   */
  ghost predicate PlacedUnder(nodes: seq<Node>, a: seq<Node>, kind: Kind, img: Node, p: nat) {
    && WellFormed(nodes) && p < |nodes| && WellFormed(a) && |a| == |nodes| + 1
    && Root(a, p) == Root(nodes, p) && a[|nodes|] == img
    && (forall q :: 0 <= q < |nodes| && q != p ==> a[q] == nodes[q])
    && SameFields(nodes[p], a[p]) && Counter(a[p], kind) == Counter(nodes[p], kind) + 1
    && ImageAllowed(a, kind, p)
  }

  /** The first block of that loop, when accepted, is placed as `PlacedUnder` says. */
  lemma PlacedFirst(nodes: seq<Node>, kind: Kind, img: Node, p: nat)
    requires WellFormed(nodes) && p < |nodes| && img.parent == Some(p) && img.children == []
    requires ImageAllowed(nodes, kind, p)
    ensures PlacedUnder(nodes, Placed(nodes, img, kind == Figure, Counter(nodes[p], kind) + 1), kind, img, p)
  {
    PlacedFrame(nodes, img, kind == Figure, Counter(nodes[p], kind) + 1);
    ImagePlacedKeeps(nodes, img, kind == Figure, Counter(nodes[p], kind) + 1);
    AllowedKept(nodes, Placed(nodes, img, kind == Figure, Counter(nodes[p], kind) + 1), kind, p);
  }

  /** Images stay allowed under a block whose root and own fields are kept. */
  lemma AllowedKept(nodes: seq<Node>, a: seq<Node>, kind: Kind, p: nat)
    requires WellFormed(nodes) && WellFormed(a) && p < |nodes| <= |a|
    requires Root(a, p) == Root(nodes, p) && SameFields(nodes[p], a[p])
    requires Root(nodes, p) != p ==> a[Root(nodes, p)] == nodes[Root(nodes, p)]
    requires ImageAllowed(nodes, kind, p)
    ensures ImageAllowed(a, kind, p)
  {
  }

  /**
   * After an accepted first block, the rest of the loop builds the same
   * blocks from the rest of the lines: block `j` is line `j - |a|` of the
   * rest in tree `a` and line `j - |nodes|` of all the lines in `nodes`.
   */
  lemma LineImageShift(nodes: seq<Node>, a: seq<Node>, kind: Kind, d: Decl, sub: string, lines: seq<string>, j: nat,
                       p: nat, ra: nat, rn: nat, meta: string, useApngs: bool)
    requires p < |nodes| && ra < |a| && rn < |nodes| && |a| == |nodes| + 1 && |a| <= j < |nodes| + |lines|
    requires SameFields(nodes[p], a[p]) && Counter(a[p], kind) == Counter(nodes[p], kind) + 1
    requires SameFields(nodes[rn], a[ra])
    ensures LineImageAt(a, kind, d, "", lines[1..], j - |a|, p, ra, meta, useApngs)
      == LineImageAt(nodes, kind, d, sub, lines, j - |nodes|, p, rn, meta, useApngs)
  {
    assert lines[1..][j - |a|] == lines[j - |nodes|];
    ImageNodeEqual(kind, p, meta, useApngs,
      Decl(ImageTitle(kind), if j - |a| == 0 then "" else "", [lines[1..][j - |a|]], d.file, d.line),
      Decl(ImageTitle(kind), if j - |nodes| == 0 then sub else "", [lines[j - |nodes|]], d.file, d.line),
      a[p].title, nodes[p].title, a[p].subtitle, nodes[p].subtitle, a[ra], nodes[rn],
      Counter(a[p], kind) + (j - |a|) + 1, Counter(nodes[p], kind) + (j - |nodes|) + 1);
  }

  /** Image blocks built from equal declarations, parent names and numbers, under roots alike, are equal. */
  lemma ImageNodeEqual(kind: Kind, p: nat, meta: string, useApngs: bool, d1: Decl, d2: Decl, t1: string, t2: string,
                       s1: string, s2: string, r1: Node, r2: Node, n1: nat, n2: nat)
    requires d1 == d2 && t1 == t2 && s1 == s2 && SameFields(r2, r1) && n1 == n2
    ensures ImageNode(kind, d1, p, t1, s1, r1, n1, meta, useApngs) == ImageNode(kind, d2, p, t2, s2, r2, n2, meta, useApngs)
  {
    ImageNodeSameRoot(kind, d2, p, t2, s2, r2, r1, n2, meta, useApngs);
  }

  /** The block of the first line. */
  lemma LineImageFirst(nodes: seq<Node>, kind: Kind, d: Decl, sub: string, lines: seq<string>, j: nat, p: nat,
                       meta: string, useApngs: bool)
    requires WellFormed(nodes) && p < |nodes| && lines != [] && j == |nodes|
    ensures LineImage(nodes, kind, d, sub, lines, j - |nodes|, p, meta, useApngs)
      == ImageNode(kind, Decl(ImageTitle(kind), sub, [lines[0]], d.file, d.line), p, nodes[p].title,
                   nodes[p].subtitle, nodes[Root(nodes, p)], Counter(nodes[p], kind) + 1, meta, useApngs)
  {
  }

  /** The blocks `ImagesAfter` adds are of class `kind`, under `p`, one per line. */
  lemma ImagesAfterAdds(nodes: seq<Node>, kind: Kind, d: Decl, sub: string, lines: seq<string>, p: nat,
                        meta: string, useApngs: bool)
    requires WellFormed(nodes) && p < |nodes| && (kind == Figure || kind == Example)
    ensures var (t, ok) := ImagesAfter(nodes, kind, d, sub, lines, p, meta, useApngs);
      ok ==> |t| == |nodes| + |lines| && Grows(nodes, t)
             && forall k :: |nodes| <= k < |t| ==> t[k].kind == kind && t[k].parent == Some(p)
  {
    ImagesAfterSpec(nodes, kind, d, sub, lines, p, meta, useApngs);
    var (t, ok) := ImagesAfter(nodes, kind, d, sub, lines, p, meta, useApngs);
    if ok {
      forall k | |nodes| <= k < |t|
        ensures t[k].kind == kind && t[k].parent == Some(p)
      {
        assert t[k] == LineImage(nodes, kind, d, sub, lines, k - |nodes|, p, meta, useApngs);
      }
    }
  }

  /** The step of `ImagesAfterSpec` for a first line that is accepted. */
  lemma {:induction false} ImagesAfterStep(nodes: seq<Node>, kind: Kind, d: Decl, sub: string, lines: seq<string>, p: nat,
                                           meta: string, useApngs: bool)
    requires WellFormed(nodes) && p < |nodes| && (kind == Figure || kind == Example)
    requires lines != [] && ImageAllowed(nodes, kind, p)
    ensures var (t, ok) := ImagesAfter(nodes, kind, d, sub, lines, p, meta, useApngs);
      var c := Counter(nodes[p], kind);
      && ok
      && |t| == |nodes| + |lines|
      && (forall q :: 0 <= q < |nodes| && q != p ==> t[q] == nodes[q])
      && SameFields(nodes[p], t[p]) && Counter(t[p], kind) == c + |lines|
      && (forall j :: |nodes| <= j < |t| ==>
            t[j] == LineImage(nodes, kind, d, sub, lines, j - |nodes|, p, meta, useApngs))
    decreases |lines|, 1
  {
    var d0 := Decl(ImageTitle(kind), sub, [lines[0]], d.file, d.line);
    var img := ImageNode(kind, d0, p, nodes[p].title, nodes[p].subtitle, nodes[Root(nodes, p)], Counter(nodes[p], kind) + 1,
                         meta, useApngs);
    ImageAfterAccepted(nodes, kind, d0, p, meta, useApngs);
    PlacedFirst(nodes, kind, img, p);
    var a := Placed(nodes, img, kind == Figure, Counter(nodes[p], kind) + 1);
    assert ImageAfter(nodes, kind, d0, p, meta, useApngs) == (a, Made(|nodes|));
    assert ImagesAfter(nodes, kind, d, sub, lines, p, meta, useApngs) == ImagesAfter(a, kind, d, "", lines[1..], p, meta, useApngs);
    ImagesAfterRest(nodes, a, kind, d, sub, lines, p, meta, useApngs);
  }

  /** `ImagesAfterStep` once the first block has been placed, giving tree `a`. */
  lemma {:induction false} ImagesAfterRest(nodes: seq<Node>, a: seq<Node>, kind: Kind, d: Decl, sub: string, lines: seq<string>,
                                           p: nat, meta: string, useApngs: bool)
    requires WellFormed(nodes) && WellFormed(a) && p < |nodes| && |a| == |nodes| + 1 && lines != []
    requires kind == Figure || kind == Example
    requires Root(a, p) == Root(nodes, p) && SameFields(nodes[p], a[p]) && Counter(a[p], kind) == Counter(nodes[p], kind) + 1
    requires forall q :: 0 <= q < |nodes| && q != p ==> a[q] == nodes[q]
    requires a[|nodes|] == ImageNode(kind, Decl(ImageTitle(kind), sub, [lines[0]], d.file, d.line), p, nodes[p].title,
                                     nodes[p].subtitle, nodes[Root(nodes, p)], Counter(nodes[p], kind) + 1, meta, useApngs)
    requires ImageAllowed(a, kind, p)
    requires ImagesAfter(nodes, kind, d, sub, lines, p, meta, useApngs) == ImagesAfter(a, kind, d, "", lines[1..], p, meta, useApngs)
    ensures var (t, ok) := ImagesAfter(nodes, kind, d, sub, lines, p, meta, useApngs);
      && ok
      && |t| == |nodes| + |lines|
      && (forall q :: 0 <= q < |nodes| && q != p ==> t[q] == nodes[q])
      && SameFields(nodes[p], t[p]) && Counter(t[p], kind) == Counter(nodes[p], kind) + |lines|
      && (forall j :: |nodes| <= j < |t| ==> t[j] == LineImage(nodes, kind, d, sub, lines, j - |nodes|, p, meta, useApngs))
    decreases |lines|, 0
  {
    ImagesAfterSpec(a, kind, d, "", lines[1..], p, meta, useApngs);
    var (t, ok) := ImagesAfter(a, kind, d, "", lines[1..], p, meta, useApngs);
    ImagesAfterCombine(nodes, a, t, kind, d, sub, lines, p, meta, useApngs);
  }

  /** The blocks of the first line and of the rest of the lines, put together. */
  lemma ImagesAfterCombine(nodes: seq<Node>, a: seq<Node>, t: seq<Node>, kind: Kind, d: Decl, sub: string, lines: seq<string>,
                           p: nat, meta: string, useApngs: bool)
    requires WellFormed(nodes) && WellFormed(a) && p < |nodes| && |a| == |nodes| + 1 && lines != []
    requires Root(a, p) == Root(nodes, p) && SameFields(nodes[p], a[p]) && Counter(a[p], kind) == Counter(nodes[p], kind) + 1
    requires forall q :: 0 <= q < |nodes| && q != p ==> a[q] == nodes[q]
    requires a[|nodes|] == ImageNode(kind, Decl(ImageTitle(kind), sub, [lines[0]], d.file, d.line), p, nodes[p].title,
                                     nodes[p].subtitle, nodes[Root(nodes, p)], Counter(nodes[p], kind) + 1, meta, useApngs)
    requires |t| == |a| + |lines[1..]|
    requires forall q :: 0 <= q < |a| && q != p ==> t[q] == a[q]
    requires SameFields(a[p], t[p]) && Counter(t[p], kind) == Counter(a[p], kind) + |lines[1..]|
    requires forall j {:trigger t[j]} :: |a| <= j < |t| ==>
      t[j] == LineImage(a, kind, d, "", lines[1..], j - |a|, p, meta, useApngs)
    ensures |t| == |nodes| + |lines|
    ensures forall q :: 0 <= q < |nodes| && q != p ==> t[q] == nodes[q]
    ensures SameFields(nodes[p], t[p]) && Counter(t[p], kind) == Counter(nodes[p], kind) + |lines|
    ensures forall j :: |nodes| <= j < |t| ==> t[j] == LineImage(nodes, kind, d, sub, lines, j - |nodes|, p, meta, useApngs)
  {
    SameFieldsTrans(nodes[p], a[p], t[p]);
    var root := Root(nodes, p);
    if root != p {
      assert a[root] == nodes[root];
      SameFieldsRefl(nodes[root]);
    }
    assert SameFields(nodes[root], a[Root(a, p)]);
    ShiftAll(nodes, a, t, kind, d, sub, lines, p, meta, useApngs);
    forall j | |nodes| <= j < |t|
      ensures t[j] == LineImage(nodes, kind, d, sub, lines, j - |nodes|, p, meta, useApngs)
    {
      if j == |nodes| {
        assert t[j] == a[j];
        LineImageFirst(nodes, kind, d, sub, lines, j, p, meta, useApngs);
      }
    }
  }

  /** `LineImageShift` for every block the rest of the lines made. */
  lemma ShiftAll(nodes: seq<Node>, a: seq<Node>, t: seq<Node>, kind: Kind, d: Decl, sub: string, lines: seq<string>, p: nat,
                 meta: string, useApngs: bool)
    requires WellFormed(nodes) && WellFormed(a) && p < |nodes| && |a| == |nodes| + 1 && |t| == |nodes| + |lines|
    requires SameFields(nodes[p], a[p]) && Counter(a[p], kind) == Counter(nodes[p], kind) + 1
    requires SameFields(nodes[Root(nodes, p)], a[Root(a, p)])
    requires forall j {:trigger t[j]} :: |a| <= j < |t| ==> t[j] == LineImage(a, kind, d, "", lines[1..], j - |a|, p, meta, useApngs)
    ensures forall j {:trigger t[j]} :: |a| <= j < |t| ==> t[j] == LineImage(nodes, kind, d, sub, lines, j - |nodes|, p, meta, useApngs)
  {
    forall j | |a| <= j < |t|
      ensures t[j] == LineImage(nodes, kind, d, sub, lines, j - |nodes|, p, meta, useApngs)
    {
      TreeShift(nodes, a, kind, d, sub, lines, j, p, meta, useApngs);
    }
  }

  /** `LineImageShift` for the blocks of two trees. */
  lemma TreeShift(nodes: seq<Node>, a: seq<Node>, kind: Kind, d: Decl, sub: string, lines: seq<string>, j: nat, p: nat,
                  meta: string, useApngs: bool)
    requires WellFormed(nodes) && WellFormed(a) && p < |nodes| && |a| == |nodes| + 1 && |a| <= j < |nodes| + |lines|
    requires SameFields(nodes[p], a[p]) && Counter(a[p], kind) == Counter(nodes[p], kind) + 1
    requires SameFields(nodes[Root(nodes, p)], a[Root(a, p)])
    ensures LineImage(a, kind, d, "", lines[1..], j - |a|, p, meta, useApngs)
      == LineImage(nodes, kind, d, sub, lines, j - |nodes|, p, meta, useApngs)
  {
    LineImageShift(nodes, a, kind, d, sub, lines, j, p, Root(a, p), Root(nodes, p), meta, useApngs);
    assert LineImage(a, kind, d, "", lines[1..], j - |a|, p, meta, useApngs)
      == LineImageAt(a, kind, d, "", lines[1..], j - |a|, p, Root(a, p), meta, useApngs);
  }

  /** Distinct numbers spell distinct names, whatever surrounds them. */
  lemma NumberedDistinct(pre: string, n: nat, m: nat, post: string)
    requires pre + NatToString(n) + post == pre + NatToString(m) + post
    ensures n == m
  {
    var a, b := NatToString(n), NatToString(m);
    assert |a| == |b|;
    assert a == (pre + a + post)[|pre|..|pre| + |a|];
    assert b == (pre + b + post)[|pre|..|pre| + |b|];
    ParseNatToString(n);
    ParseNatToString(m);
  }

  /** Two examples of one item never share an image file. */
  lemma ExampleNamesDistinct(san: string, n: nat, m: nat, ext: string)
    requires 1 <= n < m
    ensures ExampleName(san, n, ext) != ExampleName(san, m, ext)
  {
    var x := ExampleName(san, m, ext);
    assert x == san + "_" + NatToString(m) + ("." + ext);
    if n == 1 {
      assert ExampleName(san, n, ext)[|san|] == '.';
      assert x[|san|] == '_';
    } else if ExampleName(san, n, ext) == x {
      assert ExampleName(san, n, ext) == san + "_" + NatToString(n) + ("." + ext);
      NumberedDistinct(san + "_", n, m, "." + ext);
    }
  }

  /** Two figures of one block never share an image file. */
  lemma FigureNamesDistinct(ptitle: string, san: string, n: nat, m: nat, ext: string)
    requires n != m
    ensures FigureName(ptitle, san, n, ext) != FigureName(ptitle, san, m, ext)
  {
    FigureNameSplit(ptitle, san, n, ext);
    FigureNameSplit(ptitle, san, m, ext);
    if FigureName(ptitle, san, n, ext) == FigureName(ptitle, san, m, ext) {
      NumberedDistinct(FigurePrefix(ptitle, san), n, m, "." + ext);
    }
  }

  /** What a figure's file name has before its number. */
  function FigurePrefix(ptitle: string, san: string): string {
    if ptitle == "File" || ptitle == "LibFile" then "figure"
    else if ptitle == "Section" || ptitle == "Subsection" then Lower(ptitle) + "-" + san + "_fig"
    else san + "_fig"
  }

  lemma FigureNameSplit(ptitle: string, san: string, n: nat, ext: string)
    ensures FigureName(ptitle, san, n, ext) == FigurePrefix(ptitle, san) + NatToString(n) + ("." + ext)
  {
    Assoc4Seq(FigurePrefix(ptitle, san), NatToString(n), ".", ext);
  }

  lemma Assoc4Seq<T>(a: seq<T>, b: seq<T>, c: seq<T>, d: seq<T>)
    ensures a + b + c + d == a + b + (c + d)
  {
  }

  /** `os.path.splitext(name)[0]` is a prefix of the name. */
  lemma StemPrefix(name: string)
    ensures StartsWith(name, Stem(name))
  {
    match LastDot(name)
      case None =>
      case Some(d) =>
  }

  /**
   * The relative image path is `images/`, the stem of the source file's
   * base name and a `/` (nothing when the stem is empty), then the name.
   */
  lemma ImageUrlRelShape(file: string, name: string)
    requires name != [] && name[0] != '/'
    ensures var base := Stem(Basename(Strip(file)));
      '/' !in base && ImageUrlRel(file, name) == "images/" + (if base == [] then "" else base + "/") + name
  {
    StemNoSlash(Basename(Strip(file)));
    JoinedShape(Stem(Basename(Strip(file))), name);
  }

  lemma StemNoSlash(b: string)
    requires '/' !in b
    ensures '/' !in Stem(b)
  {
    var base := Stem(b);
    StemPrefix(b);
    assert base == b[..|base|];
    forall k | 0 <= k < |base| ensures base[k] != '/' { assert base[k] == b[k]; }
  }

  lemma JoinedShape(base: string, name: string)
    requires '/' !in base && name != [] && name[0] != '/'
    ensures PathJoin(PathJoin("images", base), name) == "images/" + (if base == [] then "" else base + "/") + name
  {
    var images := "images";
    assert images[|images| - 1] == 's';
    if base != [] {
      assert base[0] in base && base[|base| - 1] in base;
      assert PathJoin(images, base) == images + "/" + base;
      assert (images + "/" + base)[|images + "/" + base| - 1] == base[|base| - 1];
      assert images + "/" + base + "/" + name == "images/" + (base + "/") + name;
    } else {
      assert PathJoin(images, base) == images + "/";
    }
  }

  // ---------------------------------------------------------------------
  // The tree and the block constructors

  /**
   * What the registry's block construction does to the tree (the `cls(...)`
   * calls of `_parse_block`), by block class: the label, plain, text,
   * table and image constructors; no block for any other class.
   */
  ghost function Built(nodes: seq<Node>, kind: Kind, d: Decl, parent: Option<nat>, sets: seq<seq<string>>,
                       meta: string, apngs: bool): (seq<Node>, Option<Outcome>)
    requires WellFormed(nodes) && ParentIn(nodes, parent)
  {
    if kind == Label then
      if d.body != [] then (nodes, Some(Failure(d.title, BodyNotSupported)))
      else (Attached(nodes, Fresh(Label, d, parent)), Some(Made(|nodes|)))
    else if kind == Generic || kind == NumberedList || kind == BulletList then
      (Attached(nodes, Fresh(kind, d, parent)), Some(Made(|nodes|)))
    else if kind == Text || kind == Headerless then
      (Attached(nodes, Fresh(kind, Moved(d), parent)), Some(Made(|nodes|)))
    else if kind == Table then
      (Attached(nodes, Fresh(Table, d, parent).(extra := NoExtra.(headerSets := sets))),
       Some(if Dashes(d.body) >= |sets| then Failure(d.title, MoreTables) else Made(|nodes|)))
    else if kind == Figure || kind == Example then
      if parent.None? then (nodes, Some(Crashed))
      else var r := ImageAfter(nodes, kind, d, parent.value, meta, apngs); (r.0, Some(r.1))
    else (nodes, None)
  }

  /** `Built` for a table. */
  lemma BuiltTable(nodes: seq<Node>, d: Decl, parent: Option<nat>, sets: seq<seq<string>>, meta: string, apngs: bool)
    requires WellFormed(nodes) && ParentIn(nodes, parent)
    ensures Built(nodes, Table, d, parent, sets, meta, apngs)
      == (Attached(nodes, Fresh(Table, d, parent).(extra := NoExtra.(headerSets := sets))),
          Some(if Dashes(d.body) >= |sets| then Failure(d.title, MoreTables) else Made(|nodes|)))
  {
  }

  /** `Built` for a figure or an example. */
  lemma BuiltImage(nodes: seq<Node>, kind: Kind, d: Decl, parent: Option<nat>, sets: seq<seq<string>>, meta: string,
                   apngs: bool)
    requires WellFormed(nodes) && ParentIn(nodes, parent) && (kind == Figure || kind == Example)
    ensures parent.None? ==> Built(nodes, kind, d, parent, sets, meta, apngs) == (nodes, Some(Crashed))
    ensures parent.Some? ==>
      var r := ImageAfter(nodes, kind, d, parent.value, meta, apngs); Built(nodes, kind, d, parent, sets, meta, apngs) == (r.0, Some(r.1))
  {
    assert kind != Label && kind != Generic && kind != NumberedList && kind != BulletList && kind != Text
      && kind != Headerless && kind != Table;
  }

  /**
   * What an item part block does to the tree under block `p`: the
   * `SynopsisBlock`, `SynTagsBlock`, `TopicsBlock` and `SeeAlsoBlock`
   * constructors, by title (any other title is a See Also block). A tag
   * the table lacks is a `KeyError`, which ends the run; the tree is then
   * left as it was.
   */
  function PartAfter(nodes: seq<Node>, d: Decl, p: nat, data: map<string, string>): (r: (seq<Node>, Outcome))
    requires WellFormed(nodes) && p < |nodes|
    ensures r.1 == Crashed || r.1 == Failure(d.title, BodyNotSupported) || r.1 == Made(|nodes|)
  {
    var e := nodes[p].extra;
    var refused := d.body != [];
    if d.title == "Synopsis" then
      var before := nodes[p := nodes[p].(extra := e.(synopsis := d.subtitle))];
      if refused then (before, Failure(d.title, BodyNotSupported))
      else (Attached(before, Fresh(Synopsis, d, Some(p))), Made(|nodes|))
    else if d.title == "SynTags" then
      var tags := CommaList(d.subtitle);
      if !TagsKnown(d, data) then (nodes, Crashed)
      else
        var before := nodes[p := nodes[p].(extra := e.(syntags := AddTags(e.syntags, tags, data)))];
        if refused then (before, Failure(d.title, BodyNotSupported))
        else (Attached(before, Fresh(SynTags, d, Some(p))), Made(|nodes|))
    else if d.title == "Topics" then
      if refused then (nodes, Failure(d.title, BodyNotSupported))
      else
        var ts := CommaList(d.subtitle);
        var a := Attached(nodes, Fresh(Topics, d, Some(p)).(extra := NoExtra.(topics := ts)));
        (a[p := a[p].(extra := a[p].extra.(topics := ts))], Made(|nodes|))
    else
      var names := CommaList(d.subtitle);
      var before := nodes[p := nodes[p].(extra := e.(seeAlso := names))];
      if refused then (before, Failure(d.title, BodyNotSupported))
      else (Attached(before, Fresh(SeeAlso, d, Some(p)).(extra := NoExtra.(seeAlso := names))), Made(|nodes|))
  }

  /** The block class of an item part, by title. */
  function PartKind(title: string): Kind {
    if title == "Synopsis" then Synopsis
    else if title == "SynTags" then SynTags
    else if title == "Topics" then Topics
    else SeeAlso
  }

  /** The parent's fields an item part sets, by title (topics only once the part is attached). */
  function PartExtra(e: Extra, d: Decl, data: map<string, string>): Extra
    requires d.title == "SynTags" ==> TagsKnown(d, data)
  {
    if d.title == "Synopsis" then e.(synopsis := d.subtitle)
    else if d.title == "SynTags" then e.(syntags := AddTags(e.syntags, CommaList(d.subtitle), data))
    else if d.title == "Topics" then (if d.body != [] then e else e.(topics := CommaList(d.subtitle)))
    else e.(seeAlso := CommaList(d.subtitle))
  }

  /** The tags of a `SynTags` part are all in the table. */
  predicate TagsKnown(d: Decl, data: map<string, string>) {
    forall k :: 0 <= k < |CommaList(d.subtitle)| ==> CommaList(d.subtitle)[k] in data
  }

  /**
   * A part that did not crash: a body is refused, the parent gets the
   * fields `PartExtra` names, a part without a body is attached as the
   * parent's last child, and no other block changes.
   */
  ghost predicate PartShape(nodes: seq<Node>, d: Decl, p: nat, data: map<string, string>, t: seq<Node>, o: Outcome)
    requires p < |nodes| && (d.title == "SynTags" ==> TagsKnown(d, data))
  {
    && o == (if d.body != [] then Failure(d.title, BodyNotSupported) else Made(|nodes|))
    && |t| == |nodes| + (if d.body != [] then 0 else 1)
    && (forall q :: 0 <= q < |nodes| && q != p ==> t[q] == nodes[q])
    && t[p] == nodes[p].(children := nodes[p].children + (if d.body != [] then [] else [|nodes|]),
                         extra := PartExtra(nodes[p].extra, d, data))
    && (d.body == [] ==>
          t[|nodes|].kind == PartKind(d.title) && t[|nodes|].parent == Some(p) && t[|nodes|].children == []
          && t[|nodes|].title == d.title && t[|nodes|].subtitle == d.subtitle)
  }

  /** Synopsis, syntax tags and see-also: the parent is updated first, then the part is attached unless refused. */
  lemma PartUpdatedFirst(nodes: seq<Node>, d: Decl, p: nat, data: map<string, string>)
    requires WellFormed(nodes) && p < |nodes| && d.title != "Topics"
    requires d.title == "SynTags" ==> TagsKnown(d, data)
    ensures var (t, o) := PartAfter(nodes, d, p, data);
      WellFormed(t) && Grows(nodes, t) && PartShape(nodes, d, p, data, t, o)
  {
    var n := if d.title == "Synopsis" then Fresh(Synopsis, d, Some(p))
      else if d.title == "SynTags" then Fresh(SynTags, d, Some(p))
      else Fresh(SeeAlso, d, Some(p)).(extra := NoExtra.(seeAlso := CommaList(d.subtitle)));
    var m := nodes[p].(extra := PartExtra(nodes[p].extra, d, data));
    PartAttach(nodes, d, p, data, m, n, PartAfter(nodes, d, p, data).0, PartAfter(nodes, d, p, data).1);
  }

  /** The parent set to `m`, then block `n` attached unless refused, has the shape `PartShape` states. */
  lemma PartAttach(nodes: seq<Node>, d: Decl, p: nat, data: map<string, string>, m: Node, n: Node, t: seq<Node>, o: Outcome)
    requires WellFormed(nodes) && p < |nodes| && (d.title == "SynTags" ==> TagsKnown(d, data))
    requires m == nodes[p].(extra := PartExtra(nodes[p].extra, d, data))
    requires n.kind == PartKind(d.title) && n.parent == Some(p) && n.children == []
    requires n.title == d.title && n.subtitle == d.subtitle
    requires t == if d.body != [] then nodes[p := m] else Attached(nodes[p := m], n)
    requires o == if d.body != [] then Failure(d.title, BodyNotSupported) else Made(|nodes|)
    ensures WellFormed(t) && Grows(nodes, t) && PartShape(nodes, d, p, data, t, o)
  {
    UpdatedWellFormed(nodes, p, m);
    if d.body == [] {
      AttachedWellFormed(nodes[p := m], n);
      AttachedSpec(nodes[p := m], n);
    }
  }

  /** Topics: refused with nothing changed, or attached and then copied into the parent. */
  lemma {:induction false} PartTopics(nodes: seq<Node>, d: Decl, p: nat, data: map<string, string>)
    requires WellFormed(nodes) && p < |nodes| && d.title == "Topics"
    ensures var (t, o) := PartAfter(nodes, d, p, data);
      WellFormed(t) && Grows(nodes, t) && PartShape(nodes, d, p, data, t, o)
  {
    var (t, o) := PartAfter(nodes, d, p, data);
    if d.body == [] {
      var ts := CommaList(d.subtitle);
      var n := Fresh(Topics, d, Some(p)).(extra := NoExtra.(topics := ts));
      AttachedWellFormed(nodes, n);
      AttachedSpec(nodes, n);
      var a := Attached(nodes, n);
      UpdatedWellFormed(a, p, a[p].(extra := a[p].extra.(topics := ts)));
      assert t == a[p := a[p].(extra := a[p].extra.(topics := ts))];
    }
  }

  /**
   * An item part, in full: only an unknown syntax tag crashes, and then
   * nothing changes; otherwise the part has the shape `PartShape` states.
   */
  lemma PartAfterEffect(nodes: seq<Node>, d: Decl, p: nat, data: map<string, string>)
    requires WellFormed(nodes) && p < |nodes|
    ensures var (t, o) := PartAfter(nodes, d, p, data);
      && WellFormed(t) && Grows(nodes, t)
      && (o == Crashed <==> d.title == "SynTags" && !TagsKnown(d, data))
      && (o == Crashed ==> t == nodes)
      && (o != Crashed ==> PartShape(nodes, d, p, data, t, o))
  {
    if d.title == "Topics" {
      PartTopics(nodes, d, p, data);
    } else if d.title != "SynTags" || TagsKnown(d, data) {
      PartUpdatedFirst(nodes, d, p, data);
    }
  }

  /** Blocks are only ever added: every block keeps its index, its class and its parent. */
  ghost predicate Grows(a: seq<Node>, b: seq<Node>) {
    |a| <= |b| && forall i :: 0 <= i < |a| ==> b[i].kind == a[i].kind && b[i].parent == a[i].parent
  }

  class Tree {
    var nodes: seq<Node>

    ghost predicate Valid()
      reads this
    {
      WellFormed(nodes)
    }

    constructor ()
      ensures Valid() && nodes == []
    {
      nodes := [];
    }

    /** `GenericBlock.__init__`: appends the block, and its index to its parent's children. */
    method Attach(n: Node) returns (id: nat)
      requires Valid() && ParentIn(nodes, n.parent) && n.children == []
      modifies this
      ensures Valid() && id == |old(nodes)| && nodes == Attached(old(nodes), n) && Grows(old(nodes), nodes)
    {
      AttachedWellFormed(nodes, n);
      id := |nodes|;
      if n.parent.Some? {
        var p := n.parent.value;
        nodes := nodes[p := nodes[p].(children := nodes[p].children + [id])];
      }
      nodes := nodes + [n];
    }

    /** Changes the fields of block `p` other than its links. */
    method Update(p: nat, m: Node)
      requires Valid() && p < |nodes| && m.parent == nodes[p].parent && m.children == nodes[p].children
      requires m.kind == nodes[p].kind
      modifies this
      ensures Valid() && nodes == old(nodes)[p := m] && Grows(old(nodes), nodes)
    {
      UpdatedWellFormed(nodes, p, m);
      nodes := nodes[p := m];
    }

    /** The classes whose constructor only attaches: Generic, lists, File, Section, Subsection. */
    method NewBlock(kind: Kind, d: Decl, parent: Option<nat>) returns (id: nat)
      requires Valid() && ParentIn(nodes, parent)
      modifies this
      ensures Valid() && Grows(old(nodes), nodes) && id == |old(nodes)| && nodes == Attached(old(nodes), Fresh(kind, d, parent))
    {
      id := Attach(Fresh(kind, d, parent));
    }

    /** `LabelBlock.__init__`: a body is refused before anything is attached. */
    method NewLabel(kind: Kind, d: Decl, parent: Option<nat>) returns (r: Outcome)
      requires Valid() && ParentIn(nodes, parent) && IsLabel(kind)
      modifies this
      ensures Valid() && Grows(old(nodes), nodes)
      ensures d.body != [] ==> r == Failure(d.title, BodyNotSupported) && nodes == old(nodes)
      ensures d.body == [] ==> r == Made(|old(nodes)|) && nodes == Attached(old(nodes), Fresh(kind, d, parent))
    {
      if d.body != [] {
        return Failure(d.title, BodyNotSupported);
      }
      var id := NewBlock(kind, d, parent);
      r := Made(id);
    }

    /** `SynopsisBlock`: the parent's synopsis is set even when the body is then refused. */
    method NewSynopsis(d: Decl, p: nat) returns (r: Outcome)
      requires Valid() && p < |nodes|
      modifies this
      ensures Valid() && Grows(old(nodes), nodes)
      ensures var before := old(nodes)[p := old(nodes)[p].(extra := old(nodes)[p].extra.(synopsis := d.subtitle))];
        (d.body != [] ==> r == Failure(d.title, BodyNotSupported) && nodes == before)
        && (d.body == [] ==> r == Made(|before|) && nodes == Attached(before, Fresh(Synopsis, d, Some(p))))
    {
      Update(p, nodes[p].(extra := nodes[p].extra.(synopsis := d.subtitle)));
      r := NewLabel(Synopsis, d, Some(p));
    }

    /** `SeeAlsoBlock`: the parent's and the block's see-also list, before the body check. */
    method NewSeeAlso(d: Decl, p: nat) returns (r: Outcome)
      requires Valid() && p < |nodes|
      modifies this
      ensures Valid() && Grows(old(nodes), nodes)
      ensures var names := CommaList(d.subtitle);
        var before := old(nodes)[p := old(nodes)[p].(extra := old(nodes)[p].extra.(seeAlso := names))];
        (d.body != [] ==> r == Failure(d.title, BodyNotSupported) && nodes == before)
        && (d.body == [] ==>
              r == Made(|before|) && nodes == Attached(before, Fresh(SeeAlso, d, Some(p)).(extra := NoExtra.(seeAlso := names))))
    {
      var names := CommaList(d.subtitle);
      Update(p, nodes[p].(extra := nodes[p].extra.(seeAlso := names)));
      if d.body != [] {
        return Failure(d.title, BodyNotSupported);
      }
      var id := Attach(Fresh(SeeAlso, d, Some(p)).(extra := NoExtra.(seeAlso := names)));
      r := Made(id);
    }

    /** `TopicsBlock`: the topics go to the block and its parent once the block is attached. */
    method NewTopics(d: Decl, p: nat) returns (r: Outcome)
      requires Valid() && p < |nodes|
      modifies this
      ensures Valid() && Grows(old(nodes), nodes)
      ensures d.body != [] ==> r == Failure(d.title, BodyNotSupported) && nodes == old(nodes)
      ensures d.body == [] ==>
        && r == Made(|old(nodes)|)
        && var ts := CommaList(d.subtitle);
           var a := Attached(old(nodes), Fresh(Topics, d, Some(p)).(extra := NoExtra.(topics := ts)));
           nodes == a[p := a[p].(extra := a[p].extra.(topics := ts))]
    {
      if d.body != [] {
        return Failure(d.title, BodyNotSupported);
      }
      var ts := CommaList(d.subtitle);
      var id := Attach(Fresh(Topics, d, Some(p)).(extra := NoExtra.(topics := ts)));
      Update(p, nodes[p].(extra := nodes[p].extra.(topics := ts)));
      r := Made(id);
    }

    /**
     * `SynTagsBlock`: each comma-separated, stripped tag gets its text from
     * the syntax-tag table; a tag missing from the table is a `KeyError`.
     */
    method NewSynTags(d: Decl, p: nat, data: map<string, string>) returns (r: Outcome)
      requires Valid() && p < |nodes| && nodes[p].kind == Item
      modifies this
      ensures Valid() && Grows(old(nodes), nodes)
      ensures var tags := CommaList(d.subtitle);
        (exists k :: 0 <= k < |tags| && tags[k] !in data) ==> r == Crashed && nodes == old(nodes)
      ensures var tags := CommaList(d.subtitle);
        (forall k :: 0 <= k < |tags| ==> tags[k] in data) ==>
          var before := old(nodes)[p := old(nodes)[p].(extra := old(nodes)[p].extra.(syntags := AddTags(old(nodes)[p].extra.syntags, tags, data)))];
          (d.body != [] ==> r == Failure(d.title, BodyNotSupported) && nodes == before)
          && (d.body == [] ==> r == Made(|before|) && nodes == Attached(before, Fresh(SynTags, d, Some(p))))
    {
      var tags := CommaList(d.subtitle);
      var ok, m := CollectTags(nodes[p].extra.syntags, tags, data);
      if !ok {
        return Crashed;
      }
      Update(p, nodes[p].(extra := nodes[p].extra.(syntags := m)));
      r := NewLabel(SynTags, d, Some(p));
    }

    /**
     * The item part blocks by title: apart from syntax tags, which may be
     * refused for an unknown tag, a part with a body is refused and one
     * without is attached under `p`.
     */
    method NewPart(d: Decl, p: nat, data: map<string, string>) returns (r: Outcome)
      requires Valid() && p < |nodes| && (d.title == "SynTags" ==> nodes[p].kind == Item)
      modifies this
      ensures Valid() && Grows(old(nodes), nodes)
      ensures d.title != "SynTags" ==>
        && r == (if d.body != [] then Failure(d.title, BodyNotSupported) else Made(|old(nodes)|))
        && |nodes| == |old(nodes)| + (if d.body != [] then 0 else 1)
        && (d.body == [] ==> nodes[|old(nodes)|].parent == Some(p))
      ensures (nodes, r) == PartAfter(old(nodes), d, p, data)
    {
      ghost var before := nodes;
      PartAfterEffect(before, d, p, data);
      if d.title == "Synopsis" {
        r := NewSynopsis(d, p);
      } else if d.title == "SynTags" {
        r := NewSynTags(d, p, data);
      } else if d.title == "Topics" {
        r := NewTopics(d, p);
      } else {
        r := NewSeeAlso(d, p);
      }
    }

    /** The loop of `SynTagsBlock`: `ok` is false at the first tag the table lacks. */
    static method CollectTags(m0: map<string, string>, tags: seq<string>, data: map<string, string>)
      returns (ok: bool, m: map<string, string>)
      ensures ok <==> forall k :: 0 <= k < |tags| ==> tags[k] in data
      ensures ok ==> m == AddTags(m0, tags, data)
    {
      m := m0;
      var i := 0;
      while i < |tags|
        invariant 0 <= i <= |tags|
        invariant forall k :: 0 <= k < i ==> tags[k] in data
        invariant m == AddTags(m0, tags[..i], data)
      {
        if tags[i] !in data {
          return false, m;
        }
        assert tags[..i + 1][..i] == tags[..i];
        m := m[tags[i] := data[tags[i]]];
        i := i + 1;
      }
      assert tags[..i] == tags;
      ok := true;
    }

    /** `HeaderlessBlock` and `TextBlock`: the subtitle moves into the body. */
    method NewHeaderless(kind: Kind, d: Decl, parent: Option<nat>) returns (id: nat)
      requires Valid() && ParentIn(nodes, parent)
      modifies this
      ensures Valid() && Grows(old(nodes), nodes) && id == |old(nodes)| && nodes == Attached(old(nodes), Fresh(kind, Moved(d), parent))
    {
      id := NewBlock(kind, Moved(d), parent);
    }

    /**
     * `TableBlock`: attached first, then refused unless there are fewer
     * `---` separators than header sets.
     */
    method NewTable(d: Decl, parent: Option<nat>, headerSets: seq<seq<string>>) returns (r: Outcome)
      requires Valid() && ParentIn(nodes, parent)
      modifies this
      ensures Valid() && Grows(old(nodes), nodes)
      ensures nodes == Attached(old(nodes), Fresh(Table, d, parent).(extra := NoExtra.(headerSets := headerSets)))
      ensures r == if Dashes(d.body) >= |headerSets| then Failure(d.title, MoreTables) else Made(|old(nodes)|)
    {
      var id := Attach(Fresh(Table, d, parent).(extra := NoExtra.(headerSets := headerSets)));
      var tnum := 0;
      var i := 0;
      while i < |d.body|
        invariant 0 <= i <= |d.body| && tnum == Dashes(d.body[..i])
      {
        assert d.body[..i + 1][..i] == d.body[..i];
        if d.body[i] == "---" {
          tnum := tnum + 1;
        }
        i := i + 1;
      }
      assert d.body[..i] == d.body;
      if tnum >= |headerSets| {
        return Failure(d.title, MoreTables);
      }
      r := Made(id);
    }

    /** `IncludesBlock`: the body lines are added to the parent file's includes. */
    method NewIncludes(d: Decl, parent: Option<nat>) returns (r: Outcome)
      requires Valid() && ParentIn(nodes, parent)
      modifies this
      ensures Valid() && Grows(old(nodes), nodes)
      ensures var a := Attached(old(nodes), Fresh(Includes, d, parent));
        (parent.None? ==> r == Made(|old(nodes)|) && nodes == a)
        && (parent.Some? && old(nodes)[parent.value].kind != File ==> r == Crashed)
        && (parent.Some? && old(nodes)[parent.value].kind == File ==>
              && r == Made(|old(nodes)|)
              && nodes == a[parent.value := a[parent.value].(extra := a[parent.value].extra.(includes := a[parent.value].extra.includes + d.body))])
    {
      var id := NewBlock(Includes, d, parent);
      if parent.Some? {
        var p := parent.value;
        if nodes[p].kind != File {
          return Crashed;
        }
        Update(p, nodes[p].(extra := nodes[p].extra.(includes := nodes[p].extra.includes + d.body)));
      }
      r := Made(id);
    }

    /** `ItemBlock`: parenthesised text in the name is refused first, then a body. */
    method NewItem(d: Decl, parent: Option<nat>) returns (r: Outcome)
      requires Valid() && ParentIn(nodes, parent)
      modifies this
      ensures Valid() && Grows(old(nodes), nodes)
      ensures ParenText(d.subtitle) ==> r == Failure(d.title, TextInParens) && nodes == old(nodes)
      ensures !ParenText(d.subtitle) && d.body != [] ==> r == Failure(d.title, BodyNotSupported) && nodes == old(nodes)
      ensures !ParenText(d.subtitle) && d.body == [] ==>
        r == Made(|old(nodes)|) && nodes == Attached(old(nodes), Fresh(Item, d, parent))
    {
      if ParenText(d.subtitle) {
        return Failure(d.title, TextInParens);
      }
      r := NewLabel(Item, d, parent);
    }

    /** Walks up from block `p` to the root of its tree. */
    method FindRoot(p: nat) returns (r: nat)
      requires Valid() && p < |nodes|
      ensures r == Root(nodes, p)
    {
      r := p;
      while nodes[r].parent.Some?
        invariant r < |nodes| && Root(nodes, r) == Root(nodes, p)
        decreases r
      {
        r := nodes[r].parent.value;
      }
    }

    /** One turn of `NewImages`: the image block of the first of `lines`, with subtitle `sub`. */
    method NewImageLine(kind: Kind, d: Decl, sub: string, lines: seq<string>, p: nat, meta: string, useApngs: bool)
      returns (ok: bool)
      requires Valid() && p < |nodes| && lines != []
      modifies this
      ensures Valid() && p < |nodes| && Grows(old(nodes), nodes)
      ensures ok ==> ImagesAfter(old(nodes), kind, d, sub, lines, p, meta, useApngs)
                     == ImagesAfter(nodes, kind, d, "", lines[1..], p, meta, useApngs)
      ensures !ok ==> !ImagesAfter(old(nodes), kind, d, sub, lines, p, meta, useApngs).1
    {
      ghost var before := nodes;
      var o := NewImage(kind, Decl(ImageTitle(kind), sub, [lines[0]], d.file, d.line), Some(p), meta, useApngs);
      ImagesAfterUnfold(before, kind, d, sub, lines, p, meta, useApngs);
      ok := !o.Crashed?;
    }

    /**
     * The loop of `Figures` and `Examples` under block `p`: one image block
     * per body line of `d`, the subtitle on the first only, stopping at a
     * Python error; the tree is the one `ImagesAfter` builds.
     */
    method NewImages(kind: Kind, d: Decl, p: nat, meta: string, useApngs: bool) returns (ok: bool)
      requires Valid() && p < |nodes|
      modifies this
      ensures Valid() && Grows(old(nodes), nodes)
      ensures ok == ImagesAfter(old(nodes), kind, d, d.subtitle, d.body, p, meta, useApngs).1
      ensures ok ==> nodes == ImagesAfter(old(nodes), kind, d, d.subtitle, d.body, p, meta, useApngs).0
    {
      ghost var goal := ImagesAfter(nodes, kind, d, d.subtitle, d.body, p, meta, useApngs);
      var subtitle := d.subtitle;
      var i := 0;
      ok := true;
      while i < |d.body| && ok
        invariant 0 <= i <= |d.body| && Valid() && p < |nodes| && Grows(old(nodes), nodes)
        invariant ok ==> goal == ImagesAfter(nodes, kind, d, subtitle, d.body[i..], p, meta, useApngs)
        invariant !ok ==> !goal.1
        decreases |d.body| - i, if ok then 1 else 0
      {
        ok := NewImageLine(kind, d, subtitle, d.body[i..], p, meta, useApngs);
        if ok {
          assert d.body[i..][1..] == d.body[i + 1..];
          subtitle := "";
          i := i + 1;
        }
      }
      if ok {
        assert d.body[i..] == [];
      }
    }

    /**
     * `ImageBlock.__init__`: attaches the block, walks up to the root
     * file block, takes the next figure or example number from the parent
     * and fills the block in. The walk reads only parent links, which
     * attaching leaves alone, so it is done here before the block is
     * attached; on every path the block ends up attached.
     */
    method NewImage(kind: Kind, d: Decl, parent: Option<nat>, meta: string, useApngs: bool) returns (r: Outcome)
      requires Valid() && ParentIn(nodes, parent)
      modifies this
      ensures Valid() && Grows(old(nodes), nodes)
      ensures parent.None? ==> r == Crashed
      ensures parent.Some? ==> r == ImageAfter(old(nodes), kind, d, parent.value, meta, useApngs).1
      ensures r.Made? ==> nodes == ImageAfter(old(nodes), kind, d, parent.value, meta, useApngs).0
    {
      var bare := Fresh(kind, d, parent);
      if parent.None? {
        var _ := Attach(bare);
        return Crashed;
      }
      var p := parent.value;
      var root := FindRoot(p);
      var figure := d.title == "Figure";
      if nodes[root].kind != File || (!figure && nodes[p].kind != Item) {
        var _ := Attach(bare);
        return Crashed;
      }
      ghost var before := nodes;
      var n: nat := if figure then nodes[p].extra.figureNum + 1 else nodes[p].extra.exampleNum + 1;
      var img := MakeImage(kind, d, p, nodes[p].title, nodes[p].subtitle, nodes[root], n, meta, useApngs);
      var id := Attach(img);
      Bump(p, figure, n);
      ImageAfterMade(before, kind, d, p, meta, useApngs);
      r := Made(id);
    }

    /** The block of class `kind`, built by that class's constructor as the registry calls it. */
    method Build(kind: Kind, d: Decl, parent: Option<nat>, sets: seq<seq<string>>, meta: string, apngs: bool)
      returns (o: Option<Outcome>)
      requires Valid() && ParentIn(nodes, parent)
      modifies this
      ensures Valid() && Grows(old(nodes), nodes)
      ensures var (a, b) := Built(old(nodes), kind, d, parent, sets, meta, apngs);
        o == b && (o != Some(Crashed) ==> nodes == a)
    {
      if kind == Label {
        var x := NewLabel(Label, d, parent);
        o := Some(x);
      } else if kind == Generic || kind == NumberedList || kind == BulletList {
        var id := NewBlock(kind, d, parent);
        o := Some(Made(id));
      } else if kind == Text || kind == Headerless {
        var id := NewHeaderless(kind, d, parent);
        o := Some(Made(id));
      } else if kind == Table || kind == Figure || kind == Example {
        o := BuildCounted(kind, d, parent, sets, meta, apngs);
      } else {
        o := None;
      }
    }

    /** `Build` for the table and image classes, the blocks whose body is checked or counted. */
    method BuildCounted(kind: Kind, d: Decl, parent: Option<nat>, sets: seq<seq<string>>, meta: string, apngs: bool)
      returns (o: Option<Outcome>)
      requires Valid() && ParentIn(nodes, parent) && (kind == Table || kind == Figure || kind == Example)
      modifies this
      ensures Valid() && Grows(old(nodes), nodes)
      ensures var (a, b) := Built(old(nodes), kind, d, parent, sets, meta, apngs);
        o == b && (o != Some(Crashed) ==> nodes == a)
    {
      if kind == Table {
        BuiltTable(nodes, d, parent, sets, meta, apngs);
        var x := NewTable(d, parent, sets);
        o := Some(x);
      } else {
        BuiltImage(nodes, kind, d, parent, sets, meta, apngs);
        var x := NewImage(kind, d, parent, meta, apngs);
        o := Some(x);
      }
    }

    /** The parent's figure or example counter becomes `n`. */
    method Bump(p: nat, figure: bool, n: nat)
      requires Valid() && p < |nodes|
      modifies this
      ensures Valid() && Grows(old(nodes), nodes)
      ensures nodes == old(nodes)[p := if figure then old(nodes)[p].(extra := old(nodes)[p].extra.(figureNum := n)) else old(nodes)[p].(extra := old(nodes)[p].extra.(exampleNum := n))]
    {
      if figure {
        Update(p, nodes[p].(extra := nodes[p].extra.(figureNum := n)));
      } else {
        Update(p, nodes[p].(extra := nodes[p].extra.(exampleNum := n)));
      }
    }

    /** The fields an image block computes: title, number, script and image paths. */
    static method MakeImage(kind: Kind, d: Decl, p: nat, ptitle: string, psub: string, root: Node, n: nat, meta: string,
                            useApngs: bool) returns (img: Node)
      ensures img == ImageNode(kind, d, p, ptitle, psub, root, n, meta, useApngs)
    {
      var script := BuildScript(root.extra.includes, root.extra.commonCode, d.body);
      var san := SanName(psub);
      var ext := ImageExt(meta, useApngs);
      var name: string;
      if d.title == "Figure" {
        name := FigureName(ptitle, san, n, ext);
      } else {
        name := ExampleName(san, n, ext);
      }
      var rel := ImageUrlRel(root.file, name);
      img := Fresh(kind, d, Some(p)).(title := d.title + " " + NatToString(n),
        extra := NoExtra.(meta := meta, imageNum := n, rawScript := script, imageUrlRel := rel, imageUrl := ImageUrl(root.file, rel)));
    }

    /** Puts the image script together, line by line. */
    static method BuildScript(includes: seq<string>, common: seq<string>, body: seq<string>) returns (script: seq<string>)
      ensures script == RawScript(includes, common, body)
    {
      var lines: seq<string> := [];
      var i := 0;
      while i < |body|
        invariant 0 <= i <= |body| && |lines| == i
        invariant forall k :: 0 <= k < i ==> lines[k] == ScriptLine(body[k])
      {
        lines := lines + [ScriptLine(body[i])];
        i := i + 1;
      }
      assert lines == seq(|body|, k requires 0 <= k < |body| => ScriptLine(body[k]));
      script := includes + common + lines;
    }
  }
}

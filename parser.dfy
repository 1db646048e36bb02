/**
 * The documentation parser: `DocsGenParser` walks the lines of a source
 * file, skips to each header, reads the block's body and dispatches on the
 * block's title, building the block tree and updating its cursors (the
 * open file, section, subsection and item blocks and the parent for the
 * next block), its registry of block types and its name registry.
 *
 * A `DocsGenException` raised while a block is handled is logged against
 * the block's header line and parsing goes on after the block's body; a
 * Python error of another kind ends the parse (`crashed`).
 *
 * The file system is not modelled: what `glob` finds for a pattern is the
 * table `globs`, the target profiles `set_target` accepts are the set
 * `profiles`, and the contents of a file are passed in as lines.
 */
module DocsParser {
  import opened Strings
  import opened ErrorLogging
  import opened BlockTree
  import opened ParserLines
  import opened ParserDefs
  import opened ParserOrder

  const RcFile := ".openscad_docsgen_rc"
  const DefaultsFile := "Defaults"

  const Disallowed := "Block disallowed outside of .openscad_docsgen_rc file:"
  const SubtitleNotSupported := "Subtitle not supported, while declaring block:"
  const FileAlready := "File/Libfile block already specified, while declaring block:"
  const FileFirstStrict := "Must declare File or LibFile block before declaring block:"
  const FileFirst := "Must declare File or Libfile block before declaring block:"
  const SectionFirst := "Must declare a Section before declaring block:"
  const SubtitleNeeded := "Must provide a subtitle when declaring block:"
  const Unrecognized := "Unrecognized block:"

  /** The message for a name declared twice, citing the first declaration. */
  function Redeclared(name: string, file: string, line: int): string {
    "Previous declaration of `" + name + "` at " + file + ":" + IntText(line) + ", Redeclared:"
  }

  /** How handling a block ends: done, a raised `DocsGenException` with its text, or a Python error. */
  datatype Step = Done | Fails(msg: string) | Crash

  /** A raised `DocsGenException(title, message)`. */
  function Refusal(title: string, message: string): Step {
    Fails(Failure(title, message).msg)
  }

  /** A block constructor's outcome as a step of the parser. */
  function StepOf(o: Outcome): Step {
    match o
      case Made(_) => Done
      case Raised(m) => Fails(m)
      case Crashed => Crash
  }

  /** The refusal a settings block gets outside the rc file, or with a body when it takes none. */
  function RcCheck(d: Decl, noBody: bool): Option<Step> {
    if d.file != RcFile then Some(Refusal(d.title, Disallowed))
    else if noBody && d.body != [] then Some(Refusal(d.title, BodyNotSupported))
    else None
  }

  /** Each line with `// ` in front, as the rc file and comment-less files are read. */
  function Commented(lines: seq<string>): (r: seq<string>)
    ensures |r| == |lines| && forall k :: 0 <= k < |lines| ==> r[k] == "// " + lines[k]
  {
    seq(|lines|, k requires 0 <= k < |lines| => "// " + lines[k])
  }

  // ---------------------------------------------------------------------
  // What the cursors point at

  /** The open file, section, subsection and item blocks, and the parent for the next block. */
  datatype Cursors = Cursors(file: Option<nat>, section: Option<nat>, subsection: Option<nat>, item: Option<nat>,
                             parent: Option<nat>)

  const NoCursors := Cursors(None, None, None, None, None)

  predicate IsKind(nodes: seq<Node>, o: Option<nat>, k: Kind) {
    o.Some? ==> o.value < |nodes| && nodes[o.value].kind == k
  }

  predicate IsItem(nodes: seq<Node>, o: Option<nat>) {
    o.Some? && o.value < |nodes| && nodes[o.value].kind == Item
  }

  /**
   * Each cursor points at a block of its class. While an item is open the
   * parent cursor is set, and the item's own parent is not an item; when
   * the parent cursor is an item, it is the open item.
   */
  predicate CursorsOk(nodes: seq<Node>, c: Cursors) {
    && IsKind(nodes, c.file, File) && IsKind(nodes, c.section, Section) && IsKind(nodes, c.subsection, Subsection)
    && IsKind(nodes, c.item, Item) && ParentIn(nodes, c.parent)
    && (c.item.Some? ==> c.parent.Some? && ParentIn(nodes, nodes[c.item.value].parent) && !IsItem(nodes, nodes[c.item.value].parent))
    && (IsItem(nodes, c.parent) ==> c.item == c.parent)
  }

  /** Every registered name names an item block. */
  predicate NamesOk(nodes: seq<Node>, names: map<string, nat>) {
    forall name :: name in names ==> IsItem(nodes, Some(names[name]))
  }

  /** Every listed file block is a file block. */
  predicate FilesOk(nodes: seq<Node>, files: seq<nat>) {
    forall k :: 0 <= k < |files| ==> IsKind(nodes, Some(files[k]), File)
  }

  /** Only entries that need an item parent carry a callback (the callbacks change the open item). */
  predicate DefsOk(defs: map<string, HeaderDef>) {
    forall t :: t in defs && defs[t].callback != NoCallback ==> defs[t].itemOnly
  }

  /** The cursors, the name registry and the file list, all pointing into the tree. */
  predicate Inv(nodes: seq<Node>, c: Cursors, names: map<string, nat>, files: seq<nat>) {
    CursorsOk(nodes, c) && NamesOk(nodes, names) && FilesOk(nodes, files)
  }

  /** All of it survives blocks being added or changed. */
  lemma StateGrows(a: seq<Node>, b: seq<Node>, c: Cursors, names: map<string, nat>, files: seq<nat>)
    requires Grows(a, b) && Inv(a, c, names, files)
    ensures Inv(b, c, names, files)
  {
    if c.item.Some? {
      assert b[c.item.value].parent == a[c.item.value].parent;
    }
  }

  /** Opening a new item under the open section keeps the cursors and the registry pointing into the tree. */
  lemma ItemOpened(nodes: seq<Node>, c: Cursors, names: map<string, nat>, files: seq<nat>, name: string, id: nat)
    requires Inv(nodes, c, names, files) && c.section.Some? && IsKind(nodes, c.section, Section)
    requires id < |nodes| && nodes[id].kind == Item && nodes[id].parent == c.section
    ensures Inv(nodes, c.(item := Some(id), parent := Some(id)), names[name := id], files)
  {
  }

  lemma BuiltinDefsOk()
    ensures DefsOk(BuiltinDefs)
  {
  }

  /** Where an item goes: the open section, or else a new untitled section under the file block. */
  function ItemSection(nodes: seq<Node>, c: Cursors, d: Decl): (seq<Node>, nat)
    requires ParentIn(nodes, c.file)
  {
    if c.section.Some? then (nodes, c.section.value)
    else (Attached(nodes, Fresh(Section, Decl("Section", "", [], d.file, d.line), c.file)), |nodes|)
  }

  /** The refusal `ItemBlock` raises for a subtitle, or a body, it does not take. */
  function ItemRefusal(d: Decl): Option<Step> {
    if ParenText(d.subtitle) then Some(Refusal(d.title, TextInParens))
    else if d.body != [] then Some(Refusal(d.title, BodyNotSupported))
    else None
  }

  /** The titles of the settings blocks, which `_parse_block` tests first. */
  predicate IsSetting(t: string) {
    t in {"DefineHeader", "IgnoreFiles", "PrioritizeFiles", "DocsDirectory", "UsePNGAnimations", "ProjectName",
      "TargetProfile", "GenerateDocs", "DefineSynTags"}
  }

  /** The handlers of `_parse_block`, one per branch of its chain of tests on the block title. */
  datatype Handler =
    | OnDefineHeader | OnIgnoreFiles | OnPrioritizeFiles | OnDocsDirectory | OnUsePngAnimations | OnProjectName
    | OnTargetProfile | OnGenerateDocs | OnDefineSynTags
    | OnModeline | OnFile | OnStrictRefusal
    | OnSection | OnSubsection | OnIncludes | OnFileText | OnFileFootnotes | OnCommonCode | OnImage | OnImages
    | OnRegistered | OnItem | OnItemPart | OnUnrecognized
  {
    /** A handler of the tail of the chain, past the settings, modelines, file headers and strict mode. */
    predicate IsBlock() {
      !(OnDefineHeader? || OnIgnoreFiles? || OnPrioritizeFiles? || OnDocsDirectory? || OnUsePngAnimations? || OnProjectName?
        || OnTargetProfile? || OnGenerateDocs? || OnDefineSynTags? || OnModeline? || OnFile? || OnStrictRefusal?)
    }
  }

  /** Which settings block a settings title names. */
  function SettingRoute(t: string): Handler
    requires IsSetting(t)
  {
    if t == "DefineHeader" then OnDefineHeader
    else if t == "IgnoreFiles" then OnIgnoreFiles
    else if t == "PrioritizeFiles" then OnPrioritizeFiles
    else if t == "DocsDirectory" then OnDocsDirectory
    else if t == "UsePNGAnimations" then OnUsePngAnimations
    else if t == "ProjectName" then OnProjectName
    else if t == "TargetProfile" then OnTargetProfile
    else if t == "GenerateDocs" then OnGenerateDocs
    else OnDefineSynTags
  }

  /** The tail of the chain, once the title is no setting, modeline or file header and strict mode let it through. */
  function BlockRoute(t: string, registered: bool): Handler {
    if t == "Section" then OnSection
    else if t == "Subsection" then OnSubsection
    else if t == "Includes" then OnIncludes
    else if t == "FileSummary" || t == "FileGroup" then OnFileText
    else if t == "FileFootnotes" then OnFileFootnotes
    else if t == "CommonCode" then OnCommonCode
    else if t == "Figure" || t == "Example" then OnImage
    else if t == "Figures" || t == "Examples" then OnImages
    else if registered then OnRegistered
    else if t == "Constant" || t == "Function" || t == "Module" || t == "Function&Module" then OnItem
    else if t == "Synopsis" || t == "SynTags" || t == "Topics" || t == "See Also" then OnItemPart
    else OnUnrecognized
  }

  /**
   * The handler `_parse_block` picks for a title: `registered` says the
   * title has a registry entry, `fileOpen` that a file block is open.
   */
  function Route(t: string, registered: bool, fileOpen: bool, strict: bool): Handler {
    if IsSetting(t) then SettingRoute(t)
    else if t == "vim" || t == "emacs" then OnModeline
    else if t == "File" || t == "LibFile" then OnFile
    else if !fileOpen && strict then OnStrictRefusal
    else BlockRoute(t, registered)
  }


  /** The titles of the tail of the chain that come before the registry is consulted. */
  const StructureTitles: set<string> := {"Section", "Subsection", "Includes", "FileSummary", "FileGroup", "FileFootnotes",
    "CommonCode", "Figure", "Example", "Figures", "Examples"}

  /** The item titles and the item part titles, tested only after the registry. */
  const ItemTitles: set<string> := {"Constant", "Function", "Module", "Function&Module", "Synopsis", "SynTags", "Topics", "See Also"}

  /** The title gets past the head of the chain: no setting, modeline or file header, and strict mode lets it through. */
  predicate PastHead(t: string, fileOpen: bool, strict: bool) {
    !IsSetting(t) && t !in {"vim", "emacs", "File", "LibFile"} && (fileOpen || !strict)
  }

  /** Modelines are ignored whatever else holds. */
  lemma RouteModeline(t: string, registered: bool, fileOpen: bool, strict: bool)
    ensures Route(t, registered, fileOpen, strict) == OnModeline <==> t == "vim" || t == "emacs"
  { }

  /** Strict mode refuses exactly the titles past the file headers while no file block is open. */
  lemma RouteStrict(t: string, registered: bool, fileOpen: bool, strict: bool)
    ensures Route(t, registered, fileOpen, strict) == OnStrictRefusal <==>
      !IsSetting(t) && t !in {"vim", "emacs", "File", "LibFile"} && !fileOpen && strict
  { }

  /** The block handlers run exactly for the titles past the head, as `BlockRoute` picks them. */
  lemma RouteTail(t: string, registered: bool, fileOpen: bool, strict: bool)
    ensures Route(t, registered, fileOpen, strict).IsBlock() <==> PastHead(t, fileOpen, strict)
    ensures PastHead(t, fileOpen, strict) ==> Route(t, registered, fileOpen, strict) == BlockRoute(t, registered)
  { }

  /**
   * A registered title goes to the registry unless a structure block
   * claims it first; so a registry entry named like an item or a part
   * overrides the built-in handler.
   */
  lemma RouteRegistered(t: string, registered: bool, fileOpen: bool, strict: bool)
    ensures Route(t, registered, fileOpen, strict) == OnRegistered <==>
      PastHead(t, fileOpen, strict) && t !in StructureTitles && registered
  { }

  /** A title nothing handles is refused as unrecognized. */
  lemma RouteUnrecognized(t: string, registered: bool, fileOpen: bool, strict: bool)
    ensures Route(t, registered, fileOpen, strict) == OnUnrecognized <==>
      PastHead(t, fileOpen, strict) && t !in StructureTitles && t !in ItemTitles && !registered
  { }

  class DocsGenParser {
    const tree: Tree
    const log: ErrorLog
    const strict: bool
    const globs: map<string, seq<string>>
    const profiles: set<string>

    // the options the rc file may set
    var docsDir: string
    var pngAnimation: bool
    var projectName: string
    var targetProfile: string
    var gen: set<Doc>

    var fileBlocks: seq<nat>
    var cur: Cursors
    var ignoredFilePats: seq<string>
    var ignoredFiles: set<string>
    var priorityFiles: seq<string>
    var itemsByName: map<string, nat>
    var syntagsData: map<string, string>
    var headerDefs: map<string, HeaderDef>

    ghost predicate Valid()
      reads this`cur, this`itemsByName, this`fileBlocks, this`headerDefs, tree, log
    {
      tree.Valid() && log.Valid() && Inv(tree.nodes, cur, itemsByName, fileBlocks) && DefsOk(headerDefs)
    }

    /**
     * `DocsGenParser.__init__` followed by `_reset_header_defs`: empty
     * state, the built-in entries, the three default definitions, and the
     * rc file's lines when there is one.
     */
    constructor (log: ErrorLog, strict: bool, globs: map<string, seq<string>>, profiles: set<string>, gen: set<Doc>,
                 rc: Option<seq<string>>)
      requires log.Valid()
      modifies log
      ensures Valid() && fresh(tree) && this.log == log
      ensures this.strict == strict && this.globs == globs && this.profiles == profiles
      ensures BuiltinDefs.Keys <= headerDefs.Keys
    {
      this.tree := new Tree();
      this.log := log;
      this.strict := strict;
      this.globs := globs;
      this.profiles := profiles;
      docsDir, pngAnimation, projectName, targetProfile := "", false, "", "";
      this.gen := gen;
      fileBlocks := [];
      cur := NoCursors;
      ignoredFilePats, ignoredFiles, priorityFiles := [], {}, [];
      itemsByName, syntagsData := map[], map[];
      headerDefs := BuiltinDefs;
      new;
      BuiltinDefsOk();
      var _ := ResetHeaderDefs(rc);
    }

    /**
     * `_reset_header_defs`: the built-in entries, then the default
     * definitions parsed as the file `Defaults`, then the rc file's lines
     * (each read with `// ` in front).
     */
    method ResetHeaderDefs(rc: Option<seq<string>>) returns (crashed: bool)
      requires Valid()
      modifies this, tree, log
      ensures Valid() && Grows(old(tree.nodes), tree.nodes) && old(log.errlist) <= log.errlist
      ensures BuiltinDefs.Keys <= headerDefs.Keys
    {
      headerDefs := BuiltinDefs;
      BuiltinDefsOk();
      crashed := ParseLines(DefaultLines, DefaultsFile);
      if !crashed && rc.Some? {
        crashed := ParseLines(Commented(rc.value), RcFile);
      }
    }

    /**
     * `parse_file`: an ignored file is passed over; otherwise the file and
     * section cursors are closed, the registry is reset and the lines are
     * parsed (each with `// ` in front when the file has no comments).
     */
    method ParseFile(filename: string, lines: seq<string>, commentless: bool, rc: Option<seq<string>>)
      returns (crashed: bool)
      requires Valid()
      modifies this, tree, log
      ensures Valid() && Grows(old(tree.nodes), tree.nodes) && old(log.errlist) <= log.errlist
      ensures filename in old(ignoredFiles) ==> !crashed && tree.nodes == old(tree.nodes) && log.errlist == old(log.errlist)
      ensures filename in old(ignoredFiles) ==> cur == old(cur) && headerDefs == old(headerDefs)
      ensures filename !in old(ignoredFiles) ==> BuiltinDefs.Keys <= headerDefs.Keys
    {
      if filename in ignoredFiles {
        return false;
      }
      cur := cur.(file := None, section := None);
      crashed := ResetHeaderDefs(rc);
      if !crashed {
        crashed := ParseLines(if commentless then Commented(lines) else lines, filename);
      }
    }

    /**
     * `parse_lines`: block after block until the end of the lines, or until
     * a Python error; every error it logs is a failure in `srcFile`.
     */
    method ParseLines(lines: seq<string>, srcFile: string) returns (crashed: bool)
      requires Valid()
      modifies this, tree, log
      ensures Valid() && Grows(old(tree.nodes), tree.nodes) && old(log.errlist) <= log.errlist
      ensures old(headerDefs).Keys <= headerDefs.Keys
      ensures forall k :: |old(log.errlist)| <= k < |log.errlist| ==>
        log.errlist[k].file == srcFile && log.errlist[k].level == FAIL
    {
      var i := 0;
      crashed := false;
      while i < |lines| && !crashed
        invariant i <= |lines| && Valid() && Grows(old(tree.nodes), tree.nodes) && old(log.errlist) <= log.errlist
        invariant old(headerDefs).Keys <= headerDefs.Keys
        invariant forall k :: |old(log.errlist)| <= k < |log.errlist| ==>
          log.errlist[k].file == srcFile && log.errlist[k].level == FAIL
        decreases |lines| - i
      {
        ghost var before := log.errlist;
        ghost var step;
        i, crashed, step := ParseBlock(lines, i, srcFile);
        assert forall k :: 0 <= k < |before| ==> log.errlist[k] == before[k];
      }
    }

    /** The open item is closed: the parent cursor goes back to the item's parent. */
    method ClearItem()
      requires Valid()
      modifies this`cur
      ensures Valid()
      ensures cur == if old(cur).item.Some? then old(cur).(item := None, parent := tree.nodes[old(cur).item.value].parent)
                     else old(cur)
    {
      if cur.item.Some? {
        cur := cur.(item := None, parent := tree.nodes[cur.item.value].parent);
      }
    }

    /**
     * `_skip_lines`: to the next header line or the end of the lines; the
     * open item is closed at the first line not starting with `//`, or at
     * the end.
     */
    method SkipLines(lines: seq<string>, start: nat) returns (i: nat)
      requires Valid() && start <= |lines|
      modifies this`cur
      ensures Valid() && i == NextHeader(lines, start)
      ensures old(cur).item.Some? && (Breaks(lines, start, i) || i == |lines|) ==>
        cur == old(cur).(item := None, parent := tree.nodes[old(cur).item.value].parent)
      ensures old(cur).item.None? || (!Breaks(lines, start, i) && i < |lines|) ==> cur == old(cur)
    {
      var broke;
      i, broke := SkipLoop(lines, start);
      if broke || i == |lines| {
        ClearItem();
      }
    }

    /** The loop of `_skip_lines`: where it stops, and whether it passed a line not starting with `//`. */
    static method SkipLoop(lines: seq<string>, start: nat) returns (i: nat, broke: bool)
      requires start <= |lines|
      ensures i == NextHeader(lines, start) && broke == Breaks(lines, start, i)
    {
      i, broke := start, false;
      while i < |lines|
        invariant start <= i <= |lines| && NextHeader(lines, i) == NextHeader(lines, start)
        invariant broke == Breaks(lines, start, i)
        decreases |lines| - i
      {
        assert Breaks(lines, start, i + 1) == (!StartsWith(lines[i], "//") || Breaks(lines, start, i));
        if !StartsWith(lines[i], "//") {
          broke := true;
        }
        if IsHeader(lines[i]) {
          HeaderIsComment(lines[i]);
          return;
        }
        i := i + 1;
      }
    }

    /**
     * `_parse_block`: skips to the next header, reads its body, handles
     * the block and, when that went well, closes the open item if the
     * block is followed by a line not starting with `//` or by the end, and
     * skips on; a raised error is logged at the header line instead. The
     * parse never stands still: a block ends after the line it starts at.
     */
    method ParseBlock(lines: seq<string>, start: nat, srcFile: string) returns (next: nat, crashed: bool, ghost step: Step)
      requires Valid() && start <= |lines|
      modifies this, tree, log
      ensures Valid() && Grows(old(tree.nodes), tree.nodes) && old(log.errlist) <= log.errlist
      ensures old(headerDefs).Keys <= headerDefs.Keys
      ensures next <= |lines| && (start < |lines| ==> start < next)
      ensures |log.errlist| <= |old(log.errlist)| + 1
      ensures |log.errlist| == |old(log.errlist)| + 1 ==>
        log.errlist[|old(log.errlist)|].file == srcFile && log.errlist[|old(log.errlist)|].level == FAIL
      ensures NextHeader(lines, start) == |lines| ==>
        next == |lines| && !crashed && log.errlist == old(log.errlist) && cur.item.None?
      ensures NextHeader(lines, start) < |lines| ==> BlockEnded(lines, NextHeader(lines, start), srcFile, next, crashed, step)
    {
      var i := SkipLines(lines, start);
      if i >= |lines| {
        return i, false, Done;
      }
      next, crashed, step := ParseAt(lines, i, srcFile);
    }

    /**
     * How `_parse_block` ends for the header at line `i`, whose handler
     * returned `step`: a body with less indentation crashes where it
     * stops; otherwise the run crashes exactly on a crash step, a raised
     * error is logged once at the header and the parse resumes after the
     * body, and a handled block resumes at the next header, with no item
     * open when a line not starting with `//`, or the end, came first.
     */
    twostate predicate BlockEnded(lines: seq<string>, i: nat, srcFile: string, next: nat, crashed: bool, step: Step)
      requires i < |lines|
      reads this, log
    {
      var b := Dedent(lines, i + 1, 2, true, []);
      if b.LessIndent? then crashed && next == b.at && log.errlist == old(log.errlist)
      else
        && b.next <= |lines|
        && (crashed <==> step == Crash)
        && next == (if step == Done then NextHeader(lines, b.next) else b.next)
        && (step.Fails? ==> log.errlist == old(log.errlist) + [Entry(srcFile, i + 1, step.msg, FAIL)])
        && (!step.Fails? ==> log.errlist == old(log.errlist))
        && (step == Done && (Breaks(lines, b.next, next) || next == |lines|) ==> cur.item.None?)
    }

    /** `_parse_block` from the header line at `i` on. */
    method ParseAt(lines: seq<string>, i: nat, srcFile: string) returns (next: nat, crashed: bool, ghost step: Step)
      requires Valid() && i < |lines| && IsHeader(lines[i])
      modifies this, tree, log
      ensures Valid() && Grows(old(tree.nodes), tree.nodes) && old(log.errlist) <= log.errlist
      ensures old(headerDefs).Keys <= headerDefs.Keys
      ensures i < next <= |lines|
      ensures |log.errlist| <= |old(log.errlist)| + 1
      ensures |log.errlist| == |old(log.errlist)| + 1 ==>
        log.errlist[|old(log.errlist)|].file == srcFile && log.errlist[|old(log.errlist)|].level == FAIL
      ensures BlockEnded(lines, i, srcFile, next, crashed, step)
    {
      var h := ParseHeader(lines[i]).value;
      var body := ReadBody(lines, i + 1);
      DedentBounds(lines, i + 1);
      if body.LessIndent? {
        // the handler of the less-indentation error names `origin`, which is not bound yet
        return body.at, true, Crash;
      }
      var d := Decl(h.title, h.subtitle, body.body, srcFile, i + 1);
      var r := Dispatch(d, h.meta);
      step := r;
      next, crashed := Settle(r, lines, body.next, srcFile, i + 1);
    }

    /** The end of `_parse_block`, once the block's handler returned `r`. */
    method Settle(r: Step, lines: seq<string>, after: nat, srcFile: string, line: int) returns (next: nat, crashed: bool)
      requires Valid() && after <= |lines|
      modifies this`cur, log
      ensures Valid() && old(log.errlist) <= log.errlist && after <= next <= |lines|
      ensures crashed <==> r == Crash
      ensures r.Fails? ==> log.errlist == old(log.errlist) + [Entry(srcFile, line, r.msg, FAIL)]
      ensures !r.Fails? ==> log.errlist == old(log.errlist)
      ensures r == Done ==> next == NextHeader(lines, after)
      ensures r != Done ==> next == after && cur == old(cur)
      ensures r == Done && old(cur).item.Some? && (Breaks(lines, after, next) || next == |lines|) ==>
        cur == old(cur).(item := None, parent := tree.nodes[old(cur).item.value].parent)
      ensures r == Done && (old(cur).item.None? || (!Breaks(lines, after, next) && next < |lines|)) ==> cur == old(cur)
      ensures r == Done && (Breaks(lines, after, next) || next == |lines|) ==> cur.item.None?
    {
      next, crashed := after, false;
      match r {
        case Crash =>
          crashed := true;
        case Fails(msg) =>
          log.AddEntry(srcFile, line, msg, FAIL);
        case Done =>
          if next >= |lines| || !StartsWith(lines[next], "//") {
            ClearItem();
          }
          next := SkipLines(lines, next);
          if next < |lines| {
            BreaksSome(lines, after, next);
            if after < |lines| && IsHeader(lines[after]) {
              HeaderIsComment(lines[after]);
            }
          }
      }
    }

    /** Nothing changes: no field of the parser and no block. */
    twostate predicate Untouched()
      reads this, tree
    {
      unchanged(this) && tree.nodes == old(tree.nodes)
    }

    /** The blocks, the cursors, the name registry and the file list are as they were. */
    twostate predicate StructureKept()
      reads this, tree
    {
      tree.nodes == old(tree.nodes) && cur == old(cur) && itemsByName == old(itemsByName) && fileBlocks == old(fileBlocks)
    }

    /** The registry, the file patterns and lists, the options and the tag texts are as they were. */
    twostate predicate SettingsKept()
      reads this
    {
      && headerDefs == old(headerDefs) && ignoredFilePats == old(ignoredFilePats) && ignoredFiles == old(ignoredFiles)
      && priorityFiles == old(priorityFiles) && docsDir == old(docsDir) && pngAnimation == old(pngAnimation)
      && projectName == old(projectName) && targetProfile == old(targetProfile) && gen == old(gen)
      && syntagsData == old(syntagsData)
    }

    /** The contract of the settings handler `h` for the block `d`: the step and the settings it leaves. */
    twostate predicate SettingDone(h: Handler, d: Decl, meta: string, r: Step)
      reads this, tree
    {
      match h
        case OnDefineHeader => DefineHeaderEffect(d.subtitle, meta, r)
        case OnIgnoreFiles => IgnoreFilesEffect(d, r)
        case OnPrioritizeFiles => PrioritizeFilesEffect(d, r)
        case OnDocsDirectory => DocsDirectoryEffect(d, r)
        case OnUsePngAnimations => UsePngAnimationsEffect(d, r)
        case OnProjectName => ProjectNameEffect(d, r)
        case OnTargetProfile => TargetProfileEffect(d, r)
        case OnGenerateDocs => GenerateDocsEffect(d, r)
        case OnDefineSynTags => DefineSynTagsEffect(d, r)
        case _ => false
    }

    /** The contract of the block handler `h` for the block `d`: the step, the blocks and the cursors it leaves. */
    twostate predicate BlockDone(h: Handler, d: Decl, meta: string, r: Step)
      requires old(Valid())
      reads this, tree
    {
      if h == OnSection || h == OnSubsection || h == OnIncludes then StructureDone(h, d, r)
      else if h == OnFileText || h == OnFileFootnotes || h == OnCommonCode then FileDataDone(h, d, r)
      else if h == OnImage || h == OnImages then ImagesDone(h, d, meta, r)
      else ItemsDone(h, d, meta, r)
    }

    /** The contracts of the structure block handlers. */
    twostate predicate StructureDone(h: Handler, d: Decl, r: Step)
      requires old(Valid())
      reads this, tree
    {
      match h
        case OnSection => SectionDeclEffect(d, r)
        case OnSubsection => SubsectionDeclEffect(d, r)
        case OnIncludes => IncludesDeclEffect(d, r)
        case _ => false
    }

    /** The contracts of the handlers that fill in the file block. */
    twostate predicate FileDataDone(h: Handler, d: Decl, r: Step)
      requires old(Valid())
      reads this, tree
    {
      match h
        case OnFileText => FileTextEffect(d, r)
        case OnFileFootnotes => FileFootnotesEffect(d, r)
        case OnCommonCode => CommonCodeEffect(d, r)
        case _ => false
    }

    /** The contracts of the image block handlers. */
    twostate predicate ImagesDone(h: Handler, d: Decl, meta: string, r: Step)
      requires old(Valid())
      reads this, tree
    {
      match h
        case OnImage => ImageDeclEffect(d, meta, r)
        case OnImages => ImagesDeclEffect(d, meta, r)
        case _ => false
    }

    /** The contracts of the registry, item and item part handlers, and the refusal of an unknown title. */
    twostate predicate ItemsDone(h: Handler, d: Decl, meta: string, r: Step)
      requires old(Valid())
      reads this, tree
    {
      match h
        case OnRegistered => d.title in headerDefs && RegisteredEffect(d, meta, r)
        case OnItem => ItemDeclEffect(d, r)
        case OnItemPart => ItemPartEffect(d, r)
        case OnUnrecognized => r == Refusal(d.title, Unrecognized) && Untouched()
        case _ => false
    }

    /**
     * The chain of tests on the block's title, in the order `_parse_block`
     * makes them: the block is handled by the handler `Route` picks, with
     * that handler's contract; modelines and the strict-mode refusal leave
     * everything as it was.
     */
    method Dispatch(d: Decl, meta: string) returns (r: Step)
      requires Valid()
      modifies this, tree
      ensures Valid() && Grows(old(tree.nodes), tree.nodes) && old(headerDefs).Keys <= headerDefs.Keys
      ensures var h := Route(d.title, d.title in old(headerDefs), old(cur).file.Some?, strict);
        && (IsSetting(d.title) ==> SettingDone(SettingRoute(d.title), d, meta, r))
        && (h == OnModeline ==> r == Done && Untouched())
        && (h == OnFile ==> FileDeclEffect(d, r))
        && (h == OnStrictRefusal ==> r == Refusal(d.title, FileFirstStrict) && Untouched())
        && (h.IsBlock() ==> BlockDone(BlockRoute(d.title, d.title in old(headerDefs)), d, meta, r))
    {
      if IsSetting(d.title) {
        r := DispatchSetting(d, meta);
      } else {
        r := DispatchTail(d, meta);
      }
    }

    /** The chain past the settings blocks, which leaves the registry alone. */
    method DispatchTail(d: Decl, meta: string) returns (r: Step)
      requires Valid() && !IsSetting(d.title)
      modifies this`cur, this`fileBlocks, this`itemsByName, tree
      ensures Valid() && Grows(old(tree.nodes), tree.nodes)
      ensures var h := Route(d.title, d.title in old(headerDefs), old(cur).file.Some?, strict);
        && (h == OnModeline ==> r == Done && Untouched())
        && (h == OnFile ==> FileDeclEffect(d, r))
        && (h == OnStrictRefusal ==> r == Refusal(d.title, FileFirstStrict) && Untouched())
        && (h.IsBlock() ==> BlockDone(BlockRoute(d.title, d.title in old(headerDefs)), d, meta, r))
    {
      var h := Route(d.title, d.title in headerDefs, cur.file.Some?, strict);
      if h == OnModeline {
        r := Done;
      } else if h == OnFile {
        r := FileDecl(d);
      } else if h == OnStrictRefusal {
        r := Refusal(d.title, FileFirstStrict);
      } else {
        r := DispatchBlock(d, meta);
      }
    }

    /** The head of the chain: the settings blocks, which leave the tree and the cursors alone. */
    method DispatchSetting(d: Decl, meta: string) returns (r: Step)
      requires Valid() && IsSetting(d.title)
      modifies this`headerDefs, this`ignoredFilePats, this`ignoredFiles, this`priorityFiles, this`docsDir
      modifies this`pngAnimation, this`projectName, this`targetProfile, this`gen, this`syntagsData
      ensures DefsOk(headerDefs) && old(headerDefs).Keys <= headerDefs.Keys
      ensures SettingDone(SettingRoute(d.title), d, meta, r)
    {
      match SettingRoute(d.title) {
        case OnDefineHeader => r := DefineHeader(d.subtitle, meta);
        case OnIgnoreFiles => r := IgnoreFiles(d);
        case OnPrioritizeFiles => r := PrioritizeFiles(d);
        case OnDocsDirectory => r := DocsDirectory(d);
        case OnUsePngAnimations => r := UsePngAnimations(d);
        case OnProjectName => r := ProjectName(d);
        case OnTargetProfile => r := TargetProfile(d);
        case OnGenerateDocs => r := GenerateDocs(d);
        case OnDefineSynTags => r := DefineSynTags(d);
      }
    }

    /** The rest of the chain: the structure blocks, image blocks, the registry, items and their parts. */
    method DispatchBlock(d: Decl, meta: string) returns (r: Step)
      requires Valid()
      modifies this`cur, this`itemsByName, tree
      ensures Valid() && Grows(old(tree.nodes), tree.nodes)
      ensures BlockDone(BlockRoute(d.title, d.title in old(headerDefs)), d, meta, r)
    {
      var h := BlockRoute(d.title, d.title in headerDefs);
      if h == OnSection || h == OnSubsection || h == OnIncludes {
        r := DispatchStructure(d, h);
      } else if h == OnFileText || h == OnFileFootnotes || h == OnCommonCode {
        r := DispatchFileData(d, h);
      } else if h == OnImage || h == OnImages {
        r := DispatchImages(d, meta, h);
      } else {
        r := DispatchItems(d, meta, h);
      }
    }

    /** `Section`, `Subsection`, `Includes`. */
    method DispatchStructure(d: Decl, h: Handler) returns (r: Step)
      requires Valid() && (h == OnSection || h == OnSubsection || h == OnIncludes)
      modifies this`cur, tree
      ensures Valid() && Grows(old(tree.nodes), tree.nodes)
      ensures StructureDone(h, d, r)
    {
      match h {
        case OnSection => r := SectionDecl(d);
        case OnSubsection => r := SubsectionDecl(d);
        case OnIncludes => r := IncludesDecl(d);
      }
    }

    /** `FileSummary`, `FileGroup`, `FileFootnotes`, `CommonCode`. */
    method DispatchFileData(d: Decl, h: Handler) returns (r: Step)
      requires Valid() && h == BlockRoute(d.title, d.title in headerDefs)
      requires h == OnFileText || h == OnFileFootnotes || h == OnCommonCode
      modifies tree
      ensures Valid() && Grows(old(tree.nodes), tree.nodes)
      ensures FileDataDone(h, d, r)
    {
      match h {
        case OnFileText => r := FileText(d);
        case OnFileFootnotes => r := FileFootnotes(d);
        case OnCommonCode => r := CommonCode(d);
      }
    }

    /** `Figure`, `Example`, `Figures`, `Examples`. */
    method DispatchImages(d: Decl, meta: string, h: Handler) returns (r: Step)
      requires Valid() && h == BlockRoute(d.title, d.title in headerDefs) && (h == OnImage || h == OnImages)
      modifies tree
      ensures Valid() && Grows(old(tree.nodes), tree.nodes)
      ensures ImagesDone(h, d, meta, r)
    {
      match h {
        case OnImage => r := ImageDecl(d, meta);
        case OnImages => r := ImagesDecl(d, meta);
      }
    }

    /** The registry, then the items and their parts, then the refusal of an unknown title. */
    method DispatchItems(d: Decl, meta: string, h: Handler) returns (r: Step)
      requires Valid() && h == BlockRoute(d.title, d.title in headerDefs)
      requires h == OnRegistered || h == OnItem || h == OnItemPart || h == OnUnrecognized
      modifies this`cur, this`itemsByName, tree
      ensures Valid() && Grows(old(tree.nodes), tree.nodes)
      ensures ItemsDone(h, d, meta, r)
    {
      match h {
        case OnRegistered => r := Registered(d, meta);
        case OnItem => r := ItemDecl(d);
        case OnItemPart => r := ItemPart(d);
        case OnUnrecognized => r := Refusal(d.title, Unrecognized);
      }
    }

    // -------------------------------------------------------------------
    // Settings blocks

    /** The state and step `DefineHeader` leaves behind, against the state it started from. */
    twostate predicate DefineHeaderEffect(subtitle: string, meta: string, r: Step)
      reads this, tree
    {
      && (var def := DefineBlockType(subtitle, meta);
            && (def.Defined? ==> r == Done && headerDefs == old(headerDefs)[def.name := def.def])
            && (def.Refused? ==> r == Fails(def.msg) && headerDefs == old(headerDefs))
            && (def.Broken? ==> r == Crash && headerDefs == old(headerDefs)))
    }

    /** `DefineHeader`: the entry the block defines replaces any entry of that name. */
    method DefineHeader(subtitle: string, meta: string) returns (r: Step)
      requires DefsOk(headerDefs)
      modifies this`headerDefs
      ensures DefsOk(headerDefs)
      ensures DefineHeaderEffect(subtitle, meta, r)
    {
      var m := ParseMetaDict(meta);
      var def := DefineFrom(Strip(subtitle), m);
      match def {
        case Defined(name, hd) =>
          headerDefs := headerDefs[name := hd];
          r := Done;
        case Refused(msg) =>
          r := Fails(msg);
        case Broken =>
          r := Crash;
      }
    }

    /** The state and step `IgnoreFiles` leaves behind, against the state it started from. */
    twostate predicate IgnoreFilesEffect(d: Decl, r: Step)
      reads this, tree
    {
      && (RcCheck(d, false).Some? ==>
            r == RcCheck(d, false).value && ignoredFilePats == old(ignoredFilePats) && ignoredFiles == old(ignoredFiles))
      && (RcCheck(d, false).None? ==>
            && r == Done
            && ignoredFilePats == old(ignoredFilePats) + StripAll(WithSubtitle(d.subtitle, d.body))
            && ignoredFiles == IgnoredBy(globs, ignoredFilePats))
    }

    /**
     * `IgnoreFiles`: the stripped lines (the subtitle first) join the
     * patterns, and the ignored files become every match of every pattern.
     */
    method IgnoreFiles(d: Decl) returns (r: Step)
      modifies this`ignoredFilePats, this`ignoredFiles
      ensures IgnoreFilesEffect(d, r)
    {
      if d.file != RcFile {
        return Refusal(d.title, Disallowed);
      }
      ignoredFilePats := ignoredFilePats + StripAll(WithSubtitle(d.subtitle, d.body));
      ignoredFiles := AllIgnored(ignoredFilePats);
      r := Done;
    }

    /** The loops of `IgnoreFiles`: every match of every pattern. */
    method AllIgnored(pats: seq<string>) returns (files: set<string>)
      ensures files == IgnoredBy(globs, pats)
    {
      files := {};
      var i := 0;
      while i < |pats|
        invariant 0 <= i <= |pats| && files == IgnoredBy(globs, pats[..i])
      {
        var matches := Globbed(globs, pats[i]);
        ghost var before := files;
        var j := 0;
        while j < |matches|
          invariant 0 <= j <= |matches| && files == before + Members(matches[..j])
        {
          assert matches[..j + 1] == matches[..j] + [matches[j]];
          files := files + {matches[j]};
          j := j + 1;
        }
        assert matches[..j] == matches;
        assert pats[..i + 1][..i] == pats[..i];
        i := i + 1;
      }
      assert pats[..i] == pats;
    }

    /** The state and step `PrioritizeFiles` leaves behind, against the state it started from. */
    twostate predicate PrioritizeFilesEffect(d: Decl, r: Step)
      reads this, tree
    {
      && (RcCheck(d, false).Some? ==> r == RcCheck(d, false).value && priorityFiles == old(priorityFiles))
      && (RcCheck(d, false).None? ==>
            r == Done && priorityFiles == PriorityOf(globs, StripAll(WithSubtitle(d.subtitle, d.body))))
    }

    /** `PrioritizeFiles`: the matches of the stripped lines (the subtitle first) replace the old list. */
    method PrioritizeFiles(d: Decl) returns (r: Step)
      modifies this`priorityFiles
      ensures PrioritizeFilesEffect(d, r)
    {
      if d.file != RcFile {
        return Refusal(d.title, Disallowed);
      }
      priorityFiles := PriorityOf(globs, StripAll(WithSubtitle(d.subtitle, d.body)));
      r := Done;
    }

    /** The state and step `DocsDirectory` leaves behind, against the state it started from. */
    twostate predicate DocsDirectoryEffect(d: Decl, r: Step)
      reads this, tree
    {
      && (RcCheck(d, true).Some? ==> r == RcCheck(d, true).value && docsDir == old(docsDir))
      && (RcCheck(d, true).None? ==> r == Done && docsDir == DocsDirOf(d.subtitle))
    }

    /** `DocsDirectory`: the stripped subtitle without trailing slashes. */
    method DocsDirectory(d: Decl) returns (r: Step)
      modifies this`docsDir
      ensures DocsDirectoryEffect(d, r)
    {
      var c := RcCheck(d, true);
      if c.Some? {
        return c.value;
      }
      docsDir := DocsDirOf(d.subtitle);
      r := Done;
    }

    /** The state and step `UsePngAnimations` leaves behind, against the state it started from. */
    twostate predicate UsePngAnimationsEffect(d: Decl, r: Step)
      reads this, tree
    {
      && (RcCheck(d, true).Some? ==> r == RcCheck(d, true).value && pngAnimation == old(pngAnimation))
      && (RcCheck(d, true).None? ==> r == Done && pngAnimation == Affirmative(d.subtitle))
    }

    /** `UsePNGAnimations`: on for TRUE, YES or 1 in any case. */
    method UsePngAnimations(d: Decl) returns (r: Step)
      modifies this`pngAnimation
      ensures UsePngAnimationsEffect(d, r)
    {
      var c := RcCheck(d, true);
      if c.Some? {
        return c.value;
      }
      pngAnimation := Affirmative(d.subtitle);
      r := Done;
    }

    /** The state and step `ProjectName` leaves behind, against the state it started from. */
    twostate predicate ProjectNameEffect(d: Decl, r: Step)
      reads this, tree
    {
      && (RcCheck(d, true).Some? ==> r == RcCheck(d, true).value && projectName == old(projectName))
      && (RcCheck(d, true).None? ==> r == Done && projectName == Strip(d.subtitle))
    }

    /** `ProjectName`: the stripped subtitle. */
    method ProjectName(d: Decl) returns (r: Step)
      modifies this`projectName
      ensures ProjectNameEffect(d, r)
    {
      var c := RcCheck(d, true);
      if c.Some? {
        return c.value;
      }
      projectName := Strip(d.subtitle);
      r := Done;
    }

    /** The state and step `TargetProfile` leaves behind, against the state it started from. */
    twostate predicate TargetProfileEffect(d: Decl, r: Step)
      reads this, tree
    {
      && (RcCheck(d, true).Some? ==> r == RcCheck(d, true).value && targetProfile == old(targetProfile))
      && (RcCheck(d, true).None? && Strip(d.subtitle) !in profiles ==>
            r == Refusal(d.title, BodyNotSupported) && targetProfile == old(targetProfile))
      && (RcCheck(d, true).None? && Strip(d.subtitle) in profiles ==> r == Done && targetProfile == Strip(d.subtitle))
    }

    /** `TargetProfile`: a profile `set_target` does not accept is refused. */
    method TargetProfile(d: Decl) returns (r: Step)
      modifies this`targetProfile
      ensures TargetProfileEffect(d, r)
    {
      var c := RcCheck(d, true);
      if c.Some? {
        return c.value;
      }
      if Strip(d.subtitle) !in profiles {
        return Refusal(d.title, BodyNotSupported);
      }
      targetProfile := Strip(d.subtitle);
      r := Done;
    }

    /** The state and step `GenerateDocs` leaves behind, against the state it started from. */
    twostate predicate GenerateDocsEffect(d: Decl, r: Step)
      reads this, tree
    {
      && (RcCheck(d, true).Some? ==> r == RcCheck(d, true).value && gen == old(gen))
      && (RcCheck(d, true).None? && old(gen) != {} ==> r == Done && gen == old(gen))
      && (RcCheck(d, true).None? && old(gen) == {} ==>
            var parts := Split(d.subtitle, ",");
            var docs := Docs(GenWords(parts));
            var n := FirstUnknown(docs);
            && gen == GenAfter(old(gen), docs, n)
            && r == (if n == |parts| then Done else Refusal(d.title, UnknownGen(parts[n]))))
    }

    /**
     * `GenerateDocs`: only when no document was asked for already, each
     * comma-separated part names a document to generate; an unknown part
     * is refused, the parts before it having taken effect.
     */
    method GenerateDocs(d: Decl) returns (r: Step)
      modifies this`gen
      ensures GenerateDocsEffect(d, r)
    {
      var c := RcCheck(d, true);
      if c.Some? {
        return c.value;
      }
      if gen != {} {
        return Done;
      }
      var parts := Split(d.subtitle, ",");
      var g, n := GenLoop(gen, Docs(GenWords(parts)));
      gen := g;
      r := if n == |parts| then Done else Refusal(d.title, UnknownGen(parts[n]));
    }

    /**
     * The loop of `GenerateDocs`, on the document each upper-cased,
     * stripped part names (its chain of tests on the part is `DocOf`): the
     * documents asked for, up to the first part naming none.
     */
    static method GenLoop(g0: set<Doc>, docs: seq<Option<Doc>>) returns (g: set<Doc>, n: nat)
      ensures n == FirstUnknown(docs) && g == GenAfter(g0, docs, n)
    {
      g := g0;
      n := 0;
      while n < |docs|
        invariant 0 <= n <= FirstUnknown(docs) && g == GenAfter(g0, docs, n)
      {
        match docs[n] {
          case None =>
            return;
          case Some(doc) =>
            g := g + {doc};
        }
        n := n + 1;
      }
    }

    /** The state and step `DefineSynTags` leaves behind, against the state it started from. */
    twostate predicate DefineSynTagsEffect(d: Decl, r: Step)
      reads this, tree
    {
      && (RcCheck(d, false).Some? ==> r == RcCheck(d, false).value && syntagsData == old(syntagsData))
      && (RcCheck(d, false).None? && d.subtitle != "" ==>
            r == Refusal(d.title, SubtitleNotSupported) && syntagsData == old(syntagsData))
      && (RcCheck(d, false).None? && d.subtitle == "" ==>
            var n := FirstUntagged(d.body);
            && syntagsData == Assigned(old(syntagsData), TagPairs(d.body, n))
            && r == (if n == |d.body| then Done else Refusal(d.title, MalformedTag(d.body[n]))))
    }

    /**
     * `DefineSynTags`: each body line `tag=text` sets the tag's text; a
     * line without `=` is refused, the lines before it having taken effect.
     */
    method DefineSynTags(d: Decl) returns (r: Step)
      modifies this`syntagsData
      ensures DefineSynTagsEffect(d, r)
    {
      var c := RcCheck(d, false);
      if c.Some? {
        return c.value;
      }
      if d.subtitle != "" {
        return Refusal(d.title, SubtitleNotSupported);
      }
      var m, n := TagLoop(syntagsData, d.body);
      syntagsData := m;
      r := if n == |d.body| then Done else Refusal(d.title, MalformedTag(d.body[n]));
    }

    /** The loop of `DefineSynTags`: the tags of the lines, up to the first line without `=`. */
    static method TagLoop(m0: map<string, string>, lines: seq<string>) returns (m: map<string, string>, n: nat)
      ensures n == FirstUntagged(lines) && m == Assigned(m0, TagPairs(lines, n))
    {
      m := m0;
      n := 0;
      while n < |lines|
        invariant 0 <= n <= FirstUntagged(lines) && m == Assigned(m0, TagPairs(lines, n))
      {
        var line := lines[n];
        if '=' !in line {
          return;
        }
        TagPairsNext(lines, n);
        var tag := TagPair(line);
        AssignedSnoc(m0, TagPairs(lines, n), tag);
        m := m[tag.0 := tag.1];
        n := n + 1;
      }
    }

    // -------------------------------------------------------------------
    // File structure

    /** The state and step `FileDecl` leaves behind, against the state it started from. */
    twostate predicate FileDeclEffect(d: Decl, r: Step)
      requires old(Valid())
      reads this, tree
    {
      && (old(cur).file.Some? ==>
            r == Refusal(d.title, FileAlready) && tree.nodes == old(tree.nodes) && cur == old(cur) && fileBlocks == old(fileBlocks))
      && (old(cur).file.None? ==>
            var id := |old(tree.nodes)|;
            && r == Done && tree.nodes == Attached(old(tree.nodes), Fresh(File, d, None))
            && cur == old(cur).(file := Some(id), section := None, subsection := None, parent := Some(id))
            && fileBlocks == old(fileBlocks) + [id])
    }

    /** `File` / `LibFile`: a new root block, which the file, section and parent cursors move to. */
    method FileDecl(d: Decl) returns (r: Step)
      requires Valid()
      modifies this`cur, this`fileBlocks, tree
      ensures Valid() && Grows(old(tree.nodes), tree.nodes)
      ensures FileDeclEffect(d, r)
    {
      if cur.file.Some? {
        return Refusal(d.title, FileAlready);
      }
      ghost var before := tree.nodes;
      var id := tree.NewBlock(File, d, None);
      StateGrows(before, tree.nodes, cur, itemsByName, fileBlocks);
      assert tree.nodes[id] == Fresh(File, d, None);
      OpenFile(id);
      r := Done;
    }

    /** The new file block `id` is listed and opened: the file and parent cursors move to it, the section ones are cleared. */
    method OpenFile(id: nat)
      requires Valid() && cur.file.None? && id < |tree.nodes| && tree.nodes[id].kind == File
      modifies this`cur, this`fileBlocks
      ensures Valid() && fileBlocks == old(fileBlocks) + [id]
      ensures cur == old(cur).(file := Some(id), section := None, subsection := None, parent := Some(id))
    {
      cur := cur.(file := Some(id), section := None, subsection := None, parent := Some(id));
      fileBlocks := fileBlocks + [id];
    }

    /** The state and step `SectionDecl` leaves behind, against the state it started from. */
    twostate predicate SectionDeclEffect(d: Decl, r: Step)
      requires old(Valid())
      reads this, tree
    {
      && (old(cur).file.None? ==> r == Refusal(d.title, FileFirst) && tree.nodes == old(tree.nodes) && cur == old(cur))
      && (old(cur).file.Some? ==>
            var id := |old(tree.nodes)|;
            && r == Done && tree.nodes == Attached(old(tree.nodes), Fresh(Section, d, old(cur).file))
            && cur == old(cur).(section := Some(id), subsection := None, parent := Some(id)))
    }

    /** `Section`: a new section under the file block, which the section and parent cursors move to. */
    method SectionDecl(d: Decl) returns (r: Step)
      requires Valid()
      modifies this`cur, tree
      ensures Valid() && Grows(old(tree.nodes), tree.nodes)
      ensures SectionDeclEffect(d, r)
    {
      if cur.file.None? {
        return Refusal(d.title, FileFirst);
      }
      ghost var before := tree.nodes;
      var id := tree.NewBlock(Section, d, cur.file);
      StateGrows(before, tree.nodes, cur, itemsByName, fileBlocks);
      cur := cur.(section := Some(id), subsection := None, parent := Some(id));
      r := Done;
    }

    /** The state and step `SubsectionDecl` leaves behind, against the state it started from. */
    twostate predicate SubsectionDeclEffect(d: Decl, r: Step)
      requires old(Valid())
      reads this, tree
    {
      && (old(cur).section.None? ==>
            r == Refusal(d.title, SectionFirst) && tree.nodes == old(tree.nodes) && cur == old(cur))
      && (old(cur).section.Some? && d.subtitle == "" ==>
            r == Refusal(d.title, SubtitleNeeded) && tree.nodes == old(tree.nodes) && cur == old(cur))
      && (old(cur).section.Some? && d.subtitle != "" ==>
            var id := |old(tree.nodes)|;
            && r == Done && tree.nodes == Attached(old(tree.nodes), Fresh(Subsection, d, old(cur).section))
            && cur == old(cur).(subsection := Some(id), parent := Some(id)))
    }

    /** `Subsection`: needs an open section and a subtitle. */
    method SubsectionDecl(d: Decl) returns (r: Step)
      requires Valid()
      modifies this`cur, tree
      ensures Valid() && Grows(old(tree.nodes), tree.nodes)
      ensures SubsectionDeclEffect(d, r)
    {
      if cur.section.None? {
        return Refusal(d.title, SectionFirst);
      }
      if d.subtitle == "" {
        return Refusal(d.title, SubtitleNeeded);
      }
      ghost var before := tree.nodes;
      var id := tree.NewBlock(Subsection, d, cur.section);
      StateGrows(before, tree.nodes, cur, itemsByName, fileBlocks);
      cur := cur.(subsection := Some(id), parent := Some(id));
      r := Done;
    }

    /** The state and step `IncludesDecl` leaves behind, against the state it started from. */
    twostate predicate IncludesDeclEffect(d: Decl, r: Step)
      requires old(Valid())
      reads this, tree
    {
      && cur == old(cur)
      && (cur.file.None? ==> r == Refusal(d.title, FileFirst) && tree.nodes == old(tree.nodes))
      && (cur.file.Some? ==>
            var f := cur.file.value;
            var a := Attached(old(tree.nodes), Fresh(Includes, d, cur.file));
            r == Done && tree.nodes == a[f := a[f].(extra := a[f].extra.(includes := a[f].extra.includes + d.body))])
    }

    /** `Includes`: a block under the file block, whose lines join the file's includes. */
    method IncludesDecl(d: Decl) returns (r: Step)
      requires Valid()
      modifies tree
      ensures Valid() && Grows(old(tree.nodes), tree.nodes)
      ensures IncludesDeclEffect(d, r)
    {
      if cur.file.None? {
        return Refusal(d.title, FileFirst);
      }
      ghost var before := tree.nodes;
      var o := tree.NewIncludes(d, cur.file);
      StateGrows(before, tree.nodes, cur, itemsByName, fileBlocks);
      r := StepOf(o);
    }

    /** The state and step `FileText` leaves behind, against the state it started from. */
    twostate predicate FileTextEffect(d: Decl, r: Step)
      requires old(Valid())
      reads this, tree
    {
      && cur == old(cur)
      && (d.subtitle == "" ==> r == Refusal(d.title, SubtitleNeeded) && tree.nodes == old(tree.nodes))
      && (d.subtitle != "" && cur.file.None? ==> r == Refusal(d.title, FileFirst) && tree.nodes == old(tree.nodes))
      && (d.subtitle != "" && cur.file.Some? ==>
            var f := cur.file.value;
            var n := old(tree.nodes)[f];
            var e := if d.title == "FileSummary" then n.extra.(summary := Strip(d.subtitle)) else n.extra.(group := Strip(d.subtitle));
            r == Done && tree.nodes == old(tree.nodes)[f := n.(extra := e)])
    }

    /** `FileSummary` / `FileGroup`: the file block's summary or group becomes the stripped subtitle. */
    method FileText(d: Decl) returns (r: Step)
      requires Valid() && (d.title == "FileSummary" || d.title == "FileGroup")
      modifies tree
      ensures Valid() && Grows(old(tree.nodes), tree.nodes)
      ensures FileTextEffect(d, r)
    {
      if d.subtitle == "" {
        return Refusal(d.title, SubtitleNeeded);
      }
      if cur.file.None? {
        return Refusal(d.title, FileFirst);
      }
      var f := cur.file.value;
      var n := tree.nodes[f];
      var e := if d.title == "FileSummary" then n.extra.(summary := Strip(d.subtitle)) else n.extra.(group := Strip(d.subtitle));
      SetExtra(f, e);
      r := Done;
    }

    /** The state and step `FileFootnotes` leaves behind, against the state it started from. */
    twostate predicate FileFootnotesEffect(d: Decl, r: Step)
      requires old(Valid())
      reads this, tree
    {
      && cur == old(cur)
      && (d.subtitle == "" ==> r == Refusal(d.title, SubtitleNeeded) && tree.nodes == old(tree.nodes))
      && (d.subtitle != "" && cur.file.None? ==> r == Refusal(d.title, FileFirst) && tree.nodes == old(tree.nodes))
      && (d.subtitle != "" && cur.file.Some? ==>
            var f := cur.file.value;
            var n := old(tree.nodes)[f];
            r == Done && tree.nodes == old(tree.nodes)[f := n.(extra := n.extra.(footnotes := Footnotes(d.subtitle, d.file, d.line)))])
    }

    /** `FileFootnotes`: the file block's footnotes become one per `;`-separated part of the subtitle. */
    method FileFootnotes(d: Decl) returns (r: Step)
      requires Valid()
      modifies tree
      ensures Valid() && Grows(old(tree.nodes), tree.nodes)
      ensures FileFootnotesEffect(d, r)
    {
      if d.subtitle == "" {
        return Refusal(d.title, SubtitleNeeded);
      }
      if cur.file.None? {
        return Refusal(d.title, FileFirst);
      }
      var notes := FootnoteLoop(d.subtitle, d.file, d.line);
      var f := cur.file.value;
      var n := tree.nodes[f];
      SetExtra(f, n.extra.(footnotes := notes));
      r := Done;
    }

    /** The loop of `FileFootnotes`: one footnote per `;`-separated part. */
    static method FootnoteLoop(subtitle: string, file: string, line: int) returns (notes: seq<Footnote>)
      ensures notes == Footnotes(subtitle, file, line)
    {
      var parts := Split(subtitle, ";");
      notes := [];
      var i := 0;
      while i < |parts|
        invariant 0 <= i <= |parts| && notes == FootnotesOf(parts, i, file, line)
      {
        notes := notes + [FootnoteOf(parts[i], file, line)];
        i := i + 1;
      }
    }

    /** The state and step `CommonCode` leaves behind, against the state it started from. */
    twostate predicate CommonCodeEffect(d: Decl, r: Step)
      requires old(Valid())
      reads this, tree
    {
      && cur == old(cur)
      && (cur.file.None? ==> r == Refusal(d.title, FileFirst) && tree.nodes == old(tree.nodes))
      && (cur.file.Some? ==>
            var f := cur.file.value;
            var n := old(tree.nodes)[f];
            r == Done && tree.nodes == old(tree.nodes)[f := n.(extra := n.extra.(commonCode := n.extra.commonCode + d.body))])
    }

    /** `CommonCode`: the body joins the file block's common code. */
    method CommonCode(d: Decl) returns (r: Step)
      requires Valid()
      modifies tree
      ensures Valid() && Grows(old(tree.nodes), tree.nodes)
      ensures CommonCodeEffect(d, r)
    {
      if cur.file.None? {
        return Refusal(d.title, FileFirst);
      }
      var f := cur.file.value;
      var n := tree.nodes[f];
      SetExtra(f, n.extra.(commonCode := n.extra.commonCode + d.body));
      r := Done;
    }

    /** Sets the class-specific fields of block `i`. */
    method SetExtra(i: nat, e: Extra)
      requires Valid() && i < |tree.nodes|
      modifies tree
      ensures Valid() && Grows(old(tree.nodes), tree.nodes)
      ensures tree.nodes == old(tree.nodes)[i := old(tree.nodes)[i].(extra := e)]
    {
      ghost var before := tree.nodes;
      tree.Update(i, tree.nodes[i].(extra := e));
      StateGrows(before, tree.nodes, cur, itemsByName, fileBlocks);
    }

    // -------------------------------------------------------------------
    // Image blocks

    /** The state and step `ImageDecl` leaves behind, against the state it started from. */
    twostate predicate ImageDeclEffect(d: Decl, meta: string, r: Step)
      requires old(Valid())
      reads this, tree
    {
      && cur == old(cur)
      && (d.title == "Figure" && cur.file.None? ==> r == Refusal(d.title, FileFirst) && tree.nodes == old(tree.nodes))
      && (d.title == "Example" && cur.item.None? ==> r == Done && tree.nodes == old(tree.nodes))
      && ((if d.title == "Figure" then cur.file.Some? else cur.item.Some?) ==>
            var kind := if d.title == "Figure" then Figure else Example;
            && (cur.parent.None? ==> r == Crash)
            && (cur.parent.Some? ==>
            var a := ImageAfter(old(tree.nodes), kind, d, cur.parent.value, meta, pngAnimation);
            r == StepOf(a.1) && (r == Done ==> tree.nodes == a.0)))
    }

    /**
     * `Figure` (needs a file block) and `Example` (only while an item is
     * open): an image block under the parent cursor.
     */
    method ImageDecl(d: Decl, meta: string) returns (r: Step)
      requires Valid() && (d.title == "Figure" || d.title == "Example")
      modifies tree
      ensures Valid() && Grows(old(tree.nodes), tree.nodes)
      ensures ImageDeclEffect(d, meta, r)
    {
      var figure := d.title == "Figure";
      if figure && cur.file.None? {
        return Refusal(d.title, FileFirst);
      }
      if !figure && cur.item.None? {
        return Done;
      }
      ghost var before := tree.nodes;
      var o := tree.NewImage(if figure then Figure else Example, d, cur.parent, meta, pngAnimation);
      StateGrows(before, tree.nodes, cur, itemsByName, fileBlocks);
      r := StepOf(o);
    }

    /** The state and step `ImagesDecl` leaves behind, against the state it started from. */
    twostate predicate ImagesDeclEffect(d: Decl, meta: string, r: Step)
      requires old(Valid())
      reads this, tree
    {
      && cur == old(cur)
      && (d.title == "Figures" && cur.file.None? ==> r == Refusal(d.title, FileFirst) && tree.nodes == old(tree.nodes))
      && (d.title == "Examples" && cur.item.None? ==> r == Done && tree.nodes == old(tree.nodes))
      && ((if d.title == "Figures" then cur.file.Some? else cur.item.Some?) ==>
            var kind := if d.title == "Figures" then Figure else Example;
            && (r == Crash || r == Done)
            && (r == Done ==>
            && |tree.nodes| == |old(tree.nodes)| + |d.body|
            && forall k :: |old(tree.nodes)| <= k < |tree.nodes| ==> tree.nodes[k].kind == kind && tree.nodes[k].parent == cur.parent)
            && (cur.parent.None? ==> (r == Done <==> d.body == []))
            && (cur.parent.Some? ==>
                  var (t, ok) := ImagesAfter(old(tree.nodes), kind, d, d.subtitle, d.body, cur.parent.value, meta, pngAnimation);
                  (r == Done <==> ok) && (r == Done ==> tree.nodes == t)))
    }

    /**
     * `Figures` (needs a file block) and `Examples` (only while an item is
     * open): one image block per body line, the subtitle going to the
     * first only; a Python error stops the loop.
     */
    method ImagesDecl(d: Decl, meta: string) returns (r: Step)
      requires Valid() && (d.title == "Figures" || d.title == "Examples")
      modifies tree
      ensures Valid() && Grows(old(tree.nodes), tree.nodes)
      ensures ImagesDeclEffect(d, meta, r)
    {
      var figure := d.title == "Figures";
      if figure && cur.file.None? {
        return Refusal(d.title, FileFirst);
      }
      if !figure && cur.item.None? {
        return Done;
      }
      r := ImageLoop(if figure then Figure else Example, d, meta);
    }

    /** The loop of `Figures` and `Examples`. */
    method ImageLoop(kind: Kind, d: Decl, meta: string) returns (r: Step)
      requires Valid() && (kind == Figure || kind == Example)
      modifies tree
      ensures Valid() && Grows(old(tree.nodes), tree.nodes) && (r == Crash || r == Done)
      ensures r == Done ==>
        && |tree.nodes| == |old(tree.nodes)| + |d.body|
        && forall k :: |old(tree.nodes)| <= k < |tree.nodes| ==> tree.nodes[k].kind == kind && tree.nodes[k].parent == cur.parent
      ensures cur.parent.None? ==> (r == Done <==> d.body == [])
      ensures cur.parent.Some? ==>
        var (t, ok) := ImagesAfter(old(tree.nodes), kind, d, d.subtitle, d.body, cur.parent.value, meta, pngAnimation);
        (r == Done <==> ok) && (r == Done ==> tree.nodes == t)
    {
      if d.body == [] {
        r := Done;
      } else if cur.parent.None? {
        var _ := ImageStep(kind, Decl(ImageTitle(kind), d.subtitle, [d.body[0]], d.file, d.line), meta);
        r := Crash;
      } else {
        ImagesAfterAdds(tree.nodes, kind, d, d.subtitle, d.body, cur.parent.value, meta, pngAnimation);
        ghost var before := tree.nodes;
        var ok := tree.NewImages(kind, d, cur.parent.value, meta, pngAnimation);
        StateGrows(before, tree.nodes, cur, itemsByName, fileBlocks);
        r := if ok then Done else Crash;
      }
    }

    /** One block of that loop, made and attached under the parent cursor, or a Python error. */
    method ImageStep(kind: Kind, d: Decl, meta: string) returns (o: Outcome)
      requires Valid()
      modifies tree
      ensures Valid() && Grows(old(tree.nodes), tree.nodes) && (o.Crashed? || o.Made?)
      ensures o.Made? ==>
        var n := |old(tree.nodes)|;
        |tree.nodes| == n + 1 && tree.nodes[n].kind == kind && tree.nodes[n].parent == cur.parent
      ensures cur.parent.None? ==> o == Crashed
      ensures cur.parent.Some? ==>
        var (a, made) := ImageAfter(old(tree.nodes), kind, d, cur.parent.value, meta, pngAnimation);
        o == made && (o.Made? ==> tree.nodes == a)
    {
      ghost var before := tree.nodes;
      o := tree.NewImage(kind, d, cur.parent, meta, pngAnimation);
      StateGrows(before, tree.nodes, cur, itemsByName, fileBlocks);
    }

    // -------------------------------------------------------------------
    // Registered block types

    /** The state and step `Registered` leaves behind, against the state it started from. */
    twostate predicate RegisteredEffect(d: Decl, meta: string, r: Step)
      requires old(Valid())
      requires d.title in headerDefs
      reads this, tree
    {
      && cur == old(cur)
      && (var def := headerDefs[d.title];
            def.itemOnly && !IsItem(old(tree.nodes), cur.parent) ==>
            r == Done && tree.nodes == old(tree.nodes) && itemsByName == old(itemsByName))
      && (var def := headerDefs[d.title];
            !def.itemOnly || IsItem(old(tree.nodes), cur.parent) ==>
            var (a, o) := Built(old(tree.nodes), def.kind, d, cur.parent, def.headerSets, meta, pngAnimation);
            && (o == Some(Crashed) ==> r == Crash)
            && (o.Some? && o.value.Raised? ==> r == Fails(o.value.msg) && tree.nodes == a && itemsByName == old(itemsByName))
            && (o.None? || o.value.Made? ==> r == Done && Called(a, tree.nodes, old(itemsByName), itemsByName, cur.item, def.callback, d.subtitle)))
    }

    /**
     * A title in the registry: skipped, callback and all, when the entry
     * needs an item parent and the parent cursor is not an item; otherwise
     * the block of the entry's class is built, and then, unless that
     * raised, the entry's callback runs on the open item.
     */
    method Registered(d: Decl, meta: string) returns (r: Step)
      requires Valid() && d.title in headerDefs
      modifies this`itemsByName, tree
      ensures Valid() && Grows(old(tree.nodes), tree.nodes)
      ensures RegisteredEffect(d, meta, r)
    {
      var def := headerDefs[d.title];
      if def.itemOnly && !(cur.parent.Some? && tree.nodes[cur.parent.value].kind == Item) {
        return Done;
      }
      r := BuildAndCall(def, d, meta);
    }

    /** The registry branch once the entry's parent is acceptable: the block, then the callback unless it raised. */
    method BuildAndCall(def: HeaderDef, d: Decl, meta: string) returns (r: Step)
      requires Valid() && (def.callback != NoCallback ==> def.itemOnly) && (def.itemOnly ==> IsItem(tree.nodes, cur.parent))
      modifies this`itemsByName, tree
      ensures Valid() && Grows(old(tree.nodes), tree.nodes)
      ensures var (a, o) := Built(old(tree.nodes), def.kind, d, cur.parent, def.headerSets, meta, pngAnimation);
        && (o == Some(Crashed) ==> r == Crash)
        && (o.Some? && o.value.Raised? ==> r == Fails(o.value.msg) && tree.nodes == a && itemsByName == old(itemsByName))
        && (o.None? || o.value.Made? ==> r == Done && Called(a, tree.nodes, old(itemsByName), itemsByName, cur.item, def.callback, d.subtitle))
    {
      var o := Build(def.kind, d, cur.parent, def.headerSets, meta);
      if o.Some? && !o.value.Made? {
        return StepOf(o.value);
      }
      RunCallback(def.callback, d.subtitle);
      r := Done;
    }

    /** The `callback` of a header definition, run on the subtitle. */
    method RunCallback(cb: Callback, subtitle: string)
      requires Valid() && (cb != NoCallback ==> cur.item.Some?)
      modifies this`itemsByName, tree
      ensures Valid() && Grows(old(tree.nodes), tree.nodes)
      ensures Called(old(tree.nodes), tree.nodes, old(itemsByName), itemsByName, cur.item, cb, subtitle)
    {
      match cb {
        case NoCallback =>
        case StatusCallback =>
          StatusCb(subtitle);
        case AliasCallback =>
          AliasCb(subtitle);
      }
    }

    /** The `cls(...)` call of the registry branch, under the parent cursor. */
    method Build(kind: Kind, d: Decl, parent: Option<nat>, sets: seq<seq<string>>, meta: string) returns (o: Option<Outcome>)
      requires Valid() && ParentIn(tree.nodes, parent)
      modifies tree
      ensures Valid() && Grows(old(tree.nodes), tree.nodes)
      ensures var (a, b) := Built(old(tree.nodes), kind, d, parent, sets, meta, pngAnimation);
        o == b && (o != Some(Crashed) ==> tree.nodes == a)
    {
      ghost var before := tree.nodes;
      o := tree.Build(kind, d, parent, sets, meta, pngAnimation);
      StateGrows(before, tree.nodes, cur, itemsByName, fileBlocks);
    }

    /** `_status_block_cb`: the open item is deprecated iff the subtitle mentions `DEPRECATED`. */
    method StatusCb(subtitle: string)
      requires Valid() && cur.item.Some?
      modifies tree
      ensures Valid() && Grows(old(tree.nodes), tree.nodes)
      ensures var i := cur.item.value; var n := old(tree.nodes)[i];
        tree.nodes == old(tree.nodes)[i := n.(extra := n.extra.(deprecated := Contains(subtitle, "DEPRECATED")))]
    {
      var i := cur.item.value;
      var n := tree.nodes[i];
      SetExtra(i, n.extra.(deprecated := Contains(subtitle, "DEPRECATED")));
    }

    /** `_alias_block_cb`: the comma-separated, stripped aliases join the item's and each names the item. */
    method AliasCb(subtitle: string)
      requires Valid() && cur.item.Some?
      modifies this`itemsByName, tree
      ensures Valid() && Grows(old(tree.nodes), tree.nodes)
      ensures var i := cur.item.value; var n := old(tree.nodes)[i]; var names := CommaList(subtitle);
        && tree.nodes == old(tree.nodes)[i := n.(extra := n.extra.(aliases := n.extra.aliases + names))]
        && itemsByName == Assigned(old(itemsByName), AliasPairs(names, i))
    {
      var i := cur.item.value;
      var names := CommaList(subtitle);
      var n := tree.nodes[i];
      SetExtra(i, n.extra.(aliases := n.extra.aliases + names));
      var m := AliasLoop(itemsByName, names, i);
      AliasesOk(tree.nodes, itemsByName, names, i);
      itemsByName := m;
    }

    /** The loop of `_alias_block_cb`: each alias names the item. */
    static method AliasLoop(m0: map<string, nat>, names: seq<string>, i: nat) returns (m: map<string, nat>)
      ensures m == Assigned(m0, AliasPairs(names, i))
    {
      m := m0;
      var k := 0;
      while k < |names|
        invariant 0 <= k <= |names| && m == Assigned(m0, AliasPairs(names, i)[..k])
      {
        assert AliasPairs(names, i)[..k + 1][..k] == AliasPairs(names, i)[..k];
        m := m[names[k] := i];
        k := k + 1;
      }
      assert AliasPairs(names, i)[..k] == AliasPairs(names, i);
    }

    // -------------------------------------------------------------------
    // Items and their parts

    /** The state and step `ItemDecl` leaves behind, against the state it started from. */
    twostate predicate ItemDeclEffect(d: Decl, r: Step)
      requires old(Valid())
      reads this, tree
    {
      && (old(cur).file.None? ==>
            r == Refusal(d.title, FileFirst) && tree.nodes == old(tree.nodes) && cur == old(cur) && itemsByName == old(itemsByName))
      && (old(cur).file.Some? ==>
            var (a, s) := ItemSection(old(tree.nodes), old(cur), d);
            && (d.subtitle in old(itemsByName) ==>
            var prev := a[old(itemsByName)[d.subtitle]];
            && r == Refusal(d.title, Redeclared(d.subtitle, prev.file, prev.line))
            && tree.nodes == a && cur == old(cur).(section := Some(s), parent := Some(s)) && itemsByName == old(itemsByName))
            && (d.subtitle !in old(itemsByName) && ItemRefusal(d).Some? ==>
            && r == ItemRefusal(d).value
            && tree.nodes == a && cur == old(cur).(section := Some(s), parent := Some(s)) && itemsByName == old(itemsByName))
            && (d.subtitle !in old(itemsByName) && ItemRefusal(d).None? ==>
            && r == Done && tree.nodes == Attached(a, Fresh(Item, d, Some(s)))
            && cur == old(cur).(section := Some(s), item := Some(|a|), parent := Some(|a|))
            && itemsByName == old(itemsByName)[d.subtitle := |a|]))
    }

    /**
     * `Constant`, `Function`, `Module`, `Function&Module`: needs a file
     * block; opens an untitled section when none is open, which becomes
     * the parent; a name already registered is refused, citing its first
     * declaration, with the registry unchanged; otherwise the item is
     * registered and becomes the open item and the parent.
     */
    method ItemDecl(d: Decl) returns (r: Step)
      requires Valid()
      modifies this`cur, this`itemsByName, tree
      ensures Valid() && Grows(old(tree.nodes), tree.nodes)
      ensures ItemDeclEffect(d, r)
    {
      if cur.file.None? {
        return Refusal(d.title, FileFirst);
      }
      OpenSection(d);
      if d.subtitle in itemsByName {
        var prev := tree.nodes[itemsByName[d.subtitle]];
        return Refusal(d.title, Redeclared(d.subtitle, prev.file, prev.line));
      }
      r := NewItem(d);
    }

    /** The untitled section an item needs when no section is open; it becomes the parent. */
    method OpenSection(d: Decl)
      requires Valid() && cur.file.Some?
      modifies this`cur, tree
      ensures Valid() && Grows(old(tree.nodes), tree.nodes)
      ensures var (a, s) := ItemSection(old(tree.nodes), old(cur), d);
        tree.nodes == a && cur == old(cur).(section := Some(s), parent := Some(s))
    {
      ghost var before := tree.nodes;
      if cur.section.None? {
        var s := tree.NewBlock(Section, Decl("Section", "", [], d.file, d.line), cur.file);
        StateGrows(before, tree.nodes, cur, itemsByName, fileBlocks);
        cur := cur.(section := Some(s));
      }
      cur := cur.(parent := cur.section);
    }

    /** `ItemBlock(...)` under the open section, registered under its name and opened. */
    method NewItem(d: Decl) returns (r: Step)
      requires Valid() && cur.section.Some? && cur.parent == cur.section && d.subtitle !in itemsByName
      modifies this`cur, this`itemsByName, tree
      ensures Valid() && Grows(old(tree.nodes), tree.nodes)
      ensures ItemRefusal(d).Some? ==>
        r == ItemRefusal(d).value && tree.nodes == old(tree.nodes) && cur == old(cur) && itemsByName == old(itemsByName)
      ensures ItemRefusal(d).None? ==>
        var id := |old(tree.nodes)|;
        && r == Done && tree.nodes == Attached(old(tree.nodes), Fresh(Item, d, old(cur).section))
        && cur == old(cur).(item := Some(id), parent := Some(id)) && itemsByName == old(itemsByName)[d.subtitle := id]
    {
      ghost var before := tree.nodes;
      var o := tree.NewItem(d, cur.section);
      StateGrows(before, tree.nodes, cur, itemsByName, fileBlocks);
      if !o.Made? {
        return StepOf(o);
      }
      assert tree.nodes[o.id] == Fresh(Item, d, cur.section);
      OpenItem(d.subtitle, o.id);
      r := Done;
    }

    /** The new item `id` is registered under `name` and opened: the item and parent cursors move to it. */
    method OpenItem(name: string, id: nat)
      requires Valid() && cur.section.Some? && IsKind(tree.nodes, cur.section, Section)
      requires id < |tree.nodes| && tree.nodes[id].kind == Item && tree.nodes[id].parent == cur.section
      modifies this`cur, this`itemsByName
      ensures Valid() && cur == old(cur).(item := Some(id), parent := Some(id)) && itemsByName == old(itemsByName)[name := id]
    {
      ItemOpened(tree.nodes, cur, itemsByName, fileBlocks, name, id);
      itemsByName := itemsByName[name := id];
      cur := cur.(item := Some(id), parent := Some(id));
    }

    /** The state and step `ItemPart` leaves behind, against the state it started from. */
    twostate predicate ItemPartEffect(d: Decl, r: Step)
      requires old(Valid())
      reads this, tree
    {
      && cur == old(cur)
      && (cur.item.None? ==> r == Done && tree.nodes == old(tree.nodes))
      && (cur.item.Some? && d.title == "SynTags" && !IsItem(old(tree.nodes), cur.parent) ==> r == Crash)
      && (cur.item.Some? && d.title != "SynTags" ==>
            && r == (if d.body != [] then Refusal(d.title, BodyNotSupported) else Done)
            && |tree.nodes| == |old(tree.nodes)| + (if d.body != [] then 0 else 1)
            && (d.body == [] ==> tree.nodes[|old(tree.nodes)|].parent == cur.parent))
      && (cur.item.Some? && (d.title == "SynTags" ==> IsItem(old(tree.nodes), cur.parent)) ==>
            var (t, o) := PartAfter(old(tree.nodes), d, cur.parent.value, syntagsData);
            tree.nodes == t && r == StepOf(o))
    }

    /**
     * `Synopsis`, `SynTags`, `Topics`, `See Also`: only while an item is
     * open, a block under the parent cursor; syntax tags under a parent
     * that is not an item are a Python error.
     */
    method ItemPart(d: Decl) returns (r: Step)
      requires Valid() && (d.title == "Synopsis" || d.title == "SynTags" || d.title == "Topics" || d.title == "See Also")
      modifies tree
      ensures Valid() && Grows(old(tree.nodes), tree.nodes)
      ensures ItemPartEffect(d, r)
    {
      if cur.item.None? {
        return Done;
      }
      if d.title == "SynTags" && tree.nodes[cur.parent.value].kind != Item {
        return Crash;
      }
      var p := cur.parent.value;
      ghost var before := tree.nodes;
      var o := tree.NewPart(d, p, syntagsData);
      StateGrows(before, tree.nodes, cur, itemsByName, fileBlocks);
      r := StepOf(o);
    }

    /**
     * `_files_prioritized`: the file blocks named by each priority file in
     * turn, then every other file block in its own order.
     */
    method FilesPrioritized() returns (out: seq<nat>)
      requires Valid()
      ensures var ks := Prioritized(FileNames(tree.nodes, fileBlocks), priorityFiles);
        Within(ks, |fileBlocks|) && out == Pick(fileBlocks, ks) && FilesOk(tree.nodes, out)
    {
      var names := FileNames(tree.nodes, fileBlocks);
      out := PrioritizedLoop(fileBlocks, names, priorityFiles);
      PrioritizedFirst(names, priorityFiles);
      PickFiles(tree.nodes, fileBlocks, Prioritized(names, priorityFiles));
    }

    /**
     * The loops of `_files_prioritized` on the file blocks and their
     * subtitles; `found` holds the priority names some block answered.
     */
    static method PrioritizedLoop<T(==)>(files: seq<nat>, names: seq<T>, pris: seq<T>) returns (out: seq<nat>)
      requires |names| == |files|
      ensures Within(Prioritized(names, pris), |files|) && out == Pick(files, Prioritized(names, pris))
    {
      var front, found, ks := FrontLoop(files, names, pris);
      out := OthersLoop(files, names, pris, found, front, ks);
    }

    /** The outer loop of `_files_prioritized`: the file blocks of each priority name in turn. */
    static method FrontLoop<T(==)>(files: seq<nat>, names: seq<T>, pris: seq<T>)
      returns (out: seq<nat>, found: set<T>, ghost ks: seq<int>)
      requires |names| == |files|
      ensures ks == Front(names, pris, |pris|) && Within(ks, |files|) && out == Pick(files, ks)
      ensures forall k :: 0 <= k < |names| ==> (names[k] in found <==> names[k] in pris)
    {
      out, found, ks := [], {}, [];
      var j := 0;
      while j < |pris|
        invariant 0 <= j <= |pris| && ks == Front(names, pris, j) && Within(ks, |files|) && out == Pick(files, ks)
        invariant forall k :: 0 <= k < |names| ==> (names[k] in found <==> names[k] in pris[..j])
      {
        FrontStep(names, pris, j);
        assert pris[..j + 1] == pris[..j] + [pris[j]];
        out, ks, found := MatchLoop(files, names, pris[j], out, ks, found);
        j := j + 1;
      }
      assert pris[..j] == pris;
    }

    /** The inner loop of `_files_prioritized`: the file blocks named `pri`, in order, each noting `pri` as found. */
    static method MatchLoop<T(==)>(files: seq<nat>, names: seq<T>, pri: T, out0: seq<nat>, ghost ks0: seq<int>,
                                   found0: set<T>)
      returns (out: seq<nat>, ghost ks: seq<int>, found: set<T>)
      requires |names| == |files| && Within(ks0, |files|) && out0 == Pick(files, ks0)
      ensures ks == ks0 + Matches(names, pri, |files|) && Within(ks, |files|) && out == Pick(files, ks)
      ensures found0 <= found <= found0 + {pri}
      ensures forall k :: 0 <= k < |names| && names[k] == pri ==> names[k] in found
    {
      out, ks, found := out0, ks0, found0;
      var i := 0;
      while i < |files|
        invariant 0 <= i <= |files| && ks == ks0 + Matches(names, pri, i)
        invariant Within(ks, |files|) && out == Pick(files, ks)
        invariant found0 <= found <= found0 + {pri}
        invariant forall k :: 0 <= k < i && names[k] == pri ==> pri in found
      {
        assert Matches(names, pri, i + 1) == Matches(names, pri, i) + (if names[i] == pri then [i] else []);
        if names[i] == pri {
          found := found + {pri};
          PickSnoc(files, ks, i);
          assert ks0 + (Matches(names, pri, i) + [i]) == ks + [i];
          ks, out := ks + [i], out + [files[i]];
        }
        i := i + 1;
      }
    }

    /** The last loop of `_files_prioritized`: the file blocks whose name was not found, in order. */
    static method OthersLoop<T(==)>(files: seq<nat>, names: seq<T>, pris: seq<T>, found: set<T>,
                                    out0: seq<nat>, ghost ks0: seq<int>)
      returns (out: seq<nat>)
      requires |names| == |files| && Within(ks0, |files|) && out0 == Pick(files, ks0)
      requires forall k :: 0 <= k < |names| ==> (names[k] in found <==> names[k] in pris)
      ensures Within(ks0 + Others(names, pris, |files|), |files|) && out == Pick(files, ks0 + Others(names, pris, |files|))
    {
      out := out0;
      ghost var ks := ks0;
      var i := 0;
      while i < |files|
        invariant 0 <= i <= |files| && ks == ks0 + Others(names, pris, i) && Within(ks, |files|) && out == Pick(files, ks)
      {
        assert Others(names, pris, i + 1) == Others(names, pris, i) + (if names[i] in pris then [] else [i]);
        if names[i] !in found {
          PickSnoc(files, ks, i);
          assert ks0 + (Others(names, pris, i) + [i]) == ks + [i];
          ks, out := ks + [i], out + [files[i]];
        }
        i := i + 1;
      }
    }

    /**
     * The groups `write_toc_file` lists, from the prioritized files: the
     * named groups in the order they first appear, then the unnamed group.
     */
    method TocGroups() returns (groups: seq<string>)
      requires Valid()
      ensures var ks := Prioritized(FileNames(tree.nodes, fileBlocks), priorityFiles);
        Within(ks, |fileBlocks|) && FilesOk(tree.nodes, Pick(fileBlocks, ks))
        && groups == GroupOrder(GroupsOf(tree.nodes, Pick(fileBlocks, ks)))
    {
      var pri := FilesPrioritized();
      groups := GroupLoop(GroupsOf(tree.nodes, pri));
    }

    /** The two loops of `write_toc_file` collecting the groups. */
    static method GroupLoop(gs: seq<string>) returns (groups: seq<string>)
      ensures groups == GroupOrder(gs)
    {
      groups := [];
      var i := 0;
      while i < |gs|
        invariant 0 <= i <= |gs| && groups == Firsts(gs, i)
      {
        if gs[i] != "" && gs[i] !in groups {
          groups := groups + [gs[i]];
        }
        i := i + 1;
      }
      FirstsIn(gs, |gs|);
      ghost var named := groups;
      i := 0;
      while i < |gs|
        invariant 0 <= i <= |gs| && groups == named + (if "" in gs[..i] then [""] else [])
      {
        assert gs[..i + 1] == gs[..i] + [gs[i]];
        if gs[i] == "" && gs[i] !in groups {
          groups := groups + [gs[i]];
        }
        i := i + 1;
      }
      assert gs[..|gs|] == gs;
    }

    /**
     * The letter buckets of `write_index_file` for the index entries in
     * their sorted order: each entry appended to its letter's list, and the
     * letters found in sorted order.
     */
    static method IndexLetters(entries: seq<(string, nat)>) returns (m: map<char, seq<(string, nat)>>, letters: seq<char>)
      requires forall k :: 0 <= k < |entries| ==> entries[k].0 != []
      ensures m == Buckets(entries, |entries|) && letters == SortedLetters(m.Keys)
    {
      m := map[];
      var i := 0;
      while i < |entries|
        invariant 0 <= i <= |entries| && m == Buckets(entries, i)
      {
        var (name, item) := entries[i];
        var ltr := if !IsAlpha(name[0]) then '0' else UpperChar(name[0]);
        if ltr !in m {
          m := m[ltr := []];
        }
        m := m[ltr := m[ltr] + [(name, item)]];
        i := i + 1;
      }
      letters := SortedLetters(m.Keys);
    }
  }

  /**
   * What a registry callback leaves behind in tree `b` and name registry
   * `m1` after tree `a` and registry `m0`: nothing for no callback; the
   * open item marked deprecated or not; the aliases added and registered.
   */
  ghost predicate Called(a: seq<Node>, b: seq<Node>, m0: map<string, nat>, m1: map<string, nat>, item: Option<nat>,
                         cb: Callback, subtitle: string) {
    match cb
      case NoCallback => b == a && m1 == m0
      case StatusCallback =>
        item.Some? && item.value < |a| && var n := a[item.value];
        b == a[item.value := n.(extra := n.extra.(deprecated := Contains(subtitle, "DEPRECATED")))] && m1 == m0
      case AliasCallback =>
        item.Some? && item.value < |a| && var n := a[item.value]; var names := CommaList(subtitle);
        b == a[item.value := n.(extra := n.extra.(aliases := n.extra.aliases + names))]
        && m1 == Assigned(m0, AliasPairs(names, item.value))
  }

  /** The aliases of an item name that item. */
  lemma AliasesOk(nodes: seq<Node>, m: map<string, nat>, names: seq<string>, i: nat)
    requires NamesOk(nodes, m) && IsItem(nodes, Some(i))
    ensures NamesOk(nodes, Assigned(m, AliasPairs(names, i)))
  {
    AliasesAdded(m, names, i);
  }

  // ---------------------------------------------------------------------
  // Orders of the document writers

  /** Every position names an entry of a list of length `n`. */
  predicate Within(ks: seq<int>, n: nat) {
    forall i :: 0 <= i < |ks| ==> 0 <= ks[i] < n
  }

  /** The listed file blocks at these positions, in the order of the positions. */
  function Pick(files: seq<nat>, ks: seq<int>): seq<nat>
    requires Within(ks, |files|)
  {
    if ks == [] then [] else Pick(files, ks[..|ks| - 1]) + [files[ks[|ks| - 1]]]
  }

  /** Picking one more position picks one more block at the end. */
  lemma PickSnoc(files: seq<nat>, ks: seq<int>, i: int)
    requires Within(ks, |files|) && 0 <= i < |files|
    ensures Within(ks + [i], |files|) && Pick(files, ks + [i]) == Pick(files, ks) + [files[i]]
  {
    assert (ks + [i])[..|ks|] == ks;
  }

  /** Picking keeps to the listed blocks: what is picked from file blocks is file blocks. */
  lemma {:induction false} PickFiles(nodes: seq<Node>, files: seq<nat>, ks: seq<int>)
    requires FilesOk(nodes, files) && Within(ks, |files|)
    ensures |Pick(files, ks)| == |ks| && FilesOk(nodes, Pick(files, ks))
  {
    if ks != [] {
      PickFiles(nodes, files, ks[..|ks| - 1]);
    }
  }

  /** The subtitles of the listed file blocks. */
  function FileNames(nodes: seq<Node>, files: seq<nat>): seq<string>
    requires FilesOk(nodes, files)
  {
    seq(|files|, k requires 0 <= k < |files| => nodes[files[k]].subtitle)
  }

  /** The groups of the listed file blocks. */
  function GroupsOf(nodes: seq<Node>, files: seq<nat>): seq<string>
    requires FilesOk(nodes, files)
  {
    seq(|files|, k requires 0 <= k < |files| => nodes[files[k]].extra.group)
  }
}

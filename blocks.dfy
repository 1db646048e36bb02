/**
 * The document tree: the blocks a parsed source file is made of, how a
 * block's construction changes its parent, how children are ordered and
 * selected, how `{{name}}` links in block text are resolved, which body
 * lines pass through to Markdown untouched, how table blocks are checked
 * and split into cells, how items are named, and how image blocks put
 * their script together and name their image files.
 *
 * Blocks refer to each other by position in an arena (`seq<Node>`): the
 * parent of a block and its children are indices into that sequence, and
 * a change of the parent's fields is an update of the arena.
 */
module DocBlocks {
  import opened Strings
  import opened Paths
  import opened ErrorLogging
  import TargetWiki
  import TargetMkDocs

  lemma SeqAssoc<T>(a: seq<T>, b: seq<T>, c: seq<T>)
    ensures a + (b + c) == (a + b) + c
  {
  }

  // ---------------------------------------------------------------------
  // Output profiles and item links

  /** The output profiles; GitHub wiki pages link like plain wiki pages. */
  datatype Profile = GitHubWiki | Wiki | MkDocs

  /** `target.get_link` of the chosen profile. */
  function GetLink(p: Profile, text: string, anchor: string, file: string, literalize: bool): string {
    if p.MkDocs? then TargetMkDocs.GetLink(text, anchor, file, literalize)
    else TargetWiki.GetLink(text, anchor, file, literalize)
  }

  /**
   * `ItemBlock.get_link`: the label (the raw subtitle unless one is given),
   * the anchor of the item's header, and the item's file only when it is
   * linked from another file.
   */
  function ItemLink(p: Profile, title: string, subtitle: string, file: string, currfile: Option<string>,
                    given: string, literalize: bool): string
  {
    var f := if currfile.None? || file == currfile.value then "" else file;
    GetLink(p, if given != "" then given else subtitle, TargetWiki.HeaderLink(title + ": " + subtitle), f, literalize)
  }

  /** From the item's own file the link names no file; from another file it does. */
  lemma ItemLinkFile(p: Profile, title: string, subtitle: string, file: string, currfile: string)
    ensures var s := TargetWiki.HeaderLink(title + ": " + subtitle);
      (file == currfile ==> ItemLink(p, title, subtitle, file, Some(currfile), "", true) == GetLink(p, subtitle, s, "", true))
      && (file != currfile ==> ItemLink(p, title, subtitle, file, Some(currfile), "", true) == GetLink(p, subtitle, s, file, true))
  {
  }

  // ---------------------------------------------------------------------
  // `{{name}}` links

  /** Characters of a link name: `[A-Za-z0-9_()]`. */
  predicate NameChar(c: char) { IsAlpha(c) || IsDigit(c) || c == '_' || c == '(' || c == ')' }

  /** The length of the run of name characters `s` starts with. */
  function NameRun(s: string): (r: nat)
    ensures r <= |s| && (r == |s| || !NameChar(s[r]))
    ensures forall k :: 0 <= k < r ==> NameChar(s[k])
  {
    if s != [] && NameChar(s[0]) then 1 + NameRun(s[1..]) else 0
  }

  const Open := "{{"
  const Close := "}}"

  /** A `{{name}}` token at the very start of `s`: its name and its length. */
  function TokenAt(s: string): (r: Option<(string, nat)>)
    ensures r.Some? ==> (r.value.1 == |r.value.0| + 4 <= |s| && s[..r.value.1] == Open + r.value.0 + Close
      && r.value.0 != [] && forall k :: 0 <= k < |r.value.0| ==> NameChar(r.value.0[k]))
  {
    if StartsWith(s, Open) then
      var n := NameRun(s[2..]);
      if n > 0 && StartsWith(s[2 + n..], Close) then
        assert s[..2] == Open && s[2 + n..][..2] == Close;
        assert s[2 + n..][..2] == s[2 + n..n + 4];
        assert s[..n + 4] == s[..2] + s[2..2 + n] + s[2 + n..n + 4];
        Some((s[2..2 + n], n + 4))
      else None
    else None
  }

  /** Tokens are found wherever they are spelled out. */
  lemma TokenAtSpelled(name: string, rest: string)
    requires name != [] && forall k :: 0 <= k < |name| ==> NameChar(name[k])
    ensures TokenAt(Open + name + Close + rest) == Some((name, |name| + 4))
  {
    var s := Open + name + Close + rest;
    NameRunOf(name, Close + rest);
    assert s[2..] == name + (Close + rest);
    assert s[2 + |name|..] == Close + rest;
    assert s[..2] == Open && s[2..2 + |name|] == name;
  }

  lemma {:induction false} NameRunOf(name: string, rest: string)
    requires forall k :: 0 <= k < |name| ==> NameChar(name[k])
    requires rest == [] || !NameChar(rest[0])
    ensures NameRun(name + rest) == |name|
  {
    if name != [] {
      assert (name + rest)[1..] == name[1..] + rest;
      NameRunOf(name[1..], rest);
    }
  }

  /**
   * The match of `^(.*?)\{\{([A-Za-z0-9_()]+)\}\}(.*)$` tried from
   * position `i`: the leftmost token whose prefix holds no line break and
   * whose remainder is a `(.*)$`.
   */
  function MatchFrom(s: string, i: nat): (r: Option<(string, string, string)>)
    requires i <= |s|
    ensures r.Some? ==> |r.value.0| + |r.value.1| + |r.value.2| + 4 <= |s| && r.value.1 != []
    decreases |s| - i
  {
    var here :=
      match TokenAt(s[i..])
      case None => None
      case Some(t) =>
        match DollarRest(s[i + t.1..])
        case None => None
        case Some(rest) => Some((s[..i], t.0, rest));
    if here.Some? then here
    else if i < |s| && s[i] != '\n' then MatchFrom(s, i + 1)
    else None
  }

  function LinkMatch(s: string): (r: Option<(string, string, string)>)
    ensures r.Some? ==> |r.value.0| + |r.value.1| + |r.value.2| + 4 <= |s| && r.value.1 != []
  {
    MatchFrom(s, 0)
  }

  /** `parse_links`: each token that names a known item becomes its link; an unknown name is kept bare. */
  function Linked(line: string, links: map<string, string>): string
    decreases |line|
  {
    if line == [] then []
    else match LinkMatch(line)
      case None => line
      case Some((pre, name, rest)) => pre + (if name in links then links[name] else name) + Linked(rest, links)
  }

  /** The unknown names `parse_links` reports, in order. */
  function Unknown(line: string, links: map<string, string>): seq<string>
    decreases |line|
  {
    if line == [] then []
    else match LinkMatch(line)
      case None => []
      case Some((pre, name, rest)) => (if name in links then [] else [name]) + Unknown(rest, links)
  }

  /** The log entry for an unknown link name. */
  function LinkError(file: string, line: int, name: string): Entry {
    Entry(file, line, "Invalid Link " + Open + name + Close, FAIL)
  }

  function LinkErrors(file: string, line: int, names: seq<string>): (r: seq<Entry>)
    ensures |r| == |names| && forall i :: 0 <= i < |names| ==> r[i] == LinkError(file, line, names[i])
  {
    if names == [] then [] else [LinkError(file, line, names[0])] + LinkErrors(file, line, names[1..])
  }

  lemma LinkErrorsAppend(file: string, line: int, a: seq<string>, b: seq<string>)
    ensures LinkErrors(file, line, a + b) == LinkErrors(file, line, a) + LinkErrors(file, line, b)
  {
  }

  /** `{{` never occurs in `s` from position `i` on. */
  lemma {:induction false} NoOpenNoMatch(s: string, i: nat)
    requires i <= |s| && !Contains(s[i..], Open)
    ensures MatchFrom(s, i) == None
    decreases |s| - i
  {
    assert !StartsWith(s[i..], Open);
    if i < |s| {
      assert s[i..][1..] == s[i + 1..];
      NoOpenNoMatch(s, i + 1);
    }
  }

  /** A line without a token is returned unchanged and reports nothing. */
  lemma NoTokenUnchanged(line: string, links: map<string, string>)
    requires !Contains(line, Open)
    ensures Linked(line, links) == line && Unknown(line, links) == []
  {
    assert line[0..] == line;
    NoOpenNoMatch(line, 0);
  }

  /** No token starts before position `i`, and none of those positions is a line break. */
  lemma {:induction false} NoEarlierToken(pre: string, s: string, i: nat)
    requires i <= |pre| && StartsWith(s, pre) && '\n' !in pre && !Contains(pre, "{")
    ensures MatchFrom(s, i) == MatchFrom(s, |pre|)
    decreases |pre| - i
  {
    if i < |pre| {
      assert s[i] == pre[i];
      assert pre[i] != '{' by { ContainsCharAt(pre, i); }
      assert !StartsWith(s[i..], Open);
      NoEarlierToken(pre, s, i + 1);
    }
  }

  lemma ContainsCharAt(s: string, i: nat)
    requires i < |s|
    ensures Contains(s, [s[i]])
  {
    ContainsChar(s, s[i]);
  }

  /**
   * The leftmost token is the one replaced: with a prefix free of `{` and
   * of line breaks and a remainder free of line breaks, `parse_links`
   * keeps the prefix, resolves the name and goes on with the remainder.
   */
  lemma LinkedOne(pre: string, name: string, rest: string, links: map<string, string>)
    requires '\n' !in pre && !Contains(pre, "{") && '\n' !in rest
    requires name != [] && forall k :: 0 <= k < |name| ==> NameChar(name[k])
    ensures var line := pre + Open + name + Close + rest;
      Linked(line, links) == pre + (if name in links then links[name] else name) + Linked(rest, links)
      && Unknown(line, links) == (if name in links then [] else [name]) + Unknown(rest, links)
  {
    LinkMatchOf(pre, name, rest);
    LinkedStep(pre + Open + name + Close + rest, links);
  }

  /** The leftmost token of such a line is the one after the prefix. */
  lemma LinkMatchOf(pre: string, name: string, rest: string)
    requires '\n' !in pre && !Contains(pre, "{") && '\n' !in rest
    requires name != [] && forall k :: 0 <= k < |name| ==> NameChar(name[k])
    ensures LinkMatch(pre + Open + name + Close + rest) == Some((pre, name, rest))
  {
    var line := pre + Open + name + Close + rest;
    Pieces(pre, Open, name, Close, rest);
    assert StartsWith(line, pre);
    NoEarlierToken(pre, line, 0);
    TokenAtSpelled(name, rest);
    assert DollarRest(rest) == Some(rest);
  }

  lemma Pieces<T>(a: seq<T>, b: seq<T>, c: seq<T>, d: seq<T>, e: seq<T>)
    ensures (a + b + c + d + e)[..|a|] == a
    ensures (a + b + c + d + e)[|a|..] == b + c + d + e
    ensures (a + b + c + d + e)[|a| + |b| + |c| + |d|..] == e
  {
    assert a + b + c + d + e == a + (b + c + d + e);
  }

  /** One turn of the `parse_links` loop, as `Linked` and `Unknown` see it. */
  lemma LinkedStep(rest: string, links: map<string, string>)
    requires rest != []
    ensures LinkMatch(rest).None? ==> Linked(rest, links) == rest && Unknown(rest, links) == []
    ensures LinkMatch(rest).Some? ==> (var (pre, name, after) := LinkMatch(rest).value;
      Linked(rest, links) == pre + (if name in links then links[name] else name) + Linked(after, links)
      && Unknown(rest, links) == (if name in links then [] else [name]) + Unknown(after, links))
  {
  }

  /**
   * `parse_links`, the loop: the line is consumed token by token, and each
   * unknown name is logged against the block's origin.
   */
  method ParseLinks(line: string, links: map<string, string>, log: ErrorLog, file: string, lineNo: int)
    returns (oline: string)
    requires log.Valid()
    modifies log
    ensures log.Valid()
    ensures oline == Linked(line, links)
    ensures log.errlist == old(log.errlist) + LinkErrors(file, lineNo, Unknown(line, links))
  {
    oline := "";
    var rest := line;
    while rest != []
      invariant log.Valid()
      invariant oline + Linked(rest, links) == Linked(line, links)
      invariant log.errlist + LinkErrors(file, lineNo, Unknown(rest, links))
        == old(log.errlist) + LinkErrors(file, lineNo, Unknown(line, links))
      decreases |rest|
    {
      var m := LinkMatch(rest);
      LinkedStep(rest, links);
      if m.Some? {
        var pre, name, after := m.value.0, m.value.1, m.value.2;
        ghost var o, before := oline, log.errlist;
        var piece;
        if name !in links {
          log.AddEntry(file, lineNo, "Invalid Link " + Open + name + Close, FAIL);
          piece := name;
        } else {
          piece := links[name];
        }
        oline := oline + pre + piece;
        LoggedStep(before, log.errlist, file, lineNo, name, name in links, Unknown(after, links));
        SeqAssoc(o, pre + piece, Linked(after, links));
        SeqAssoc(o, pre, piece);
        rest := after;
      } else {
        oline := oline + rest;
        rest := "";
      }
    }
  }

  lemma LoggedStep(before: seq<Entry>, after: seq<Entry>, file: string, lineNo: int, name: string, known: bool,
                   more: seq<string>)
    requires after == if known then before else before + [LinkError(file, lineNo, name)]
    ensures after + LinkErrors(file, lineNo, more) == before + LinkErrors(file, lineNo, (if known then [] else [name]) + more)
  {
    LinkErrorsAppend(file, lineNo, if known then [] else [name], more);
    if !known {
      SeqAssoc(before, [LinkError(file, lineNo, name)], LinkErrors(file, lineNo, more));
    } else {
      assert ([] + more) == more;
    }
  }

  // ---------------------------------------------------------------------
  // Markdown bodies

  const Fence := "```"
  const Indent4 := "    "

  /** Whether a body line opens or closes a code fence. */
  predicate Toggles(line: string) { StartsWith(line, Fence) }

  /** One body line as `get_markdown_body` emits it, `inside` saying whether it is within a fence. */
  function BodyLine(line: string, inside: bool, links: map<string, string>): string {
    if inside || StartsWith(line, Indent4) then line
    else if line == "." then ""
    else Linked(line, links)
  }

  /** `get_markdown_body` from here on, `inBlock` being the fence state before `body`. */
  function MdBody(body: seq<string>, inBlock: bool, links: map<string, string>): (r: seq<string>)
    ensures |r| == |body|
  {
    if body == [] then []
    else
      var ib := if Toggles(body[0]) then !inBlock else inBlock;
      [BodyLine(body[0], ib, links)] + MdBody(body[1..], ib, links)
  }

  /** The names of the unknown links `get_markdown_body` reports, in order. */
  function MdUnknown(body: seq<string>, inBlock: bool, links: map<string, string>): seq<string> {
    if body == [] then []
    else
      var ib := if Toggles(body[0]) then !inBlock else inBlock;
      var line := body[0];
      (if ib || StartsWith(line, Indent4) || line == "." then [] else Unknown(line, links))
      + MdUnknown(body[1..], ib, links)
  }

  /** The number of fence lines among the first `n` lines of `body`. */
  function Fences(body: seq<string>, n: nat): nat
    requires n <= |body|
  {
    if n == 0 then 0 else Fences(body, n - 1) + (if Toggles(body[n - 1]) then 1 else 0)
  }

  /** The fence state after the first `n` lines of `body`, starting outside a fence. */
  function FenceState(body: seq<string>, n: nat): bool
    requires n <= |body|
  {
    if n == 0 then false
    else if Toggles(body[n - 1]) then !FenceState(body, n - 1)
    else FenceState(body, n - 1)
  }

  /** The state is "inside" exactly when an odd number of fence lines have gone by. */
  lemma {:induction false} FenceStateOdd(body: seq<string>, n: nat)
    requires n <= |body|
    ensures FenceState(body, n) == (Fences(body, n) % 2 == 1)
  {
    if n > 0 {
      FenceStateOdd(body, n - 1);
    }
  }

  /**
   * Line `i` is inside a fence exactly when an odd number of fence lines
   * lead up to it, itself included: a fence line that opens is inside,
   * one that closes is not.
   */
  predicate InFence(body: seq<string>, i: nat)
    requires i < |body|
  {
    Fences(body, i + 1) % 2 == 1
  }

  /** The fence state `MdBody` uses for line `j` of `body`, starting from `inBlock`. */
  function StateAt(body: seq<string>, inBlock: bool, j: nat): bool
    requires j < |body|
  {
    var ib := if Toggles(body[0]) then !inBlock else inBlock;
    if j == 0 then ib else StateAt(body[1..], ib, j - 1)
  }

  /**
   * `get_markdown_body` keeps the length of the body; fenced lines and
   * lines indented four spaces come out verbatim, a lone `.` becomes an
   * empty line, and every other line has its links resolved.
   */
  lemma MdBodySpec(body: seq<string>, links: map<string, string>, i: nat)
    requires i < |body|
    ensures |MdBody(body, false, links)| == |body|
    ensures MdBody(body, false, links)[i] == BodyLine(body[i], InFence(body, i), links)
  {
    MdBodyAt(body, false, links, i);
    StateAtStart(body, i);
  }

  /** From the start of the body, the state `MdBody` uses for line `i` is `InFence`. */
  lemma StateAtStart(body: seq<string>, i: nat)
    requires i < |body|
    ensures StateAt(body, false, i) == InFence(body, i)
  {
    assert body[0..] == body;
    StateAtFence(body, 0, i);
    FenceStateOdd(body, i + 1);
  }

  lemma {:induction false} MdBodyAt(body: seq<string>, inBlock: bool, links: map<string, string>, j: nat)
    requires j < |body|
    ensures MdBody(body, inBlock, links)[j] == BodyLine(body[j], StateAt(body, inBlock, j), links)
  {
    if j == 0 {
      MdBodyHead(body, inBlock, links);
    } else {
      var ib := if Toggles(body[0]) then !inBlock else inBlock;
      MdBodyAt(body[1..], ib, links, j - 1);
      MdBodyShift(body, inBlock, links, j);
      assert body[1..][j - 1] == body[j];
    }
  }

  lemma {:induction false} StateAtFence(body: seq<string>, k: nat, i: nat)
    requires k <= i < |body|
    ensures StateAt(body[k..], FenceState(body, k), i - k) == FenceState(body, i + 1)
    decreases i - k
  {
    var tail := body[k..];
    assert tail[0] == body[k] && tail[1..] == body[k + 1..];
    if k < i {
      StateAtFence(body, k + 1, i);
    }
  }

  lemma MdBodyHead(body: seq<string>, inBlock: bool, links: map<string, string>)
    requires body != []
    ensures MdBody(body, inBlock, links)[0] == BodyLine(body[0], if Toggles(body[0]) then !inBlock else inBlock, links)
  {
  }

  lemma MdBodyShift(body: seq<string>, inBlock: bool, links: map<string, string>, j: nat)
    requires 0 < j < |body|
    ensures MdBody(body, inBlock, links)[j] == MdBody(body[1..], if Toggles(body[0]) then !inBlock else inBlock, links)[j - 1]
  {
  }

  /**
   * `get_markdown_body`, the loop: one output line per body line, through
   * `parse_links` where links are resolved.
   */
  method MarkdownBody(body: seq<string>, links: map<string, string>, log: ErrorLog, file: string, lineNo: int)
    returns (out: seq<string>)
    requires log.Valid()
    modifies log
    ensures log.Valid()
    ensures out == MdBody(body, false, links)
    ensures log.errlist == old(log.errlist) + LinkErrors(file, lineNo, MdUnknown(body, false, links))
  {
    out := [];
    var inBlock := false;
    var i := 0;
    assert body[0..] == body;
    while i < |body|
      invariant 0 <= i <= |body| && log.Valid()
      invariant out + MdBody(body[i..], inBlock, links) == MdBody(body, false, links)
      invariant log.errlist + LinkErrors(file, lineNo, MdUnknown(body[i..], inBlock, links))
        == old(log.errlist) + LinkErrors(file, lineNo, MdUnknown(body, false, links))
    {
      var line := body[i];
      ghost var o, before, ib0 := out, log.errlist, inBlock;
      assert body[i..][0] == line && body[i..][1..] == body[i + 1..];
      if StartsWith(line, Fence) {
        inBlock := !inBlock;
      }
      var emitted;
      if inBlock || StartsWith(line, Indent4) {
        emitted := line;
        assert log.errlist == before + LinkErrors(file, lineNo, []);
      } else if line == "." {
        emitted := "";
        assert log.errlist == before + LinkErrors(file, lineNo, []);
      } else {
        emitted := ParseLinks(line, links, log, file, lineNo);
      }
      out := out + [emitted];
      SeqAssoc(o, [emitted], MdBody(body[i + 1..], inBlock, links));
      ghost var u := if inBlock || StartsWith(line, Indent4) || line == "." then [] else Unknown(line, links);
      LinkErrorsAppend(file, lineNo, u, MdUnknown(body[i + 1..], inBlock, links));
      SeqAssoc(before, LinkErrors(file, lineNo, u), LinkErrors(file, lineNo, MdUnknown(body[i + 1..], inBlock, links)));
      i := i + 1;
    }
    assert body[i..] == [];
  }
}

// Queries a block answers about itself and its children once the tree is
// built: the order of its children, the children with given titles, its
// printed name, the function/module abbreviation, table rows and the
// targets of a See Also block.

module BlockQueries {
  import opened Strings
  import opened ErrorLogging
  import BlockTree
  import DocBlocks
  import TargetWiki

  /** A child block as the queries see it: its index in the tree and its title. */
  datatype Child = Child(id: nat, title: string)

  /** The children of block `p`, in order, with their titles. */
  function ChildrenOf(nodes: seq<BlockTree.Node>, p: nat): (r: seq<Child>)
    requires BlockTree.WellFormed(nodes) && p < |nodes|
    ensures |r| == |nodes[p].children|
    ensures forall k :: 0 <= k < |r| ==> r[k].id == nodes[p].children[k] && nodes[r[k].id].parent == Some(p)
  {
    seq(|nodes[p].children|, k requires 0 <= k < |nodes[p].children| =>
      Child(nodes[p].children[k], nodes[nodes[p].children[k]].title))
  }

  // ---------------------------------------------------------------------
  // sort_children
  // ---------------------------------------------------------------------

  /** The children whose title starts with `prefix`, in order. */
  function Matching(cs: seq<Child>, prefix: string): seq<Child> {
    if cs == [] then []
    else Matching(cs[..|cs| - 1], prefix) + (if StartsWith(cs[|cs| - 1].title, prefix) then [cs[|cs| - 1]] else [])
  }

  /** For each prefix of a group in turn, the children it matches. */
  function GroupPart(cs: seq<Child>, blocks: seq<string>): seq<Child> {
    if blocks == [] then []
    else GroupPart(cs, blocks[..|blocks| - 1]) + Matching(cs, blocks[|blocks| - 1])
  }

  /** For each group in turn, its matches. */
  function GroupsPart(cs: seq<Child>, groups: seq<seq<string>>): seq<Child> {
    if groups == [] then []
    else GroupsPart(cs, groups[..|groups| - 1]) + GroupPart(cs, groups[|groups| - 1])
  }

  /** All prefixes of all groups, in order. */
  function Flatten(groups: seq<seq<string>>): seq<string> {
    if groups == [] then []
    else Flatten(groups[..|groups| - 1]) + groups[|groups| - 1]
  }

  /** Some prefix of `blocks` starts `title`. */
  predicate AnyPrefix(title: string, blocks: seq<string>) {
    exists b :: b in blocks && StartsWith(title, b)
  }

  /** The children no prefix of `blocks` matches, in order. */
  function Unmatched(cs: seq<Child>, blocks: seq<string>): seq<Child> {
    if cs == [] then []
    else Unmatched(cs[..|cs| - 1], blocks) + (if AnyPrefix(cs[|cs| - 1].title, blocks) then [] else [cs[|cs| - 1]])
  }

  /** `sort_children`: front matches, then the unmatched children, then back matches. */
  function SortedChildren(cs: seq<Child>, front: seq<seq<string>>, back: seq<seq<string>>): seq<Child> {
    GroupsPart(cs, front) + Unmatched(cs, Flatten(front + back)) + GroupsPart(cs, back)
  }

  /** The matches of one prefix, child by child. */
  method MatchingOf(cs: seq<Child>, prefix: string) returns (r: seq<Child>)
    ensures r == Matching(cs, prefix)
  {
    r := [];
    var c := 0;
    while c < |cs|
      invariant 0 <= c <= |cs| && r == Matching(cs[..c], prefix)
    {
      assert cs[..c + 1][..c] == cs[..c];
      if StartsWith(cs[c].title, prefix) {
        r := r + [cs[c]];
      }
      c := c + 1;
    }
    assert cs[..c] == cs;
  }

  /** The matches of one group, prefix by prefix. */
  method GroupPartOf(cs: seq<Child>, blocks: seq<string>) returns (r: seq<Child>)
    ensures r == GroupPart(cs, blocks)
  {
    r := [];
    var b := 0;
    while b < |blocks|
      invariant 0 <= b <= |blocks| && r == GroupPart(cs, blocks[..b])
    {
      assert blocks[..b + 1][..b] == blocks[..b];
      var m := MatchingOf(cs, blocks[b]);
      r := r + m;
      b := b + 1;
    }
    assert blocks[..b] == blocks;
  }

  /** The matches of the groups, group by group. */
  method GroupsPartOf(cs: seq<Child>, groups: seq<seq<string>>) returns (r: seq<Child>)
    ensures r == GroupsPart(cs, groups)
  {
    r := [];
    var g := 0;
    while g < |groups|
      invariant 0 <= g <= |groups| && r == GroupsPart(cs, groups[..g])
    {
      assert groups[..g + 1][..g] == groups[..g];
      var m := GroupPartOf(cs, groups[g]);
      r := r + m;
      g := g + 1;
    }
    assert groups[..g] == groups;
  }

  /** The children none of `blocks` matches, child by child. */
  method UnmatchedOf(cs: seq<Child>, blocks: seq<string>) returns (r: seq<Child>)
    ensures r == Unmatched(cs, blocks)
  {
    r := [];
    var c := 0;
    while c < |cs|
      invariant 0 <= c <= |cs| && r == Unmatched(cs[..c], blocks)
    {
      assert cs[..c + 1][..c] == cs[..c];
      var found := exists b :: b in blocks && StartsWith(cs[c].title, b);
      if !found {
        r := r + [cs[c]];
      }
      c := c + 1;
    }
    assert cs[..c] == cs;
  }

  /** `GenericBlock.sort_children`. */
  method SortChildren(cs: seq<Child>, front: seq<seq<string>>, back: seq<seq<string>>) returns (r: seq<Child>)
    ensures r == SortedChildren(cs, front, back)
  {
    var head := GroupsPartOf(cs, front);
    var middle := UnmatchedOf(cs, Flatten(front + back));
    var tail := GroupsPartOf(cs, back);
    r := head + middle + tail;
  }

  /** A child is among the matches of a prefix exactly when it is a child the prefix starts. */
  lemma {:induction false} MatchingMember(cs: seq<Child>, prefix: string, x: Child)
    ensures x in Matching(cs, prefix) <==> x in cs && StartsWith(x.title, prefix)
    ensures StartsWith(x.title, prefix) ==> multiset(Matching(cs, prefix))[x] == multiset(cs)[x]
    ensures !StartsWith(x.title, prefix) ==> multiset(Matching(cs, prefix))[x] == 0
  {
    if cs != [] {
      MatchingMember(cs[..|cs| - 1], prefix, x);
      assert cs == cs[..|cs| - 1] + [cs[|cs| - 1]];
    }
  }

  /** A child is among a group's matches exactly when it is a child some prefix of the group starts. */
  lemma {:induction false} GroupPartMember(cs: seq<Child>, blocks: seq<string>, x: Child)
    ensures x in GroupPart(cs, blocks) <==> x in cs && AnyPrefix(x.title, blocks)
  {
    if blocks != [] {
      var init, last := blocks[..|blocks| - 1], blocks[|blocks| - 1];
      GroupPartMember(cs, init, x);
      MatchingMember(cs, last, x);
      assert blocks == init + [last];
      AnyPrefixSnoc(x.title, init, last);
    }
  }

  lemma AnyPrefixSnoc(title: string, init: seq<string>, last: string)
    ensures AnyPrefix(title, init + [last]) <==> AnyPrefix(title, init) || StartsWith(title, last)
  {
    if AnyPrefix(title, init + [last]) {
      var b :| b in init + [last] && StartsWith(title, b);
      if b != last {
        assert b in init;
      }
    }
    if AnyPrefix(title, init) {
      var b :| b in init && StartsWith(title, b);
      assert b in init + [last];
    }
    if StartsWith(title, last) {
      assert last in init + [last];
    }
  }

  /** A child is among the groups' matches exactly when it is a child some prefix of some group starts. */
  lemma {:induction false} GroupsPartMember(cs: seq<Child>, groups: seq<seq<string>>, x: Child)
    ensures x in GroupsPart(cs, groups) <==> x in cs && AnyPrefix(x.title, Flatten(groups))
  {
    if groups != [] {
      var init, last := groups[..|groups| - 1], groups[|groups| - 1];
      GroupsPartMember(cs, init, x);
      GroupPartMember(cs, last, x);
      assert Flatten(groups) == Flatten(init) + last;
    }
  }

  /** The unmatched part keeps every copy of a child no prefix matches, and no other child. */
  lemma {:induction false} UnmatchedMember(cs: seq<Child>, blocks: seq<string>, x: Child)
    ensures x in Unmatched(cs, blocks) <==> x in cs && !AnyPrefix(x.title, blocks)
    ensures !AnyPrefix(x.title, blocks) ==> multiset(Unmatched(cs, blocks))[x] == multiset(cs)[x]
  {
    if cs != [] {
      UnmatchedMember(cs[..|cs| - 1], blocks, x);
      assert cs == cs[..|cs| - 1] + [cs[|cs| - 1]];
    }
  }

  lemma {:induction false} FlattenAppend(a: seq<seq<string>>, b: seq<seq<string>>)
    ensures Flatten(a + b) == Flatten(a) + Flatten(b)
    decreases |b|
  {
    if b == [] {
      assert a + b == a;
    } else {
      assert (a + b)[..|a + b| - 1] == a + b[..|b| - 1];
      FlattenAppend(a, b[..|b| - 1]);
    }
  }

  /**
   * The sorted children fall in three runs: first children some front
   * prefix matches, then children no front or back prefix matches, then
   * children some back prefix matches.
   */
  lemma SortedLayout(cs: seq<Child>, front: seq<seq<string>>, back: seq<seq<string>>)
    ensures var r := SortedChildren(cs, front, back);
      var f, u := |GroupsPart(cs, front)|, |Unmatched(cs, Flatten(front + back))|;
      && (forall i :: 0 <= i < f ==> r[i] in cs && AnyPrefix(r[i].title, Flatten(front)))
      && (forall i :: f <= i < f + u ==> r[i] in cs && !AnyPrefix(r[i].title, Flatten(front + back)))
      && (forall i :: f + u <= i < |r| ==> r[i] in cs && AnyPrefix(r[i].title, Flatten(back)))
  {
    var r := SortedChildren(cs, front, back);
    var fp, up, bp := GroupsPart(cs, front), Unmatched(cs, Flatten(front + back)), GroupsPart(cs, back);
    forall i | 0 <= i < |fp|
      ensures r[i] in cs && AnyPrefix(r[i].title, Flatten(front))
    {
      assert r[i] == fp[i];
      GroupsPartMember(cs, front, fp[i]);
    }
    forall i | |fp| <= i < |fp| + |up|
      ensures r[i] in cs && !AnyPrefix(r[i].title, Flatten(front + back))
    {
      assert r[i] == up[i - |fp|];
      UnmatchedMember(cs, Flatten(front + back), up[i - |fp|]);
    }
    forall i | |fp| + |up| <= i < |r|
      ensures r[i] in cs && AnyPrefix(r[i].title, Flatten(back))
    {
      assert r[i] == bp[i - |fp| - |up|];
      GroupsPartMember(cs, back, bp[i - |fp| - |up|]);
    }
  }

  /** No child is lost: every child appears in the sorted list. */
  lemma SortedKeepsAll(cs: seq<Child>, front: seq<seq<string>>, back: seq<seq<string>>, x: Child)
    requires x in cs
    ensures x in SortedChildren(cs, front, back)
  {
    FlattenAppend(front, back);
    GroupsPartMember(cs, front, x);
    GroupsPartMember(cs, back, x);
    UnmatchedMember(cs, Flatten(front + back), x);
    if AnyPrefix(x.title, Flatten(front + back)) {
      var b :| b in Flatten(front + back) && StartsWith(x.title, b);
      assert b in Flatten(front) || b in Flatten(back);
    }
  }

  /** A child no prefix matches appears as often as it is a child: once, for a child listed once. */
  lemma SortedUnmatchedOnce(cs: seq<Child>, front: seq<seq<string>>, back: seq<seq<string>>, x: Child)
    requires !AnyPrefix(x.title, Flatten(front + back))
    ensures multiset(SortedChildren(cs, front, back))[x] == multiset(cs)[x]
  {
    FlattenAppend(front, back);
    GroupsPartMember(cs, front, x);
    GroupsPartMember(cs, back, x);
    UnmatchedMember(cs, Flatten(front + back), x);
    assert forall b :: b in Flatten(front) ==> b in Flatten(front + back);
    assert forall b :: b in Flatten(back) ==> b in Flatten(front + back);
    assert multiset(GroupsPart(cs, front))[x] == 0;
    assert multiset(GroupsPart(cs, back))[x] == 0;
  }

  // ---------------------------------------------------------------------
  // get_children_by_title
  // ---------------------------------------------------------------------

  /** The `titles` argument: a single title or a list of them. */
  datatype Titles = One(title: string) | Many(titles: seq<string>)

  function TitleList(t: Titles): seq<string> {
    match t
    case One(s) => [s]
    case Many(ts) => ts
  }

  /** `get_children_by_title`: the children whose title is one of the titles, in order. */
  function ChildrenByTitle(cs: seq<Child>, t: Titles): seq<Child> {
    Named(cs, TitleList(t))
  }

  function Named(cs: seq<Child>, titles: seq<string>): seq<Child> {
    if cs == [] then []
    else Named(cs[..|cs| - 1], titles) + (if cs[|cs| - 1].title in titles then [cs[|cs| - 1]] else [])
  }

  /** A child is returned exactly when its title is one of the titles, as often as it is a child. */
  lemma ChildrenByTitleMember(cs: seq<Child>, t: Titles, x: Child)
    ensures x in ChildrenByTitle(cs, t) <==> x in cs && x.title in TitleList(t)
    ensures x.title in TitleList(t) ==> multiset(ChildrenByTitle(cs, t))[x] == multiset(cs)[x]
  {
    NamedMember(cs, TitleList(t), x);
  }

  lemma {:induction false} NamedMember(cs: seq<Child>, titles: seq<string>, x: Child)
    ensures x in Named(cs, titles) <==> x in cs && x.title in titles
    ensures x.title in titles ==> multiset(Named(cs, titles))[x] == multiset(cs)[x]
  {
    if cs != [] {
      NamedMember(cs[..|cs| - 1], titles, x);
      assert cs == cs[..|cs| - 1] + [cs[|cs| - 1]];
    }
  }

  /** Listing every child's title returns all the children, in order. */
  lemma {:induction false} ChildrenByTitleAll(cs: seq<Child>, t: Titles)
    requires forall k :: 0 <= k < |cs| ==> cs[k].title in TitleList(t)
    ensures ChildrenByTitle(cs, t) == cs
  {
    NamedAll(cs, TitleList(t));
  }

  lemma {:induction false} NamedAll(cs: seq<Child>, titles: seq<string>)
    requires forall k :: 0 <= k < |cs| ==> cs[k].title in titles
    ensures Named(cs, titles) == cs
  {
    if cs != [] {
      NamedAll(cs[..|cs| - 1], titles);
      assert cs == cs[..|cs| - 1] + [cs[|cs| - 1]];
    }
  }

  // ---------------------------------------------------------------------
  // __str__ and get_funmod
  // ---------------------------------------------------------------------

  /** `re.sub(r'\([^\)]*\)', '()', s)`: each parenthesised run, empty or not, becomes `()`. */
  function CollapseParens(s: string): (r: string)
    decreases |s|
  {
    if s == [] then []
    else match (if s[0] == '(' then IndexOf(s[1..], ')') else None)
      case Some(k) => "()" + CollapseParens(s[k + 2..])
      case None => [s[0]] + CollapseParens(s[1..])
  }

  /** `GenericBlock.__str__`: the title with `&` shown as `/`, then the subtitle. */
  function BlockStr(title: string, subtitle: string): string {
    ReplaceChar(title, '&', "/") + ": " + subtitle
  }

  /** `ItemBlock.__str__`: as for any block, with parenthesised text in the subtitle collapsed. */
  function ItemStr(title: string, subtitle: string): string {
    ReplaceChar(title, '&', "/") + ": " + CollapseParens(subtitle)
  }

  lemma ParenTextTail(s: string)
    requires s != []
    ensures BlockTree.ParenText(s[1..]) ==> BlockTree.ParenText(s)
  {
  }

  /** A closing parenthesis in the collapsed text was already in the text. */
  lemma {:induction false} CollapseNoClose(s: string)
    ensures ')' !in s ==> ')' !in CollapseParens(s)
    decreases |s|
  {
    if s != [] && ')' !in s {
      assert ')' !in s[1..];
      CollapseNoClose(s[1..]);
      if s[0] == '(' {
        assert IndexOf(s[1..], ')') == None;
      }
    }
  }

  /**
   * An item subtitle the Item constructor accepts (no non-empty
   * parenthesised text) is printed unchanged.
   */
  lemma {:induction false} CollapseAccepted(s: string)
    requires !BlockTree.ParenText(s)
    ensures CollapseParens(s) == s
    decreases |s|
  {
    if s != [] {
      ParenTextTail(s);
      var m := if s[0] == '(' then IndexOf(s[1..], ')') else None;
      if m.Some? {
        var k := m.value;
        if k == 0 {
          assert s[1] == ')';
          ParenTextTail(s[1..]);
          assert s[2..] == s[1..][1..];
          CollapseAccepted(s[2..]);
          assert s == "()" + s[2..];
        } else {
          assert false;
        }
      } else {
        CollapseAccepted(s[1..]);
        assert s == [s[0]] + s[1..];
      }
    }
  }

  /** The printed subtitle holds no non-empty parenthesised text. */
  lemma {:induction false} CollapseClean(s: string)
    ensures !BlockTree.ParenText(CollapseParens(s))
    decreases |s|
  {
    if s != [] {
      var m := if s[0] == '(' then IndexOf(s[1..], ')') else None;
      if m.Some? {
        var rest := CollapseParens(s[m.value + 2..]);
        CollapseClean(s[m.value + 2..]);
        var r := "()" + rest;
        assert r[1..] == ")" + rest && r[1..][1..] == rest;
      } else {
        var rest := CollapseParens(s[1..]);
        CollapseClean(s[1..]);
        var r := [s[0]] + rest;
        assert r[1..] == rest;
        if s[0] == '(' && |rest| >= 2 {
          CollapseNoClose(s[1..]);
          assert r[2..] == rest[1..];
        }
      }
    }
  }

  /** Collapsing twice is collapsing once. */
  lemma CollapseIdempotent(s: string)
    ensures CollapseParens(CollapseParens(s)) == CollapseParens(s)
  {
    CollapseClean(s);
    CollapseAccepted(CollapseParens(s));
  }

  lemma {:induction false} ReplaceCharGone(s: string, c: char, t: string)
    requires c !in t
    ensures c !in ReplaceChar(s, c, t)
  {
    if s != [] {
      ReplaceCharGone(s[1..], c, t);
    }
  }

  /**
   * The printed names: no `&` is left in the title part, and an accepted
   * item prints exactly as any other block.
   */
  lemma ItemStrOfAccepted(title: string, subtitle: string)
    requires !BlockTree.ParenText(subtitle)
    ensures ItemStr(title, subtitle) == BlockStr(title, subtitle)
    ensures '&' !in ReplaceChar(title, '&', "/")
  {
    CollapseAccepted(subtitle);
    ReplaceCharGone(title, '&', "/");
  }

  /** `ItemBlock.get_funmod`: the abbreviation of an item's kind. */
  function FunMod(title: string): string {
    if title == "Function" then "Func"
    else if title == "Module" then "Mod"
    else if title == "Function&Module" then "Func/Mod"
    else if title == "Constant" then "Const"
    else title
  }

  /** Exactly the four item kinds are abbreviated, and to four different names. */
  lemma FunModAbbreviates(a: string, b: string)
    ensures FunMod(a) != a <==> a in ["Function", "Module", "Function&Module", "Constant"]
    ensures (a in ["Function", "Module", "Function&Module", "Constant"]
             && b in ["Function", "Module", "Function&Module", "Constant"]
             && FunMod(a) == FunMod(b)) ==> a == b
  {
  }

  // ---------------------------------------------------------------------
  // Table rows
  // ---------------------------------------------------------------------

  /** `s.split(sep, limit)` makes at most `limit + 1` parts when `limit >= 0`. */
  lemma {:induction false} SplitNBound(s: string, sep: string, limit: int)
    requires sep != []
    ensures limit >= 0 ==> |SplitN(s, sep, limit)| <= limit + 1
    decreases |s|
  {
    if limit > 0 && Find(s, sep).Some? {
      var i := Find(s, sep).value;
      SplitNBound(s[i + |sep|..], sep, limit - 1);
    }
  }

  /** Joining the parts with the separator gives back the string. */
  lemma {:induction false} SplitNJoin(s: string, sep: string, limit: int)
    requires sep != []
    ensures Join(SplitN(s, sep, limit), sep) == s
    decreases |s|
  {
    if limit != 0 && Find(s, sep).Some? {
      var i := Find(s, sep).value;
      var next := if limit < 0 then limit else limit - 1;
      var rest := SplitN(s[i + |sep|..], sep, next);
      SplitNJoin(s[i + |sep|..], sep, next);
      JoinCons(s[..i], rest, sep);
      Around(s, i, i + |sep|);
    }
  }

  lemma JoinCons(a: string, rest: seq<string>, sep: string)
    requires |rest| >= 1
    ensures Join([a] + rest, sep) == a + sep + Join(rest, sep)
  {
    assert ([a] + rest)[1..] == rest;
  }

  lemma Around<T>(s: seq<T>, i: nat, j: nat)
    requires i <= j <= |s|
    ensures s == s[..i] + s[i..j] + s[j..]
  {
  }

  /** One row of a table: split on `=` into at most as many cells as headers, each stripped and linked. */
  function RowCells(line: string, hdr: seq<string>, links: map<string, string>): (r: seq<string>)
    ensures |r| == |SplitN(line, "=", |hdr| - 1)|
    ensures |hdr| >= 1 ==> |r| <= |hdr|
  {
    var parts := SplitN(line, "=", |hdr| - 1);
    SplitNBound(line, "=", |hdr| - 1);
    seq(|parts|, k requires 0 <= k < |parts| => DocBlocks.Linked(Strip(parts[k]), links))
  }

  /** A table as it is split: the header set its rows were split against, and the rows. */
  datatype Tab = Tab(headerSet: nat, rows: seq<seq<string>>)

  /** The state of the split half-way through the body. */
  datatype TableScan = TableScan(tnum: nat, table: seq<seq<string>>, tables: seq<Tab>)

  /** Tables closed so far are in header-set order, one header set at most each, none empty. */
  predicate ScanOk(st: TableScan) {
    |st.tables| <= st.tnum
    && (forall k :: 0 <= k < |st.tables| ==> k <= st.tables[k].headerSet < st.tnum && st.tables[k].rows != [])
  }

  /** One body line: `---` closes the current table, any other line is a row. */
  function ScanStep(st: TableScan, line: string, hs: seq<seq<string>>, links: map<string, string>): TableScan
    requires line != "---" ==> st.tnum < |hs|
  {
    if line == "---" then
      TableScan(st.tnum + 1, [], if st.table != [] then st.tables + [Tab(st.tnum, st.table)] else st.tables)
    else
      st.(table := st.table + [RowCells(line, hs[st.tnum], links)])
  }

  /** The split after the whole body; the body holds fewer `---` lines than there are header sets. */
  function Scan(body: seq<string>, hs: seq<seq<string>>, links: map<string, string>): (r: TableScan)
    requires BlockTree.Dashes(body) < |hs|
    ensures r.tnum == BlockTree.Dashes(body) && ScanOk(r)
    ensures forall k :: 0 <= k < |r.table| ==> |hs[r.tnum]| >= 1 ==> |r.table[k]| <= |hs[r.tnum]|
    ensures forall k, j :: 0 <= k < |r.tables| && 0 <= j < |r.tables[k].rows| ==>
      |hs[r.tables[k].headerSet]| >= 1 ==> |r.tables[k].rows[j]| <= |hs[r.tables[k].headerSet]|
  {
    if body == [] then TableScan(0, [], [])
    else ScanStep(Scan(body[..|body| - 1], hs, links), body[|body| - 1], hs, links)
  }

  /** `TableBlock.get_file_lines`, first part: the non-empty tables of the body. */
  function Tables(body: seq<string>, hs: seq<seq<string>>, links: map<string, string>): (r: seq<Tab>)
    requires BlockTree.Dashes(body) < |hs|
    ensures |r| <= |hs|
    ensures forall k :: 0 <= k < |r| ==> k <= r[k].headerSet < |hs| && r[k].rows != []
    ensures forall k, j :: 0 <= k < |r| && 0 <= j < |r[k].rows| ==>
      |hs[r[k].headerSet]| >= 1 ==> |r[k].rows[j]| <= |hs[r[k].headerSet]|
  {
    var st := Scan(body, hs, links);
    if st.table != [] then st.tables + [Tab(st.tnum, st.table)] else st.tables
  }

  lemma {:induction false} DashesPrefix(body: seq<string>, i: nat)
    requires i <= |body|
    ensures BlockTree.Dashes(body[..i]) <= BlockTree.Dashes(body)
    decreases |body|
  {
    if i < |body| {
      assert body[..|body| - 1][..i] == body[..i];
      DashesPrefix(body[..|body| - 1], i);
    } else {
      assert body[..i] == body;
    }
  }

  /** `TableBlock.get_file_lines`, the loop that splits the body into tables of rows. */
  method SplitTables(body: seq<string>, hs: seq<seq<string>>, links: map<string, string>) returns (tables: seq<Tab>)
    requires BlockTree.Dashes(body) < |hs|
    ensures tables == Tables(body, hs, links)
  {
    var tnum := 0;
    var table: seq<seq<string>> := [];
    tables := [];
    var i := 0;
    while i < |body|
      invariant 0 <= i <= |body| && BlockTree.Dashes(body[..i]) < |hs|
      invariant TableScan(tnum, table, tables) == Scan(body[..i], hs, links)
    {
      assert body[..i + 1][..i] == body[..i];
      DashesPrefix(body, i + 1);
      if body[i] == "---" {
        tnum := tnum + 1;
        if table != [] {
          tables := tables + [Tab(tnum - 1, table)];
          table := [];
        }
      } else {
        table := table + [RowCells(body[i], hs[tnum], links)];
      }
      i := i + 1;
    }
    assert body[..i] == body;
    if table != [] {
      tables := tables + [Tab(tnum, table)];
    }
  }

  /** No table of the body is empty: it does not start with `---`, and no two `---` lines are adjacent. */
  predicate NoEmptyTable(body: seq<string>) {
    (|body| > 0 ==> body[0] != "---")
    && forall k :: 0 < k < |body| && body[k] == "---" ==> body[k - 1] != "---"
  }

  /** Without empty tables, the k-th table is split against the k-th header set. */
  lemma {:induction false} ScanAligned(body: seq<string>, hs: seq<seq<string>>, links: map<string, string>)
    requires BlockTree.Dashes(body) < |hs| && NoEmptyTable(body)
    ensures var st := Scan(body, hs, links);
      && |st.tables| == st.tnum
      && (forall k :: 0 <= k < |st.tables| ==> st.tables[k].headerSet == k)
      && (st.table == [] <==> (body == [] || body[|body| - 1] == "---"))
  {
    if body != [] {
      var init := body[..|body| - 1];
      assert NoEmptyTable(init) by {
        forall k | 0 < k < |init| && init[k] == "---"
          ensures init[k - 1] != "---"
        {
          assert body[k] == init[k] && body[k - 1] == init[k - 1];
        }
      }
      ScanAligned(init, hs, links);
      if body[|body| - 1] == "---" && init != [] {
        assert body[|body| - 2] == init[|init| - 1];
      }
    }
  }

  lemma TablesAligned(body: seq<string>, hs: seq<seq<string>>, links: map<string, string>)
    requires BlockTree.Dashes(body) < |hs| && NoEmptyTable(body)
    ensures var t := Tables(body, hs, links); forall k :: 0 <= k < |t| ==> t[k].headerSet == k
  {
    ScanAligned(body, hs, links);
  }

  /** Every header set is non-empty (splitting `Headers=` always yields at least one part). */
  predicate HeadersNonEmpty(hs: seq<seq<string>>) {
    forall k :: 0 <= k < |hs| ==> |hs[k]| >= 1
  }

  /** No row has more cells than the headers it is shown under. */
  predicate Fits(rows: seq<seq<string>>, headers: seq<string>) {
    forall j :: 0 <= j < |rows| ==> |rows[j]| <= |headers|
  }

  /**
   * The tables as `get_file_lines` shows them: the k-th non-empty table
   * under the k-th header set. `table` indexes the headers by cell
   * position, so a row with more cells than headers is an `IndexError`,
   * modelled as `None`.
   */
  function AsWrittenTableLines(tabs: seq<Tab>, hs: seq<seq<string>>, k: nat): (r: Option<seq<string>>)
    requires k + |tabs| <= |hs|
    decreases |tabs|
  {
    if tabs == [] then Some([])
    else if !Fits(tabs[0].rows, hs[k]) then None
    else match AsWrittenTableLines(tabs[1..], hs, k + 1)
      case None => None
      case Some(rest) => Some(TargetWiki.Table(hs[k], tabs[0].rows) + rest)
  }

  /** Each table shown under the header set its rows were split against. */
  function TableLines(tabs: seq<Tab>, hs: seq<seq<string>>): (r: seq<string>)
    requires forall k :: 0 <= k < |tabs| ==> tabs[k].headerSet < |hs| && Fits(tabs[k].rows, hs[tabs[k].headerSet])
  {
    if tabs == [] then []
    else
      assert forall k :: 0 <= k < |tabs| - 1 ==> tabs[1..][k] == tabs[k + 1];
      assert Fits(tabs[0].rows, hs[tabs[0].headerSet]);
      TargetWiki.Table(hs[tabs[0].headerSet], tabs[0].rows) + TableLines(tabs[1..], hs)
  }

  /** The tables of any body the Table constructor accepts can be shown under their own header sets. */
  lemma TableLinesDefined(body: seq<string>, hs: seq<seq<string>>, links: map<string, string>)
    requires BlockTree.Dashes(body) < |hs| && HeadersNonEmpty(hs)
    ensures var t := Tables(body, hs, links);
      forall k :: 0 <= k < |t| ==> t[k].headerSet < |hs| && Fits(t[k].rows, hs[t[k].headerSet])
  {
  }

  lemma {:induction false} AsWrittenAgreesFrom(tabs: seq<Tab>, hs: seq<seq<string>>, k: nat)
    requires k + |tabs| <= |hs|
    requires forall j :: 0 <= j < |tabs| ==> tabs[j].headerSet == k + j && Fits(tabs[j].rows, hs[k + j])
    ensures AsWrittenTableLines(tabs, hs, k) == Some(TableLines(tabs, hs))
    decreases |tabs|
  {
    if tabs != [] {
      AsWrittenAgreesFrom(tabs[1..], hs, k + 1);
    }
  }

  /** Without empty tables the two agree, so the code as written is right in that case. */
  lemma AsWrittenAgrees(body: seq<string>, hs: seq<seq<string>>, links: map<string, string>)
    requires BlockTree.Dashes(body) < |hs| && HeadersNonEmpty(hs) && NoEmptyTable(body)
    ensures var t := Tables(body, hs, links); AsWrittenTableLines(t, hs, 0) == Some(TableLines(t, hs))
  {
    TablesAligned(body, hs, links);
    AsWrittenAgreesFrom(Tables(body, hs, links), hs, 0);
  }

  /**
   * A body starting with `---` holds no first table, so its only table is
   * shown under the first header set although its rows were split against
   * the second: the two-cell row overflows the one header and `table` fails.
   */
  lemma AsWrittenMisaligned()
    ensures BlockTree.Dashes(["---", "a=b"]) == 1
    ensures AsWrittenTableLines(Tables(["---", "a=b"], [["x"], ["p", "q"]], map[]), [["x"], ["p", "q"]], 0) == None
    ensures TableLines(Tables(["---", "a=b"], [["x"], ["p", "q"]], map[]), [["x"], ["p", "q"]])
         == TargetWiki.Table(["p", "q"], [RowCells("a=b", ["p", "q"], map[])])
  {
    SplitNTwo();
    assert "a=b"[0] != "---"[0];
    LeadingSeparator("a=b", ["x"], ["p", "q"], map[]);
  }

  /**
   * A body starting with `---` and then one row: the one table is split
   * against the second header set and shown under the first.
   */
  lemma LeadingSeparator(line: string, h0: seq<string>, h1: seq<string>, links: map<string, string>)
    requires line != "---" && |h0| >= 1 && |h1| >= 1 && |RowCells(line, h1, links)| > |h0|
    ensures BlockTree.Dashes(["---", line]) == 1
    ensures AsWrittenTableLines(Tables(["---", line], [h0, h1], links), [h0, h1], 0) == None
    ensures TableLines(Tables(["---", line], [h0, h1], links), [h0, h1]) == TargetWiki.Table(h1, [RowCells(line, h1, links)])
  {
    var hs := [h0, h1];
    var row := RowCells(line, h1, links);
    LeadingSeparatorTables(line, h0, h1, links);
    var t := [Tab(1, [row])];
    assert t[0].rows[0] == row;
    assert !Fits(t[0].rows, hs[0]);
    assert AsWrittenTableLines(t, hs, 0) == None;
    assert TableLines(t, hs) == TargetWiki.Table(h1, [row]) + TableLines([], hs);
  }

  lemma LeadingSeparatorTables(line: string, h0: seq<string>, h1: seq<string>, links: map<string, string>)
    requires line != "---"
    ensures BlockTree.Dashes(["---", line]) == 1
    ensures Tables(["---", line], [h0, h1], links) == [Tab(1, [RowCells(line, h1, links)])]
  {
    var body, hs := ["---", line], [h0, h1];
    assert body[..1] == ["---"] && body[1] == line;
    var b1: seq<string> := ["---"];
    assert b1[..0] == [] && b1[0] == "---";
    assert BlockTree.Dashes(b1) == 1;
    assert Scan(b1, hs, links) == TableScan(1, [], []);
    assert body[..|body| - 1] == b1;
    assert Scan(body, hs, links) == TableScan(1, [RowCells(line, h1, links)], []);
  }

  lemma SplitNTwo()
    ensures |SplitN("a=b", "=", 1)| == 2
  {
    assert "a=b"[1..] == "=b" && "a=b"[..1] == "a" && "a=b"[2..] == "b" && "=b"[..1] == "=";
    assert !StartsWith("a=b", "=");
    assert StartsWith("=b", "=");
    assert Find("=b", "=") == Some(0);
    assert Find("a=b", "=") == Some(1);
    assert SplitN("b", "=", 0) == ["b"];
  }

  // ---------------------------------------------------------------------
  // See Also
  // ---------------------------------------------------------------------

  /** The items the names resolve to, in order, leaving out the block's own item. */
  function SeeAlsoTargets(names: seq<string>, byName: map<string, nat>, parent: nat): (r: seq<nat>)
    ensures forall k :: 0 <= k < |r| ==> r[k] in byName.Values
  {
    if names == [] then []
    else
      var n := names[|names| - 1];
      SeeAlsoTargets(names[..|names| - 1], byName, parent) + (if n in byName && byName[n] != parent then [byName[n]] else [])
  }

  /** The names no item has, in order. */
  function SeeAlsoUnknown(names: seq<string>, byName: map<string, nat>): seq<string> {
    if names == [] then []
    else
      var n := names[|names| - 1];
      SeeAlsoUnknown(names[..|names| - 1], byName) + (if n in byName then [] else [n])
  }

  function SeeAlsoError(file: string, line: int, name: string): Entry {
    Entry(file, line, "Invalid Link '" + name + "'", FAIL)
  }

  function SeeAlsoErrors(file: string, line: int, names: seq<string>): (r: seq<Entry>)
    ensures |r| == |names| && forall k :: 0 <= k < |names| ==> r[k] == SeeAlsoError(file, line, names[k])
  {
    seq(|names|, k requires 0 <= k < |names| => SeeAlsoError(file, line, names[k]))
  }

  /** An item is linked exactly when some name resolves to it and it is not the block's own item. */
  lemma {:induction false} SeeAlsoTargetsMember(names: seq<string>, byName: map<string, nat>, parent: nat, x: nat)
    ensures x in SeeAlsoTargets(names, byName, parent)
        <==> x != parent && exists n :: n in names && n in byName && byName[n] == x
  {
    if names != [] {
      var init, n := names[..|names| - 1], names[|names| - 1];
      SeeAlsoTargetsMember(init, byName, parent, x);
      assert names == init + [n];
    }
  }

  /** A name is reported exactly when it is listed and no item has it. */
  lemma {:induction false} SeeAlsoUnknownMember(names: seq<string>, byName: map<string, nat>, x: string)
    ensures x in SeeAlsoUnknown(names, byName) <==> x in names && x !in byName
  {
    if names != [] {
      var init, n := names[..|names| - 1], names[|names| - 1];
      SeeAlsoUnknownMember(init, byName, x);
      assert names == init + [n];
    }
  }

  /** The links of the items, joined with commas, as the block's header line shows them. */
  function SeeAlsoLinks(p: DocBlocks.Profile, nodes: seq<BlockTree.Node>, items: seq<nat>, currfile: string): string
    requires forall k :: 0 <= k < |items| ==> items[k] < |nodes|
  {
    Join(seq(|items|, k requires 0 <= k < |items| =>
      DocBlocks.ItemLink(p, nodes[items[k]].title, nodes[items[k]].subtitle, nodes[items[k]].file, Some(currfile), "", false)),
      ", ")
  }

  /**
   * `SeeAlsoBlock.get_file_lines`: each listed name is looked up; an
   * unknown one is logged as an error, the block's own item is dropped,
   * and the rest become links in the block header.
   */
  method SeeAlsoLines(p: DocBlocks.Profile, nodes: seq<BlockTree.Node>, title: string, names: seq<string>,
                      byName: map<string, nat>, parent: nat, log: ErrorLog, file: string, line: int)
    returns (out: seq<string>)
    requires log.Valid()
    requires forall n :: n in byName ==> byName[n] < |nodes|
    modifies log
    ensures log.Valid()
    ensures log.errlist == old(log.errlist) + SeeAlsoErrors(file, line, SeeAlsoUnknown(names, byName))
    ensures out == TargetWiki.BlockHeader(title, SeeAlsoLinks(p, nodes, SeeAlsoTargets(names, byName, parent), file), false)
  {
    var items: seq<nat> := [];
    var i := 0;
    while i < |names|
      invariant 0 <= i <= |names| && log.Valid()
      invariant items == SeeAlsoTargets(names[..i], byName, parent)
      invariant log.errlist == old(log.errlist) + SeeAlsoErrors(file, line, SeeAlsoUnknown(names[..i], byName))
    {
      assert names[..i + 1][..i] == names[..i];
      var name := names[i];
      ghost var unk := SeeAlsoUnknown(names[..i], byName);
      if name !in byName {
        log.AddEntry(file, line, "Invalid Link '" + name + "'", FAIL);
        assert SeeAlsoUnknown(names[..i + 1], byName) == unk + [name];
        assert SeeAlsoErrors(file, line, unk + [name]) == SeeAlsoErrors(file, line, unk) + [SeeAlsoError(file, line, name)];
      } else {
        assert SeeAlsoUnknown(names[..i + 1], byName) == unk;
        if byName[name] != parent {
          items := items + [byName[name]];
        }
      }
      i := i + 1;
    }
    assert names[..i] == names;
    out := TargetWiki.BlockHeader(title, SeeAlsoLinks(p, nodes, items, file), false);
  }
}

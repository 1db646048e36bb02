/**
 * The block-type registry of the documentation parser and the settings
 * blocks of the `.openscad_docsgen_rc` file: what a `DefineHeader` block
 * declares, the default registry, the `GenerateDocs` document kinds, the
 * `DefineSynTags` table, item aliases and file footnotes.
 */
module ParserDefs {
  import opened Strings
  import opened BlockTree
  import opened ParserLines

  // ---------------------------------------------------------------------
  // Block-type definitions

  /** The callbacks a registry entry may carry. */
  datatype Callback = NoCallback | StatusCallback | AliasCallback

  /**
   * A registry entry: whether the block needs an item as its parent, the
   * class of block it makes, the header sets of a table, and its callback.
   */
  datatype HeaderDef = HeaderDef(itemOnly: bool, kind: Kind, headerSets: seq<seq<string>>, callback: Callback)

  /** What a `DefineHeader` block does: an entry, a raised error, or a Python error (`Headers` given without a value). */
  datatype Definition = Defined(name: string, def: HeaderDef) | Refused(msg: string) | Broken

  const DefineHeaderTitle := "DefineHeader"
  const MissingHeaders := "Table type is missing Header= option, while declaring block:"
  const UnknownBlockType := "Could not parse target block type, while declaring block:"

  /** The meta options that name a block class, in the order they are tried. */
  const KindTable: seq<(string, Kind)> := [
    ("NumList", NumberedList), ("BulletList", BulletList), ("Table", Table), ("Example", Example),
    ("Figure", Figure), ("Label", Label), ("Headerless", Headerless), ("Text", Text), ("Generic", Generic)]

  /** The class of the first table entry whose option is present. */
  function FirstListed(table: seq<(string, Kind)>, m: map<string, MetaValue>): (r: Option<Kind>)
    ensures r.None? <==> forall k :: 0 <= k < |table| ==> table[k].0 !in m
    ensures r.Some? ==>
      exists k :: 0 <= k < |table| && table[k].0 in m && table[k].1 == r.value &&
        (forall j :: 0 <= j < k ==> table[j].0 !in m)
  {
    if table == [] then None
    else if table[0].0 in m then Some(table[0].1)
    else
      var r := FirstListed(table[1..], m);
      assert forall k :: 1 <= k < |table| ==> table[k] == table[1..][k - 1];
      r
  }

  /** `Headers=` text: header sets separated by `||`, headers by `|`, each stripped. */
  function HeaderSets(h: string): seq<seq<string>> {
    var sets := Split(h, "||");
    seq(|sets|, k requires 0 <= k < |sets| => StripAll(Split(sets[k], "|")))
  }

  /**
   * `_define_blocktype`: the entry named by the stripped subtitle, its
   * class chosen by the meta options in a fixed order; `ItemOnly` asks for
   * an item parent.
   */
  function DefineBlockType(subtitle: string, meta: string): Definition {
    DefineFrom(Strip(subtitle), MetaDict(meta))
  }

  /** The entry `name` as the parsed meta options `m` define it. */
  function DefineFrom(name: string, m: map<string, MetaValue>): (r: Definition)
    ensures r.Defined? ==> r.def.callback == NoCallback && r.name == name
  {
    var itemOnly := "ItemOnly" in m;
    if "NumList" in m then Defined(name, HeaderDef(itemOnly, NumberedList, [], NoCallback))
    else if "BulletList" in m then Defined(name, HeaderDef(itemOnly, BulletList, [], NoCallback))
    else if "Table" in m then
      if "Headers" !in m then Refused(Failure(DefineHeaderTitle, MissingHeaders).msg)
      else match m["Headers"]
        case Flag => Broken
        case Given(h) => Defined(name, HeaderDef(itemOnly, Table, HeaderSets(h), NoCallback))
    else if "Example" in m then Defined(name, HeaderDef(itemOnly, Example, [], NoCallback))
    else if "Figure" in m then Defined(name, HeaderDef(itemOnly, Figure, [], NoCallback))
    else if "Label" in m then Defined(name, HeaderDef(itemOnly, Label, [], NoCallback))
    else if "Headerless" in m then Defined(name, HeaderDef(itemOnly, Headerless, [], NoCallback))
    else if "Text" in m then Defined(name, HeaderDef(itemOnly, Text, [], NoCallback))
    else if "Generic" in m then Defined(name, HeaderDef(itemOnly, Generic, [], NoCallback))
    else Refused(Failure(DefineHeaderTitle, UnknownBlockType).msg)
  }

  /**
   * The chain of tests agrees with the table: no listed option is an
   * error; otherwise the first listed option decides the class, and a
   * table also needs the `Headers` value.
   */
  lemma DefineFollowsTable(name: string, m: map<string, MetaValue>)
    ensures var r := DefineFrom(name, m);
      && (FirstListed(KindTable, m).None? <==> r == Refused(Failure(DefineHeaderTitle, UnknownBlockType).msg))
      && (FirstListed(KindTable, m).Some? && FirstListed(KindTable, m).value != Table ==>
            r == Defined(name, HeaderDef("ItemOnly" in m, FirstListed(KindTable, m).value, [], NoCallback)))
      && (FirstListed(KindTable, m) == Some(Table) ==>
            && ("Headers" !in m ==> r == Refused(Failure(DefineHeaderTitle, MissingHeaders).msg))
            && ("Headers" in m && m["Headers"].Flag? ==> r == Broken)
            && ("Headers" in m && m["Headers"].Given? ==>
                  r == Defined(name, HeaderDef("ItemOnly" in m, Table, HeaderSets(m["Headers"].value), NoCallback))))
  {
    FirstListedKinds(m);
    DistinctRefusals();
  }

  /** The two refusals of `DefineHeader` differ in length. */
  lemma DistinctRefusals()
    ensures Failure(DefineHeaderTitle, MissingHeaders).msg != Failure(DefineHeaderTitle, UnknownBlockType).msg
  {
    assert |MissingHeaders| != |UnknownBlockType|;
  }

  /** The table looked up entry by entry. */
  lemma FirstListedKinds(m: map<string, MetaValue>)
    ensures FirstListed(KindTable, m) ==
      if "NumList" in m then Some(NumberedList)
      else if "BulletList" in m then Some(BulletList)
      else if "Table" in m then Some(Table)
      else if "Example" in m then Some(Example)
      else if "Figure" in m then Some(Figure)
      else if "Label" in m then Some(Label)
      else if "Headerless" in m then Some(Headerless)
      else if "Text" in m then Some(Text)
      else if "Generic" in m then Some(Generic)
      else None
  {
    var t9: seq<(string, Kind)> := [("Generic", Generic)];
    var t8 := [("Text", Text)] + t9;
    var t7 := [("Headerless", Headerless)] + t8;
    var t6 := [("Label", Label)] + t7;
    var t5 := [("Figure", Figure)] + t6;
    var t4 := [("Example", Example)] + t5;
    var t3 := [("Table", Table)] + t4;
    var t2 := [("BulletList", BulletList)] + t3;
    var t1 := [("NumList", NumberedList)] + t2;
    assert KindTable == t1;
    FirstListedCons(("Generic", Generic), [], m);
    assert t9 == [("Generic", Generic)] + [];
    FirstListedCons(("Text", Text), t9, m);
    FirstListedCons(("Headerless", Headerless), t8, m);
    FirstListedCons(("Label", Label), t7, m);
    FirstListedCons(("Figure", Figure), t6, m);
    FirstListedCons(("Example", Example), t5, m);
    FirstListedCons(("Table", Table), t4, m);
    FirstListedCons(("BulletList", BulletList), t3, m);
    FirstListedCons(("NumList", NumberedList), t2, m);
  }

  lemma FirstListedCons(x: (string, Kind), rest: seq<(string, Kind)>, m: map<string, MetaValue>)
    ensures FirstListed([x] + rest, m) == if x.0 in m then Some(x.1) else FirstListed(rest, m)
  {
    assert ([x] + rest)[1..] == rest;
  }

  // ---------------------------------------------------------------------
  // The default registry

  /** The two header sets of `Arguments`: by position and by name. */
  const ArgumentsSets: seq<seq<string>> := [
    ["^<abbr title=\"These args can be used by position or by name.\">By&nbsp;Position</abbr>", "What it does"],
    ["^<abbr title=\"These args must be used by name, ie: name=value\">By&nbsp;Name</abbr>", "What it does"]]

  /** The entries `_reset_header_defs` starts from, before its three `DefineHeader` lines. */
  const BuiltinDefs: map<string, HeaderDef> := map[
    "Status" := HeaderDef(true, Label, [], StatusCallback),
    "Alias" := HeaderDef(true, Label, [], AliasCallback),
    "Aliases" := HeaderDef(true, Label, [], AliasCallback),
    "Arguments" := HeaderDef(true, Table, ArgumentsSets, NoCallback)]

  /** The three lines `_reset_header_defs` parses as if from a file named `Defaults`. */
  const DefaultLines: seq<string> := [
    "// DefineHeader(Headerless): Continues",
    "// DefineHeader(Text;ItemOnly): Description",
    "// DefineHeader(BulletList;ItemOnly): Usage"]

  // ---------------------------------------------------------------------
  // Generated documents

  /** A `GenerateDocs` part, stripped and upper-cased. */
  function GenWord(part: string): string {
    Upper(Strip(part))
  }

  /** The words of all parts. */
  function GenWords(parts: seq<string>): (r: seq<string>)
    ensures |r| == |parts| && forall k :: 0 <= k < |parts| ==> r[k] == GenWord(parts[k])
  {
    seq(|parts|, k requires 0 <= k < |parts| => GenWord(parts[k]))
  }

  /** The documents `GenerateDocs` can ask for; each sets one flag. */
  datatype Doc = FilesDoc | TocDoc | IndexDoc | TopicsDoc | CheatDoc | SidebarDoc

  /** The document a word names, tested in the order of the branches of `GenerateDocs`. */
  function DocOf(word: string): Option<Doc> {
    if word == "FILES" then Some(FilesDoc)
    else if word == "TOC" then Some(TocDoc)
    else if word == "INDEX" then Some(IndexDoc)
    else if word == "TOPICS" then Some(TopicsDoc)
    else if word == "CHEAT" || word == "CHEATSHEET" then Some(CheatDoc)
    else if word == "SIDEBAR" then Some(SidebarDoc)
    else None
  }

  /** The words naming a document: exactly the seven that `GenerateDocs` tests for. */
  lemma DocOfNames(word: string)
    ensures DocOf(word) == Some(FilesDoc) <==> word == "FILES"
    ensures DocOf(word) == Some(TocDoc) <==> word == "TOC"
    ensures DocOf(word) == Some(IndexDoc) <==> word == "INDEX"
    ensures DocOf(word) == Some(TopicsDoc) <==> word == "TOPICS"
    ensures DocOf(word) == Some(CheatDoc) <==> word == "CHEAT" || word == "CHEATSHEET"
    ensures DocOf(word) == Some(SidebarDoc) <==> word == "SIDEBAR"
  {
    assert "FILES"[0] != "INDEX"[0] && "FILES"[0] != "CHEAT"[0] && "INDEX"[0] != "CHEAT"[0];
  }

  /** The document each word names, if any. */
  function Docs(words: seq<string>): (r: seq<Option<Doc>>)
    ensures |r| == |words| && forall k :: 0 <= k < |words| ==> r[k] == DocOf(words[k])
  {
    seq(|words|, k requires 0 <= k < |words| => DocOf(words[k]))
  }

  /** How many leading words name a document: where `GenerateDocs` stops. */
  function FirstUnknown(docs: seq<Option<Doc>>): (n: nat)
    ensures n <= |docs|
    ensures forall k :: 0 <= k < n ==> docs[k].Some?
    ensures n < |docs| ==> docs[n].None?
  {
    if docs == [] || docs[0].None? then 0
    else
      var n := FirstUnknown(docs[1..]);
      assert forall k :: 1 <= k < n + 1 ==> docs[k] == docs[1..][k - 1];
      n + 1
  }

  /** The documents asked for after the first `n` words, read one at a time; a word naming none adds nothing. */
  function GenAfter(g: set<Doc>, docs: seq<Option<Doc>>, n: nat): set<Doc>
    requires n <= |docs|
  {
    if n == 0 then g
    else GenAfter(g, docs, n - 1) + (match docs[n - 1] case None => {} case Some(doc) => {doc})
  }

  /** The message for an unknown document type, with the part as written (stripped). */
  function UnknownGen(part: string): string {
    "Unknown type \"" + Strip(part) + "\", while declaring block:"
  }

  /** One of the first `n` words names `doc`. */
  predicate Says(docs: seq<Option<Doc>>, n: nat, doc: Doc)
    requires n <= |docs|
  {
    n > 0 && (docs[n - 1] == Some(doc) || Says(docs, n - 1, doc))
  }

  /** `Says` is: some word among the first `n` names the document. */
  lemma {:induction false} SaysSome(docs: seq<Option<Doc>>, n: nat, doc: Doc)
    requires n <= |docs|
    ensures Says(docs, n, doc) <==> exists k :: 0 <= k < n && docs[k] == Some(doc)
  {
    if n > 0 {
      SaysSome(docs, n - 1, doc);
      if Says(docs, n, doc) && docs[n - 1] != Some(doc) {
        var k :| 0 <= k < n - 1 && docs[k] == Some(doc);
        assert 0 <= k < n;
      }
    }
  }

  /** After the first `n` words a document is asked for iff it was before or one of those words names it. */
  lemma {:induction false} GenAfterNamed(g: set<Doc>, docs: seq<Option<Doc>>, n: nat)
    requires n <= |docs|
    ensures forall doc :: doc in GenAfter(g, docs, n) <==> doc in g || Says(docs, n, doc)
  {
    if n > 0 {
      GenAfterNamed(g, docs, n - 1);
    }
  }

  /** The first word, naming `doc`, is among the first `n`. */
  lemma {:induction false} SaysFirst(docs: seq<Option<Doc>>, n: nat, doc: Doc)
    requires 0 < n <= |docs| && docs[0] == Some(doc)
    ensures Says(docs, n, doc)
  {
    if n > 1 {
      SaysFirst(docs, n - 1, doc);
    }
  }

  /** Known words only: some document is asked for afterwards iff one was before or some word was given. */
  lemma GenAfterAny(g: set<Doc>, docs: seq<Option<Doc>>)
    requires FirstUnknown(docs) == |docs|
    ensures GenAfter(g, docs, |docs|) != {} <==> g != {} || |docs| > 0
  {
    GenAfterNamed(g, docs, |docs|);
    if |docs| > 0 {
      var doc := docs[0].value;
      SaysFirst(docs, |docs|, doc);
      assert doc in GenAfter(g, docs, |docs|);
    }
  }

  // ---------------------------------------------------------------------
  // Syntax tags

  /** How many leading lines hold an `=`: where `DefineSynTags` stops. */
  function FirstUntagged(lines: seq<string>): (n: nat)
    ensures n <= |lines|
    ensures forall k :: 0 <= k < n ==> '=' in lines[k]
    ensures n < |lines| ==> '=' !in lines[n]
  {
    if lines == [] || '=' !in lines[0] then 0
    else
      var n := FirstUntagged(lines[1..]);
      assert forall k :: 1 <= k < n + 1 ==> lines[k] == lines[1..][k - 1];
      n + 1
  }

  /** A tag definition `tag=text`, both sides stripped, split at the first `=`. */
  function TagPair(line: string): (r: (string, string))
    requires '=' in line
  {
    MetaPartSplits(line);
    var kv := SplitN(line, "=", 1);
    (Strip(kv[0]), Strip(kv[1]))
  }

  /** The message for a line without `=`. */
  function MalformedTag(line: string): string {
    "Malformed tag definition '" + line + "' while declaring block:"
  }

  /** The pairs of the first `n` lines, each holding an `=`. */
  function TagPairs(lines: seq<string>, n: nat): (r: seq<(string, string)>)
    requires n <= FirstUntagged(lines)
    ensures |r| == n && forall k :: 0 <= k < n ==> r[k] == TagPair(lines[k])
  {
    if n == 0 then [] else TagPairs(lines, n - 1) + [TagPair(lines[n - 1])]
  }

  /** A line with `=` at or before the stopping point is before it, and adds its pair. */
  lemma TagPairsNext(lines: seq<string>, n: nat)
    requires n <= FirstUntagged(lines) && n < |lines| && '=' in lines[n]
    ensures n < FirstUntagged(lines) && TagPairs(lines, n + 1) == TagPairs(lines, n) + [TagPair(lines[n])]
  {
    assert n < FirstUntagged(lines);
  }

  /** A tag definition read back: the stripped text before the first `=` and after it. */
  lemma TagPairSpec(line: string)
    requires '=' in line
    ensures exists a, b :: line == a + "=" + b && '=' !in a && TagPair(line) == (Strip(a), Strip(b))
  {
    SplitAtEq(line);
    var kv := SplitN(line, "=", 1);
    assert line == kv[0] + "=" + kv[1];
    assert TagPair(line) == (Strip(kv[0]), Strip(kv[1]));
  }

  // ---------------------------------------------------------------------
  // Dictionaries updated entry by entry

  /** The dictionary after `d[key] = value` for each pair in turn. */
  function Assigned<V>(m: map<string, V>, kvs: seq<(string, V)>): map<string, V> {
    if kvs == [] then m else Assigned(m, kvs[..|kvs| - 1])[kvs[|kvs| - 1].0 := kvs[|kvs| - 1].1]
  }

  /** One more assignment updates the dictionary the earlier ones left. */
  lemma AssignedSnoc<V>(m: map<string, V>, kvs: seq<(string, V)>, kv: (string, V))
    ensures Assigned(m, kvs + [kv]) == Assigned(m, kvs)[kv.0 := kv.1]
  {
    assert (kvs + [kv])[..|kvs|] == kvs;
  }

  /** The keys are the old ones and the assigned ones; a key keeps its last value, an untouched key its old value. */
  lemma {:induction false} AssignedSpec<V>(m: map<string, V>, kvs: seq<(string, V)>)
    ensures forall key :: key in Assigned(m, kvs) <==> key in m || exists j :: 0 <= j < |kvs| && kvs[j].0 == key
    ensures forall j :: 0 <= j < |kvs| && (forall l :: j < l < |kvs| ==> kvs[l].0 != kvs[j].0) ==>
      Assigned(m, kvs)[kvs[j].0] == kvs[j].1
    ensures forall key :: key in m && (forall j :: 0 <= j < |kvs| ==> kvs[j].0 != key) ==> Assigned(m, kvs)[key] == m[key]
  {
    if kvs != [] {
      var init := kvs[..|kvs| - 1];
      AssignedSpec(m, init);
      assert forall j :: 0 <= j < |init| ==> init[j] == kvs[j];
      forall key | key in Assigned(m, kvs) && key !in m ensures exists j :: 0 <= j < |kvs| && kvs[j].0 == key {
        if key != kvs[|kvs| - 1].0 {
          var j :| 0 <= j < |init| && init[j].0 == key;
          assert kvs[j].0 == key;
        }
      }
    }
  }

  /** Every alias paired with the item it names. */
  function AliasPairs(aliases: seq<string>, item: nat): (r: seq<(string, nat)>)
    ensures |r| == |aliases| && forall k :: 0 <= k < |aliases| ==> r[k] == (aliases[k], item)
  {
    seq(|aliases|, k requires 0 <= k < |aliases| => (aliases[k], item))
  }

  /** After the alias callback: every alias names the item, every other name keeps its item. */
  lemma {:induction false} AliasesAdded(m: map<string, nat>, aliases: seq<string>, item: nat)
    ensures var r := Assigned(m, AliasPairs(aliases, item));
      && (forall name :: name in r <==> name in m || name in aliases)
      && (forall name :: name in aliases ==> r[name] == item)
      && (forall name :: name in m && name !in aliases ==> r[name] == m[name])
  {
    if aliases == [] {
      assert AliasPairs(aliases, item) == [];
    } else {
      var init := aliases[..|aliases| - 1];
      var last := aliases[|aliases| - 1];
      AliasesAdded(m, init, item);
      assert AliasPairs(aliases, item) == AliasPairs(init, item) + [(last, item)];
      AssignedSnoc(m, AliasPairs(init, item), (last, item));
      assert aliases == init + [last];
    }
  }

  // ---------------------------------------------------------------------
  // File footnotes

  /** A `FileFootnotes` part: its stripped `mark=note` halves, and where it was declared. */
  function FootnoteOf(part: string, file: string, line: int): Footnote {
    Footnote(StripAll(SplitN(Strip(part), "=", 1)), file, line)
  }

  /** A footnote has its mark, and its note when the part holds an `=`, both stripped. */
  lemma FootnoteParts(part: string, file: string, line: int)
    ensures var f := FootnoteOf(part, file, line); var s := Strip(part);
      && f.file == file && f.line == line
      && ('=' !in s ==> f.parts == [s])
      && ('=' in s ==> exists a, b :: s == a + "=" + b && '=' !in a && f.parts == [Strip(a), Strip(b)])
  {
    var s := Strip(part);
    SplitAtEq(s);
    var kv := SplitN(s, "=", 1);
    if '=' in s {
      TwoStripped(kv);
      assert s == kv[0] + "=" + kv[1];
    } else {
      OneStripped(s);
    }
  }

  lemma TwoStripped(kv: seq<string>)
    requires |kv| == 2
    ensures StripAll(kv) == [Strip(kv[0]), Strip(kv[1])]
  {
  }

  /** A stripped text stays as it is. */
  lemma OneStripped(s: string)
    requires s == Strip(s)
    ensures StripAll([s]) == [s]
  {
  }

  /** The footnotes of the first `n` parts, in order. */
  function FootnotesOf(parts: seq<string>, n: nat, file: string, line: int): (r: seq<Footnote>)
    requires n <= |parts|
    ensures |r| == n
  {
    if n == 0 then [] else FootnotesOf(parts, n - 1, file, line) + [FootnoteOf(parts[n - 1], file, line)]
  }

  /** Footnote `k` is the footnote of part `k`. */
  lemma {:induction false} FootnotesOfAt(parts: seq<string>, n: nat, file: string, line: int)
    requires n <= |parts|
    ensures forall k {:trigger FootnotesOf(parts, n, file, line)[k]} :: 0 <= k < n ==>
      FootnotesOf(parts, n, file, line)[k] == FootnoteOf(parts[k], file, line)
  {
    if n > 0 {
      FootnotesOfAt(parts, n - 1, file, line);
      var r := FootnotesOf(parts, n, file, line);
      var q := FootnotesOf(parts, n - 1, file, line);
      assert r == q + [FootnoteOf(parts[n - 1], file, line)];
      forall k | 0 <= k < n
        ensures r[k] == FootnoteOf(parts[k], file, line)
      {
        if k < n - 1 {
          assert r[k] == q[k];
        }
      }
    }
  }

  /** `FileFootnotes`: one footnote per `;`-separated part of the subtitle. */
  function Footnotes(subtitle: string, file: string, line: int): (r: seq<Footnote>)
    ensures var parts := Split(subtitle, ";");
      |r| == |parts| && forall k :: 0 <= k < |parts| ==> r[k] == FootnoteOf(parts[k], file, line)
  {
    var parts := Split(subtitle, ";");
    FootnotesOfAt(parts, |parts|, file, line);
    FootnotesOf(parts, |parts|, file, line)
  }

  // ---------------------------------------------------------------------
  // Ignored and prioritized files; `glob` is a table from pattern to matches

  /** What `glob.glob(pat)` finds: the table's entry, nothing for an unknown pattern. */
  function Globbed(globs: map<string, seq<string>>, pat: string): seq<string> {
    if pat in globs then globs[pat] else []
  }

  /** The body of a settings block with a non-empty subtitle put in front. */
  function WithSubtitle(subtitle: string, body: seq<string>): (r: seq<string>)
    ensures subtitle == [] ==> r == body
    ensures subtitle != [] ==> |r| == |body| + 1 && r[0] == subtitle && r[1..] == body
  {
    if subtitle != [] then [subtitle] + body else body
  }

  /** The elements of a list, as a set. */
  function Members(g: seq<string>): (r: set<string>)
    ensures forall f :: f in r <==> f in g
  {
    set k | 0 <= k < |g| :: g[k]
  }

  /** The files some pattern matches. */
  function IgnoredBy(globs: map<string, seq<string>>, pats: seq<string>): set<string> {
    if pats == [] then {}
    else IgnoredBy(globs, pats[..|pats| - 1]) + Members(Globbed(globs, pats[|pats| - 1]))
  }

  /** A file is ignored iff some pattern matches it. */
  lemma {:induction false} IgnoredBySpec(globs: map<string, seq<string>>, pats: seq<string>)
    ensures forall f :: f in IgnoredBy(globs, pats) <==> exists k :: 0 <= k < |pats| && f in Globbed(globs, pats[k])
  {
    if pats != [] {
      var init := pats[..|pats| - 1];
      IgnoredBySpec(globs, init);
      assert forall k :: 0 <= k < |init| ==> init[k] == pats[k];
    }
  }

  /** The lists one after the other. */
  function Concat<T>(xss: seq<seq<T>>): seq<T> {
    if xss == [] then [] else Concat(xss[..|xss| - 1]) + xss[|xss| - 1]
  }

  /** An element of the concatenation is an element of one of the lists. */
  lemma {:induction false} ConcatIn<T>(xss: seq<seq<T>>, x: T)
    ensures x in Concat(xss) <==> exists k :: 0 <= k < |xss| && x in xss[k]
  {
    if xss != [] {
      var init := xss[..|xss| - 1];
      assert Concat(xss) == Concat(init) + xss[|xss| - 1];
      ConcatIn(init, x);
      if x in Concat(init) {
        var k :| 0 <= k < |init| && x in init[k];
        assert init[k] == xss[k];
      }
      if exists k :: 0 <= k < |xss| && x in xss[k] {
        var k :| 0 <= k < |xss| && x in xss[k];
        if k < |init| {
          assert init[k] == xss[k];
        }
      }
    }
  }

  /** The matches of each pattern in turn: `[x for line in body for x in glob(line.strip())]` on the stripped lines. */
  function PriorityOf(globs: map<string, seq<string>>, pats: seq<string>): seq<string> {
    Concat(seq(|pats|, k requires 0 <= k < |pats| => Globbed(globs, pats[k])))
  }

  /** A file is prioritized iff some pattern matches it. */
  lemma PriorityOfSpec(globs: map<string, seq<string>>, pats: seq<string>, f: string)
    ensures f in PriorityOf(globs, pats) <==> exists k :: 0 <= k < |pats| && f in Globbed(globs, pats[k])
  {
    var xss := seq(|pats|, k requires 0 <= k < |pats| => Globbed(globs, pats[k]));
    ConcatIn(xss, f);
    assert forall k :: 0 <= k < |pats| ==> xss[k] == Globbed(globs, pats[k]);
  }

  // ---------------------------------------------------------------------
  // Settings

  /** `UsePNGAnimations`: the stripped, upper-cased subtitle says yes. */
  predicate Affirmative(subtitle: string) {
    var w := Upper(Strip(subtitle));
    w == "TRUE" || w == "YES" || w == "1"
  }

  /** `DocsDirectory`: the stripped subtitle without trailing slashes. */
  function DocsDirOf(subtitle: string): (r: string)
    ensures r == [] || r[|r| - 1] != '/'
    ensures |r| <= |Strip(subtitle)| && r == Strip(subtitle)[..|r|]
    ensures forall i :: |r| <= i < |Strip(subtitle)| ==> Strip(subtitle)[i] == '/'
  {
    RStripChar(Strip(subtitle), '/')
  }
}

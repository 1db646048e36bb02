/**
 * The source-hash cache: a table from file name to the hex digest of that
 * file's contents, read from and written to a hashes file of `name|hash`
 * lines. The table is a Python dictionary, so it keeps its keys in
 * insertion order; the model carries that order next to the map. The
 * digest itself is computed outside the model and handed in.
 */
module FileHashing {
  import opened Strings

  /** An insertion-ordered dictionary from file name to digest. */
  datatype Dict = Dict(order: seq<string>, hashes: map<string, string>)

  /** The order lists every key exactly once. */
  ghost predicate DictValid(d: Dict) {
    Distinct(d.order) && (forall k :: k in d.hashes <==> k in d.order)
  }

  ghost predicate Distinct(s: seq<string>) {
    forall i, j :: 0 <= i < j < |s| ==> s[i] != s[j]
  }

  const Empty: Dict := Dict([], map[])

  /** `d[k] = v`: a new key goes to the end, an existing key keeps its place. */
  function Put(d: Dict, k: string, v: string): (r: Dict)
    requires DictValid(d)
    ensures DictValid(r)
    ensures r.hashes == d.hashes[k := v]
    ensures k in d.hashes ==> r.order == d.order
    ensures k !in d.hashes ==> r.order == d.order + [k]
  {
    if k in d.hashes then Dict(d.order, d.hashes[k := v]) else Dict(d.order + [k], d.hashes[k := v])
  }

  function RemoveKey(s: seq<string>, k: string): (r: seq<string>)
    ensures forall x :: x in r <==> x in s && x != k
    ensures Distinct(s) ==> Distinct(r)
  {
    if s == [] then []
    else if s[0] == k then RemoveKey(s[1..], k)
    else
      var rest := RemoveKey(s[1..], k);
      assert Distinct(s) ==> s[0] !in s[1..];
      [s[0]] + rest
  }

  /** `d.pop(k)`: that entry goes, every other entry stays. */
  function Pop(d: Dict, k: string): (r: Dict)
    requires DictValid(d) && k in d.hashes
    ensures DictValid(r)
    ensures k !in r.hashes
    ensures forall x :: x != k ==> (x in r.hashes <==> x in d.hashes) && (x in r.hashes ==> r.hashes[x] == d.hashes[x])
  {
    Dict(RemoveKey(d.order, k), d.hashes - {k})
  }

  /**
   * The decision `is_changed` makes for a file whose current digest is
   * `newhash`, and the table it leaves behind.
   */
  function IsChangedSpec(d: Dict, filename: string, newhash: string): (r: (bool, Dict))
    requires DictValid(d)
    ensures DictValid(r.1)
  {
    if filename !in d.hashes then (true, Put(d, filename, newhash))
    else if d.hashes[filename] != newhash then (true, Put(d, filename, newhash))
    else (false, d)
  }

  /** An unknown file is reported changed and its digest recorded. */
  lemma UnknownIsChanged(d: Dict, filename: string, newhash: string)
    requires DictValid(d) && filename !in d.hashes
    ensures IsChangedSpec(d, filename, newhash).0
    ensures IsChangedSpec(d, filename, newhash).1.hashes == d.hashes[filename := newhash]
    ensures IsChangedSpec(d, filename, newhash).1.order == d.order + [filename]
  {
  }

  /** A differing digest is reported changed and replaces the stored one in place. */
  lemma DifferingIsChanged(d: Dict, filename: string, newhash: string)
    requires DictValid(d) && filename in d.hashes && d.hashes[filename] != newhash
    ensures IsChangedSpec(d, filename, newhash) == (true, Dict(d.order, d.hashes[filename := newhash]))
  {
  }

  /** Whatever the first answer, asking again about unchanged contents answers false and changes nothing. */
  lemma SecondCallUnchanged(d: Dict, filename: string, newhash: string)
    requires DictValid(d)
    ensures var d1 := IsChangedSpec(d, filename, newhash).1;
      IsChangedSpec(d1, filename, newhash) == (false, d1)
  {
  }

  /** After `invalidate`, the next `is_changed` on that file reports a change whatever the digest. */
  lemma InvalidateForcesChange(d: Dict, filename: string, newhash: string)
    requires DictValid(d) && filename in d.hashes
    ensures IsChangedSpec(Pop(d, filename), filename, newhash).0
  {
  }

  /** Python `readlines`: the text cut after every newline, the newlines kept. */
  function ReadLines(text: string): (r: seq<string>)
    decreases |text|
  {
    if text == [] then []
    else match Find(text, "\n")
      case None => [text]
      case Some(i) => [text[..i + 1]] + ReadLines(text[i + 1..])
  }

  /** One line of the hashes file, as `load` reads it: exactly two `|` fields after stripping. */
  function ParseLine(line: string): (r: Option<(string, string)>)
    ensures r.Some? <==> |Split(Strip(line), "|")| == 2
  {
    var parts := Split(Strip(line), "|");
    if |parts| == 2 then Some((parts[0], parts[1])) else None
  }

  /** Reads the remaining lines into `acc`; None as soon as one line is corrupt. */
  function LoadFrom(acc: Dict, lines: seq<string>): (r: Option<Dict>)
    requires DictValid(acc)
    ensures r.Some? ==> DictValid(r.value)
    decreases |lines|
  {
    if lines == [] then Some(acc)
    else match ParseLine(lines[0])
      case None => None
      case Some(kv) => LoadFrom(Put(acc, kv.0, kv.1), lines[1..])
  }

  /** Reading fails exactly when some line is corrupt. */
  lemma {:induction false} LoadFromFails(acc: Dict, lines: seq<string>)
    requires DictValid(acc)
    ensures LoadFrom(acc, lines).None? <==> exists i :: 0 <= i < |lines| && ParseLine(lines[i]).None?
    decreases |lines|
  {
    if lines != [] && ParseLine(lines[0]).Some? {
      var kv := ParseLine(lines[0]).value;
      LoadFromFails(Put(acc, kv.0, kv.1), lines[1..]);
      assert forall i :: 1 <= i < |lines| ==> lines[i] == lines[1..][i - 1];
      if exists i :: 0 <= i < |lines| && ParseLine(lines[i]).None? {
        var i :| 0 <= i < |lines| && ParseLine(lines[i]).None?;
        assert ParseLine(lines[1..][i - 1]).None?;
      }
    }
  }

  lemma LoadFromStep(acc: Dict, lines: seq<string>, i: nat)
    requires DictValid(acc) && i < |lines|
    ensures LoadFrom(acc, lines[i..]) ==
      if ParseLine(lines[i]).None? then None
      else LoadFrom(Put(acc, ParseLine(lines[i]).value.0, ParseLine(lines[i]).value.1), lines[i + 1..])
  {
    assert lines[i..][0] == lines[i];
    assert lines[i..][1..] == lines[i + 1..];
  }

  /**
   * The table `load` produces from the hashes file, `None` when the file
   * does not exist: a single corrupt line, an empty one included, empties
   * the whole table.
   */
  function LoadSpec(text: Option<string>): (r: Dict)
    ensures DictValid(r)
  {
    match text
      case None => Empty
      case Some(t) =>
        match LoadFrom(Empty, ReadLines(t))
          case None => Empty
          case Some(d) => d
  }

  /** One corrupt line empties the table. */
  lemma CorruptLineEmpties(t: string, i: nat)
    requires i < |ReadLines(t)| && ParseLine(ReadLines(t)[i]).None?
    ensures LoadSpec(Some(t)) == Empty
  {
    LoadFromFails(Empty, ReadLines(t));
  }

  function SaveLine(k: string, v: string): string { k + "|" + v + "\n" }

  /** What `save` writes: one `name|hash` line per entry, in dictionary order. */
  function SaveLines(keys: seq<string>, hashes: map<string, string>): string
    requires forall k :: k in keys ==> k in hashes
  {
    if keys == [] then "" else SaveLine(keys[0], hashes[keys[0]]) + SaveLines(keys[1..], hashes)
  }

  function SaveText(d: Dict): string
    requires DictValid(d)
  {
    SaveLines(d.order, d.hashes)
  }

  /** A name and digest that survive the file format: no separator, no newline, no whitespace outside. */
  predicate CleanEntry(k: string, v: string) {
    '|' !in k && '|' !in v && '\n' !in k && '\n' !in v
    && (k == [] || !IsSpace(k[0])) && (v == [] || !IsSpace(v[|v| - 1]))
  }

  lemma ReadLinesCons(x: string, rest: string)
    requires '\n' !in x
    ensures ReadLines(x + "\n" + rest) == [x + "\n"] + ReadLines(rest)
  {
    var t := x + "\n" + rest;
    FindAfterPrefix(x, '\n', rest);
    assert t[..|x| + 1] == x + "\n";
    assert t[|x| + 1..] == rest;
  }

  lemma ParseSavedLine(k: string, v: string)
    requires CleanEntry(k, v)
    ensures ParseLine(SaveLine(k, v)) == Some((k, v))
  {
    var body := k + "|" + v;
    assert body[0] == (if k == [] then '|' else k[0]);
    assert body[|body| - 1] == (if v == [] then '|' else v[|v| - 1]);
    assert SaveLine(k, v) == body + "\n";
    StripLine(body);
    assert Join([k, v], "|") == body;
    SplitJoin([k, v], '|');
  }

  /** Stripping a saved line removes exactly its newline. */
  lemma StripLine(body: string)
    requires body != [] && !IsSpace(body[0]) && !IsSpace(body[|body| - 1])
    ensures Strip(body + "\n") == body
  {
    var line := body + "\n";
    assert LStrip(line) == line;
    assert line[..|line| - 1] == body;
    assert RStrip(line) == RStrip(body);
    StripClean(body);
  }

  /** The table obtained by storing the entries for `ks`, in that order, into `acc`. */
  function BuildFrom(acc: Dict, ks: seq<string>, m: map<string, string>): (r: Dict)
    requires DictValid(acc) && forall k :: k in ks ==> k in m
    ensures DictValid(r)
    decreases |ks|
  {
    if ks == [] then acc else BuildFrom(Put(acc, ks[0], m[ks[0]]), ks[1..], m)
  }

  lemma {:induction false} LoadSavedLines(acc: Dict, ks: seq<string>, m: map<string, string>)
    requires DictValid(acc) && forall k :: k in ks ==> k in m && CleanEntry(k, m[k])
    ensures LoadFrom(acc, ReadLines(SaveLines(ks, m))) == Some(BuildFrom(acc, ks, m))
    decreases |ks|
  {
    if ks != [] {
      var k, v := ks[0], m[ks[0]];
      var rest := SaveLines(ks[1..], m);
      assert SaveLines(ks, m) == (k + "|" + v) + "\n" + rest;
      ReadLinesCons(k + "|" + v, rest);
      assert SaveLine(k, v) == (k + "|" + v) + "\n";
      ParseSavedLine(k, v);
      LoadSavedLines(Put(acc, k, v), ks[1..], m);
    }
  }

  lemma {:induction false} BuildFromShape(acc: Dict, ks: seq<string>, m: map<string, string>)
    requires DictValid(acc) && forall k :: k in ks ==> k in m
    requires Distinct(acc.order + ks)
    ensures BuildFrom(acc, ks, m).order == acc.order + ks
    ensures forall x :: x in BuildFrom(acc, ks, m).hashes <==> x in acc.hashes || x in ks
    ensures forall x :: x in ks ==> BuildFrom(acc, ks, m).hashes[x] == m[x]
    decreases |ks|
  {
    if ks != [] {
      var k := ks[0];
      var next := Put(acc, k, m[k]);
      assert k !in acc.order by {
        assert (acc.order + ks)[|acc.order|] == k;
        assert forall j :: 0 <= j < |acc.order| ==> (acc.order + ks)[j] == acc.order[j];
      }
      assert next.order == acc.order + [k];
      assert next.order + ks[1..] == acc.order + ks;
      BuildFromShape(next, ks[1..], m);
      var r := BuildFrom(acc, ks, m);
      forall x | x in ks ensures r.hashes[x] == m[x] {
        if x != k {
          assert x in ks[1..];
        } else if k in ks[1..] {
        } else {
          assert x !in ks[1..];
          assert forall y :: y in ks[1..] ==> r.hashes[y] == m[y];
          assert r.hashes[x] == next.hashes[x] by {
            KeptOutside(next, ks[1..], m, x);
          }
        }
      }
    }
  }

  lemma {:induction false} KeptOutside(acc: Dict, ks: seq<string>, m: map<string, string>, x: string)
    requires DictValid(acc) && forall k :: k in ks ==> k in m
    requires x in acc.hashes && x !in ks
    ensures x in BuildFrom(acc, ks, m).hashes && BuildFrom(acc, ks, m).hashes[x] == acc.hashes[x]
    decreases |ks|
  {
    if ks != [] {
      KeptOutside(Put(acc, ks[0], m[ks[0]]), ks[1..], m, x);
    }
  }

  /** Storing a valid table's entries in its own order rebuilds it. */
  lemma BuildFromAll(d: Dict)
    requires DictValid(d)
    ensures BuildFrom(Empty, d.order, d.hashes) == d
  {
    assert Empty.order + d.order == d.order;
    BuildFromShape(Empty, d.order, d.hashes);
    var r := BuildFrom(Empty, d.order, d.hashes);
    SameMap(r.hashes, d.hashes, d.order);
  }

  /** Two maps over the same keys, remembered as a list, that agree on those keys are equal. */
  lemma SameMap(a: map<string, string>, b: map<string, string>, keys: seq<string>)
    requires forall x :: x in a <==> x in keys
    requires forall x :: x in b <==> x in keys
    requires forall x :: x in keys ==> a[x] == b[x]
    ensures a == b
  {
    assert a.Keys == b.Keys;
  }

  /**
   * `load` after `save` gives back the table, order included, when every
   * name and digest is clean.
   */
  lemma LoadAfterSave(d: Dict)
    requires DictValid(d)
    requires forall k :: k in d.hashes ==> CleanEntry(k, d.hashes[k])
    ensures LoadSpec(Some(SaveText(d))) == d
  {
    BuildFromAll(d);
    LoadSavedLines(Empty, d.order, d.hashes);
  }

  /** The hashes after one file's turn in `processFiles` or `write_docs_files`: recorded by `is_changed`, dropped again if the file had errors. */
  function CacheAfter(d: Dict, infile: string, digest: string, hadErrors: bool): (r: Dict)
    requires DictValid(d)
  {
    var d1 := IsChangedSpec(d, infile, digest).1;
    if hadErrors then Pop(d1, infile) else d1
  }

  /** A file with errors is forgotten, so the next run re-renders it whatever its digest; otherwise its digest is kept. */
  lemma CacheAfterSpec(d: Dict, infile: string, digest: string, hadErrors: bool, next: string)
    requires DictValid(d)
    ensures DictValid(CacheAfter(d, infile, digest, hadErrors))
    ensures hadErrors ==> (infile !in CacheAfter(d, infile, digest, hadErrors).hashes
      && IsChangedSpec(CacheAfter(d, infile, digest, hadErrors), infile, next).0)
    ensures !hadErrors ==> (CacheAfter(d, infile, digest, hadErrors).hashes == d.hashes[infile := digest]
      && !IsChangedSpec(CacheAfter(d, infile, digest, hadErrors), infile, digest).0)
  {
  }

  class FileHashes {
    var order: seq<string>
    var fileHashes: map<string, string>

    ghost predicate Valid()
      reads this
    {
      DictValid(Dict(order, fileHashes))
    }

    function Table(): Dict
      reads this
    {
      Dict(order, fileHashes)
    }

    /** Creates the cache and loads it from the hashes file (`None` when it does not exist). */
    constructor (hashfile: Option<string>)
      ensures Valid()
      ensures Table() == LoadSpec(hashfile)
    {
      order, fileHashes := [], map[];
      new;
      Load(hashfile);
    }

    /** Rebuilds the table line by line; a corrupt line empties it and ends the reading. */
    method Load(hashfile: Option<string>)
      modifies this
      ensures Valid()
      ensures Table() == LoadSpec(hashfile)
    {
      order, fileHashes := [], map[];
      if hashfile.Some? {
        var lines := ReadLines(hashfile.value);
        var i := 0;
        var corrupt := false;
        assert lines[0..] == lines;
        while i < |lines| && !corrupt
          invariant 0 <= i <= |lines|
          decreases |lines| - i, if corrupt then 0 else 1
          invariant Valid()
          invariant corrupt ==> Table() == Empty && LoadFrom(Empty, lines).None?
          invariant !corrupt ==> LoadFrom(Empty, lines) == LoadFrom(Table(), lines[i..])
        {
          var parsed := ParseLine(lines[i]);
          LoadFromStep(Table(), lines, i);
          if parsed.None? {
            order, fileHashes := [], map[];
            corrupt := true;
          } else {
            var d := Put(Table(), parsed.value.0, parsed.value.1);
            order, fileHashes := d.order, d.hashes;
            i := i + 1;
          }
        }
        if !corrupt {
          assert lines[i..] == [];
          assert LoadFrom(Empty, lines) == Some(Table());
        }
      }
    }

    /** The text `save` writes to the hashes file. */
    method Save() returns (text: string)
      requires Valid()
      ensures text == SaveText(Table())
    {
      text := "";
      var i := 0;
      while i < |order|
        invariant 0 <= i <= |order|
        invariant text + SaveLines(order[i..], fileHashes) == SaveLines(order, fileHashes)
      {
        assert order[i..][1..] == order[i + 1..];
        var line := SaveLine(order[i], fileHashes[order[i]]);
        assert SaveLines(order[i..], fileHashes) == line + SaveLines(order[i + 1..], fileHashes);
        Assoc3(text, line, SaveLines(order[i + 1..], fileHashes));
        text := text + line;
        i := i + 1;
      }
    }

    /** `is_changed` given the current digest of the file's contents. */
    method IsChanged(filename: string, newhash: string) returns (changed: bool)
      requires Valid()
      modifies this
      ensures Valid()
      ensures (changed, Table()) == IsChangedSpec(old(Table()), filename, newhash)
    {
      if filename !in fileHashes {
        var d := Put(Table(), filename, newhash);
        order, fileHashes := d.order, d.hashes;
        return true;
      }
      var oldhash := fileHashes[filename];
      if oldhash != newhash {
        var d := Put(Table(), filename, newhash);
        order, fileHashes := d.order, d.hashes;
        return true;
      }
      return false;
    }

    /** `invalidate`: the entry must exist, as `dict.pop` without default demands. */
    method Invalidate(filename: string)
      requires Valid() && filename in fileHashes
      modifies this
      ensures Valid()
      ensures Table() == Pop(old(Table()), filename)
    {
      var d := Pop(Table(), filename);
      order, fileHashes := d.order, d.hashes;
    }
  }
}

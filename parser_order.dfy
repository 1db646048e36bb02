/**
 * The orders the document writers list things in: the file blocks with
 * the prioritized ones first (`_files_prioritized`), the groups of the
 * table of contents, and the letter buckets of the alphabetical index.
 * File blocks are named here by their positions in the parser's list of
 * file blocks and by their subtitles.
 */
module ParserOrder {
  import opened Strings

  // ---------------------------------------------------------------------
  // Prioritized files

  /** How many times `x` occurs in `xs`. */
  function Count<T(==)>(xs: seq<T>, x: T): nat {
    if xs == [] then 0 else Count(xs[..|xs| - 1], x) + (if xs[|xs| - 1] == x then 1 else 0)
  }

  /** Counting distributes over concatenation. */
  lemma {:induction false} CountAppend<T>(a: seq<T>, b: seq<T>, x: T)
    ensures Count(a + b, x) == Count(a, x) + Count(b, x)
  {
    if b != [] {
      var c := b[..|b| - 1];
      assert (a + b)[..|a + b| - 1] == a + c;
      CountAppend(a, c, x);
    } else {
      assert a + b == a;
    }
  }

  /** An element occurs iff it is counted. */
  lemma {:induction false} CountIn<T>(xs: seq<T>, x: T)
    ensures x in xs <==> Count(xs, x) > 0
  {
    if xs != [] {
      var c := xs[..|xs| - 1];
      assert xs == c + [xs[|xs| - 1]];
      CountIn(c, x);
    }
  }

  /** The positions below `n` whose name is `p`, in order. */
  function Matches<T(==)>(names: seq<T>, p: T, n: nat): seq<int>
    requires n <= |names|
  {
    if n == 0 then [] else Matches(names, p, n - 1) + (if names[n - 1] == p then [n - 1] else [])
  }

  /** For each of the first `m` priority names in turn, the positions of the files with that name. */
  function Front<T(==)>(names: seq<T>, pris: seq<T>, m: nat): seq<int>
    requires m <= |pris|
  {
    if m == 0 then [] else Front(names, pris, m - 1) + Matches(names, pris[m - 1], |names|)
  }

  /** One more priority name appends its files' positions. */
  lemma FrontStep<T>(names: seq<T>, pris: seq<T>, j: nat)
    requires j < |pris|
    ensures Front(names, pris, j + 1) == Front(names, pris, j) + Matches(names, pris[j], |names|)
  {
  }

  /** The positions below `n` whose name is no priority name, in order. */
  function Others<T(==)>(names: seq<T>, pris: seq<T>, n: nat): seq<int>
    requires n <= |names|
  {
    if n == 0 then [] else Others(names, pris, n - 1) + (if names[n - 1] in pris then [] else [n - 1])
  }

  /**
   * `_files_prioritized` on the file names: for each priority name in
   * turn, the files of that name; then every other file in its own order.
   */
  function Prioritized<T(==)>(names: seq<T>, pris: seq<T>): seq<int> {
    Front(names, pris, |pris|) + Others(names, pris, |names|)
  }

  /** A position below `n` with name `p` is matched once; no other position is. */
  lemma {:induction false} MatchesAt<T>(names: seq<T>, p: T, n: nat, k: int)
    requires n <= |names|
    ensures Count(Matches(names, p, n), k) == if 0 <= k < n && names[k] == p then 1 else 0
  {
    if n > 0 {
      MatchesAt(names, p, n - 1, k);
      var a := Matches(names, p, n - 1);
      var b: seq<int> := if names[n - 1] == p then [n - 1] else [];
      CountAppend(a, b, k);
      assert Count(b, k) == if k == n - 1 && names[n - 1] == p then 1 else 0 by {
        if b != [] { assert b[..0] == []; }
      }
    }
  }

  /** Every matched position is below `n` and has name `p`. */
  lemma {:induction false} MatchesMembers<T>(names: seq<T>, p: T, n: nat)
    requires n <= |names|
    ensures forall i :: 0 <= i < |Matches(names, p, n)| ==>
      0 <= Matches(names, p, n)[i] < n && names[Matches(names, p, n)[i]] == p
  {
    if n > 0 {
      MatchesMembers(names, p, n - 1);
    }
  }

  /** A position below `n` whose name is no priority name is kept once; no other position is. */
  lemma {:induction false} OthersAt<T>(names: seq<T>, pris: seq<T>, n: nat, k: int)
    requires n <= |names|
    ensures Count(Others(names, pris, n), k) == if 0 <= k < n && names[k] !in pris then 1 else 0
  {
    if n > 0 {
      OthersAt(names, pris, n - 1, k);
      var a := Others(names, pris, n - 1);
      if names[n - 1] !in pris {
        assert Others(names, pris, n) == a + [n - 1];
        CountAppend(a, [n - 1], k);
        assert [n - 1][..0] == [];
      } else {
        assert Others(names, pris, n) == a;
      }
    }
  }

  /** The other files keep their own order, and none of them is a priority file. */
  lemma {:induction false} OthersInOrder<T>(names: seq<T>, pris: seq<T>, n: nat)
    requires n <= |names|
    ensures forall i :: 0 <= i < |Others(names, pris, n)| ==>
      0 <= Others(names, pris, n)[i] < n && names[Others(names, pris, n)[i]] !in pris
    ensures forall i, j :: 0 <= i < j < |Others(names, pris, n)| ==> Others(names, pris, n)[i] < Others(names, pris, n)[j]
  {
    if n > 0 {
      OthersInOrder(names, pris, n - 1);
    }
  }

  /** A position of the front is that of a file named by one of the first `m` priority names. */
  lemma {:induction false} FrontListed<T>(names: seq<T>, pris: seq<T>, m: nat)
    requires m <= |pris|
    ensures forall i :: 0 <= i < |Front(names, pris, m)| ==>
      0 <= Front(names, pris, m)[i] < |names| && names[Front(names, pris, m)[i]] in pris[..m]
  {
    if m > 0 {
      FrontListed(names, pris, m - 1);
      var f, g := Front(names, pris, m - 1), Matches(names, pris[m - 1], |names|);
      MatchesMembers(names, pris[m - 1], |names|);
      forall i | 0 <= i < |f + g|
        ensures 0 <= (f + g)[i] < |names| && names[(f + g)[i]] in pris[..m]
      {
        if i < |f| {
          assert (f + g)[i] == f[i] && pris[..m - 1] <= pris[..m];
        } else {
          assert (f + g)[i] == g[i - |f|];
          assert pris[m - 1] == pris[..m][m - 1];
        }
      }
    }
  }

  /** A file is in the front once for every time the first `m` priority names name it. */
  lemma {:induction false} FrontAt<T>(names: seq<T>, pris: seq<T>, m: nat, k: int)
    requires m <= |pris|
    ensures Count(Front(names, pris, m), k) == if 0 <= k < |names| then Count(pris[..m], names[k]) else 0
  {
    if m > 0 {
      FrontAt(names, pris, m - 1, k);
      MatchesAt(names, pris[m - 1], |names|, k);
      CountAppend(Front(names, pris, m - 1), Matches(names, pris[m - 1], |names|), k);
      assert pris[..m][..m - 1] == pris[..m - 1];
    } else {
      assert pris[..0] == [];
    }
  }

  /**
   * Every file appears, as many times as the priority names name it when
   * it is prioritized and once when it is not; no other position appears.
   */
  lemma PrioritizedCount<T>(names: seq<T>, pris: seq<T>, k: int)
    ensures Count(Prioritized(names, pris), k) ==
      if k < 0 || k >= |names| then 0 else if names[k] in pris then Count(pris, names[k]) else 1
  {
    FrontAt(names, pris, |pris|, k);
    OthersAt(names, pris, |names|, k);
    CountAppend(Front(names, pris, |pris|), Others(names, pris, |names|), k);
    assert pris[..|pris|] == pris;
    if 0 <= k < |names| {
      CountIn(pris, names[k]);
    }
  }

  /** With no priority name listed twice, every file appears exactly once. */
  lemma PrioritizedPermutation<T>(names: seq<T>, pris: seq<T>, k: int)
    requires forall i, j :: 0 <= i < j < |pris| ==> pris[i] != pris[j]
    ensures Count(Prioritized(names, pris), k) == if 0 <= k < |names| then 1 else 0
  {
    PrioritizedCount(names, pris, k);
    if 0 <= k < |names| && names[k] in pris {
      DistinctOnce(pris, names[k]);
    }
  }

  /** A name listed at most once is counted at most once. */
  lemma {:induction false} DistinctOnce<T>(xs: seq<T>, x: T)
    requires forall i, j :: 0 <= i < j < |xs| ==> xs[i] != xs[j]
    ensures Count(xs, x) == if x in xs then 1 else 0
  {
    if xs != [] {
      var c := xs[..|xs| - 1];
      assert xs == c + [xs[|xs| - 1]];
      DistinctOnce(c, x);
      CountIn(c, x);
    }
  }

  /** The prioritized files come first: once a file is not prioritized, none after it is. */
  lemma PrioritizedFirst<T>(names: seq<T>, pris: seq<T>)
    ensures forall i :: 0 <= i < |Prioritized(names, pris)| ==> 0 <= Prioritized(names, pris)[i] < |names|
    ensures forall i, j :: 0 <= i < j < |Prioritized(names, pris)| && names[Prioritized(names, pris)[i]] !in pris ==>
      names[Prioritized(names, pris)[j]] !in pris
  {
    FrontListed(names, pris, |pris|);
    OthersInOrder(names, pris, |names|);
    var f, g := Front(names, pris, |pris|), Others(names, pris, |names|);
    assert pris[..|pris|] == pris;
    forall i | 0 <= i < |f + g| ensures 0 <= (f + g)[i] < |names| && (names[(f + g)[i]] in pris <==> i < |f|) {
      if i < |f| {
        assert (f + g)[i] == f[i];
      } else {
        assert (f + g)[i] == g[i - |f|];
      }
    }
  }

  // ---------------------------------------------------------------------
  // Groups of the table of contents

  /** The non-empty groups among the first `n`, each once, in the order they first appear. */
  function Firsts(gs: seq<string>, n: nat): seq<string>
    requires n <= |gs|
  {
    if n == 0 then []
    else
      var f := Firsts(gs, n - 1);
      if gs[n - 1] != "" && gs[n - 1] !in f then f + [gs[n - 1]] else f
  }

  /**
   * The groups of `write_toc_file`, from the groups of the prioritized
   * files: the named groups in the order they first appear, then the
   * unnamed group when some file has none.
   */
  function GroupOrder(gs: seq<string>): seq<string> {
    Firsts(gs, |gs|) + (if "" in gs then [""] else [])
  }

  /** A group is listed iff it is named and some of the first `n` files has it. */
  lemma {:induction false} FirstsIn(gs: seq<string>, n: nat)
    requires n <= |gs|
    ensures forall g :: g in Firsts(gs, n) <==> g != "" && g in gs[..n]
  {
    if n > 0 {
      FirstsIn(gs, n - 1);
      assert gs[..n] == gs[..n - 1] + [gs[n - 1]];
    }
  }

  /** No group is listed twice. */
  lemma {:induction false} FirstsDistinct(gs: seq<string>, n: nat)
    requires n <= |gs|
    ensures forall i, j :: 0 <= i < j < |Firsts(gs, n)| ==> Firsts(gs, n)[i] != Firsts(gs, n)[j]
  {
    if n > 0 {
      FirstsDistinct(gs, n - 1);
    }
  }

  /** Groups are listed in the order they first appear: wherever a later group occurs, each earlier one occurred before. */
  lemma {:induction false} FirstsOrder(gs: seq<string>, n: nat)
    requires n <= |gs|
    ensures forall i, j, q :: 0 <= i < j < |Firsts(gs, n)| && 0 <= q < n && gs[q] == Firsts(gs, n)[j] ==>
      Firsts(gs, n)[i] in gs[..q]
  {
    if n > 0 {
      var f := Firsts(gs, n - 1);
      FirstsOrder(gs, n - 1);
      FirstsIn(gs, n - 1);
      forall i, j, q | 0 <= i < j < |Firsts(gs, n)| && 0 <= q < n && gs[q] == Firsts(gs, n)[j]
        ensures Firsts(gs, n)[i] in gs[..q]
      {
        if q == n - 1 {
          assert Firsts(gs, n)[i] == f[i] && f[i] in gs[..n - 1];
        }
      }
    }
  }

  /** The groups of the table of contents: each group of a file once, the unnamed group last and no other group. */
  lemma GroupOrderSpec(gs: seq<string>)
    ensures forall g :: g in GroupOrder(gs) <==> g in gs
    ensures forall i, j :: 0 <= i < j < |GroupOrder(gs)| ==> GroupOrder(gs)[i] != GroupOrder(gs)[j]
    ensures forall i :: 0 <= i < |GroupOrder(gs)| && GroupOrder(gs)[i] == "" ==> i == |GroupOrder(gs)| - 1
  {
    FirstsIn(gs, |gs|);
    FirstsDistinct(gs, |gs|);
    assert gs[..|gs|] == gs;
  }

  // ---------------------------------------------------------------------
  // Letters of the alphabetical index

  /** The index letter of a name: its first letter upper-cased, or `0` when it does not start with a letter. */
  function Letter(name: string): char
    requires name != []
  {
    if IsAlpha(name[0]) then UpperChar(name[0]) else '0'
  }

  /** The letter is `0` or an upper-case letter, and does not depend on the case of the name. */
  lemma LetterSpec(name: string)
    requires name != []
    ensures Letter(name) == '0' || IsUpper(Letter(name))
    ensures Letter(Lower(name)) == Letter(name) && Letter(Upper(name)) == Letter(name)
  {
  }

  /** The entries among the first `n` whose name has index letter `c`, in order. */
  function Bucket(pairs: seq<(string, nat)>, c: char, n: nat): seq<(string, nat)>
    requires n <= |pairs| && forall k :: 0 <= k < |pairs| ==> pairs[k].0 != []
  {
    if n == 0 then []
    else Bucket(pairs, c, n - 1) + (if Letter(pairs[n - 1].0) == c then [pairs[n - 1]] else [])
  }

  /** `index_by_letter` after the first `n` entries: each entry appended to the list of its letter. */
  function Buckets(pairs: seq<(string, nat)>, n: nat): map<char, seq<(string, nat)>>
    requires n <= |pairs| && forall k :: 0 <= k < |pairs| ==> pairs[k].0 != []
  {
    if n == 0 then map[]
    else
      var m := Buckets(pairs, n - 1);
      var c := Letter(pairs[n - 1].0);
      m[c := (if c in m then m[c] else []) + [pairs[n - 1]]]
  }

  /** A letter has a list iff some entry has that letter, and its list is the entries with that letter in order. */
  lemma {:induction false} BucketsSpec(pairs: seq<(string, nat)>, n: nat)
    requires n <= |pairs| && forall k :: 0 <= k < |pairs| ==> pairs[k].0 != []
    ensures forall c :: c in Buckets(pairs, n) <==> Bucket(pairs, c, n) != []
    ensures forall c :: c in Buckets(pairs, n) ==> Buckets(pairs, n)[c] == Bucket(pairs, c, n)
  {
    if n > 0 {
      BucketsSpec(pairs, n - 1);
    }
  }

  /** Each entry is in the list of its own letter, and a list holds only entries with its letter. */
  lemma {:induction false} BucketMembers(pairs: seq<(string, nat)>, c: char, n: nat)
    requires n <= |pairs| && forall k :: 0 <= k < |pairs| ==> pairs[k].0 != []
    ensures forall k :: 0 <= k < n && Letter(pairs[k].0) == c ==> pairs[k] in Bucket(pairs, c, n)
    ensures forall e :: e in Bucket(pairs, c, n) ==> e in pairs[..n] && e.0 != [] && Letter(e.0) == c
  {
    if n > 0 {
      BucketMembers(pairs, c, n - 1);
      assert pairs[..n] == pairs[..n - 1] + [pairs[n - 1]];
    }
  }

  /** The letters an index can use, in sorted order: `0`, then `A` to `Z`. */
  function Alphabet(): seq<char> {
    ['0'] + seq(26, i requires 0 <= i < 26 => ('A' as int + i) as char)
  }

  /** The letters of the alphabet among the first `n` that have a list, in order. */
  function Present(keys: set<char>, n: nat): seq<char>
    requires n <= |Alphabet()|
  {
    if n == 0 then [] else Present(keys, n - 1) + (if Alphabet()[n - 1] in keys then [Alphabet()[n - 1]] else [])
  }

  /** `sorted(index_by_letter.keys())`, for keys that are index letters. */
  function SortedLetters(keys: set<char>): seq<char> {
    Present(keys, |Alphabet()|)
  }

  lemma {:induction false} PresentSpec(keys: set<char>, n: nat)
    requires n <= |Alphabet()|
    ensures forall c :: c in Present(keys, n) <==> c in keys && c in Alphabet()[..n]
    ensures forall i, j :: 0 <= i < j < |Present(keys, n)| ==> Present(keys, n)[i] < Present(keys, n)[j]
    ensures forall i :: 0 <= i < |Present(keys, n)| ==> Present(keys, n)[i] <= Alphabet()[n - 1]
  {
    if n > 0 {
      PresentSpec(keys, n - 1);
      assert Alphabet()[..n] == Alphabet()[..n - 1] + [Alphabet()[n - 1]];
    }
  }

  /** The sorted letters are exactly the keys, each once, in increasing order. */
  lemma SortedLettersSpec(keys: set<char>)
    requires forall c :: c in keys ==> c == '0' || IsUpper(c)
    ensures forall c :: c in SortedLetters(keys) <==> c in keys
    ensures forall i, j :: 0 <= i < j < |SortedLetters(keys)| ==> SortedLetters(keys)[i] < SortedLetters(keys)[j]
  {
    PresentSpec(keys, |Alphabet()|);
    assert Alphabet()[..|Alphabet()|] == Alphabet();
    forall c | c in keys ensures c in Alphabet() {
      if c != '0' {
        assert Alphabet()[c as int - 'A' as int + 1] == c;
      }
    }
  }

  /** The keys of the buckets are index letters. */
  lemma {:induction false} BucketKeys(pairs: seq<(string, nat)>, n: nat)
    requires n <= |pairs| && forall k :: 0 <= k < |pairs| ==> pairs[k].0 != []
    ensures forall c :: c in Buckets(pairs, n) ==> c == '0' || IsUpper(c)
  {
    if n > 0 {
      BucketKeys(pairs, n - 1);
      LetterSpec(pairs[n - 1].0);
    }
  }
}

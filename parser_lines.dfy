/**
 * The line-level part of the documentation parser: recognising a block
 * header `// Title[(meta)]: subtitle`, reading and de-denting the body
 * lines that follow it, and finding the next header.
 */
module ParserLines {
  import opened Strings

  // ---------------------------------------------------------------------
  // Header lines

  /** The characters of a title word after its first capital: `[A-Za-z0-9_&-]`. */
  predicate WordChar(c: char) {
    IsAlpha(c) || IsDigit(c) || c == '_' || c == '&' || c == '-'
  }

  /** `[A-Z][A-Za-z0-9_&-]*`. */
  predicate Word(w: string) {
    |w| >= 1 && IsUpper(w[0]) && forall i :: 1 <= i < |w| ==> WordChar(w[i])
  }

  /** A block title: one word, or two words joined by a single space. */
  predicate Title(t: string) {
    Word(t) || exists k :: 0 < k < |t| && t[k] == ' ' && Word(t[..k]) && Word(t[k + 1..])
  }

  /** What may follow the colon: nothing, or a space and the rest of the line, before an optional final newline. */
  predicate Rest(r: string) {
    r == "" || r == "\n" || (r[0] == ' ' && DollarRest(r[1..]).Some?)
  }

  /** The line made of a title, optional text in parentheses, and what follows the colon. */
  function HeaderText(title: string, meta: Option<string>, rest: string): string {
    "// " + title + (if meta.Some? then "(" + meta.value + ")" else "") + ":" + rest
  }

  /** The parts of a header line: the title, the text in parentheses if any, and what follows the colon. */
  datatype Parts = Parts(title: string, meta: Option<string>, rest: string)

  /** A recognised header: its title, its meta text and its stripped subtitle. */
  datatype Header = Header(title: string, meta: string, subtitle: string)

  /** The end of the run of word characters starting at `i`. */
  function WordEnd(s: string, i: nat): (j: nat)
    requires i <= |s|
    ensures i <= j <= |s| && (j == |s| || !WordChar(s[j]))
    decreases |s| - i
  {
    if i < |s| && WordChar(s[i]) then WordEnd(s, i + 1) else i
  }

  /** Where the title that starts after `// ` ends, when one starts there. */
  function TitleEnd(s: string): (r: Option<nat>)
    requires |s| >= 3
    ensures r.Some? ==> 3 < r.value <= |s|
  {
    if 3 < |s| && IsUpper(s[3]) then
      var j := WordEnd(s, 4);
      if j + 1 < |s| && s[j] == ' ' && IsUpper(s[j + 1]) then Some(WordEnd(s, j + 2)) else Some(j)
    else None
  }

  /** Where the colon must be after a title ending at `e`: after the text in parentheses when there is one. */
  function ColonAt(line: string, e: nat): (r: Option<nat>)
    requires e <= |line|
    ensures r.Some? ==> r.value <= |line| && (r.value == e || (e + 2 <= r.value && line[e] == '(' && line[r.value - 1] == ')'))
  {
    if e < |line| && line[e] == '(' then
      match IndexOf(line[e + 1..], ')')
        case None => None
        case Some(k) => Some(e + k + 2)
    else Some(e)
  }

  /** The colon at `c` is followed by an accepted rest. */
  predicate ColonOk(line: string, c: nat) {
    c < |line| && line[c] == ':' && Rest(line[c + 1..])
  }

  /** The parts of a line whose title ends at `e` and whose colon is at `c`. */
  function PartsOf(line: string, e: nat, c: nat): Parts
    requires 3 <= e <= c < |line| && (c == e || e + 2 <= c)
  {
    Parts(line[3..e], if c == e then None else Some(line[e + 1..c - 1]), line[c + 1..])
  }

  /** The header pattern, taken apart by hand. */
  function ParseParts(line: string): Option<Parts> {
    if !StartsWith(line, "// ") then None
    else match TitleEnd(line)
      case None => None
      case Some(e) =>
        match ColonAt(line, e)
          case None => None
          case Some(c) => if ColonOk(line, c) then Some(PartsOf(line, e, c)) else None
  }

  /**
   * The groups of a match: the meta text is what is inside the
   * parentheses (nothing without them), and the subtitle is the stripped
   * text the optional ` .*` group captured (nothing without it).
   */
  function ParseHeader(line: string): Option<Header> {
    match ParseParts(line)
      case None => None
      case Some(p) =>
        var meta := if p.meta.Some? then p.meta.value else "";
        var sub := if p.rest == "" || p.rest == "\n" then "" else Strip([' '] + DollarRest(p.rest[1..]).value);
        Some(Header(p.title, meta, sub))
  }

  predicate IsHeader(line: string) {
    ParseParts(line).Some?
  }

  /** A header line is a comment line. */
  lemma HeaderIsComment(line: string)
    requires IsHeader(line)
    ensures StartsWith(line, "//")
  {
    assert line[..2] == line[..3][..2];
  }

  /** Every character of the run is a word character. */
  lemma {:induction false} WordEndSpec(s: string, i: nat)
    requires i <= |s|
    ensures forall k :: i <= k < WordEnd(s, i) ==> WordChar(s[k])
    decreases |s| - i
  {
    if i < |s| && WordChar(s[i]) {
      WordEndSpec(s, i + 1);
    }
  }

  /** The characters from `i` to `j` are word characters, and the one at `j` is not: the run ends at `j`. */
  lemma {:induction false} WordEndAt(s: string, i: nat, j: nat)
    requires i <= j <= |s|
    requires forall k :: i <= k < j ==> WordChar(s[k])
    requires j == |s| || !WordChar(s[j])
    ensures WordEnd(s, i) == j
    decreases j - i
  {
    if i < j {
      WordEndAt(s, i + 1, j);
    }
  }

  /** A capital followed by a run of word characters is a word. */
  lemma WordOfRun(s: string, i: nat, j: nat)
    requires i < j <= |s| && IsUpper(s[i]) && forall k :: i + 1 <= k < j ==> WordChar(s[k])
    ensures Word(s[i..j])
  {
    var w := s[i..j];
    forall k | 1 <= k < |w| ensures WordChar(w[k]) {
      assert w[k] == s[i + k];
    }
  }

  /** Two words around a space make a title. */
  lemma TitleOfWords(s: string, i: nat, j: nat, e: nat)
    requires i < j < e <= |s| && s[j] == ' ' && Word(s[i..j]) && Word(s[j + 1..e])
    ensures Title(s[i..e])
  {
    var t := s[i..e];
    var k := j - i;
    assert t[..k] == s[i..j] && t[k + 1..] == s[j + 1..e] && t[k] == ' ';
  }

  /** A title end found by `TitleEnd` closes a title. */
  lemma TitleOfEnd(s: string)
    requires |s| >= 3 && TitleEnd(s).Some?
    ensures Title(s[3..TitleEnd(s).value])
  {
    var e := TitleEnd(s).value;
    var j := WordEnd(s, 4);
    WordEndSpec(s, 4);
    WordOfRun(s, 3, j);
    if j + 1 < |s| && s[j] == ' ' && IsUpper(s[j + 1]) {
      WordEndSpec(s, j + 2);
      WordOfRun(s, j + 1, e);
      TitleOfWords(s, 3, j, e);
    }
  }

  /** The text in parentheses holds no `)`. */
  lemma MetaOfColon(line: string, e: nat)
    requires e <= |line| && ColonAt(line, e).Some? && ColonAt(line, e).value != e
    ensures ')' !in line[e + 1..ColonAt(line, e).value - 1]
  {
    var k := IndexOf(line[e + 1..], ')').value;
    assert line[e + 1..e + 1 + k] == line[e + 1..][..k];
  }

  /** A line split at the title end `e` and the colon `c` is put back together by `HeaderText`. */
  lemma Reassembled(line: string, e: nat, c: nat)
    requires 3 <= e <= c < |line| && line[..3] == "// " && line[c] == ':'
    requires c == e || (e + 2 <= c && line[e] == '(' && line[c - 1] == ')')
    ensures line == HeaderText(line[3..e], if c == e then None else Some(line[e + 1..c - 1]), line[c + 1..])
  {
    if c == e {
      assert line == line[..3] + line[3..e] + ":" + line[e + 1..];
    } else {
      assert line == line[..3] + line[3..e] + "(" + line[e + 1..c - 1] + ")" + ":" + line[c + 1..];
    }
  }

  /** A recognised line: where its title ends and where its colon is. */
  lemma PartsFound(line: string) returns (e: nat, c: nat)
    requires ParseParts(line).Some?
    ensures line[..3] == "// " && TitleEnd(line) == Some(e) && ColonAt(line, e) == Some(c)
    ensures c < |line| && line[c] == ':' && Rest(line[c + 1..])
  {
    e := TitleEnd(line).value;
    c := ColonAt(line, e).value;
  }

  /** Every recognised line is a title, meta text without `)`, and an accepted rest, put together. */
  lemma HeaderSound(line: string)
    requires ParseParts(line).Some?
    ensures var p := ParseParts(line).value;
      && Title(p.title) && (p.meta.Some? ==> ')' !in p.meta.value) && Rest(p.rest)
      && line == HeaderText(p.title, p.meta, p.rest)
  {
    var e, c := PartsFound(line);
    PartsAt(line, e, c);
    TitleOfEnd(line);
    if c != e {
      MetaOfColon(line, e);
    }
    Reassembled(line, e, c);
  }

  /** A word copied into `s` at `at` is a run of word characters after its capital. */
  lemma WordIn(s: string, at: nat, w: string)
    requires Word(w) && at + |w| <= |s| && forall i :: 0 <= i < |w| ==> s[at + i] == w[i]
    ensures IsUpper(s[at]) && forall k :: at + 1 <= k < at + |w| ==> WordChar(s[k])
  {
    forall k | at + 1 <= k < at + |w| ensures WordChar(s[k]) {
      assert s[k] == w[k - at];
    }
  }

  /** One word after `// `, followed by neither a word character nor a space: the title ends after it. */
  lemma OneWordEnd(s: string, w: string)
    requires Word(w) && |s| > 3 + |w| && forall i :: 0 <= i < |w| ==> s[3 + i] == w[i]
    requires !WordChar(s[3 + |w|]) && s[3 + |w|] != ' '
    ensures TitleEnd(s) == Some(3 + |w|)
  {
    WordIn(s, 3, w);
    WordEndAt(s, 4, 3 + |w|);
  }

  /** Two words and a space between them after `// `: the title ends after the second. */
  lemma TwoWordEnd(s: string, a: string, b: string)
    requires Word(a) && Word(b) && |s| > 4 + |a| + |b|
    requires forall i :: 0 <= i < |a| ==> s[3 + i] == a[i]
    requires s[3 + |a|] == ' '
    requires forall i :: 0 <= i < |b| ==> s[4 + |a| + i] == b[i]
    requires !WordChar(s[4 + |a| + |b|]) && s[4 + |a| + |b|] != ' '
    ensures TitleEnd(s) == Some(4 + |a| + |b|)
  {
    WordIn(s, 3, a);
    WordIn(s, 4 + |a|, b);
    WordEndAt(s, 4, 3 + |a|);
    WordEndAt(s, 5 + |a|, 4 + |a| + |b|);
  }

  /** A two-word title split at its space `k`, copied into `s` after `// `: the title ends after the second word. */
  lemma SplitTitleEnd(s: string, t: string, k: nat)
    requires 0 < k < |t| && t[k] == ' ' && Word(t[..k]) && Word(t[k + 1..])
    requires |s| > 3 + |t| && forall i :: 0 <= i < |t| ==> s[3 + i] == t[i]
    requires !WordChar(s[3 + |t|]) && s[3 + |t|] != ' '
    ensures TitleEnd(s) == Some(3 + |t|)
  {
    var a, b := t[..k], t[k + 1..];
    forall i | 0 <= i < |a| ensures s[3 + i] == a[i] {
      assert a[i] == t[i];
    }
    forall i | 0 <= i < |b| ensures s[4 + |a| + i] == b[i] {
      assert b[i] == t[k + 1 + i];
    }
    TwoWordEnd(s, a, b);
  }

  /** A title copied into `s` after `// `, and followed by neither a word character nor a space, ends there. */
  lemma TitleEndOf(s: string, t: string)
    requires Title(t) && |s| > 3 + |t| && forall i :: 0 <= i < |t| ==> s[3 + i] == t[i]
    requires !WordChar(s[3 + |t|]) && s[3 + |t|] != ' '
    ensures TitleEnd(s) == Some(3 + |t|)
  {
    if Word(t) {
      OneWordEnd(s, t);
    } else {
      var k :| 0 < k < |t| && t[k] == ' ' && Word(t[..k]) && Word(t[k + 1..]);
      SplitTitleEnd(s, t, k);
    }
  }

  /** How `ParseParts` reads a line once the title end and the colon are found. */
  lemma PartsAt(line: string, e: nat, c: nat)
    requires StartsWith(line, "// ") && TitleEnd(line) == Some(e) && ColonAt(line, e) == Some(c) && ColonOk(line, c)
    ensures ParseParts(line) == Some(PartsOf(line, e, c))
  {
  }

  /** Text in parentheses after the title: the colon is looked for after the closing parenthesis. */
  lemma ColonAfterMeta(line: string, e: nat, v: string, after: string)
    requires e < |line| && line[e] == '(' && line[e + 1..] == v + [')'] + after && ')' !in v
    ensures ColonAt(line, e) == Some(e + |v| + 2)
  {
    IndexOfAfter(v, ')', after);
  }

  /** The three pieces of a concatenation are found again at their offsets. */
  lemma Joined<T>(a: seq<T>, b: seq<T>, c: seq<T>)
    ensures (a + b + c)[..|a|] == a && (a + b + c)[|a|..|a| + |b|] == b && (a + b + c)[|a| + |b|..] == c
    ensures forall i :: 0 <= i < |b| ==> (a + b + c)[|a| + i] == b[i]
  {
  }

  /** Where the pieces of a header with text in parentheses sit in the line: the title ends at `e`, the colon is at `c`. */
  lemma MetaLayout(s: string, t: string, v: string, rest: string, e: nat, c: nat)
    requires s == HeaderText(t, Some(v), rest) && e == 3 + |t| && c == e + |v| + 2 && Rest(rest)
    ensures StartsWith(s, "// ") && |s| > e && forall i :: 0 <= i < |t| ==> s[3 + i] == t[i]
    ensures s[e] == '(' && s[e + 1..] == v + [')'] + (":" + rest)
    ensures c < |s| && ColonOk(s, c) && PartsOf(s, e, c) == Parts(t, Some(v), rest)
  {
    var front := "// " + t + "(";
    var after := [')'] + (":" + rest);
    assert s == front + v + after;
    Joined(front, v, after);
    Joined("// ", t, "(" + v + after);
    assert s[c] == ':' && s[c + 1..] == rest;
    assert s[3..e] == t && s[e + 1..c - 1] == v;
  }

  /** A title copied after `// ` and followed by text in parentheses: the title ends at `e` and the colon is found after the text. */
  lemma MetaFound(s: string, t: string, v: string, after: string, e: nat)
    requires Title(t) && ')' !in v && e == 3 + |t| && |s| > e
    requires forall i :: 0 <= i < |t| ==> s[3 + i] == t[i]
    requires s[e] == '(' && s[e + 1..] == v + [')'] + after
    ensures TitleEnd(s) == Some(e) && ColonAt(s, e) == Some(e + |v| + 2)
  {
    ColonAfterMeta(s, e, v, after);
    TitleEndOf(s, t);
  }

  /** `HeaderComplete` for a header with text in parentheses. */
  lemma MetaHeaderComplete(t: string, v: string, rest: string)
    requires Title(t) && ')' !in v && Rest(rest)
    ensures ParseParts(HeaderText(t, Some(v), rest)) == Some(Parts(t, Some(v), rest))
  {
    var s := HeaderText(t, Some(v), rest);
    var e := 3 + |t|;
    var c := e + |v| + 2;
    MetaLayout(s, t, v, rest, e, c);
    MetaFound(s, t, v, ":" + rest, e);
    PartsAt(s, e, c);
  }

  /** `HeaderComplete` for a header without parentheses. */
  lemma BareHeaderComplete(t: string, rest: string)
    requires Title(t) && Rest(rest)
    ensures ParseParts(HeaderText(t, None, rest)) == Some(Parts(t, None, rest))
  {
    var s := "// " + t + ([':'] + rest);
    assert s == HeaderText(t, None, rest);
    Joined("// ", t, [':'] + rest);
    TitleEndOf(s, t);
    PartsAt(s, 3 + |t|, 3 + |t|);
  }

  /** Every title, meta text without `)` and accepted rest put together is recognised, with those parts. */
  lemma HeaderComplete(t: string, meta: Option<string>, rest: string)
    requires Title(t) && (meta.Some? ==> ')' !in meta.value) && Rest(rest)
    ensures ParseParts(HeaderText(t, meta, rest)) == Some(Parts(t, meta, rest))
  {
    if meta.Some? {
      MetaHeaderComplete(t, meta.value, rest);
    } else {
      BareHeaderComplete(t, rest);
    }
  }

  // ---------------------------------------------------------------------
  // Block bodies

  /** `" " * n`. */
  function Spaces(n: nat): (r: string)
    ensures |r| == n && forall i :: 0 <= i < n ==> r[i] == ' '
  {
    if n == 0 then "" else Spaces(n - 1) + " "
  }

  /** The body of a block: its de-dented lines and the line after it, or a line indented less than the first. */
  datatype BodyRead = BodyRead(body: seq<string>, next: nat) | LessIndent(at: nat)

  /** How far the first body line is indented: the whitespace after `//`. */
  function Width(line: string): nat
    requires |line| >= 2
  {
    |line[2..]| - |LStrip(line[2..])|
  }

  /**
   * The de-dent loop from line `i` on: a line continues the body when it
   * starts with `//` and `indent` spaces; the first body line sets the
   * indent to its own; each line loses `//`, the indent and trailing
   * whitespace. A line that stops the body but starts with `//` and two
   * spaces is indented less than the first.
   */
  function Dedent(lines: seq<string>, i: nat, indent: nat, first: bool, acc: seq<string>): BodyRead
    requires i <= |lines|
    decreases |lines| - i
  {
    if i == |lines| then BodyRead(acc, i)
    else if !StartsWith(lines[i], "//" + Spaces(indent)) then
      if StartsWith(lines[i], "//  ") then LessIndent(i) else BodyRead(acc, i)
    else
      var w := if first then Width(lines[i]) else indent;
      Dedent(lines, i + 1, w, false, acc + [RStrip(lines[i][2 + w..])])
  }

  /** A line that goes on a body indented `w`. */
  predicate Continues(line: string, w: nat) {
    StartsWith(line, "//" + Spaces(w))
  }

  /** The `n` body lines from `start`, de-dented by `w`. */
  function Dedented(lines: seq<string>, start: nat, n: nat, w: nat): seq<string>
    requires start + n <= |lines| && forall k :: start <= k < start + n ==> 2 + w <= |lines[k]|
  {
    seq(n, k requires 0 <= k < n => RStrip(lines[start + k][2 + w..]))
  }

  /** The first line of a body: `//` and at least two spaces. */
  predicate Opens(line: string) {
    StartsWith(line, "//  ")
  }

  lemma SpacesPrefix(a: nat, b: nat)
    requires a <= b
    ensures ("//" + Spaces(b))[..2 + a] == "//" + Spaces(a)
  {
  }

  /** The first line's indent is at least two, and the line is long enough to lose it. */
  lemma WidthOfOpening(line: string)
    requires Opens(line)
    ensures 2 <= Width(line) && 2 + Width(line) <= |line|
  {
    var l := line[2..];
    assert l[0] == ' ' && l[1] == ' ';
    assert l[1..][0] == ' ' && l[1..][1..] == l[2..];
    assert LStrip(l) == LStrip(l[1..]) == LStrip(l[2..]);
  }

  /**
   * A body indented `w` from line `start` up to `next`: every later line
   * continues it, each line is de-dented by `w`, and it ends at the end of
   * the input or at a line that does not open a body either.
   */
  predicate BodyOf(lines: seq<string>, start: nat, w: nat, body: seq<string>, next: nat) {
    && start <= next <= |lines|
    && (forall k :: start <= k < next ==> 2 + w <= |lines[k]|)
    && (forall k :: start < k < next ==> Continues(lines[k], w))
    && body == Dedented(lines, start, next - start, w)
    && (next == |lines| || !Opens(lines[next]))
  }

  /** Line `at` opens a body but is indented less than the body from `start`, indented `w`. */
  predicate LessOf(lines: seq<string>, start: nat, w: nat, at: nat) {
    && start <= at < |lines|
    && (forall k :: start < k < at ==> Continues(lines[k], w))
    && Opens(lines[at]) && !Continues(lines[at], w)
  }

  /** What the de-dent loop read: a body from `start` or a less indented line, found at `i` or later. */
  predicate ReadFrom(lines: seq<string>, start: nat, w: nat, i: nat, r: BodyRead) {
    && (r.BodyRead? ==> BodyOf(lines, start, w, r.body, r.next) && i <= r.next)
    && (r.LessIndent? ==> LessOf(lines, start, w, r.at) && i <= r.at)
  }

  /**
   * The de-dent loop after its first body line: the result is what the
   * body so far plus the lines that still continue it make.
   */
  lemma {:induction false} DedentAfter(lines: seq<string>, start: nat, i: nat, w: nat, acc: seq<string>)
    requires start < i <= |lines| && |acc| == i - start && w >= 2
    requires forall k :: start <= k < i ==> 2 + w <= |lines[k]|
    requires forall k :: start < k < i ==> Continues(lines[k], w)
    requires acc == Dedented(lines, start, i - start, w)
    ensures ReadFrom(lines, start, w, i, Dedent(lines, i, w, false, acc))
    decreases |lines| - i
  {
    if i < |lines| && Continues(lines[i], w) {
      var acc' := acc + [RStrip(lines[i][2 + w..])];
      assert acc' == Dedented(lines, start, i + 1 - start, w);
      DedentAfter(lines, start, i + 1, w, acc');
    } else if i < |lines| && !Opens(lines[i]) {
    } else if i < |lines| {
      SpacesPrefix(2, w);
    }
  }

  /**
   * What the de-dent loop reads after a header. No body when the next
   * line does not open one. Otherwise the first line's indent `w` (at
   * least two) is taken off every line, each later line starting with
   * `//` and `w` spaces, until a line that does not (the body then ends if
   * it does not start with `//` and two spaces either, and is indented
   * less than the first otherwise) or the end of the input.
   */
  lemma DedentSpec(lines: seq<string>, start: nat)
    requires start <= |lines|
    ensures start == |lines| || !Opens(lines[start]) ==> Dedent(lines, start, 2, true, []) == BodyRead([], start)
    ensures start < |lines| && Opens(lines[start]) ==>
      var w := Width(lines[start]);
      var r := Dedent(lines, start, 2, true, []);
      && 2 <= w
      && ReadFrom(lines, start, w, start + 1, r)
  {
    if start < |lines| && Opens(lines[start]) {
      DedentOpening(lines, start);
    } else if start < |lines| {
      OpensContinues(lines[start]);
    }
  }

  /** `DedentSpec` when the line after the header opens a body. */
  lemma DedentOpening(lines: seq<string>, start: nat)
    requires start < |lines| && Opens(lines[start])
    ensures var w := Width(lines[start]);
      var r := Dedent(lines, start, 2, true, []);
      && 2 <= w
      && ReadFrom(lines, start, w, start + 1, r)
  {
    var w := Width(lines[start]);
    var acc := DedentFirst(lines, start);
    assert forall k :: start <= k < start + 1 ==> 2 + w <= |lines[k]|;
    DedentAfter(lines, start, start + 1, w, acc);
    assert Dedent(lines, start, 2, true, []) == Dedent(lines, start + 1, w, false, acc);
  }

  /** The first body line fixes the indent and is taken as it is. */
  lemma DedentFirst(lines: seq<string>, start: nat) returns (acc: seq<string>)
    requires start < |lines| && Opens(lines[start])
    ensures 2 <= Width(lines[start]) && 2 + Width(lines[start]) <= |lines[start]|
    ensures acc == Dedented(lines, start, 1, Width(lines[start]))
    ensures Dedent(lines, start, 2, true, []) == Dedent(lines, start + 1, Width(lines[start]), false, acc)
  {
    var w := Width(lines[start]);
    WidthOfOpening(lines[start]);
    OpensContinues(lines[start]);
    acc := [RStrip(lines[start][2 + w..])];
    assert [] + acc == acc;
    assert StartsWith(lines[start], "//" + Spaces(2));
    DedentedOne(lines, start, w);
  }

  /** A line that opens a body goes on one indented two. */
  lemma OpensContinues(line: string)
    ensures Opens(line) <==> Continues(line, 2)
  {
    assert "//" + Spaces(2) == "//  ";
  }

  /** One de-dented line. */
  lemma DedentedOne(lines: seq<string>, start: nat, w: nat)
    requires start < |lines| && 2 + w <= |lines[start]|
    ensures Dedented(lines, start, 1, w) == [RStrip(lines[start][2 + w..])]
  {
  }

  /** The body read after a header ends at that line or later, and a less indented line is one of the lines read. */
  lemma DedentBounds(lines: seq<string>, start: nat)
    requires start <= |lines|
    ensures var r := Dedent(lines, start, 2, true, []);
      && (r.BodyRead? ==> start <= r.next <= |lines|)
      && (r.LessIndent? ==> start < r.at < |lines|)
  {
    DedentSpec(lines, start);
  }

  /** The de-dent loop of `_parse_block`, reading the body that starts at line `start`. */
  method ReadBody(lines: seq<string>, start: nat) returns (r: BodyRead)
    requires start <= |lines|
    ensures r == Dedent(lines, start, 2, true, [])
  {
    var body: seq<string> := [];
    var indent := 2;
    var first := true;
    var i := start;
    while i < |lines|
      invariant start <= i <= |lines|
      invariant Dedent(lines, start, 2, true, []) == Dedent(lines, i, indent, first, body)
      decreases |lines| - i
    {
      var line := lines[i];
      if !StartsWith(line, "//" + Spaces(indent)) {
        if StartsWith(line, "//  ") {
          return LessIndent(i);
        }
        return BodyRead(body, i);
      }
      if first {
        first := false;
        indent := Width(line);
      }
      body := body + [RStrip(line[2 + indent..])];
      i := i + 1;
    }
    r := BodyRead(body, i);
  }

  // ---------------------------------------------------------------------
  // Skipping to the next header

  /** The first header line at or after `i`; `i` itself when it is past the end. */
  function NextHeader(lines: seq<string>, i: nat): (r: nat)
    ensures i <= r && (r < |lines| ==> IsHeader(lines[r]))
    ensures i <= |lines| ==> r <= |lines|
    decreases |lines| - i
  {
    if i >= |lines| then i else if IsHeader(lines[i]) then i else NextHeader(lines, i + 1)
  }

  /** No line before the next header is a header. */
  lemma {:induction false} NextHeaderFirst(lines: seq<string>, i: nat)
    ensures forall k :: i <= k < NextHeader(lines, i) && k < |lines| ==> !IsHeader(lines[k])
    decreases |lines| - i
  {
    if i < |lines| && !IsHeader(lines[i]) {
      NextHeaderFirst(lines, i + 1);
    }
  }

  /** Some line from `i` up to `j` is not a comment line. */
  predicate Breaks(lines: seq<string>, i: nat, j: nat)
    decreases j
  {
    i < j && ((j - 1 < |lines| && !StartsWith(lines[j - 1], "//")) || Breaks(lines, i, j - 1))
  }

  /** `Breaks` read as: some line in the range does not start with `//`. */
  lemma {:induction false} BreaksSome(lines: seq<string>, i: nat, j: nat)
    ensures Breaks(lines, i, j) <==> exists k :: i <= k < j && k < |lines| && !StartsWith(lines[k], "//")
    decreases j
  {
    if i < j {
      BreaksSome(lines, i, j - 1);
      if Breaks(lines, i, j) && !(j - 1 < |lines| && !StartsWith(lines[j - 1], "//")) {
        var k :| i <= k < j - 1 && k < |lines| && !StartsWith(lines[k], "//");
        assert i <= k < j;
      }
    }
  }

  // ---------------------------------------------------------------------
  // Meta options

  /** An option's value: the text after `=`, or 1 for a bare key. */
  datatype MetaValue = Flag | Given(value: string)

  function MetaKey(part: string): string {
    if '=' in part then SplitN(part, "=", 1)[0] else part
  }

  function MetaVal(part: string): MetaValue {
    if '=' in part then MetaPartSplits(part); Given(SplitN(part, "=", 1)[1]) else Flag
  }

  /** The dictionary built from the parts in turn; a later part overrides an earlier one with the same key. */
  function MetaDictOf(parts: seq<string>): map<string, MetaValue> {
    if parts == [] then map[]
    else MetaDictOf(parts[..|parts| - 1])[MetaKey(parts[|parts| - 1]) := MetaVal(parts[|parts| - 1])]
  }

  /** `_parse_meta_dict`: the options of a `;`-separated meta text. */
  function MetaDict(meta: string): map<string, MetaValue> {
    MetaDictOf(Split(meta, ";"))
  }

  /** A part with an `=` splits in two at its first `=`. */
  lemma MetaPartSplits(part: string)
    requires '=' in part
    ensures |SplitN(part, "=", 1)| == 2
  {
    ContainsChar(part, '=');
    var i := Find(part, "=").value;
    assert SplitN(part[i + 1..], "=", 0) == [part[i + 1..]];
  }

  /** `s.split("=", 1)`: the whole text when it has no `=`, else the text before its first `=` and the text after it. */
  lemma SplitAtEq(s: string)
    ensures '=' !in s ==> SplitN(s, "=", 1) == [s]
    ensures '=' in s ==> var r := SplitN(s, "=", 1);
      |r| == 2 && '=' !in r[0] && s == r[0] + "=" + r[1]
  {
    if '=' in s {
      SplitAtFirstEq(s);
    } else {
      ContainsChar(s, '=');
    }
  }

  /** The split of a text with an `=`: the text before the first `=` and the text after it. */
  lemma SplitAtFirstEq(s: string)
    requires '=' in s
    ensures var r := SplitN(s, "=", 1);
      |r| == 2 && '=' !in r[0] && s == r[0] + "=" + r[1]
  {
    ContainsChar(s, '=');
    var i := Find(s, "=").value;
    assert s[i..i + 1] == "=";
    forall k | 0 <= k < i ensures s[k] != '=' {
      assert !StartsWith(s[k..], "=");
    }
    assert SplitN(s[i + 1..], "=", 0) == [s[i + 1..]];
    assert SplitN(s, "=", 1) == [s[..i], s[i + 1..]];
    assert s == s[..i] + "=" + s[i + 1..];
  }

  /** `_parse_meta_dict`, part by part. */
  method ParseMetaDict(meta: string) returns (d: map<string, MetaValue>)
    ensures d == MetaDict(meta)
  {
    var parts := Split(meta, ";");
    d := map[];
    var i := 0;
    while i < |parts|
      invariant 0 <= i <= |parts| && d == MetaDictOf(parts[..i])
    {
      assert parts[..i + 1][..i] == parts[..i];
      var part := parts[i];
      if '=' in part {
        MetaPartSplits(part);
        var kv := SplitN(part, "=", 1);
        assert MetaKey(part) == kv[0] && MetaVal(part) == Given(kv[1]);
        d := d[kv[0] := Given(kv[1])];
      } else {
        assert MetaKey(part) == part && MetaVal(part) == Flag;
        d := d[part := Flag];
      }
      i := i + 1;
    }
    assert parts[..i] == parts;
  }

  /** Every part's key is in the dictionary, and nothing else is. */
  lemma {:induction false} MetaDictKeys(parts: seq<string>)
    ensures forall i :: 0 <= i < |parts| ==> MetaKey(parts[i]) in MetaDictOf(parts)
    ensures forall key :: key in MetaDictOf(parts) ==> exists j :: 0 <= j < |parts| && MetaKey(parts[j]) == key
  {
    if parts != [] {
      var init := parts[..|parts| - 1];
      MetaDictKeys(init);
      forall key | key in MetaDictOf(parts) ensures exists j :: 0 <= j < |parts| && MetaKey(parts[j]) == key {
        if key != MetaKey(parts[|parts| - 1]) {
          var j :| 0 <= j < |init| && MetaKey(init[j]) == key;
          assert parts[j] == init[j];
        }
      }
      forall i | 0 <= i < |parts| - 1 ensures MetaKey(parts[i]) in MetaDictOf(parts) {
        assert parts[i] == init[i];
      }
    }
  }

  /** A key's value is that of the last part with that key: a later part overrides an earlier one. */
  lemma {:induction false} MetaDictLast(parts: seq<string>)
    ensures forall j :: 0 <= j < |parts| && (forall l :: j < l < |parts| ==> MetaKey(parts[l]) != MetaKey(parts[j])) ==>
      MetaKey(parts[j]) in MetaDictOf(parts) && MetaDictOf(parts)[MetaKey(parts[j])] == MetaVal(parts[j])
  {
    if parts != [] {
      var init := parts[..|parts| - 1];
      MetaDictLast(init);
      forall j | 0 <= j < |parts| - 1 && (forall l :: j < l < |parts| ==> MetaKey(parts[l]) != MetaKey(parts[j]))
        ensures MetaKey(parts[j]) in MetaDictOf(parts) && MetaDictOf(parts)[MetaKey(parts[j])] == MetaVal(parts[j])
      {
        assert parts[j] == init[j];
        assert forall l :: j < l < |init| ==> init[l] == parts[l];
      }
    }
  }
}

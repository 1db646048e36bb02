/**
 * The plain wiki output profile: Markdown escaping, header anchors, links,
 * headers, lists, tables, code blocks and image blocks, each producing the
 * list of output lines the document writers concatenate.
 */
module TargetWiki {
  import opened Strings

  const FILE: nat := 1
  const SECTION: nat := 2
  const SUBSECTION: nat := 2
  const ITEM: nat := 3
  const Suffix: string := ".md"

  // ---------------------------------------------------------------------
  // Escaping

  /** The characters escaping rewrites. */
  predicate Special(c: char) { c == '_' || c == '&' || c == '<' || c == '>' }

  /** The escape of one character outside a backtick span. */
  function EscChar(c: char): (r: string)
    ensures !Special(c) ==> r == [c]
    ensures Special(c) ==> |r| >= 2 && '<' !in r && '>' !in r
  {
    if c == '_' then "\\_"
    else if c == '&' then "&amp;"
    else if c == '<' then "&lt;"
    else if c == '>' then "&gt;"
    else [c]
  }

  /** Every character replaced by its escape, independently of its neighbours. */
  function EscChars(s: string): (r: string)
    ensures (forall i :: 0 <= i < |s| ==> !Special(s[i])) ==> r == s
  {
    if s == [] then [] else EscChar(s[0]) + EscChars(s[1..])
  }

  /** The four successive `replace` calls applied to the text outside backticks. */
  function EscUnquoted(u: string): string {
    ReplaceChar(ReplaceChar(ReplaceChar(ReplaceChar(u, '_', "\\_"), '&', "&amp;"), '<', "&lt;"), '>', "&gt;")
  }

  function R4(s: string): string { ReplaceChar(ReplaceChar(ReplaceChar(s, '&', "&amp;"), '<', "&lt;"), '>', "&gt;") }

  lemma R4Append(a: string, b: string)
    ensures R4(a + b) == R4(a) + R4(b)
  {
    ReplaceCharAppend(a, b, '&', "&amp;");
    ReplaceCharAppend(ReplaceChar(a, '&', "&amp;"), ReplaceChar(b, '&', "&amp;"), '<', "&lt;");
    ReplaceCharAppend(ReplaceChar(ReplaceChar(a, '&', "&amp;"), '<', "&lt;"),
                      ReplaceChar(ReplaceChar(b, '&', "&amp;"), '<', "&lt;"), '>', "&gt;");
  }

  /**
   * Because `&` is replaced before `<` and `>`, and no replacement text
   * contains a character a later step rewrites, the four replacements
   * amount to escaping each character once: `<` becomes `&lt;`, never
   * `&amp;lt;`.
   */
  lemma {:induction false} EscapeOnce(u: string)
    ensures EscUnquoted(u) == EscChars(u)
  {
    if u != [] {
      var h := if u[0] == '_' then "\\_" else [u[0]];
      assert ReplaceChar(u, '_', "\\_") == h + ReplaceChar(u[1..], '_', "\\_");
      R4Append(h, ReplaceChar(u[1..], '_', "\\_"));
      R4One(u[0]);
      EscapeOnce(u[1..]);
    }
  }

  /** The three later replacements leave the first one's output for a single character alone. */
  lemma R4One(c: char)
    ensures R4(if c == '_' then "\\_" else [c]) == EscChar(c)
  {
    if c == '_' {
      assert R4("\\_") == "\\_";
    } else if c == '&' {
      assert ReplaceChar([c], '&', "&amp;") == "&amp;";
    } else if c == '<' {
      assert ReplaceChar([c], '<', "&lt;") == "&lt;";
    } else if c == '>' {
      assert ReplaceChar([c], '>', "&gt;") == "&gt;";
    }
  }

  /**
   * The groups of `quotpat` matched at the start of `txt`: the text before
   * the first backtick, the backtick span, and the rest up to the end of the
   * line (a single final newline dropped). No match when there is no closing
   * backtick or the rest spans more than one line.
   */
  function QuoteMatch(txt: string): (m: Option<(string, string, string)>)
    ensures m.Some? ==> |m.value.0| + |m.value.1| + |m.value.2| <= |txt| && |m.value.1| >= 2
  {
    match IndexOf(txt, '`')
      case None => None
      case Some(i) => QuoteAfter(txt, i)
  }

  /** The rest of a `quotpat` match once the opening backtick is found at `i`. */
  function QuoteAfter(txt: string, i: nat): (m: Option<(string, string, string)>)
    requires i < |txt|
    ensures m.Some? ==> |m.value.0| + |m.value.1| + |m.value.2| <= |txt| && |m.value.1| >= 2
  {
    match IndexOf(txt[i + 1..], '`')
      case None => None
      case Some(j) =>
        match DollarRest(txt[i + j + 2..])
          case None => None
          case Some(rest) => Some((txt[..i], txt[i..i + j + 2], rest))
  }

  /**
   * The shape of a `quotpat` match: unquoted text without backticks, then a
   * span that opens and closes with a backtick and holds none inside, the
   * two together a prefix of the text.
   */
  predicate SpanForm(txt: string, unquoted: string, span: string) {
    '`' !in unquoted && |span| >= 2 && span[0] == '`' && span[|span| - 1] == '`'
    && '`' !in span[1..|span| - 1] && StartsWith(txt, unquoted + span)
  }

  /** A match consists of unquoted text without backticks followed by one backtick span. */
  lemma QuoteMatchShape(txt: string)
    requires QuoteMatch(txt).Some?
    ensures SpanForm(txt, QuoteMatch(txt).value.0, QuoteMatch(txt).value.1)
  {
    var i := IndexOf(txt, '`').value;
    QuoteAfterShape(txt, i);
  }

  lemma QuoteAfterShape(txt: string, i: nat)
    requires i < |txt| && txt[i] == '`' && '`' !in txt[..i] && QuoteAfter(txt, i).Some?
    ensures SpanForm(txt, QuoteAfter(txt, i).value.0, QuoteAfter(txt, i).value.1)
  {
    var j := IndexOf(txt[i + 1..], '`').value;
    SpanShape(txt, i, j);
  }

  /** The geometry of a backtick span found at `i` whose closing backtick is `j` further on. */
  lemma SpanShape(txt: string, i: nat, j: nat)
    requires i + j + 2 <= |txt| && txt[i] == '`' && txt[i + 1..][j] == '`'
    requires '`' !in txt[..i] && '`' !in txt[i + 1..][..j]
    ensures SpanForm(txt, txt[..i], txt[i..i + j + 2])
  {
    SliceSlice(txt, i, i + j + 2, 1, j + 1);
    DropTake(txt, i + 1, j);
    TakeSplit(txt, i, i + j + 2);
  }

  /** What `escape_entities` returns. */
  function EscapeSpec(txt: string): string
    decreases |txt|
  {
    if txt == [] then []
    else match QuoteMatch(txt)
      case None => EscUnquoted(txt)
      case Some(g) => EscUnquoted(g.0) + g.1 + EscapeSpec(g.2)
  }

  /** Text without special characters and without backticks is left as it is. */
  lemma EscapePlain(txt: string)
    requires '`' !in txt && forall i :: 0 <= i < |txt| ==> !Special(txt[i])
    ensures EscapeSpec(txt) == txt
  {
    ContainsChar(txt, '`');
    EscapeOnce(txt);
  }

  /**
   * A backtick span on a single line is copied verbatim; the text before it
   * is escaped character by character.
   */
  lemma {:induction false} EscapeSpan(a: string, b: string, c: string)
    requires '`' !in a && '`' !in b && '\n' !in c
    ensures EscapeSpec(a + "`" + b + "`" + c) == EscChars(a) + "`" + b + "`" + EscapeSpec(c)
  {
    UnquotedBeforeSpan(a, b, c);
    EscapeOnce(a);
  }

  lemma {:induction false} UnquotedBeforeSpan(a: string, b: string, c: string)
    requires '`' !in a && '`' !in b && '\n' !in c
    ensures EscapeSpec(a + "`" + b + "`" + c) == EscUnquoted(a) + "`" + b + "`" + EscapeSpec(c)
  {
    var txt := a + "`" + b + "`" + c;
    assert |txt| > 0;
    QuoteMatchOf(a, b, c);
  }

  lemma {:induction false} QuoteMatchOf(a: string, b: string, c: string)
    requires '`' !in a && '`' !in b && '\n' !in c
    ensures QuoteMatch(a + "`" + b + "`" + c) == Some((a, "`" + b + "`", c))
  {
    var txt := a + "`" + b + "`" + c;
    var tail := b + "`" + c;
    var n := |a|;
    assert txt[..n] == a;
    assert txt[n + 1..] == tail;
    assert txt == a + ['`'] + tail by {
      TakeSplit(txt, n, n + 1);
      DropSplit(txt, n);
    }
    IndexOfAfter(a, '`', tail);
    assert tail == b + ['`'] + c;
    IndexOfAfter(b, '`', c);
    assert txt[n + |b| + 2..] == c;
    SliceCons(txt, n, n + |b| + 2);
    DropTake(txt, n + 1, |b| + 1);
    assert tail[..|b| + 1] == b + "`";
    assert txt[n..n + |b| + 2] == ['`'] + (b + "`");
    assert ['`'] + (b + "`") == "`" + b + "`";
    assert IndexOf(txt, '`') == Some(n);
    assert IndexOf(txt[n + 1..], '`') == Some(|b|);
    assert DollarRest(txt[n + |b| + 2..]) == Some(c);
  }

  /** `escape_entities`: peels one match of `quotpat` per iteration. */
  method EscapeEntities(txt: string) returns (out: string)
    ensures out == EscapeSpec(txt)
  {
    out := "";
    var rest := txt;
    while rest != []
      invariant out + EscapeSpec(rest) == EscapeSpec(txt)
      decreases |rest|
    {
      ghost var before := rest;
      var m := QuoteMatch(rest);
      var unquot := if m.Some? then m.value.0 else rest;
      ghost var plain := unquot;
      var literal := if m.Some? then m.value.1 else "";
      rest := if m.Some? then m.value.2 else "";
      unquot := ReplaceChar(unquot, '_', "\\_");
      unquot := ReplaceChar(unquot, '&', "&amp;");
      unquot := ReplaceChar(unquot, '<', "&lt;");
      unquot := ReplaceChar(unquot, '>', "&gt;");
      assert unquot == EscUnquoted(plain);
      assert EscapeSpec(before) == unquot + literal + EscapeSpec(rest);
      Assoc4(out, unquot, literal, EscapeSpec(rest));
      out := out + unquot + literal;
    }
  }

  // ---------------------------------------------------------------------
  // Anchors and links

  /** Characters `header_link` keeps after lower-casing: `[a-z0-9_ -]`. */
  predicate SlugChar(c: char) { IsLower(c) || IsDigit(c) || c == '_' || c == ' ' || c == '-' }

  function KeepSlugChars(s: string): (r: string)
    ensures forall i :: 0 <= i < |r| ==> SlugChar(r[i])
    ensures (forall i :: 0 <= i < |s| ==> SlugChar(s[i])) ==> r == s
  {
    if s == [] then [] else (if SlugChar(s[0]) then [s[0]] else []) + KeepSlugChars(s[1..])
  }

  /** `header_link`: the anchor Markdown renderers give a header. */
  function HeaderLink(name: string): string {
    ReplaceChar(KeepSlugChars(Lower(name)), ' ', "-")
  }

  predicate AnchorChar(c: char) { IsLower(c) || IsDigit(c) || c == '_' || c == '-' }

  lemma {:induction false} ReplaceSpaceAnchor(s: string)
    requires forall i :: 0 <= i < |s| ==> SlugChar(s[i])
    ensures forall i :: 0 <= i < |ReplaceChar(s, ' ', "-")| ==> AnchorChar(ReplaceChar(s, ' ', "-")[i])
  {
    if s != [] {
      ReplaceSpaceAnchor(s[1..]);
    }
  }

  lemma {:induction false} LowerAnchorId(s: string)
    requires forall i :: 0 <= i < |s| ==> AnchorChar(s[i])
    ensures Lower(s) == s
  {
    if s != [] {
      LowerAnchorId(s[1..]);
    }
  }

  /**
   * An anchor holds only `[a-z0-9_-]`, and taking the anchor of an anchor
   * changes nothing.
   */
  lemma HeaderLinkShape(name: string)
    ensures forall i :: 0 <= i < |HeaderLink(name)| ==> AnchorChar(HeaderLink(name)[i])
    ensures HeaderLink(HeaderLink(name)) == HeaderLink(name)
  {
    var h := HeaderLink(name);
    ReplaceSpaceAnchor(KeepSlugChars(Lower(name)));
    LowerAnchorId(h);
    assert KeepSlugChars(h) == h;
    assert ' ' !in h by {
      forall i | 0 <= i < |h| ensures h[i] != ' ' { assert AnchorChar(h[i]); }
    }
  }

  /** The text of a link: backticked when literal, escaped otherwise. */
  function LinkLabel(text: string, literalize: bool): (r: string)
    ensures literalize ==> |r| == |text| + 2 && r[0] == '`' && r[|r| - 1] == '`' && r[1..|r| - 1] == text
    ensures !literalize ==> r == EscapeSpec(text)
  {
    if literalize then "`" + text + "`" else EscapeSpec(text)
  }

  /** The destination of a link: the file, then `#anchor` when there is an anchor. */
  function LinkTarget(file: string, anchor: string): (r: string)
    ensures anchor == "" ==> r == file
    ensures anchor != "" ==> r == file + "#" + anchor
  {
    if anchor != "" then file + "#" + anchor else file
  }

  /** `get_link`: a Markdown link `[text](destination)`. */
  function GetLink(text: string, anchor: string, file: string, literalize: bool): (r: string)
    ensures r == "[" + LinkLabel(text, literalize) + "](" + LinkTarget(file, anchor) + ")"
  {
    var lab := if literalize then "`" + text + "`" else EscapeSpec(text);
    var anc := if anchor != "" then "#" + anchor else anchor;
    "[" + lab + "](" + file + anc + ")"
  }

  /** A literal link's text and destination can be read back from the link text. */
  lemma LiteralLinkParts(text: string, anchor: string, file: string)
    requires '`' !in text
    ensures var r := GetLink(text, anchor, file, true);
      r[..|text| + 4] == "[`" + text + "`]"
      && r[|text| + 4..] == "(" + LinkTarget(file, anchor) + ")"
  {
  }

  // ---------------------------------------------------------------------
  // Headers and line builders

  function Repeat(c: char, n: nat): (r: string)
    ensures |r| == n && forall i :: 0 <= i < n ==> r[i] == c
  {
    if n == 0 then [] else [c] + Repeat(c, n - 1)
  }

  /** `header`: `lev` hashes, a space, the text (escaped when `esc`), then a blank line. */
  function Header(txt: string, lev: nat, esc: bool): (r: seq<string>)
    ensures |r| == 2 && r[1] == ""
    ensures r[0] == Repeat('#', lev) + " " + (if esc then EscapeSpec(txt) else txt)
  {
    [Repeat('#', lev) + " " + (if esc then EscapeSpec(txt) else txt), ""]
  }

  /** `block_header`: the bold escaped title, a colon, the subtitle (escaped when `escsub`), a blank line. */
  function BlockHeader(title: string, subtitle: string, escsub: bool): (r: seq<string>)
    ensures |r| == 2 && r[1] == ""
    ensures StartsWith(r[0], "**" + EscapeSpec(title) + ":** ")
  {
    ["**" + EscapeSpec(title) + ":** " + (if escsub then EscapeSpec(subtitle) else subtitle), ""]
  }

  /** `line_with_break` on a single line. */
  function LineWithBreak(line: string): (r: seq<string>)
    ensures |r| == 1 && |r[0]| == |line| + 2 && r[0][..|line|] == line && r[0][|line|..] == "  "
  {
    [line + "  "]
  }

  /** Every line with the same prefix put in front; indented code and bullet lists both use it. */
  function PrefixLines(prefix: string, lines: seq<string>): (r: seq<string>)
    ensures |r| == |lines|
    ensures forall i :: 0 <= i < |lines| ==> r[i] == prefix + lines[i]
  {
    if lines == [] then [] else [prefix + lines[0]] + PrefixLines(prefix, lines[1..])
  }

  /** `indent_lines`: every line gets four leading spaces. */
  function IndentLines(lines: seq<string>): (r: seq<string>)
    ensures |r| == |lines|
    ensures forall i :: 0 <= i < |lines| ==> r[i] == "    " + lines[i]
  {
    PrefixLines("    ", lines)
  }

  /** `code_block`: nothing for no code, otherwise the code inside a fence followed by a blank line. */
  function CodeBlock(code: seq<string>): (r: seq<string>)
    ensures code == [] <==> r == []
    ensures code != [] ==> (|r| == |code| + 3 && r[1..|code| + 1] == code
      && r[0] == "``` {.C linenos=True}" && r[|code| + 1] == "```" && r[|code| + 2] == "")
  {
    if code == [] then [] else ["``` {.C linenos=True}"] + code + ["```", ""]
  }

  /** `bullet_list`: one `- item` line per item, then a blank line. */
  function BulletList(items: seq<string>): (r: seq<string>)
    ensures |r| == |items| + 1 && r[|items|] == ""
    ensures forall i :: 0 <= i < |items| ==> r[i] == "- " + items[i]
  {
    PrefixLines("- ", items) + [""]
  }

  function NumberedItems(items: seq<string>, first: nat): (r: seq<string>)
    ensures |r| == |items|
    ensures forall i :: 0 <= i < |items| ==> r[i] == NatToString(first + i) + ". " + items[i]
  {
    if items == [] then [] else [NatToString(first) + ". " + items[0]] + NumberedItems(items[1..], first + 1)
  }

  /** `numbered_list`: items numbered from 1 to n, then a blank line. */
  function NumberedList(items: seq<string>): (r: seq<string>)
    ensures |r| == |items| + 1 && r[|items|] == ""
    ensures forall i :: 0 <= i < |items| ==> r[i] == NatToString(i + 1) + ". " + items[i]
  {
    NumberedItems(items, 1) + [""]
  }

  /** The item numbers of a numbered list read back as 1, 2, ..., n. */
  lemma NumberedListNumbers(items: seq<string>, i: nat)
    requires i < |items|
    ensures ParseNat(NatToString(i + 1)) == i + 1
    ensures StartsWith(NumberedList(items)[i], NatToString(i + 1) + ". ")
  {
    ParseNatToString(i + 1);
  }

  // ---------------------------------------------------------------------
  // Tables

  function Min(a: nat, b: nat): nat { if a < b then a else b }

  /** A header cell as shown: a `^` marker means "code column" and is dropped. */
  function HeaderCell(hdr: string): string {
    if StartsWith(hdr, "^") then LStripChar(hdr, '^') else hdr
  }

  /** `"{:20s}".format(s)`: padded with spaces to at least 20 characters. */
  function Pad20(s: string): (r: string)
    ensures |r| == if |s| >= 20 then |s| else 20
    ensures r[..|s|] == s
  {
    if |s| >= 20 then s else s + Repeat(' ', 20 - |s|)
  }

  function CodeParts(parts: seq<string>): (r: seq<string>)
    ensures |r| == |parts|
    ensures forall i :: 0 <= i < |parts| ==> r[i] == Pad20("`" + Strip(parts[i]) + "`")
  {
    if parts == [] then [] else [Pad20("`" + Strip(parts[0]) + "`")] + CodeParts(parts[1..])
  }

  /** A table cell under header `hdr`: in a `^` column each `/`-separated part becomes padded code. */
  function TableCell(hdr: string, cell: string): string {
    if StartsWith(hdr, "^") then Join(CodeParts(Split(cell, "/")), " / ") else cell
  }

  function HeaderCells(headers: seq<string>): (r: seq<string>)
    ensures |r| == |headers|
    ensures forall i :: 0 <= i < |headers| ==> r[i] == HeaderCell(headers[i])
  {
    if headers == [] then [] else [HeaderCell(headers[0])] + HeaderCells(headers[1..])
  }

  function RuleCells(headers: seq<string>): (r: seq<string>)
    ensures |r| == |headers|
    ensures forall i :: 0 <= i < |headers| ==> r[i] == Repeat('-', Min(20, |HeaderCell(headers[i])|))
  {
    if headers == [] then [] else [Repeat('-', Min(20, |HeaderCell(headers[0])|))] + RuleCells(headers[1..])
  }

  function RowCells(headers: seq<string>, row: seq<string>): (r: seq<string>)
    requires |row| <= |headers|
    ensures |r| == |row|
    ensures forall i :: 0 <= i < |row| ==> r[i] == TableCell(headers[i], row[i])
  {
    if row == [] then [] else [TableCell(headers[0], row[0])] + RowCells(headers[1..], row[1..])
  }

  function RowLines(headers: seq<string>, rows: seq<seq<string>>): (r: seq<string>)
    requires forall k :: 0 <= k < |rows| ==> |rows[k]| <= |headers|
    ensures |r| == |rows|
    ensures forall k :: 0 <= k < |rows| ==> r[k] == Join(RowCells(headers, rows[k]), " | ")
  {
    if rows == [] then [] else [Join(RowCells(headers, rows[0]), " | ")] + RowLines(headers, rows[1..])
  }

  lemma Framed(a: string, b: string, lines: seq<string>)
    ensures var r := [a, b] + lines + [""];
      |r| == |lines| + 3 && r[0] == a && r[1] == b && r[|lines| + 2] == ""
      && forall k :: 0 <= k < |lines| ==> r[k + 2] == lines[k]
  {
  }

  /**
   * `table`: the header row, a rule of at most 20 dashes per column, one
   * line per row and a blank line. A row never has more cells than there
   * are headers (the caller splits rows accordingly).
   */
  function Table(headers: seq<string>, rows: seq<seq<string>>): (r: seq<string>)
    requires forall k :: 0 <= k < |rows| ==> |rows[k]| <= |headers|
    ensures |r| == |rows| + 3 && r[|rows| + 2] == ""
    ensures r[0] == Join(HeaderCells(headers), " | ")
    ensures r[1] == Join(RuleCells(headers), " | ")
    ensures forall k :: 0 <= k < |rows| ==> r[k + 2] == Join(RowCells(headers, rows[k]), " | ")
  {
    var lines := RowLines(headers, rows);
    Framed(Join(HeaderCells(headers), " | "), Join(RuleCells(headers), " | "), lines);
    [Join(HeaderCells(headers), " | "), Join(RuleCells(headers), " | ")] + lines + [""]
  }

  /** Under headers without `^`, a row's cells are shown as they are, and every rule is as long as its header up to 20. */
  lemma PlainTableRow(headers: seq<string>, row: seq<string>)
    requires |row| <= |headers|
    requires forall i :: 0 <= i < |headers| ==> !StartsWith(headers[i], "^")
    ensures RowCells(headers, row) == row
    ensures forall i :: 0 <= i < |headers| ==> |RuleCells(headers)[i]| == Min(20, |headers[i]|)
  {
  }

  // ---------------------------------------------------------------------
  // Image blocks

  /** `image`: a Markdown image whose alt text and title are the escaped item name and type. */
  function Image(itemName: string, imgType: string, relUrl: string): (r: seq<string>)
    ensures |r| == 2 && r[1] == ""
  {
    var alt := EscapeSpec(itemName) + " " + EscapeSpec(imgType);
    ["![" + alt + "](" + relUrl + " \"" + alt + "\")", ""]
  }

  /** The image lines of an image block: none when there is no image URL (`""` stands for none). */
  function ImagePart(itemName: string, imgType: string, relUrl: string): (r: seq<string>)
    ensures relUrl == "" <==> r == []
  {
    if relUrl != "" then Image(itemName, imgType, relUrl) else []
  }

  /**
   * `image_block`: the block header, the code unless it goes below, the
   * image, the code when it goes below.
   */
  function ImageBlock(itemName: string, title: string, subtitle: string, code: seq<string>,
                      codeBelow: bool, relUrl: string): (r: seq<string>)
  {
    var img := ImagePart(itemName, title, relUrl);
    BlockHeader(title, subtitle, true) + (if codeBelow then img + CodeBlock(code) else CodeBlock(code) + img)
  }

  /** The header comes first; the code sits after the image iff it goes below. */
  lemma ImageBlockLayout(itemName: string, title: string, subtitle: string, code: seq<string>,
                         codeBelow: bool, relUrl: string)
    ensures var r := ImageBlock(itemName, title, subtitle, code, codeBelow, relUrl);
      var img := ImagePart(itemName, title, relUrl);
      var cb := CodeBlock(code);
      |r| == 2 + |img| + |cb| && r[..2] == BlockHeader(title, subtitle, true)
      && (codeBelow ==> r[2..2 + |img|] == img && r[2 + |img|..] == cb)
      && (!codeBelow ==> r[2..2 + |cb|] == cb && r[2 + |cb|..] == img)
  {
    var h := BlockHeader(title, subtitle, true);
    var img := ImagePart(itemName, title, relUrl);
    var cb := CodeBlock(code);
    if codeBelow { HeadThenTwo(h, img, cb); } else { HeadThenTwo(h, cb, img); }
  }

  lemma HeadThenTwo(h: seq<string>, x: seq<string>, y: seq<string>)
    requires |h| == 2
    ensures var r := h + (x + y);
      |r| == 2 + |x| + |y| && r[..2] == h && r[2..2 + |x|] == x && r[2 + |x|..] == y
  {
    var r := h + (x + y);
    assert r[2..] == x + y;
  }

  /**
   * Moving the code below only moves it past the image: the same lines in
   * another order, and the very same lines when there is no image or no code.
   */
  lemma ImageBlockCodeMoves(itemName: string, title: string, subtitle: string, code: seq<string>, relUrl: string)
    ensures multiset(ImageBlock(itemName, title, subtitle, code, true, relUrl))
      == multiset(ImageBlock(itemName, title, subtitle, code, false, relUrl))
    ensures (relUrl == "" || code == []) ==>
      ImageBlock(itemName, title, subtitle, code, true, relUrl) == ImageBlock(itemName, title, subtitle, code, false, relUrl)
  {
    SwapTwo(BlockHeader(title, subtitle, true), ImagePart(itemName, title, relUrl), CodeBlock(code));
  }

  lemma SwapTwo(h: seq<string>, x: seq<string>, y: seq<string>)
    ensures multiset(h + (x + y)) == multiset(h + (y + x))
    ensures (x == [] || y == []) ==> h + (x + y) == h + (y + x)
  {
    if x == [] {
      assert x + y == y + x;
    } else if y == [] {
      assert x + y == y + x;
    }
  }

  // ---------------------------------------------------------------------
  // Operations that change the caller's list in place

  /**
   * The list `paragraph` and `markdown_block` leave behind: the same lines
   * and one blank line more, so that a Markdown paragraph ends there.
   */
  function Paragraphed(lines: seq<string>): (r: seq<string>)
    ensures |r| == |lines| + 1 && r[..|lines|] == lines && r[|lines|] == ""
  {
    lines + [""]
  }

  /** A list of output lines shared between a builder and its caller. */
  class LineList {
    var lines: seq<string>

    constructor (init: seq<string>)
      ensures lines == init
    {
      lines := init;
    }

    /** `line_with_break` on a list: two spaces go onto its last line; the list must not be empty. */
    method LineWithBreakInPlace()
      requires lines != []
      modifies this
      ensures |lines| == |old(lines)|
      ensures lines[..|lines| - 1] == old(lines)[..|lines| - 1]
      ensures lines[|lines| - 1] == old(lines)[|lines| - 1] + "  "
    {
      lines := lines[|lines| - 1 := lines[|lines| - 1] + "  "];
    }

    /** `paragraph`: a blank line is appended. */
    method Paragraph()
      modifies this
      ensures lines == Paragraphed(old(lines))
    {
      lines := lines + [""];
    }

    /** `markdown_block`: a blank line is appended, as for a paragraph. */
    method MarkdownBlock()
      modifies this
      ensures lines == Paragraphed(old(lines))
    {
      lines := lines + [""];
    }
  }
}

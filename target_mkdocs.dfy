/**
 * The MkDocs output profile: links name the page file with its `.md`
 * suffix. The profile also declares lower-case names for the generated
 * index pages, but nothing reads them: the parser names those pages itself.
 */
module TargetMkDocs {
  import opened Strings
  import TargetWiki

  /** `get_link`: `.md` is added to a non-empty file; the anchor and label are as for the wiki. */
  function GetLink(text: string, anchor: string, file: string, literalize: bool): string
  {
    var lab := if literalize then "`" + text + "`" else TargetWiki.EscapeSpec(text);
    var f := if file != "" then file + ".md" else file;
    var anc := if anchor != "" then "#" + anchor else anchor;
    "[" + lab + "](" + f + anc + ")"
  }

  /** An MkDocs link is the wiki link to the file with its `.md` suffix; without a file they coincide. */
  lemma LinkIsWikiLinkToPage(text: string, anchor: string, file: string, literalize: bool)
    ensures GetLink(text, anchor, file, literalize)
      == TargetWiki.GetLink(text, anchor, if file != "" then file + ".md" else "", literalize)
    ensures file == "" ==> GetLink(text, anchor, file, literalize) == TargetWiki.GetLink(text, anchor, file, literalize)
  {
  }

  /** The generated pages every profile writes besides the per-file pages. */
  datatype Page = TocPage | TopicsPage | IndexPage | CheatPage | SidebarPage

  /**
   * The names of those pages (`TOCFILE`, `TOPICFILE`, ... as the parser sets them). The
   * parser writes every generated page under these names, whatever the profile, so the
   * MkDocs profile also writes `TOC.md`, `Topics.md`, and so on.
   */
  function WikiPageName(p: Page): (r: string)
    ensures |r| > 3 && r[|r| - 3..] == ".md"
  {
    match p
      case TocPage => "TOC" + TargetWiki.Suffix
      case TopicsPage => "Topics" + TargetWiki.Suffix
      case IndexPage => "AlphaIndex" + TargetWiki.Suffix
      case CheatPage => "CheatSheet" + TargetWiki.Suffix
      case SidebarPage => "_Sidebar" + TargetWiki.Suffix
  }

  /**
   * The values of the MkDocs profile's page-name properties: the table of contents is
   * `index`, the rest are the parser's names in lower case. No page is written under
   * these names, since the parser never reads the properties.
   */
  function PageName(p: Page): (r: string)
    ensures |r| > 3 && r[|r| - 3..] == ".md"
  {
    match p
      case TocPage => "index" + TargetWiki.Suffix
      case TopicsPage => "topics" + TargetWiki.Suffix
      case IndexPage => "alphaindex" + TargetWiki.Suffix
      case CheatPage => "cheatsheet" + TargetWiki.Suffix
      case SidebarPage => "_sidebar" + TargetWiki.Suffix
  }

  /** Apart from `index`, each unused MkDocs property value is the parser's page name in lower case. */
  lemma PageNamesAreLowered(p: Page)
    ensures p != TocPage ==> PageName(p) == Lower(WikiPageName(p))
    ensures PageName(TocPage) != Lower(WikiPageName(TocPage))
  {
    var toc := WikiPageName(TocPage);
    assert toc[0] == 'T';
    assert Lower(toc)[0] == 't' != PageName(TocPage)[0];
    match p
      case TocPage =>
      case TopicsPage => LowerTo("Topics", "topics", TargetWiki.Suffix);
      case IndexPage => LowerTo("AlphaIndex", "alphaindex", TargetWiki.Suffix);
      case CheatPage => LowerTo("CheatSheet", "cheatsheet", TargetWiki.Suffix);
      case SidebarPage => LowerTo("_Sidebar", "_sidebar", TargetWiki.Suffix);
  }

  /** A name that lowers to `lowered` keeps doing so with a suffix that is already lower case. */
  lemma LowerTo(name: string, lowered: string, suffix: string)
    requires |name| == |lowered| && forall i :: 0 <= i < |name| ==> LowerChar(name[i]) == lowered[i]
    requires forall i :: 0 <= i < |suffix| ==> !IsUpper(suffix[i])
    ensures Lower(name + suffix) == lowered + suffix
  {
    var s, t := name + suffix, lowered + suffix;
    var r := Lower(s);
    forall i | 0 <= i < |s|
      ensures r[i] == t[i]
    {
      if i < |name| {
        assert s[i] == name[i] && t[i] == lowered[i];
      } else {
        assert s[i] == suffix[i - |name|] == t[i];
      }
    }
  }
}

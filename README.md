# openscad_docsgen, modelled in Dafny

openscad_docsgen reads `//` comment blocks in OpenSCAD source files and
turns them into a tree of documentation blocks. A block looks like
`// Title(meta): subtitle` followed by indented body lines. The tree is
then rendered as Markdown for a wiki target. Example scripts are rendered
to images, and the images are cached by the hash of the source file.
This project models the deterministic core of that pipeline and proves
what each part promises.

| module | file | what it models |
|---|---|---|
| `Strings` | strings.dfy | the Python string operations used everywhere: `strip`, `split`, `startswith`, `in`, `lower`/`upper`, `join`, decimal numerals, the regex `$` |
| `Paths` | paths.dfy | `os.path.basename`, `splitext` and `join` on `/`-separated paths |
| `ErrorLogging` | errorlog.dfy | the error log: `add_entry`, `file_has_errors`, `has_errors` and the report records |
| `FileHashing` | filehashes.dfy | the file-hash cache: `load`, `save`, `is_changed`, `invalidate` |
| `ImageManaging` | imagemanager.dfy | decoding an image block's meta options, the render queue, and the FAIL / SKIP / NEW / REPLACE outcome |
| `LogManaging` | logmanager.dfy | the log-only run queue and how OpenSCAD output lines are classified |
| `MarkdownFences` | mdimggen.dfy | the line-by-line scanner that turns fenced `openscad` blocks of a Markdown file into image links |
| `MdImgGen` | mdimggen_run.dfy | queueing those blocks as image requests, and the per-file cache step |
| `TargetWiki`, `TargetGitHubWiki`, `TargetMkDocs` | target_*.dfy | the Markdown builders: escaping, anchors, links, headers, lists, tables, code and image blocks |
| `DocBlocks` | blocks.dfy | `{{name}}` link resolution and the Markdown body pass-through rules |
| `BlockTree` | blocks_tree.dfy | the block tree: one constructor per block class, its checks and its effect on the parent |
| `BlockQueries` | blocks_queries.dfy | child ordering and lookup, item display names, table rows, See Also |
| `ParserLines` | parser_lines.dfy | the header pattern, reading and de-denting a block body, skipping to the next header, the meta dictionary |
| `ParserDefs` | parser_defs.dfy | the block-type registry (`DefineHeader`) and the settings blocks of the rc file |
| `ParserOrder` | parser_order.dfy | prioritised file order, table-of-contents group order, index letter buckets |
| `DocsImages` | parser_images.dfy | the per-file image step of `write_docs_files` |
| `DocsParser` | parser.dfy | the parser object: its cursors, its registries, the dispatch chain over block titles, and the parse loop |

Objects that Python changes in place are classes with `modifies` clauses:
the error log, the hash cache, the two request queues and their requests,
the block tree and the parser. Python object references between blocks
become indices into one sequence of nodes (an arena). Each node records
its parent index and its child indices, and `BlockTree.WellFormed` keeps
those links consistent in both directions.

A `DocsGenException` raised by a block is a `Raised(msg)` outcome with the
message text. The parser catches it and logs one FAIL entry. An uncaught
Python error is a `Crashed` outcome. It ends parsing, as it ends the
program. Examples are an `AttributeError` on a missing parent, a
`KeyError`, and the unbound `origin` in the less-indentation handler.

The model keeps these outside it and takes them as parameters:

- the file system, as the lines of a file;
- `glob`, as a table from pattern to matches;
- the SHA-256 digest of a file;
- the results of running OpenSCAD, as records holding the good flag, return code, stdout and stderr;
- PIL image comparison, as the set of file pairs that compare equal.

Python's `str` and `int` become Dafny's `string` and `int`. Regexes are
written by hand as recognisers.

## Model

| member | source | states |
|---|---|---|
| ErrorLogging.FilesOf | openscad_docsgen/errorlog.py:18-20 | a file is in the bad-file set exactly when some logged entry names it |
| ErrorLogging.ErrorLog.constructor | openscad_docsgen/errorlog.py:13-16 | a new log has no entries, no bad files and no error flag |
| ErrorLogging.ErrorLog.AddEntry | openscad_docsgen/errorlog.py:18-24 | exactly one entry is appended, its file joins the bad-file set, and the error flag is set iff it was already set or the level is the failure level |
| ErrorLogging.ErrorLog.FileHasErrors | openscad_docsgen/errorlog.py:40-41 | true iff some logged entry names the file |
| ErrorLogging.ErrorLog.Report | openscad_docsgen/errorlog.py:26-36 | one report record per entry, in order, carrying the entry's file, line, message and level back unchanged, titled "DocsGen " followed by the level |
| ErrorLogging.ReportFaithful | openscad_docsgen/errorlog.py:27-36 | reading the entries back out of the report gives the log's entries exactly; every title is "DocsGen " plus the record's level |
| ErrorLogging.AnyFailAppend | openscad_docsgen/errorlog.py:23-24 | after an append, some entry failed iff one failed before or the new one is a failure |
| TargetWiki.EscapeEntities | openscad_docsgen/target_wiki.py:21-38 | the loop's output equals the reference escaping: text outside backtick spans has `_ & < >` escaped, spans are copied verbatim |
| TargetWiki.EscChar | openscad_docsgen/target_wiki.py:33-36 | an ordinary character is kept; a special one becomes an escape of at least two characters holding no `<` or `>` |
| TargetWiki.EscChars | openscad_docsgen/target_wiki.py:33-36 | text without special characters is unchanged |
| TargetWiki.EscapeOnce | openscad_docsgen/target_wiki.py:33-36 | the four chained replacements give the same result as escaping each character once (the `&` introduced by `&lt;` is not re-escaped because `&` is replaced before `<`) |
| TargetWiki.QuoteMatch | openscad_docsgen/target_wiki.py:27-32 | a match splits off a prefix and a backtick span of at least two characters and a rest, together no longer than the text |
| TargetWiki.QuoteMatchShape | openscad_docsgen/target_wiki.py:27 | a match's prefix holds no backtick and its span starts and ends with a backtick and holds none inside |
| TargetWiki.QuoteMatchOf | openscad_docsgen/target_wiki.py:27-32 | on a single-line text `a` + span + `c` with no backtick in `a` or the span body, the pattern matches with exactly those three groups |
| TargetWiki.EscapeSpan | openscad_docsgen/target_wiki.py:28-37 | escaping `a` + span + `c` gives escaped `a`, the span verbatim, then the escaping of `c` |
| TargetWiki.EscapePlain | openscad_docsgen/target_wiki.py:28-38 | text with no backtick and no special character is returned unchanged |
| TargetWiki.KeepSlugChars | openscad_docsgen/target_wiki.py:84-85 | every kept character is a lower-case letter, digit, `_`, space or `-`; text made only of those is kept whole |
| TargetWiki.HeaderLinkShape | openscad_docsgen/target_wiki.py:80-85 | a header anchor holds only lower-case letters, digits, `_` and `-`, and computing the anchor of an anchor gives it back (idempotent) |
| TargetWiki.LinkLabel | openscad_docsgen/target_wiki.py:91-94 | a literal label is the text wrapped in one backtick on each side; otherwise it is the escaped text |
| TargetWiki.LinkTarget | openscad_docsgen/target_wiki.py:95-97 | the target is the file alone when there is no anchor, else file, `#` and anchor |
| TargetWiki.GetLink | openscad_docsgen/target_wiki.py:90-97 | the link is `[` label `](` target `)` built from the two parts above |
| TargetWiki.LiteralLinkParts | openscad_docsgen/target_wiki.py:90-97 | a literal link splits into the bracketed backticked label and the parenthesised target |
| TargetWiki.Repeat | openscad_docsgen/target_wiki.py:108 | the string has the given length and is made of that character only |
| TargetWiki.Header | openscad_docsgen/target_wiki.py:105-112 | two lines: `lev` hash marks, a space and the (escaped if asked) text, then a blank line |
| TargetWiki.BlockHeader | openscad_docsgen/target_wiki.py:114-121 | two lines; the first starts with the bold escaped title followed by a colon; the second is blank |
| TargetWiki.LineWithBreak | openscad_docsgen/target_wiki.py:46-50 | one line: the input followed by exactly two spaces |
| TargetWiki.IndentLines | openscad_docsgen/target_wiki.py:87-88 | same number of lines, each prefixed by four spaces |
| TargetWiki.CodeBlock | openscad_docsgen/target_wiki.py:149-156 | empty iff the code is empty; otherwise the fence line, the code unchanged, the closing fence and a blank line |
| TargetWiki.BulletList | openscad_docsgen/target_wiki.py:158-173 | one `- ` line per item in order, then a blank line |
| TargetWiki.NumberedList | openscad_docsgen/target_wiki.py:175-192 | item `i` becomes the decimal numeral of `i+1`, `. ` and the item, then a blank line |
| TargetWiki.NumberedListNumbers | openscad_docsgen/target_wiki.py:189-190 | the numeral written for item `i` reads back as `i+1`, and the line starts with it |
| TargetWiki.Pad20 | openscad_docsgen/target_wiki.py:211 | the cell is the text left-justified: padded with spaces to 20 characters, never truncated |
| TargetWiki.CodeParts | openscad_docsgen/target_wiki.py:210-213 | each slash-separated part is stripped, backticked and padded to 20 characters |
| TargetWiki.HeaderCells | openscad_docsgen/target_wiki.py:198-201 | one header cell per header, with a leading run of `^` removed |
| TargetWiki.RuleCells | openscad_docsgen/target_wiki.py:202 | one rule cell per header, as many dashes as the cleaned header is long, at most 20 |
| TargetWiki.RowCells | openscad_docsgen/target_wiki.py:206-214 | one cell per row cell, formatted as code parts when its header starts with `^`, else unchanged |
| TargetWiki.Table | openscad_docsgen/target_wiki.py:194-217 | header line, rule line, one joined line per row in order, then a blank line |
| TargetWiki.PlainTableRow | openscad_docsgen/target_wiki.py:198-214 | with no `^` header, row cells are unchanged and each rule is min(20, header length) dashes |
| TargetWiki.Image | openscad_docsgen/target_wiki.py:139-147 | two lines, the image line and a blank one |
| TargetWiki.ImagePart | openscad_docsgen/target_wiki.py:133-134 | no image lines iff there is no URL |
| TargetWiki.ImageBlockLayout | openscad_docsgen/target_wiki.py:128-137 | block header first; then code before image, or image before code when the code goes below |
| TargetWiki.ImageBlockCodeMoves | openscad_docsgen/target_wiki.py:131-136 | moving the code below only reorders lines (same multiset), and changes nothing when there is no image or no code |
| TargetWiki.Paragraphed | openscad_docsgen/target_wiki.py:57-59 | the lines unchanged followed by one blank line |
| TargetWiki.LineList.constructor | openscad_docsgen/target_wiki.py:46-59 | the list holds the given lines |
| TargetWiki.LineList.LineWithBreakInPlace | openscad_docsgen/target_wiki.py:47-49 | only the last line changes, gaining two trailing spaces |
| TargetWiki.LineList.Paragraph | openscad_docsgen/target_wiki.py:57-59 | the list in place becomes its old lines plus one blank line |
| TargetWiki.LineList.MarkdownBlock | openscad_docsgen/target_wiki.py:123-126 | the list in place becomes its old lines plus one blank line |
| TargetMkDocs.LinkIsWikiLinkToPage | openscad_docsgen/target_mkdocs.py:30-39 | an MkDocs link is the wiki link to the file with `.md` appended, and the same link when there is no file |
| TargetMkDocs.WikiPageName | openscad_docsgen/parser.py:49-54 | every generated page name ends in `.md`; these are the names the parser writes the pages under for every profile, MkDocs included |
| TargetMkDocs.PageName | openscad_docsgen/target_mkdocs.py:10-28 | each value of the MkDocs page-name properties ends in `.md`; nothing reads these properties |
| TargetMkDocs.PageNamesAreLowered | openscad_docsgen/target_mkdocs.py:10-28 | each unused MkDocs property value is the lower-cased parser page name, except the table-of-contents property, which is `index.md` instead of the lower-cased `toc.md` |
| TargetGitHubWiki.WidthAttr | openscad_docsgen/target_githubwiki.py:25 | the width attribute is present iff a width is given |
| TargetGitHubWiki.HeightAttr | openscad_docsgen/target_githubwiki.py:26 | the height attribute is present iff a WIDTH is given (the source checks the width) |
| TargetGitHubWiki.Image | openscad_docsgen/target_githubwiki.py:24-34 | two lines; the first starts with a left-aligned img tag whose alt text is the escaped item name and type and whose src is the URL |
| TargetGitHubWiki.HeightNeedsWidth | openscad_docsgen/target_githubwiki.py:25-26 | without a width, a height changes nothing in the image line |
| TargetGitHubWiki.CodeBlock | openscad_docsgen/target_githubwiki.py:36-41 | empty iff the code is empty; otherwise each code line indented four spaces, then a blank line |
| TargetGitHubWiki.ImagePart | openscad_docsgen/target_githubwiki.py:15-16 | no image lines iff there is no URL |
| TargetGitHubWiki.ImageBlockLayout | openscad_docsgen/target_githubwiki.py:12-22 | header with the subtitle unescaped, then the image, then either a clearing break and the code or the code and a clearing break |
| TargetGitHubWiki.AfterImageShape | openscad_docsgen/target_githubwiki.py:17-21 | after the image: the break block then the code when code goes below, else the code then the double break block |
| FileHashing.Put | openscad_docsgen/filehashes.py:36 | storing a key updates the map; a new key goes to the end of the insertion order, an existing one keeps its place |
| FileHashing.RemoveKey | openscad_docsgen/filehashes.py:68 | the order loses exactly that key and stays duplicate-free |
| FileHashing.Pop | openscad_docsgen/filehashes.py:68 | the key is gone and every other entry is kept with its value |
| FileHashing.IsChangedSpec | openscad_docsgen/filehashes.py:50-63 | the table stays well formed (insertion order matches the keys) |
| FileHashing.UnknownIsChanged | openscad_docsgen/filehashes.py:56-58 | an unknown file counts as changed and is recorded at the end of the order |
| FileHashing.DifferingIsChanged | openscad_docsgen/filehashes.py:59-62 | a file with a different digest counts as changed and its digest is replaced in place |
| FileHashing.SecondCallUnchanged | openscad_docsgen/filehashes.py:50-63 | asking again with the same digest reports no change and leaves the table alone |
| FileHashing.InvalidateForcesChange | openscad_docsgen/filehashes.py:65-68 | after invalidating a file, the next check reports it changed whatever its digest |
| FileHashing.ParseLine | openscad_docsgen/filehashes.py:35 | a line is accepted iff, once stripped, splitting it at `\|` gives exactly two fields |
| FileHashing.LoadFrom | openscad_docsgen/filehashes.py:34-36 | a successful load gives a well-formed table |
| FileHashing.LoadFromFails | openscad_docsgen/filehashes.py:34-40 | loading fails iff some line does not split into two fields |
| FileHashing.LoadFromStep | openscad_docsgen/filehashes.py:34-36 | each line either aborts the load or is stored before the next line is read |
| FileHashing.LoadSpec | openscad_docsgen/filehashes.py:27-40 | the loaded table is always well formed (empty when the file is missing or corrupt) |
| FileHashing.CorruptLineEmpties | openscad_docsgen/filehashes.py:37-40 | one corrupt line anywhere makes the whole table empty |
| FileHashing.ParseSavedLine | openscad_docsgen/filehashes.py:35-48 | a clean entry written by `save` parses back to the same name and digest |
| FileHashing.LoadSavedLines | openscad_docsgen/filehashes.py:34-48 | loading the saved lines stores the same entries in the same order |
| FileHashing.BuildFromShape | openscad_docsgen/filehashes.py:34-36 | loading distinct keys appends them in order with their values |
| FileHashing.BuildFromAll | openscad_docsgen/filehashes.py:34-36 | rebuilding a table from its own keys in order gives the table back |
| FileHashing.LoadAfterSave | openscad_docsgen/filehashes.py:27-48 | round trip: loading what `save` wrote gives back the same table, order included, when no name or digest holds a separator, newline or outer whitespace |
| FileHashing.CacheAfterSpec | openscad_docsgen/mdimggen.py:119-126 | after a file with errors its digest is dropped, so the next run re-processes it; otherwise its digest is recorded and a rerun with the same contents is skipped |
| FileHashing.FileHashes.constructor | openscad_docsgen/filehashes.py:9-11 | the new object holds the table loaded from the given file contents |
| FileHashing.FileHashes.Load | openscad_docsgen/filehashes.py:27-40 | the loop leaves the table equal to the reference load of the file contents |
| FileHashing.FileHashes.Save | openscad_docsgen/filehashes.py:42-48 | the text written is one `name\|hash` line per entry in insertion order |
| FileHashing.FileHashes.IsChanged | openscad_docsgen/filehashes.py:50-63 | the answer and the new table are those of the reference check |
| FileHashing.FileHashes.Invalidate | openscad_docsgen/filehashes.py:65-68 | the new table is the old one with the file popped |
| ImageManaging.LeadingDigits | openscad_docsgen/imagemanager.py:18-24 | the longest run of digits at the start of the text (a `[0-9]+` group) |
| ImageManaging.NumberAt | openscad_docsgen/imagemanager.py:18-24 | a number is read iff the text starts with a digit |
| ImageManaging.AfterEquals | openscad_docsgen/imagemanager.py:18-25 | what follows ` *= *` starts with no blank |
| ImageManaging.KeyNumAt | openscad_docsgen/imagemanager.py:19-21 | a `KEY=number` match only where the text starts with the key |
| ImageManaging.KeyDigitsAt | openscad_docsgen/imagemanager.py:79 | a `VPD=digits` match yields the digit string itself: non-empty, digits only, at a position that starts with the key |
| ImageManaging.KeyDigitsNumber | openscad_docsgen/imagemanager.py:19-24 | the digit string is found exactly where a number is, and reads as that number |
| ImageManaging.SizeAt | openscad_docsgen/imagemanager.py:18 | a size match only where the text starts with `Size` |
| ImageManaging.BracketAt | openscad_docsgen/imagemanager.py:22-23 | a `VPT=[...]`/`VPR=[...]` match yields a non-empty group without `]` |
| ImageManaging.SchemeRun | openscad_docsgen/imagemanager.py:25 | the longest run of letters, digits and spaces at the start |
| ImageManaging.SchemeAt | openscad_docsgen/imagemanager.py:25 | a colour-scheme match yields a non-empty name, where the text starts with `ColorScheme` |
| ImageManaging.SearchLeftmost | openscad_docsgen/imagemanager.py:54-114 | `re.search`: found iff the pattern matches at some position, and the result is the match at the leftmost such position |
| ImageManaging.KeyNumRoundTrip | openscad_docsgen/imagemanager.py:19-21 | `KEY=` followed by a written number is read back as that number |
| ImageManaging.DigitsOf | openscad_docsgen/imagemanager.py:18-24 | the digit run of digits followed by a non-digit is exactly those digits |
| ImageManaging.ModeOf | openscad_docsgen/imagemanager.py:37-52 | thrown-together iff the meta says `ThrownTogether`; full render iff it says `Render` but not that; never the test-only mode |
| ImageManaging.Scale | openscad_docsgen/imagemanager.py:55-65 | an explicit size is not scaled; the scale is always one of 0.75, 1, 1.5, 2, 2.5 |
| ImageManaging.ImgSize | openscad_docsgen/imagemanager.py:38-66 | an explicit `Size=WxH` is used as given; otherwise 320x240 times the keyword scale |
| ImageManaging.ExplicitSizeWins | openscad_docsgen/imagemanager.py:54-66 | a meta starting `Size=WxH` yields exactly W by H |
| ImageManaging.SizeWritten | openscad_docsgen/imagemanager.py:18 | a written `Size=WxH` is matched with those two numbers |
| ImageManaging.KeywordScaling | openscad_docsgen/imagemanager.py:58-66 | with no explicit size, `Small` gives 240x180 |
| ImageManaging.CameraXorPrefix | openscad_docsgen/imagemanager.py:68-97 | the script gets a camera prefix iff the meta asks for a `$vp` setting or a spin; an explicit camera is set only without a prefix, and then iff the meta says `3D` or `2D` |
| ImageManaging.PrefixCamera | openscad_docsgen/imagemanager.py:68-97 | the insertions at position 0 leave the script equal to the reference prefix (spin, VPD, VPT, VPR order) before the original lines, and the camera equal to the reference camera |
| ImageManaging.FramesOf | openscad_docsgen/imagemanager.py:106-110 | an explicit `Frames=` wins; otherwise 36 frames iff the meta says `Spin` or `Anim`, else none |
| ImageManaging.FrameMsOf | openscad_docsgen/imagemanager.py:102-104 | 250 ms per frame unless a `FrameMS=` is given |
| ImageManaging.ColorSchemeOf | openscad_docsgen/imagemanager.py:112-114 | the first `ColorScheme=` name, else the default scheme |
| ImageManaging.MaxLen | openscad_docsgen/imagemanager.py:116 | the length of the longest script line: no line is longer and some line has it |
| ImageManaging.ScriptUnderIff | openscad_docsgen/imagemanager.py:116-119 | the script goes under the image iff some line is longer than (880 - width)/9 characters or the meta says `ScriptUnder` |
| ImageManaging.DropViewAllNoticesSpec | openscad_docsgen/imagemanager.py:222 | no kept warning holds the view-all notice, every other warning is kept, and a list without notices is unchanged |
| ImageManaging.DropContainingSpec | openscad_docsgen/imagemanager.py:222 | filtering by a pattern keeps exactly the lines without it |
| ImageManaging.OutcomeCases | openscad_docsgen/imagemanager.py:227-248 | FAIL iff the run was bad or left warnings or errors; NEW iff clean, not a test run and no target; REPLACE iff clean, not a test run, the target exists and differs; SKIP otherwise |
| ImageManaging.FilesAfterKeepsOthers | openscad_docsgen/imagemanager.py:239-248 | a request touches no image file other than its target |
| ImageManaging.StepWritesOnlyNewOrReplace | openscad_docsgen/imagemanager.py:227-248 | FAIL, SKIP and test runs leave the files unchanged; NEW and REPLACE store the rendered image at the target; NEW only where none existed, REPLACE only where the old one was not close enough |
| ImageManaging.RunAllKeepsOthers | openscad_docsgen/imagemanager.py:170-174 | processing the queue leaves every file that is not a request's target unchanged |
| ImageManaging.TestRunWritesNothing | openscad_docsgen/imagemanager.py:198-234 | a test-only run writes no image and every status is FAIL or SKIP |
| ImageManaging.JobsInQueueOrder | openscad_docsgen/imagemanager.py:172-173 | one render job per request, in queue order |
| ImageManaging.TargetsOf | openscad_docsgen/imagemanager.py:183 | each request's target is its image file |
| ImageManaging.ImageRequest.constructor | openscad_docsgen/imagemanager.py:27-130 | the request keeps its source position, file and meta, its script gets the camera prefix, its settings are the decoding of the meta, and it starts incomplete with empty results |
| ImageManaging.ImageRequest.Job | openscad_docsgen/imagemanager.py:191-220 | a test run uses the test-only mode and no animation, otherwise the request's mode and frames; auto-centring iff no script line mentions `$vp` |
| ImageManaging.ImageRequest.Completed | openscad_docsgen/imagemanager.py:136-151 | marks the request complete with the status; copies the runner's results when there are any, else counts as a success; the completion callback fires once when present |
| ImageManaging.ImageManager.constructor | openscad_docsgen/imagemanager.py:156-158 | an empty queue, not in test mode |
| ImageManaging.ImageManager.PurgeRequests | openscad_docsgen/imagemanager.py:160-161 | the queue becomes empty |
| ImageManaging.ImageManager.NewRequest | openscad_docsgen/imagemanager.py:163-168 | a `NORENDER` meta is refused and nothing is queued; an empty script is refused; otherwise exactly one new request with those fields is appended |
| ImageManaging.ImageManager.ProcessRequest | openscad_docsgen/imagemanager.py:176-248 | status and new files are those of the reference step; the request is completed with that status, the filtered warnings and the runner's results, succeeding iff not FAIL and the runner succeeded |
| ImageManaging.ImageManager.RunQueue | openscad_docsgen/imagemanager.py:172-173 | the loop's files equal the reference run over the queue, and request `i` ends complete with the `i`-th reference status |
| ImageManaging.ImageManager.ProcessRequests | openscad_docsgen/imagemanager.py:170-174 | sets the test mode, renders the queue in order as the reference run does, and empties the queue |
| LogManaging.UndashedRoundTrip | openscad_docsgen/logmanager.py:20-23 | a leading `--` is removed exactly once; a line without it is kept |
| LogManaging.ScriptOf | openscad_docsgen/logmanager.py:20-23 | one script line per input line, in order, each with a leading `--` removed |
| LogManaging.EchoMatchSpec | openscad_docsgen/logmanager.py:57-65 | an echo is captured only from a line starting `ECHO:`; it is non-empty, one line, and ends the line |
| LogManaging.EchoRoundTrip | openscad_docsgen/logmanager.py:15 | `ECHO:`, blanks and a value that starts with no blank capture exactly that value |
| LogManaging.EchoOfBlanks | openscad_docsgen/logmanager.py:15 | after `ECHO:` and only blanks, the pattern still captures the last blank (the `\s*` backs off one character for `.+`) |
| LogManaging.NoEchoWithoutPrefix | openscad_docsgen/logmanager.py:60 | a line not starting `ECHO:` gives no echo (`match` anchors at the start) |
| LogManaging.CapturedSpec | openscad_docsgen/logmanager.py:57-65 | every captured value comes from some line, and every line that matches contributes its value |
| LogManaging.KeptSpec | openscad_docsgen/logmanager.py:66-72 | a line is kept iff it is among the lines read and satisfies the test |
| LogManaging.KeptApart | openscad_docsgen/logmanager.py:69-72 | with exclusive tests, no line lands in both lists, and together they hold no more lines than were read |
| LogManaging.EchosCaptured | openscad_docsgen/logmanager.py:57-65 | the echos are exactly the captures of the matching stdout lines |
| LogManaging.StderrSplit | openscad_docsgen/logmanager.py:66-72 | warnings are the stderr lines holding `WARNING:`; errors those holding `ERROR:` but not `WARNING:`; no line is both |
| LogManaging.SuccessHasNoErrors | openscad_docsgen/logmanager.py:185-188 | SUCCESS means return code 0 and no error lines |
| LogManaging.FailWithoutErrors | openscad_docsgen/logmanager.py:69-72 | a run can be FAIL with an empty error list: `WARNING: ERROR: x` fails the run (line 185) but is filed as a warning |
| LogManaging.OutcomeCases | openscad_docsgen/logmanager.py:141-195 | SUCCESS iff the binary ran with code 0 and no stderr line holds `ERROR:`; a failure to start or finish logs exactly one failure entry and completes FAIL with code -1; a completed run logs nothing |
| LogManaging.CollectCaptures | openscad_docsgen/logmanager.py:57-65 | the loop gives exactly the reference captures |
| LogManaging.SplitStderr | openscad_docsgen/logmanager.py:66-72 | the loop gives exactly the reference warnings and errors |
| LogManaging.EntriesCount | openscad_docsgen/logmanager.py:205-206 | the queue logs one entry per run that could not complete, none iff every run ran |
| LogManaging.LogRequest.constructor | openscad_docsgen/logmanager.py:17-37 | the request keeps its source position, its script is the undashed lines, and it starts incomplete with empty results |
| LogManaging.LogRequest.Completed | openscad_docsgen/logmanager.py:45-78 | complete with the status; success iff SUCCESS; missing output becomes empty; echos, warnings and errors are the reference classification of the output; the completion callback fires once when present |
| LogManaging.LogRequest.Classify | openscad_docsgen/logmanager.py:52-72 | the captured lists are the reference classification of the output |
| LogManaging.LogManager.constructor | openscad_docsgen/logmanager.py:82-84 | an empty queue, not in test mode |
| LogManaging.LogManager.PurgeRequests | openscad_docsgen/logmanager.py:131-132 | the queue becomes empty |
| LogManaging.LogManager.NewRequest | openscad_docsgen/logmanager.py:134-139 | exactly one new incomplete request is appended, with the undashed script |
| LogManaging.LogManager.ProcessRequest | openscad_docsgen/logmanager.py:141-198 | the error log gains exactly the entries of this run; the request completes with the reference status, output and return code, succeeds iff the status is SUCCESS, carries the ECHO lines of stdout and the WARNING and ERROR lines of stderr, and its completion callback runs once if it has one |
| LogManaging.LogManager.ProcessAll | openscad_docsgen/logmanager.py:205-206 | the loop processes every request in order: the log gains the entries of each run in turn and each request ends with its reference status |
| LogManaging.LogManager.ProcessRequests | openscad_docsgen/logmanager.py:200-207 | sets the test mode, processes the queue in order as above, and empties the queue |
| MarkdownFences.UpTo | openscad_docsgen/mdimggen.py:77-78 | the part before the first separator: a prefix holding no separator, followed by one when shorter than the line |
| MarkdownFences.RunAppend | openscad_docsgen/mdimggen.py:72-112 | scanning two runs of lines in turn is the same as scanning them joined (the loop's state carries over) |
| MarkdownFences.ChompBare | openscad_docsgen/mdimggen.py:74 | a line without a trailing newline is left as it is |
| MarkdownFences.PlainCopied | openscad_docsgen/mdimggen.py:111-112 | outside a fence, ordinary lines are copied to the output unchanged |
| MarkdownFences.NoFencesNoChange | openscad_docsgen/mdimggen.py:72-112 | a file without fences is written back unchanged and requests no image |
| MarkdownFences.InnerCollected | openscad_docsgen/mdimggen.py:109-110 | inside a fence, lines are collected as script and not copied |
| MarkdownFences.FenceBlock | openscad_docsgen/mdimggen.py:75-108 | an opened and closed fence yields one image request numbered one past the count, at the closing line, with its body as script, and emits the script (unless `ImgOnly`) and the figure link |
| MarkdownFences.OpenedCollects | openscad_docsgen/mdimggen.py:75-110 | an open fence starts a fresh script and collects the body after it |
| MarkdownFences.ClosedBlock | openscad_docsgen/mdimggen.py:85 | inside a fence, the closing line closes it |
| MarkdownFences.UnclosedDropped | openscad_docsgen/mdimggen.py:72-112 | a fence never closed emits nothing and requests no image, though it still takes a number |
| MarkdownFences.StepNumOk | openscad_docsgen/mdimggen.py:75-83 | the image number goes up by one exactly at an opening fence |
| MarkdownFences.Numbering | openscad_docsgen/mdimggen.py:72-112 | after a run, the image number grew by the count of opening fences |
| MarkdownFences.FileNumbering | openscad_docsgen/mdimggen.py:69-93 | images are numbered 1.. by opening fence; requests carry strictly increasing numbers within that range |
| MarkdownFences.RunStep | openscad_docsgen/mdimggen.py:72-74 | each line is chomped and handled before the next |
| MarkdownFences.EmitBlock | openscad_docsgen/mdimggen.py:102-106 | the output gains exactly the reference lines of the block |
| MarkdownFences.ScanFile | openscad_docsgen/mdimggen.py:64-112 | the loop's output lines and image requests equal those of the reference scan |
| MdImgGen.RefusalFirst | openscad_docsgen/mdimggen.py:96-101 | the file is refused iff some fence's request is; the refusal is that of the first such fence |
| MdImgGen.TargetsFor | openscad_docsgen/mdimggen.py:93-95 | fence `i` renders to the image file named from its number and type |
| MdImgGen.QueueNext | openscad_docsgen/mdimggen.py:96-101 | queuing one fence fails exactly as the request for that fence does; otherwise one matching request is appended |
| MdImgGen.QueueFences | openscad_docsgen/mdimggen.py:84-101 | queuing stops at the first refusal; without one, one fresh request per fence in order, each matching its fence |
| MdImgGen.Slashes | openscad_docsgen/mdimggen.py:44 | a rule of that many slashes |
| MdImgGen.LinesTextReadBack | openscad_docsgen/mdimggen.py:115-117 | the written file reads back as the same lines, each with its newline |
| MdImgGen.FiledSpec | openscad_docsgen/mdimggen.py:29-53 | every failure report comes from some completed request, and every failing request files one |
| MdImgGen.DoneAll | openscad_docsgen/mdimggen.py:29-30 | one completion record per request, in order |
| MdImgGen.FailuresFiled | openscad_docsgen/mdimggen.py:29-53 | every unsuccessful image files exactly its failure report at its source position, and every filed entry is a failure of some unsuccessful image |
| MdImgGen.FiledUnder | openscad_docsgen/mdimggen.py:52 | when all images come from one file, a failure files an entry under that file, and only such entries |
| MdImgGen.FileOne | openscad_docsgen/mdimggen.py:29-53 | one completion adds its failure entry, or nothing when it succeeded |
| MdImgGen.LogFailures | openscad_docsgen/mdimggen.py:29-53 | the log gains exactly the filed failures of the completions, in order |
| MdImgGen.RenderAll | openscad_docsgen/mdimggen.py:121-122 | the queue is rendered as the reference run and emptied; if any image failed, the source file has a logged failure, and all new entries are failures of that file |
| MdImgGen.LogRendered | openscad_docsgen/mdimggen.py:29-53 | after the completions, a failed image means the file is in the error log; new entries are failures of that file |
| MdImgGen.TargetsMatch | openscad_docsgen/mdimggen.py:93-101 | the queued targets are the fences' image files |
| MdImgGen.RenderedLog | openscad_docsgen/mdimggen.py:29-53 | the log only grows, a failed image puts its file into it, and new entries are failures of that file |
| MdImgGen.AsWrittenMissesFailedImage | openscad_docsgen/mdimggen.py:96-124 | a failure logged under `a.md` for the input `docs/a.md` is missed by the lookup on the input path |
| MdImgGen.FailedForgotten | openscad_docsgen/mdimggen.py:96-125 | with the intended lookup, a file whose image failed loses its cached digest |
| MdImgGen.MarkdownImageGen.constructor | openscad_docsgen/mdimggen.py:21-23 | the generator keeps its options and loads the digest table from the hash file |
| MdImgGen.MarkdownImageGen.CacheStep | openscad_docsgen/mdimggen.py:124-126 | the INTENDED behaviour: if the log holds errors under the name images were filed under, the digest is dropped, else the table is kept; the saved text is the new table |
| MdImgGen.MarkdownImageGen.RunIfChanged | openscad_docsgen/mdimggen.py:119-122 | the digest is recorded; images are rendered iff forced, test-only or changed, and then a failure is logged under the file; otherwise nothing is rendered or logged |
| MdImgGen.MarkdownImageGen.ProcessFile | openscad_docsgen/mdimggen.py:58-126 | a refused fence raises an exception that nothing catches, so the whole run ends there, and this file gets nothing written, rendered, logged or cached; otherwise the rewritten lines are written unless test-only, images render as above, a failed image leaves the file without a cached digest (with the intended lookup, see Findings), and the saved table is the reference cache update |
| DocBlocks.ItemLinkFile | openscad_docsgen/blocks.py:648-659 | an item link names no file when made from the item's own file and names the item's file otherwise; the anchor is the header link of `title: subtitle` |
| DocBlocks.NameRun | openscad_docsgen/blocks.py:21 | the longest run of link-name characters (letters, digits, `_`, parentheses) |
| DocBlocks.TokenAt | openscad_docsgen/blocks.py:21 | a `{{name}}` token at the start has a non-empty name of link-name characters, spelled out in full |
| DocBlocks.TokenAtSpelled | openscad_docsgen/blocks.py:21 | a written `{{name}}` is read back with that name |
| DocBlocks.LinkMatch | openscad_docsgen/blocks.py:21 | a match splits the line into text before, a non-empty name and the rest |
| DocBlocks.NoOpenNoMatch | openscad_docsgen/blocks.py:86-100 | without `{{` there is no match |
| DocBlocks.LinkMatchOf | openscad_docsgen/blocks.py:86-90 | the lazy prefix stops at the first token: before-text without `{`, then the name, then the rest |
| DocBlocks.LinkErrors | openscad_docsgen/blocks.py:91-93 | one failure entry per unknown name, in order, at the block's origin |
| DocBlocks.NoTokenUnchanged | openscad_docsgen/blocks.py:85-101 | a line without a token is kept and logs nothing |
| DocBlocks.LinkedOne | openscad_docsgen/blocks.py:86-97 | the first token becomes its item's link if known, else its bare name plus one failure entry; the rest is processed the same way |
| DocBlocks.LinkedStep | openscad_docsgen/blocks.py:85-101 | each loop turn either consumes a token as above or copies the rest of the line and stops |
| DocBlocks.ParseLinks | openscad_docsgen/blocks.py:83-101 | the loop's output is the reference resolution of the links, and the log gains exactly one failure per unknown name, in order |
| DocBlocks.FenceStateOdd | openscad_docsgen/blocks.py:107-110 | the fence state is "inside" iff an odd number of fence lines went by |
| DocBlocks.MdBodySpec | openscad_docsgen/blocks.py:103-117 | one output line per body line; fenced lines and four-space-indented lines are kept, a lone `.` becomes empty, other lines have their links resolved |
| DocBlocks.StateAtStart | openscad_docsgen/blocks.py:107-110 | the state the loop uses for a line is the fence parity up to and including it |
| DocBlocks.MdBodyAt | openscad_docsgen/blocks.py:108-116 | line `j` of the output is that body line handled with the loop's fence state at `j` |
| DocBlocks.MarkdownBody | openscad_docsgen/blocks.py:103-117 | the output is the reference markdown body and the log gains exactly the failures for unknown names outside fences |
| BlockTree.Fresh | openscad_docsgen/blocks.py:23-30 | a new block carries the declaration's title, subtitle, body and origin, its parent, and no children |
| BlockTree.AttachedSpec | openscad_docsgen/blocks.py:29-32 | attaching appends the block and adds its index to the end of its parent's children; no other block changes |
| BlockTree.AttachedWellFormed | openscad_docsgen/blocks.py:29-32 | attaching keeps the tree well formed: parents come before children and parent and child links agree |
| BlockTree.AttachedLinks | openscad_docsgen/blocks.py:29-32 | attaching changes no existing parent link and only the parent's child list |
| BlockTree.UpdatedWellFormed | openscad_docsgen/blocks.py:153-193 | updating a block's own fields without touching its links keeps the tree well formed |
| BlockTree.Root | openscad_docsgen/blocks.py:799-801 | following parents from a block ends at a root block no later in the arena |
| BlockTree.RootAttached | openscad_docsgen/blocks.py:799-801 | attaching a block changes no existing block's root |
| BlockTree.RootUpdated | openscad_docsgen/blocks.py:799-801 | updating fields changes no block's root |
| BlockTree.CommaList | openscad_docsgen/blocks.py:165-192 | splitting at commas always gives at least one (stripped) part |
| BlockTree.Moved | openscad_docsgen/blocks.py:216-236 | a headerless or text block has no subtitle and keeps its title and origin |
| BlockTree.MovedKeepsLines | openscad_docsgen/blocks.py:218-220 | its body is the old subtitle (when non-empty) followed by the old body, and moving twice changes nothing more |
| BlockTree.AddTagsSpec | openscad_docsgen/blocks.py:165-167 | after the syntax tags are added, the parent's tag table holds the old tags and the new ones, each new tag with its text from the table and old tags unchanged |
| BlockTree.PartAfter | openscad_docsgen/blocks.py:151-194 | an item part either crashes, is refused for having a body, or is made as the next block |
| BlockTree.PartUpdatedFirst | openscad_docsgen/blocks.py:151-194 | a synopsis, known syntax tags or see-also part first sets the parent's synopsis, tags or see-also list, then is refused for a body or attached as the parent's last child; no other block changes |
| BlockTree.PartAttach | openscad_docsgen/blocks.py:144-149 | setting the parent's fields and then attaching the part unless it has a body keeps the tree well formed, only grows it, and gives the shape `PartShape` states |
| BlockTree.PartTopics | openscad_docsgen/blocks.py:174-188 | a topics part with a body is refused and changes nothing; otherwise it is attached and the parent takes its topics list |
| BlockTree.PartAfterEffect | openscad_docsgen/blocks.py:151-194 | an item part crashes iff it is a syntax-tags part naming a tag without a definition, and then changes nothing; otherwise the tree stays well formed, only grows, and has the shape `PartShape` gives |
| BlockTree.DashesZero | openscad_docsgen/blocks.py:267-271 | the table counter stays zero iff no body line is `---` |
| BlockTree.KeepSan | openscad_docsgen/blocks.py:819 | the sanitised name holds only letters, digits, `_` and `-`, and is no longer than its input |
| BlockTree.RawScript | openscad_docsgen/blocks.py:809-817 | the script has one line per include, per common-code line and per body line |
| BlockTree.ImageAfter | openscad_docsgen/blocks.py:797-846 | an image block is either made, as the next block under its parent and of its kind, or the construction crashes |
| BlockTree.ImageAfterMade | openscad_docsgen/blocks.py:797-846 | under a file root and with an item parent (or a Figure), the image is made with the next figure or example number of its parent and placed in the tree |
| BlockTree.ImageNode | openscad_docsgen/blocks.py:803-846 | the image block is of its kind, under its parent, childless, and carries the number it was given |
| BlockTree.PlacedFrame | openscad_docsgen/blocks.py:826-841 | placing the image changes only the parent: one more child and the one counter set to the new number |
| BlockTree.ImageAfterFrame | openscad_docsgen/blocks.py:826-841 | a made Figure bumps exactly the parent's figure counter, and any other image exactly its example counter, to the image's number; no other block changes |
| BlockTree.ImageAfterKeeps | openscad_docsgen/blocks.py:797-846 | made or not, an image block keeps the tree well formed, adds one block, keeps the parent's root, and changes the parent only in its children and counters |
| BlockTree.ImagePlacedKeeps | openscad_docsgen/blocks.py:826-841 | a placed image keeps the tree well formed and the parent's root, and changes the parent only in its children and counters |
| BlockTree.ImageMadeKeeps | openscad_docsgen/blocks.py:826-841 | an accepted image block keeps the tree well formed, adds one block, keeps the parent's root, and changes the parent only in its children and counters |
| BlockTree.ImageNodeSameRoot | openscad_docsgen/blocks.py:797-846 | an image block depends on its root only through the root's file, includes and common code |
| BlockTree.ImageNodeEqual | openscad_docsgen/blocks.py:797-846 | image blocks built from equal declarations, parent names and numbers, under roots alike, are equal |
| BlockTree.ImagesAfter | openscad_docsgen/parser.py:346-353 | the `Figures`/`Examples` loop as a fold of `ImageAfter` over the body lines keeps the tree well formed and, when it finishes, adds one block per line |
| BlockTree.ImagesAfterUnfold | openscad_docsgen/parser.py:346-353 | one turn of that fold: the first line is an `ImageAfter` with the subtitle, and the rest continue with an empty subtitle unless it crashed |
| BlockTree.ImagesAfterSpec | openscad_docsgen/parser.py:346-353 | the loop finishes iff the body is empty or images are allowed under the parent; then line `k` becomes the `k`-th new block, numbered one past the parent's counter plus `k`, with the subtitle on the first only, the parent's counter rises by the number of lines, and no other block changes |
| BlockTree.ImageAfterAccepted | openscad_docsgen/blocks.py:826-841 | an allowed image is placed with the parent's counter plus one |
| BlockTree.PlacedFirst | openscad_docsgen/blocks.py:826-841 | the first placed image is the new last block, no other block but the parent changes, the counter rises by one, and images stay allowed |
| BlockTree.AllowedKept | openscad_docsgen/blocks.py:799-811 | images stay allowed under a block whose root and own fields are kept |
| BlockTree.LineImageShift | openscad_docsgen/parser.py:346-353 | after the first block, the rest of the loop builds the same blocks from the rest of the lines |
| BlockTree.TreeShift | openscad_docsgen/parser.py:346-353 | block `j` of the rest of the loop, under the parent in the tree after the first image, equals block `j` of the whole loop under the parent in the tree before it |
| BlockTree.ShiftAll | openscad_docsgen/parser.py:346-353 | every block the rest of the lines made is the block of the same line of the whole loop |
| BlockTree.LineImageFirst | openscad_docsgen/parser.py:347-349 | the block of the first line carries the subtitle and the parent's counter plus one |
| BlockTree.ImagesAfterAdds | openscad_docsgen/parser.py:346-353 | when the loop finishes, it adds one block per line, each of the image class and under the parent, and keeps every earlier block's class and parent |
| BlockTree.ImagesAfterStep | openscad_docsgen/parser.py:346-353 | `ImagesAfterSpec` when the first line is accepted |
| BlockTree.ImagesAfterRest | openscad_docsgen/parser.py:346-353 | `ImagesAfterSpec` once the first block has been placed |
| BlockTree.ImagesAfterCombine | openscad_docsgen/parser.py:346-353 | the first line's block and the rest of the lines' blocks together are the blocks of all the lines |
| BlockTree.ExampleNamesDistinct | openscad_docsgen/blocks.py:837-840 | two examples of one item never get the same file name |
| BlockTree.FigureNamesDistinct | openscad_docsgen/blocks.py:826-834 | two figures of one block never get the same file name |
| BlockTree.NumberedDistinct | openscad_docsgen/blocks.py:830-840 | two names differing only in the number written in them differ in the number |
| BlockTree.ImageUrlRelShape | openscad_docsgen/blocks.py:843-845 | the image URL is `images/`, the file's stem (when not empty) and a slash, then the name |
| BlockTree.BuiltTable | openscad_docsgen/blocks.py:263-273 | a table block is attached first; it then fails iff it has at least as many `---` separators as header sets |
| BlockTree.BuiltImage | openscad_docsgen/blocks.py:796-846 | a figure or example block without a parent crashes with the tree unchanged; with one it is exactly `ImageAfter` under that parent |
| BlockTree.Tree.constructor | openscad_docsgen/parser.py:32-56 | an empty tree, the parser's starting block list |
| BlockTree.Tree.Attach | openscad_docsgen/blocks.py:29-32 | the arena becomes the reference attachment, the new id is the old size, and no existing block is lost |
| BlockTree.Tree.Update | openscad_docsgen/blocks.py:153-193 | the arena gets exactly that block replaced |
| BlockTree.Tree.NewBlock | openscad_docsgen/blocks.py:23-32 | a fresh block from the declaration is attached under the parent |
| BlockTree.Tree.NewLabel | openscad_docsgen/blocks.py:144-148 | a label block with a body is refused and nothing changes; otherwise it is attached |
| BlockTree.Tree.NewSynopsis | openscad_docsgen/blocks.py:151-154 | the parent's synopsis is set first; then a body is refused, else the block is attached |
| BlockTree.Tree.NewSeeAlso | openscad_docsgen/blocks.py:190-194 | the parent's see-also list is set to the comma list first; then a body is refused, else the block is attached carrying that list |
| BlockTree.Tree.NewTopics | openscad_docsgen/blocks.py:174-178 | a body is refused before anything changes; otherwise the block is attached and the block and the parent both get the comma list as topics |
| BlockTree.Tree.NewSynTags | openscad_docsgen/blocks.py:163-168 | a tag without a definition crashes and leaves the tree as it was; otherwise the parent's tags are added first, then a body is refused, else the block is attached |
| BlockTree.Tree.NewImages | openscad_docsgen/parser.py:346-353 | the loop of `Figures`/`Examples` under one parent finishes iff `ImagesAfter` does, and then leaves exactly `ImagesAfter`'s tree; the tree only grows |
| BlockTree.Tree.NewImageLine | openscad_docsgen/parser.py:347-349 | one turn of the loop: when the image is made, the rest of the fold from the new tree, with an empty subtitle, is the whole fold's result; when it crashes, the whole fold does not finish |
| BlockTree.Tree.NewPart | openscad_docsgen/blocks.py:144-194 | the new tree and outcome are exactly those of `PartAfter`; an item part other than syntax tags fails iff it has a body; otherwise exactly one block is attached under the parent |
| BlockTree.Tree.CollectTags | openscad_docsgen/blocks.py:165-167 | the loop succeeds iff every tag has a definition, and then gives the reference tag table |
| BlockTree.Tree.NewHeaderless | openscad_docsgen/blocks.py:216-236 | the block is attached with its subtitle moved into the body |
| BlockTree.Tree.NewTable | openscad_docsgen/blocks.py:263-273 | the table is attached with its header sets, and fails iff there are more tables than header sets |
| BlockTree.Tree.NewIncludes | openscad_docsgen/blocks.py:394-398 | the block is attached; under a file block its body is appended to the file's includes; under any other parent the source crashes |
| BlockTree.Tree.NewItem | openscad_docsgen/blocks.py:627-640 | a subtitle with text in parentheses is refused first, then a body; otherwise the item is attached |
| BlockTree.Tree.FindRoot | openscad_docsgen/blocks.py:799-801 | the loop finds the reference root |
| BlockTree.Tree.NewImage | openscad_docsgen/blocks.py:796-846 | without a parent the source crashes; otherwise the outcome and the new tree are the reference image construction |
| BlockTree.Tree.Build | openscad_docsgen/parser.py:338-392 | the outcome and the new tree are those of the reference construction for that block kind |
| BlockTree.Tree.BuildCounted | openscad_docsgen/parser.py:338-376 | the same for tables, figures and examples |
| BlockTree.Tree.Bump | openscad_docsgen/blocks.py:827-837 | the arena gets exactly that counter of the parent set |
| BlockTree.Tree.MakeImage | openscad_docsgen/blocks.py:803-846 | the block built is the reference image block |
| BlockTree.Tree.BuildScript | openscad_docsgen/blocks.py:809-817 | the loop builds the reference script |
| BlockQueries.ChildrenOf | openscad_docsgen/blocks.py:40-66 | a block's children in order, each one whose parent is that block |
| BlockQueries.MatchingOf | openscad_docsgen/blocks.py:44-56 | the loop gives the reference list of children whose title starts with the prefix |
| BlockQueries.GroupPartOf | openscad_docsgen/blocks.py:43-46 | the loop gives the reference list for one group of prefixes |
| BlockQueries.GroupsPartOf | openscad_docsgen/blocks.py:42-46 | the loop gives the reference list for all front (or back) groups |
| BlockQueries.UnmatchedOf | openscad_docsgen/blocks.py:47-51 | the loop gives the reference list of children matching no prefix |
| BlockQueries.SortChildren | openscad_docsgen/blocks.py:40-57 | the result is the reference ordering: front matches, then unmatched children, then back matches |
| BlockQueries.MatchingMember | openscad_docsgen/blocks.py:44-46 | a child is picked iff its title starts with the prefix, and then as often as it occurs |
| BlockQueries.GroupPartMember | openscad_docsgen/blocks.py:43-46 | a child is picked by a group iff its title starts with one of the group's prefixes |
| BlockQueries.GroupsPartMember | openscad_docsgen/blocks.py:42-46 | a child is picked by the groups iff its title starts with one of their prefixes |
| BlockQueries.UnmatchedMember | openscad_docsgen/blocks.py:47-51 | a child is kept in the middle part iff it matches no prefix, and then as often as it occurs |
| BlockQueries.SortedLayout | openscad_docsgen/blocks.py:40-57 | the sorted list is three runs: children matching a front prefix, children matching none, children matching a back prefix |
| BlockQueries.SortedKeepsAll | openscad_docsgen/blocks.py:40-57 | no child is lost by sorting |
| BlockQueries.SortedUnmatchedOnce | openscad_docsgen/blocks.py:47-51 | a child matching no prefix appears exactly as often as before |
| BlockQueries.ChildrenByTitleMember | openscad_docsgen/blocks.py:59-66 | a child is returned iff its title is one of the titles (a single title counting as a list of one), as often as it occurs |
| BlockQueries.NamedMember | openscad_docsgen/blocks.py:62-66 | a child is kept iff its title is in the list |
| BlockQueries.ChildrenByTitleAll | openscad_docsgen/blocks.py:59-66 | when every title qualifies, all children are returned in order |
| BlockQueries.CollapseAccepted | openscad_docsgen/blocks.py:628-645 | an item subtitle the constructor accepted is printed unchanged |
| BlockQueries.CollapseClean | openscad_docsgen/blocks.py:645 | after collapsing, no parenthesised text is left |
| BlockQueries.CollapseIdempotent | openscad_docsgen/blocks.py:645 | collapsing twice is collapsing once |
| BlockQueries.ItemStrOfAccepted | openscad_docsgen/blocks.py:642-646 | for an accepted item, the item form equals the block form, and the title shows no `&` |
| BlockQueries.FunModAbbreviates | openscad_docsgen/blocks.py:704-714 | exactly the four item titles are abbreviated, and to four different abbreviations |
| BlockQueries.SplitNBound | openscad_docsgen/blocks.py:289 | a split limited to `n` separators gives at most `n+1` cells |
| BlockQueries.SplitNJoin | openscad_docsgen/blocks.py:289 | joining the cells with the separator gives the line back |
| BlockQueries.RowCells | openscad_docsgen/blocks.py:287-290 | a row has one cell per split part, never more than its header set has headers |
| BlockQueries.Scan | openscad_docsgen/blocks.py:276-291 | the table counter ends at the number of `---` lines, and every row fits the header set it was split against |
| BlockQueries.Tables | openscad_docsgen/blocks.py:276-293 | at most one table per header set, none empty, table `k` split against a header set numbered at least `k` |
| BlockQueries.SplitTables | openscad_docsgen/blocks.py:276-293 | the loop gives the reference tables |
| BlockQueries.ScanAligned | openscad_docsgen/blocks.py:276-293 | with no empty table, the `k`-th table was split against header set `k`, and a table is still open iff the body does not end in `---` |
| BlockQueries.TablesAligned | openscad_docsgen/blocks.py:276-298 | with no empty table, every table is split against the header set it is printed under |
| BlockQueries.TableLinesDefined | openscad_docsgen/blocks.py:286-299 | every table's rows fit the header set they were split against, so printing under that set is defined |
| BlockQueries.AsWrittenAgreesFrom | openscad_docsgen/blocks.py:297-299 | when numbering by position agrees with the split header sets, the as-written printing succeeds and equals the intended one |
| BlockQueries.AsWrittenAgrees | openscad_docsgen/blocks.py:297-299 | without empty tables, the as-written and the intended printing agree |
| BlockQueries.AsWrittenMisaligned | openscad_docsgen/blocks.py:280-299 | a body starting with `---` prints its only table under header set 0 though its row was split for set 1, which fails, while the intended printing uses set 1 |
| BlockQueries.LeadingSeparator | openscad_docsgen/blocks.py:280-299 | the same for any row with more cells than the first header set |
| BlockQueries.LeadingSeparatorTables | openscad_docsgen/blocks.py:280-293 | a leading `---` gives one table, numbered 1 |
| BlockQueries.SeeAlsoTargets | openscad_docsgen/blocks.py:198-205 | every see-also target is a known item |
| BlockQueries.SeeAlsoTargetsMember | openscad_docsgen/blocks.py:198-205 | an item is linked iff some listed name is known and names it, and it is not the parent item itself |
| BlockQueries.SeeAlsoUnknownMember | openscad_docsgen/blocks.py:199-201 | a name is reported iff it is listed and unknown |
| BlockQueries.SeeAlsoErrors | openscad_docsgen/blocks.py:199-201 | one failure entry per unknown name, in order |
| BlockQueries.SeeAlsoLines | openscad_docsgen/blocks.py:196-213 | the log gains one failure per unknown name and the output is the block header with the links of the other known items, comma-separated |
| ParserOrder.CountAppend | openscad_docsgen/parser.py:105-116 | occurrences in a concatenation add up |
| ParserOrder.FrontStep | openscad_docsgen/parser.py:108-112 | each priority name in turn appends the files that bear it |
| ParserOrder.MatchesAt | openscad_docsgen/parser.py:109-112 | a file is picked once for a priority name iff it bears that name |
| ParserOrder.MatchesMembers | openscad_docsgen/parser.py:109-112 | every file picked bears the priority name |
| ParserOrder.OthersAt | openscad_docsgen/parser.py:113-115 | a file comes in the tail once iff its name is not a priority name |
| ParserOrder.OthersInOrder | openscad_docsgen/parser.py:113-115 | the tail holds only unprioritised files, in their original order |
| ParserOrder.FrontListed | openscad_docsgen/parser.py:108-112 | the head holds only files bearing one of the priority names so far |
| ParserOrder.FrontAt | openscad_docsgen/parser.py:108-112 | a file occurs in the head as often as its name is listed among the priority names |
| ParserOrder.PrioritizedCount | openscad_docsgen/parser.py:105-116 | a prioritised file occurs as often as its name is listed, any other file exactly once |
| ParserOrder.PrioritizedPermutation | openscad_docsgen/parser.py:105-116 | with no name listed twice, the result is a permutation of the files |
| ParserOrder.PrioritizedFirst | openscad_docsgen/parser.py:105-116 | every prioritised file comes before every other file |
| ParserOrder.FirstsIn | openscad_docsgen/parser.py:705-707 | the named groups are exactly the non-empty groups of the files |
| ParserOrder.FirstsDistinct | openscad_docsgen/parser.py:706 | no group is listed twice |
| ParserOrder.FirstsOrder | openscad_docsgen/parser.py:705-707 | groups are listed in the order their first file appears |
| ParserOrder.GroupOrderSpec | openscad_docsgen/parser.py:704-710 | the table of contents lists every group of a file and only those, each once, the unnamed group last |
| ParserOrder.LetterSpec | openscad_docsgen/parser.py:845 | an index bucket is `0` or an upper-case letter, and does not depend on the case of the name |
| ParserOrder.BucketsSpec | openscad_docsgen/parser.py:843-848 | a bucket exists iff some name falls into it, and it holds exactly those entries |
| ParserOrder.BucketMembers | openscad_docsgen/parser.py:843-848 | every name is in its letter's bucket, and a bucket holds only names of its letter |
| ParserOrder.PresentSpec | openscad_docsgen/parser.py:849 | the letters found are exactly the bucket keys, strictly increasing |
| ParserOrder.SortedLettersSpec | openscad_docsgen/parser.py:849 | the sorted letters are the bucket keys, each once, in increasing order |
| ParserOrder.BucketKeys | openscad_docsgen/parser.py:845-848 | every bucket key is `0` or an upper-case letter |
| DocsImages.BlockDoneAll | openscad_docsgen/blocks.py:878-879 | one completion record per request, in order |
| DocsImages.Repeat | openscad_docsgen/blocks.py:895-898 | the rule is the pattern repeated `n` times |
| DocsImages.ProcFailuresFiled | openscad_docsgen/blocks.py:878-901 | every unsuccessful image files exactly its failure report at its source position, and every filed entry is a failure of an unsuccessful image |
| DocsImages.ProcDone | openscad_docsgen/blocks.py:878-901 | one completion adds its failure entry, or nothing when it succeeded |
| DocsImages.LogProcFailures | openscad_docsgen/blocks.py:878-901 | the log gains exactly the failures of the completions, in order |
| DocsImages.FailureNamesFile | openscad_docsgen/blocks.py:901 | a failed image puts its source file into the error log |
| DocsImages.FileImages | openscad_docsgen/parser.py:689-697 | images render iff forced or the file changed (keyed by the stripped subtitle), the log gains their failures, and the digest is kept only when the log names neither the stripped subtitle nor the parsed path (the INTENDED lookup, see Findings); the saved text is the new table |
| DocsImages.RunImages | openscad_docsgen/parser.py:690-694 | the digest is recorded, rendering happens iff forced or changed, and otherwise nothing is rendered or logged |
| DocsImages.ForgetFailed | openscad_docsgen/parser.py:695-697 | the INTENDED lookup: a file with errors logged under its stripped subtitle or its parsed path loses its digest, otherwise the table is kept; the saved text is the new table |
| DocsImages.RenderAgainAfterFailure | openscad_docsgen/parser.py:689-697 | with the intended lookup: when one of its images failed, filed under the parsed path or under the stripped subtitle, a file has no digest, so the next run renders it again |
| DocsImages.AsWrittenKeepsFailedDigest | openscad_docsgen/parser.py:689-697 | as written: a file parsed from `lib/shapes.scad` and titled `shapes.scad` keeps its digest after a failed image, so an unchanged rerun skips it; the intended lookup finds the failure (Findings row 3) |
| DocsImages.CleanKept | openscad_docsgen/parser.py:689-697 | a file without errors keeps its new digest, so an unchanged rerun is skipped |
| DocsImages.ProcessQueue | openscad_docsgen/parser.py:670-674 | in test mode the queue is rendered test-only in order, the log gains the failures, and the queue is emptied |
| ParserLines.WordEnd | openscad_docsgen/parser.py:28 | the run of `[A-Za-z0-9_&-]` characters starting at an index ends at the end of the line or before a non-word character |
| ParserLines.TitleEnd | openscad_docsgen/parser.py:28 | a title found after `// ` ends strictly after its first capital and within the line |
| ParserLines.ColonAt | openscad_docsgen/parser.py:28 | the colon sits right after the title, or after a `(...)` group that starts at the title's end and closes at the first `)` |
| ParserLines.HeaderIsComment | openscad_docsgen/parser.py:93-98 | every header line starts with `//`, so a header never ends a running item |
| ParserLines.WordEndSpec | openscad_docsgen/parser.py:28 | every character between the start and the end of a word run is a word character |
| ParserLines.WordEndAt | openscad_docsgen/parser.py:28 | a run of word characters bounded by a non-word character or the line end is exactly what WordEnd finds |
| ParserLines.WordOfRun | openscad_docsgen/parser.py:28 | a capital followed by word characters is a title word `[A-Z][A-Za-z0-9_&-]*` |
| ParserLines.TitleOfWords | openscad_docsgen/parser.py:28 | two words joined by one space form a title |
| ParserLines.TitleOfEnd | openscad_docsgen/parser.py:28 | the text between `// ` and TitleEnd is a title (group 1 of the pattern) |
| ParserLines.MetaOfColon | openscad_docsgen/parser.py:28 | the meta text inside the parentheses contains no `)` (the `[^)]*` group) |
| ParserLines.Reassembled | openscad_docsgen/parser.py:174-176 | a line is the concatenation of `// `, its title, its optional `(meta)`, the colon and the rest |
| ParserLines.PartsFound | openscad_docsgen/parser.py:28 | a parsed header starts with `// `, has a title end, a colon position, and an accepted rest after the colon |
| ParserLines.HeaderSound | openscad_docsgen/parser.py:28 | soundness of the header matcher: whatever it accepts is a title, a meta text without `)`, an accepted rest, and the line is rebuilt exactly from those parts |
| ParserLines.WordIn | openscad_docsgen/parser.py:28 | a word placed into a line at an offset gives a capital there and word characters after it |
| ParserLines.OneWordEnd | openscad_docsgen/parser.py:28 | a one-word title followed by a character that neither continues it nor is a space ends exactly after the word |
| ParserLines.TwoWordEnd | openscad_docsgen/parser.py:28 | a two-word title ends exactly after its second word |
| ParserLines.SplitTitleEnd | openscad_docsgen/parser.py:28 | a title split at its space ends where the whole title ends |
| ParserLines.TitleEndOf | openscad_docsgen/parser.py:28 | any title written after `// ` and followed by `(` or `:` is found with its full length |
| ParserLines.PartsAt | openscad_docsgen/parser.py:28 | once the title end and colon are found and the rest is accepted, the parts are those the positions delimit |
| ParserLines.ColonAfterMeta | openscad_docsgen/parser.py:28 | after `(meta)` with no `)` inside, the colon position is right after the closing parenthesis |
| ParserLines.MetaLayout | openscad_docsgen/parser.py:28 | the layout of a built header with meta text: the title, the `(`, the meta, `)`, `:` and rest at their offsets |
| ParserLines.MetaFound | openscad_docsgen/parser.py:28 | in a built header with meta text, the title end and colon are found at the offsets of the built parts |
| ParserLines.MetaHeaderComplete | openscad_docsgen/parser.py:28 | any title with meta text and accepted rest, written as a header, is parsed back to the same parts |
| ParserLines.BareHeaderComplete | openscad_docsgen/parser.py:28 | any title without meta and with accepted rest, written as a header, is parsed back to the same parts |
| ParserLines.HeaderComplete | openscad_docsgen/parser.py:28 | completeness and round trip of the header matcher: every well-formed header text parses back to exactly its title, meta and rest |
| ParserLines.Spaces | openscad_docsgen/parser.py:185 | `" " * n` has n characters, all spaces |
| ParserLines.SpacesPrefix | openscad_docsgen/parser.py:185-186 | the prefix `//` plus fewer spaces is a prefix of `//` plus more spaces, so a line at full indentation also has the shorter prefix |
| ParserLines.WidthOfOpening | openscad_docsgen/parser.py:185-192 | the first body line's indentation is at least 2 and fits inside the line |
| ParserLines.DedentAfter | openscad_docsgen/parser.py:183-195 | from any point inside the body, the loop's result continues the lines read so far under the same width |
| ParserLines.DedentSpec | openscad_docsgen/parser.py:181-195 | a header with no `//  ` line after it reads an empty body and stops there; otherwise the first line fixes the width (at least 2) and the body is read under that width |
| ParserLines.DedentOpening | openscad_docsgen/parser.py:189-195 | the first body line fixes the indentation width and the rest is read under it |
| ParserLines.DedentFirst | openscad_docsgen/parser.py:189-195 | after the first line, the body holds that line with the measured indentation cut off and right-stripped |
| ParserLines.OpensContinues | openscad_docsgen/parser.py:182-185 | a line opens a body exactly when it carries `//` and the initial two spaces |
| ParserLines.DedentedOne | openscad_docsgen/parser.py:189-194 | one body line is kept as the text after `//` and the indentation, right-stripped |
| ParserLines.DedentBounds | openscad_docsgen/parser.py:183-188 | reading stops within the line list, and a less-indented line is reported at an index after the header |
| ParserLines.ReadBody | openscad_docsgen/parser.py:181-195 | the loop gives the reference reading of the body: the de-dented lines and the next index, or the less-indentation error |
| ParserLines.NextHeader | openscad_docsgen/parser.py:90-99 | the next header at or after an index, or the end of the line list |
| ParserLines.NextHeaderFirst | openscad_docsgen/parser.py:90-99 | no header line is skipped on the way to NextHeader |
| ParserLines.BreaksSome | openscad_docsgen/parser.py:93-102 | the running item is closed exactly when some skipped line does not start with `//` |
| ParserLines.MetaPartSplits | openscad_docsgen/parser.py:121-122 | a part with `=` splits into exactly a key and a value |
| ParserLines.SplitAtEq | openscad_docsgen/parser.py:121-124 | `split('=',1)` leaves a part without `=` whole, and splits one with `=` at its first `=` |
| ParserLines.SplitAtFirstEq | openscad_docsgen/parser.py:122 | the key contains no `=` and key + `=` + value rebuilds the part |
| ParserLines.ParseMetaDict | openscad_docsgen/parser.py:118-126 | the loop gives the reference dictionary of the `;`-separated parts |
| ParserLines.MetaDictKeys | openscad_docsgen/parser.py:120-125 | every part's key is in the dictionary and every key comes from some part |
| ParserLines.MetaDictLast | openscad_docsgen/parser.py:125 | a key's value is the value of its last part (a later part overwrites an earlier one) |
| ParserDefs.FirstListed | openscad_docsgen/parser.py:136-159 | the class chosen is that of the first option of the `if/elif` chain present in the meta options, and none exactly when no listed option is present |
| ParserDefs.DefineFrom | openscad_docsgen/parser.py:128-159 | a defined entry carries the stripped name it was declared under and no callback |
| ParserDefs.DefineFollowsTable | openscad_docsgen/parser.py:128-159 | `DefineHeader`: no listed option raises the unknown-type error; a non-table class gives an entry with `ItemOnly` as its parent rule; `Table` without `Headers` raises the missing-headers error, and with `Headers=` text gives the parsed header sets |
| ParserDefs.FirstListedKinds | openscad_docsgen/parser.py:136-159 | the class is chosen by trying, in order, NumList, BulletList, Table, Example, Figure, Label, Headerless, Text, Generic |
| ParserDefs.FirstListedCons | openscad_docsgen/parser.py:136-159 | an option earlier in the chain wins over every later one |
| ParserDefs.GenWords | openscad_docsgen/parser.py:261-263 | every `,`-separated part of the `GenerateDocs` subtitle is stripped and upper-cased, in order |
| ParserDefs.DocOfNames | openscad_docsgen/parser.py:264-277 | each document kind is named by exactly its word: FILES, TOC, INDEX, TOPICS, CHEAT or CHEATSHEET, SIDEBAR |
| ParserDefs.Docs | openscad_docsgen/parser.py:261-277 | the document kind of every word, in order |
| ParserDefs.FirstUnknown | openscad_docsgen/parser.py:261-277 | the loop stops at the first word naming no document, after setting the flags of every word before it |
| ParserDefs.SaysSome | openscad_docsgen/parser.py:264-275 | a document is named among the first words iff some one of them names it |
| ParserDefs.GenAfterNamed | openscad_docsgen/parser.py:261-277 | after the words are read, a document's flag is set iff it was set before or one of the words names it |
| ParserDefs.SaysFirst | openscad_docsgen/parser.py:264-275 | the first word's document is among those named |
| ParserDefs.GenAfterAny | openscad_docsgen/parser.py:255-277 | with known words only, some flag is set afterwards iff one was set before or some word was given |
| ParserDefs.FirstUntagged | openscad_docsgen/parser.py:283-285 | `DefineSynTags` reads every leading line with `=` and stops (raising) at the first line without one |
| ParserDefs.TagPairs | openscad_docsgen/parser.py:283-287 | the tag pair of each line read, in order |
| ParserDefs.TagPairsNext | openscad_docsgen/parser.py:283-287 | one more line with `=` is read and adds its pair at the end |
| ParserDefs.TagPairSpec | openscad_docsgen/parser.py:286 | a tag definition is the stripped text before the first `=` and the stripped text after it |
| ParserDefs.AssignedSpec | openscad_docsgen/parser.py:286-287 | a dictionary after a sequence of assignments: its keys are the old keys and the assigned ones, a key keeps its last assigned value, and an untouched key its old value |
| ParserDefs.AliasPairs | openscad_docsgen/parser.py:87-88 | every alias is paired with the current item |
| ParserDefs.AliasesAdded | openscad_docsgen/parser.py:84-88 | after the alias callback every alias names the current item and every other name keeps its old item |
| ParserDefs.FootnoteParts | openscad_docsgen/parser.py:331-334 | a footnote part gives its stripped mark alone, or its stripped mark and note split at the first `=`, with the declaring origin |
| ParserDefs.FootnotesOf | openscad_docsgen/parser.py:330-334 | one footnote per part read |
| ParserDefs.FootnotesOfAt | openscad_docsgen/parser.py:330-334 | footnote k is the footnote of part k |
| ParserDefs.Footnotes | openscad_docsgen/parser.py:326-334 | `FileFootnotes` gives exactly one footnote per `;`-separated part of the subtitle, in order |
| ParserDefs.WithSubtitle | openscad_docsgen/parser.py:204-218 | a non-empty subtitle is put in front of the body lines, an empty one leaves them alone |
| ParserDefs.Members | openscad_docsgen/parser.py:209-213 | the files of a match list, as a set |
| ParserDefs.IgnoredBySpec | openscad_docsgen/parser.py:206-213 | a file is ignored iff some ignore pattern's matches contain it |
| ParserDefs.PriorityOfSpec | openscad_docsgen/parser.py:219 | a file is prioritized iff some priority pattern's matches contain it |
| ParserDefs.DocsDirOf | openscad_docsgen/parser.py:225 | the docs directory is the stripped subtitle with every trailing slash cut off and no other character changed |
| DocsParser.Commented | openscad_docsgen/parser.py:620 | every line of a commentless file gets `// ` in front, in order |
| DocsParser.StateGrows | openscad_docsgen/parser.py:293-378 | appending blocks keeps the cursors, the item names and the file list pointing at blocks of the right kinds |
| DocsParser.ItemOpened | openscad_docsgen/parser.py:375-378 | registering a new item under the open section and making it the open item and the parent keeps the parser state well formed |
| DocsParser.BuiltinDefsOk | openscad_docsgen/parser.py:59-69 | the built-in entries (`Status`, `Alias`, `Aliases`, `Arguments`) are item-only when they carry a callback |
| DocsParser.RouteModeline | openscad_docsgen/parser.py:288-289 | a block is ignored as an editor modeline exactly when its title is `vim` or `emacs` |
| DocsParser.RouteStrict | openscad_docsgen/parser.py:298-299 | in strict mode, any title other than a settings, modeline or file title is refused while no file block is open |
| DocsParser.RouteTail | openscad_docsgen/parser.py:298-392 | the structure, image, registry and item branches are reached exactly when none of the settings, modeline, file and strict branches applies, and then by the title and the registry alone |
| DocsParser.RouteRegistered | openscad_docsgen/parser.py:354-364 | the registry branch is taken exactly for a registered title that none of the fixed branches before it names |
| DocsParser.RouteUnrecognized | openscad_docsgen/parser.py:391-392 | a title is unrecognized exactly when no fixed branch names it and it is not registered |
| DocsParser.DocsGenParser.constructor | openscad_docsgen/parser.py:32-56 | a new well-formed parser with the given options and a new tree, whose registry holds at least the built-in `Status`, `Alias`, `Aliases` and `Arguments` entries |
| DocsParser.DocsGenParser.ResetHeaderDefs | openscad_docsgen/parser.py:58-79 | after the reset the registry holds at least the built-in `Status`, `Alias`, `Aliases` and `Arguments` entries, however the default lines and the rc file go; the state stays well formed and only gains blocks and log entries |
| DocsParser.DocsGenParser.ParseFile | openscad_docsgen/parser.py:600-623 | an ignored file changes no block, log entry, cursor or registry entry; any other file leaves a registry holding at least the built-in entries, and parsing only adds blocks and log entries |
| DocsParser.DocsGenParser.ParseLines | openscad_docsgen/parser.py:584-598 | parsing a list of lines only adds blocks, log entries and registry names, and every entry it logs is a FAIL for that source file |
| DocsParser.DocsGenParser.ClearItem | openscad_docsgen/parser.py:394-397 | closing the open item moves the parent cursor back to the item's parent; with no open item nothing changes |
| DocsParser.DocsGenParser.SkipLines | openscad_docsgen/parser.py:90-103 | the index returned is the next header (or the end); the open item is closed iff a skipped line is not a comment or the end was reached |
| DocsParser.DocsGenParser.SkipLoop | openscad_docsgen/parser.py:91-99 | the loop finds the next header and whether a non-comment line was passed on the way |
| DocsParser.DocsGenParser.ParseBlock | openscad_docsgen/parser.py:165-403 | one block keeps every registry name: with no header left the index goes to the end, nothing is logged, no item stays open and nothing crashes; otherwise `BlockEnded` at the next header: where the parse resumes, the one FAIL a raised error logs at the header, a crash exactly on less indentation or a crash step, and no item open after a handled block followed by a non-`//` line or the end |
| DocsParser.DocsGenParser.ParseAt | openscad_docsgen/parser.py:169-403 | a block at a header line keeps every registry name, and ends as `BlockEnded` for its step: less indentation crashes where the body stops; otherwise a crash step crashes, a raised error logs one FAIL at the header and resumes after the body, and a handled block resumes at the next header, closing the open item after a non-`//` line or at the end |
| DocsParser.DocsGenParser.Settle | openscad_docsgen/parser.py:394-401 | a raised error is logged as one FAIL entry at the block's origin and a Python error crashes, both leaving the index after the body and the cursors as they were; a handled block logs nothing, resumes at the next header and closes the open item (parent back to the item's parent) exactly when a line not starting with `//`, or the end, comes first |
| DocsParser.DocsGenParser.Dispatch | openscad_docsgen/parser.py:199-392 | each title is handled by the handler of its branch of the `if/elif` chain (Route), with that handler's full effect and step; no registry name is lost |
| DocsParser.DocsGenParser.DispatchTail | openscad_docsgen/parser.py:288-392 | past the settings titles: modelines and the strict refusal change nothing, a file title gets the file handler's effect, any other title its block handler's; the registry is left alone |
| DocsParser.DocsGenParser.DispatchSetting | openscad_docsgen/parser.py:199-287 | a settings title gets the effect of its own settings handler, which never drops a registry name |
| DocsParser.DocsGenParser.DispatchBlock | openscad_docsgen/parser.py:301-392 | a title past the head of the chain gets the effect of its structure, image, registry or item handler |
| DocsParser.DocsGenParser.DispatchStructure | openscad_docsgen/parser.py:301-315 | `Section`, `Subsection` and `Includes` get their handlers' effects |
| DocsParser.DocsGenParser.DispatchFileData | openscad_docsgen/parser.py:316-337 | `FileSummary`, `FileGroup`, `FileFootnotes` and `CommonCode` get their handlers' effects |
| DocsParser.DocsGenParser.DispatchImages | openscad_docsgen/parser.py:338-353 | `Figure`, `Example`, `Figures` and `Examples` get their handlers' effects |
| DocsParser.DocsGenParser.DispatchItems | openscad_docsgen/parser.py:354-392 | registered titles, item titles, item parts and unknown titles get their handlers' effects |
| DocsParser.DocsGenParser.DefineHeader | openscad_docsgen/parser.py:128-159 | a defined entry replaces any entry of its name; a refusal or a Python error leaves the registry as it was |
| DocsParser.DocsGenParser.IgnoreFiles | openscad_docsgen/parser.py:201-213 | outside the rc file refused with nothing changed; otherwise the stripped lines (subtitle first) join the patterns and the ignored files become exactly the matches of all patterns |
| DocsParser.DocsGenParser.AllIgnored | openscad_docsgen/parser.py:209-213 | the loops collect exactly the matches of every pattern |
| DocsParser.DocsGenParser.PrioritizeFiles | openscad_docsgen/parser.py:214-219 | outside the rc file refused with nothing changed; otherwise the priority list becomes the matches of the stripped lines (subtitle first) |
| DocsParser.DocsGenParser.DocsDirectory | openscad_docsgen/parser.py:220-226 | outside the rc file, or with a body, refused with nothing changed; otherwise the docs directory is the stripped subtitle without trailing slashes |
| DocsParser.DocsGenParser.UsePngAnimations | openscad_docsgen/parser.py:227-233 | outside the rc file, or with a body, refused; otherwise PNG animation is on exactly for TRUE, YES or 1 in any case |
| DocsParser.DocsGenParser.ProjectName | openscad_docsgen/parser.py:234-240 | outside the rc file, or with a body, refused; otherwise the project name is the stripped subtitle |
| DocsParser.DocsGenParser.TargetProfile | openscad_docsgen/parser.py:241-249 | outside the rc file, or with a body, or naming a profile that is not known, refused with the profile unchanged; otherwise the profile is the stripped subtitle |
| DocsParser.DocsGenParser.GenerateDocs | openscad_docsgen/parser.py:250-277 | outside the rc file, or with a body, refused; when documents were already asked for nothing changes; otherwise each part names a document to generate, an unknown part is refused with the parts before it in effect |
| DocsParser.DocsGenParser.GenLoop | openscad_docsgen/parser.py:261-277 | the loop stops at the first unknown part, having added the document of every part before it |
| DocsParser.DocsGenParser.DefineSynTags | openscad_docsgen/parser.py:278-287 | outside the rc file, or with a subtitle, refused with the tags unchanged; otherwise each `tag=text` line sets its tag, and the first line without `=` is refused with the lines before it in effect |
| DocsParser.DocsGenParser.TagLoop | openscad_docsgen/parser.py:283-287 | the loop stops at the first line without `=`, having assigned the pair of every line before it |
| DocsParser.DocsGenParser.FileDecl | openscad_docsgen/parser.py:290-297 | a second file block is refused with nothing changed; otherwise a new root block is listed and the file and parent cursors move to it, the section ones cleared |
| DocsParser.DocsGenParser.OpenFile | openscad_docsgen/parser.py:293-297 | the new file block is listed and becomes the file and parent cursor, with no section or subsection open |
| DocsParser.DocsGenParser.SectionDecl | openscad_docsgen/parser.py:301-305 | refused without a file block; otherwise a new section under the file block becomes the section and parent cursor, with no subsection open |
| DocsParser.DocsGenParser.SubsectionDecl | openscad_docsgen/parser.py:306-312 | refused without an open section or without a subtitle; otherwise a new subsection under the section becomes the subsection and parent cursor |
| DocsParser.DocsGenParser.IncludesDecl | openscad_docsgen/parser.py:313-315 | refused without a file block; otherwise a block under the file block whose lines join the file's includes; the cursors stay |
| DocsParser.DocsGenParser.FileText | openscad_docsgen/parser.py:316-325 | refused without a subtitle or a file block; otherwise only the file block's summary or group changes, to the stripped subtitle |
| DocsParser.DocsGenParser.FileFootnotes | openscad_docsgen/parser.py:326-334 | refused without a subtitle or a file block; otherwise only the file block's footnotes change, to one per `;`-separated part |
| DocsParser.DocsGenParser.FootnoteLoop | openscad_docsgen/parser.py:330-334 | the loop gives one footnote per part, in order |
| DocsParser.DocsGenParser.CommonCode | openscad_docsgen/parser.py:335-337 | refused without a file block; otherwise only the file block's common code changes, by the body lines appended |
| DocsParser.DocsGenParser.SetExtra | openscad_docsgen/parser.py:320-337 | exactly one block's extra data is replaced, nothing else in the tree changes |
| DocsParser.DocsGenParser.ImageDecl | openscad_docsgen/parser.py:338-343 | a figure needs a file block, an example an open item (without one nothing happens); otherwise an image block is built under the parent cursor |
| DocsParser.DocsGenParser.ImagesDecl | openscad_docsgen/parser.py:344-353 | like ImageDecl, with one image block per body line, and when there is a parent the tree is exactly the one `ImagesAfter` builds from the body lines, the subtitle going to the first only |
| DocsParser.DocsGenParser.ImageLoop | openscad_docsgen/parser.py:346-353 | one new block per body line, each of the image kind and under the parent cursor; with a parent the loop finishes iff `ImagesAfter` does and then leaves its tree; with none it finishes iff the body is empty |
| DocsParser.DocsGenParser.ImageStep | openscad_docsgen/parser.py:347-352 | one new block of the image kind under the parent cursor, unless it crashes; with no parent it crashes; with one the outcome is that of `ImageAfter`, and a made block leaves `ImageAfter`'s tree |
| DocsParser.DocsGenParser.Registered | openscad_docsgen/parser.py:354-364 | an item-only entry outside an item is skipped; otherwise the entry's block is built and, unless it raised, its callback runs |
| DocsParser.DocsGenParser.BuildAndCall | openscad_docsgen/parser.py:355-364 | the block of the entry's class is built; a raise is reported with the tree as built and no callback; otherwise the callback runs |
| DocsParser.DocsGenParser.RunCallback | openscad_docsgen/parser.py:363-364 | the entry's callback, if any, runs on the open item |
| DocsParser.DocsGenParser.Build | openscad_docsgen/parser.py:357-362 | the block built is the one the class's construction gives under the parent cursor |
| DocsParser.DocsGenParser.StatusCb | openscad_docsgen/parser.py:81-82 | only the open item's deprecated flag changes: it is set iff the subtitle contains DEPRECATED |
| DocsParser.DocsGenParser.AliasCb | openscad_docsgen/parser.py:84-88 | the stripped comma-separated aliases are appended to the open item's aliases, and each alias names the item |
| DocsParser.DocsGenParser.AliasLoop | openscad_docsgen/parser.py:87-88 | the loop assigns each alias to the item in turn |
| DocsParser.DocsGenParser.ItemDecl | openscad_docsgen/parser.py:366-378 | refused without a file block; opens an untitled section when none is open; a name already registered is refused citing its first declaration; otherwise the item is registered and becomes the open item and the parent |
| DocsParser.DocsGenParser.OpenSection | openscad_docsgen/parser.py:368-370 | the section cursor becomes the open section, or a new untitled one, and the parent cursor follows it |
| DocsParser.DocsGenParser.NewItem | openscad_docsgen/parser.py:371-378 | a refused item changes nothing; otherwise a new item under the section is registered under its name and becomes the open item and the parent |
| DocsParser.DocsGenParser.OpenItem | openscad_docsgen/parser.py:376-378 | the item becomes the open item and the parent, and its name maps to it |
| DocsParser.DocsGenParser.ItemPart | openscad_docsgen/parser.py:379-390 | only while an item is open, a `Synopsis`, `SynTags`, `Topics` or `See Also` block is added under the parent cursor; with a body it is refused; with an item open the tree and step are exactly those of `PartAfter` (the parent's synopsis, tags, topics or see-also set, an unknown tag crashing) |
| DocsParser.DocsGenParser.FilesPrioritized | openscad_docsgen/parser.py:105-116 | the file blocks matching each priority file in turn, then every other file block, in order |
| DocsParser.DocsGenParser.PrioritizedLoop | openscad_docsgen/parser.py:105-116 | the loops give the reference prioritized order |
| DocsParser.DocsGenParser.FrontLoop | openscad_docsgen/parser.py:108-112 | the loop picks the files matching each priority name in turn, and records exactly the names that matched |
| DocsParser.DocsGenParser.MatchLoop | openscad_docsgen/parser.py:109-112 | the loop picks every file whose name is the priority name, in order |
| DocsParser.DocsGenParser.OthersLoop | openscad_docsgen/parser.py:113-115 | the loop picks every file whose name was not found, in order |
| DocsParser.DocsGenParser.TocGroups | openscad_docsgen/parser.py:703-710 | the groups of the prioritized files, named groups first in first-seen order, then the unnamed group |
| DocsParser.DocsGenParser.GroupLoop | openscad_docsgen/parser.py:704-710 | the loops give the reference group order |
| DocsParser.DocsGenParser.IndexLetters | openscad_docsgen/parser.py:843-849 | the loop buckets the sorted names by first letter and the letters found are sorted |
| DocsParser.AliasesOk | openscad_docsgen/parser.py:84-88 | the alias callback keeps every name mapped to an item block |
| DocsParser.PickSnoc | openscad_docsgen/parser.py:112-115 | appending one more picked file extends the picked list by that file |
| DocsParser.PickFiles | openscad_docsgen/parser.py:105-116 | a picked list of file blocks has one entry per index and only file blocks |
| ImageManaging.ImageManager.RunNext | openscad_docsgen/imagemanager.py:176-248 | running one more request extends the reference run by its status and files; every request so far is complete with its status, and succeeded iff it did not fail |
| ImageManaging.TestPrefixWritesNothing | openscad_docsgen/imagemanager.py:198-234 | in test mode no image file is written and every status is FAIL or SKIP |
| ImageManaging.WrittenNumber | openscad_docsgen/imagemanager.py:18 | a decimal numeral written before a non-digit reads back as the same number, leaving the tail |
| ImageManaging.DimsWritten | openscad_docsgen/imagemanager.py:18 | `WxH` written in decimal reads back as the same width and height |
| LogManaging.LogManager.ProcessNext | openscad_docsgen/logmanager.py:141-198 | processing one more request adds exactly that run's entries to the log and completes it with its status |
| LogManaging.EchoFromSpec | openscad_docsgen/logmanager.py:60-63 | a captured ECHO text is non-empty, holds no newline and is the end of the line (before an optional final newline) |
| TargetWiki.PrefixLines | openscad_docsgen/target_wiki.py:161-171 | same number of lines, line `i` being the prefix and line `i` of the input (used with `- ` for bullet lists and four spaces for indented code) |
| TargetWiki.NumberedItems | openscad_docsgen/target_wiki.py:178-190 | item `i` becomes its number, `. ` and the item |
| TargetWiki.RowLines | openscad_docsgen/target_wiki.py:205-215 | one line per row: its cells joined by ` \| ` |

## Left out

- Strings.LowerChar: `str.lower` is modelled for ASCII letters only. Python also lower-cases other Unicode letters. This affects `TargetWiki.HeaderLink` (target_wiki.py:85), the image file name of an image block (blocks.py:819) and the case-insensitive index sort.
- Strings.UpperChar: `str.upper` is modelled for ASCII letters only. This affects `ParserOrder.Letter` (parser.py:845) and `UsePNGAnimations`.
- Strings.IsAlpha: `str.isalpha` is modelled for ASCII letters only. This affects `ParserOrder.Letter` (parser.py:845). For example, the name "Émile" goes to bucket `É` in the program but to bucket `0` in the model.
- Strings.IsSpace: `str.isspace` is modelled for the ASCII and Latin-1 whitespace characters. Python's wider Unicode whitespace is not.
- FileHashing.ReadLines: ends a line only at `\n`. The hash file is opened in text mode (filehashes.py:33-34), whose universal newlines also end a line at `\r` and `\r\n` and turn them into `\n`. The model therefore reads a hash file written with `\r` line endings differently; files the program itself writes (filehashes.py:46) use `\n`.
- ImageManaging.FrameMsOf: ignores `FPS=`. The program computes `int(1000/<text>)` there (imagemanager.py:101), which raises TypeError for every input. The model reads only `FrameMS=`.
- BlockQueries.RowCells: resolves `{{name}}` links in table cells but does not log unknown names. The program calls `parse_links` on every cell, and that logs (blocks.py:288-289). The log entries of other bodies are modelled (`DocBlocks`).
- DocsParser.DocsGenParser.IndexLetters: requires every index name to be non-empty. An empty alias (`// Alias: a,` gives the alias "", parser.py:85) makes `name[0]` raise IndexError at parser.py:845.
- DocsParser.DocsGenParser.IndexLetters: takes the index entries already gathered and sorted. Collecting item names and aliases (parser.py:831-841) and sorting them by lower-cased name (parser.py:842) are not modelled.
- ParserOrder.Letter: requires a non-empty name, for the same reason as IndexLetters.
- TargetWiki.Table: requires every row to have no more cells than there are headers. Otherwise the program raises IndexError at target_wiki.py:208. That path is modelled only by `BlockQueries.AsWrittenTableLines` (see Findings).
- DocsParser.DocsGenParser.constructor: states the registry's built-in entries but not the `Continues`, `Description` and `Usage` definitions the default lines add, nor that the tree is still empty without an rc file. Both follow from the default lines being parsed, and the parse of a list of lines is not carried block by block (see ParseLines).
- DocsParser.DocsGenParser.ResetHeaderDefs: states the built-in entries after the reset, not the three default definitions or the rc file's definitions, for the same reason.
- DocsParser.DocsGenParser.ParseFile: the file and section cursors are cleared before the reset (parser.py:616-617), but the contract states only the state after the whole file is parsed, where a `File` block may have set them again.
- DocsParser.DocsGenParser.ParseLines: states that parsing only adds blocks and FAIL entries for its file; the per-block facts `ParseBlock` states (where each block resumes, its entry, the item close) are not carried across the loop.
- DocsParser.DocsGenParser.ParseAt: models the less-indentation error (parser.py:187) as a crash that stops parsing, not as a logged FAIL. The handler at parser.py:401 reads `origin`, which is bound only at parser.py:198, so the program itself fails with UnboundLocalError.
- DocsParser.DocsGenParser.Dispatch: does not state that the settings handlers leave the blocks and cursors alone, or that the other handlers leave the settings alone. The handlers' `modifies` clauses say so.
- `FileBlock.get_data` (blocks.py:312-326) is not modelled. It unpacks each footnote as a pair, but the parser stores triples (parser.py:332-334), so it fails on any file with footnotes.
- `write_toc_file`: only the group order (parser.py:703-710) is modelled. The text of the table of contents is not, including the footnote listing that prints a stale `note` (parser.py:746).
- `write_docs_files`: only the per-file image step (parser.py:670-697) is modelled. Writing the Markdown files is not.
- `write_topics_file`, `write_cheatsheet_file` and `write_sidebar_file` are not modelled. Neither are `get_indexed_names`, `get_indexed_data`, `get_all_data`, `parse_files`, `dump_tree` and `dump_full_tree` (parser.py:405-582, 625-664, 760-824, 876-958). They are file output and JSON data export built on the tree the model does construct.
- The blocks' rendering methods are not modelled: `get_file_lines`, `get_toc_lines`, `get_tocfile_lines`, `get_cheatsheet_lines`, `get_data`, `get_synopsis`, `get_index_line` and the section and file `get_link` (blocks.py). The model covers the parts these build on: link resolution, Markdown bodies, item names, table rows and image file names.
- `ImageBlock.generate_image` and the start and completion printouts (blocks.py:848-902) are not modelled. Neither are `img_started` in mdimggen.py and the `starting` callbacks of both request classes. They only print, or only queue, which the model covers.
- File and console I/O: reading files, `os.makedirs`, renames, unlinks, `print`, and progress output. Files are given as their lines, and the file system as a map from path to contents.
- `glob.glob` is a table from pattern to matches (IgnoreFiles, PrioritizeFiles).
- `FileHashes._sha256sum` (filehashes.py:13-25): the digest is a parameter.
- `ImageManager.image_compare` (imagemanager.py:251-266) uses PIL and a floating-point RMS. In the model it is a set of file pairs taken to be equal.
- Running OpenSCAD: `OpenScadRunner`, `subprocess.run`, temporary script files and `LogManager.find_openscad_binary` (imagemanager.py:186-225, logmanager.py:86-198). Each run is a result record given to the model.
- The command-line entry points (`main` in `__init__.py`, `mdimggen_main`), argparse and yaml options, and `target.py`'s profile table. The profiles `TargetProfile` accepts are a parameter.
- TargetMkDocs.PageName: the MkDocs page-name properties (target_mkdocs.py:10-28) are dead code. The parser sets its own `TOCFILE` to `SIDEBARFILE` attributes (parser.py:50-54) and writes every generated page under them (parser.py:753, 819, 869, 890, 949). So the MkDocs profile writes `TOC.md`, `Topics.md`, `AlphaIndex.md`, `CheatSheet.md` and `_Sidebar.md`, and no page is renamed.
- `OriginInfo.md_file` and the target helpers `bold`, `italics`, `code_span`, `horizontal_rule`, `mouseover_tags`, `postprocess` and `get_suffix` are not modelled. Each is a one-line string format that no modelled operation uses.
- Floating point: the image size is a pair of Dafny reals. Python computes it in floating point (imagemanager.py:66), which is exact for the default size times 0.75, 1.5, 2 or 2.5 and for every `Size=WxH` below 2^53. The test `len(line) > (880 - width)/9` (imagemanager.py:116-119) is compared on reals.

## Findings

| source | as written | input that shows it | evidently intended | confidence | as-written member | corrected member |
|---|---|---|---|---|---|---|
| openscad_docsgen/mdimggen.py:96-124 | requests are filed in the error log under `fileroot + ".md"` (the base name), but the cache step looks up `file_has_errors(infile)` (the path as given) | processing `docs/a.md` where one image fails: the failure is logged under `a.md`, the lookup on `docs/a.md` finds nothing, the new digest is kept, and the failed image is not rendered again on the next run | a file whose images failed loses its digest, so that it is processed again | not executed | `MdImgGen.HasErrorsAsWritten`, `MdImgGen.AsWrittenMissesFailedImage` | `MdImgGen.HasErrors`, used by `MdImgGen.MarkdownImageGen.CacheStep` |
| openscad_docsgen/blocks.py:275-300 | table rows are split using the header set given by the number of `---` lines seen so far, but the tables are printed with the k-th non-empty table under header set k | a table type declared with `Headers=x\|\|p\|q` and a block of it whose body is `---` then `a=b`: the row is split into two cells for set 1 but printed under set 0, which has one header, so `headers[1]` raises IndexError in `table` (target_wiki.py:208) | each table is printed under the header set it was split with | not executed | `BlockQueries.AsWrittenTableLines`, `BlockQueries.AsWrittenMisaligned` | `BlockQueries.TableLines`, with `BlockQueries.TablesAligned` and `BlockQueries.TableLinesDefined` (`BlockQueries.AsWrittenAgrees`: the two agree when no table is empty) |
| openscad_docsgen/parser.py:689-697 | image requests are filed in the error log under `origin.file`, the path the file was parsed from (blocks.py:861), but the cache step keys the hash and the error lookup by `fblock.subtitle.strip()` | parsing `lib/shapes.scad` whose header is `// LibFile: shapes.scad`, with one failing image: the failure is logged under `lib/shapes.scad`, `file_has_errors("shapes.scad")` is false, the digest is kept, and the image is not rendered again on the next run | a file whose images failed loses its digest, so that it is processed again | not executed | `DocsImages.FileErrorsAsWritten`, `DocsImages.AsWrittenKeepsFailedDigest` | `DocsImages.FileErrors`, used by `DocsImages.ForgetFailed` and `DocsImages.FileImages`, with `DocsImages.RenderAgainAfterFailure` |

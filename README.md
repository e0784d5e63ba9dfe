# repomap, modelled in Dafny

repomap walks a source tree and writes a Markdown map of it. It covers Rust, Python, Go,
JavaScript, TypeScript, TSX and Markdown files. For each file it lists the symbols that a
tree-sitter query finds: items, their line numbers and kinds, the parent of a member, and the
level of a Markdown heading. A file's imports go on its own line. A summary table and a rough
token estimate describe the whole map. The map can also be wrapped in marker comments and
spliced into a `CLAUDE.md` file, replacing the block from an earlier run.

This project models the core of that pipeline and proves properties of the model:

- `Languages`: picking a language from a path's extension (`infer_language`). This includes
  `Path::file_name` / `Path::extension` semantics: the last component, hidden files, and `.` / `..`.
- `Parser`: folding one query match's captures into a symbol, then collecting symbols across
  matches with the duplicate rule (`extract_symbols`). `ExtractSymbols` keeps the source's
  two nested loops and is proved equal to the fold `Extracted`.
- `Formatter`:
  - rendering one file's fragment (`process_file_with_stats` after parsing): the heading, the
    imports line, and the fenced table of rows;
  - the `RepoStats` accumulator: a class whose methods update its fields in place;
  - assembling the final map (`assemble_final_map`).
- `Splicer`: the marker block (`wrap_for_claude_md`) and the splice into existing text
  (`update_or_append_repomap`).
- `Scan`: the registration loop of `main` over the walked entries. It connects the parts above.
- `RustStr`: the Rust standard-library string operations the code relies on. These are
  `trim`, `trim_end`, `trim_start_matches`, `find`, `lines().count()`, `len()` in UTF-8 bytes,
  `{:<w}` padding, `repeat`, `join`, `usize` formatting and `parse::<usize>()`.

The query engine is outside the model. Its results are inputs:

- a file's matches arrive as `seq<Match>`, each match a sequence of `Capture`s giving the
  capture's role, its text (`None` when the byte range is not a valid slice), the node kind
  and the start and end rows;
- the import strings arrive as a `seq<string>`.

## Behaviour the model makes explicit

In three places the code does something a reader might not expect. The model follows the
code and proves what it does:

- The duplicate rule depends on order. A match with no parent is dropped when a symbol with a
  parent is already on its line (`Parser.BareDroppedIff`). The reverse order keeps both
  (`Parser.SameLinePairs`). What does hold in any order is `Parser.NoBareAfterMember`.
- Splicing the same block in twice is not idempotent. The text after the END marker keeps its
  `"\n"`, and the new block brings another, so every re-splice of a wrapped block adds one
  newline (`Splicer.SpliceTwice`, `Splicer.ReplacePriorBlock`).
- `update_or_append_repomap` does not check that the END marker comes after the START marker.
  When END comes first, the text between them is copied twice (`Splicer.EndBeforeStart`).

`main` (src/main.rs) never calls `wrap_for_claude_md` or `update_or_append_repomap`. They are
modelled as the library functions they are.

## Model

| member | source | states |
|---|---|---|
| Languages.LastComponent | src/languages.rs:16 | the last path component is the text after the last `/` (the whole path without one): a `/`-free suffix preceded by `/` or by nothing |
| Languages.FileName | src/languages.rs:16 | `Path::file_name`: when present, it is non-empty, not `.` or `..`, and holds no `/` |
| Languages.BareFileName | src/languages.rs:16 | a slash-free name other than `.` and `..` is its own file name |
| Languages.FileNameAfterDirectory | src/languages.rs:16 | a file name after a directory prefix ending in `/` is that name |
| Languages.ExtensionOfName | src/languages.rs:16 | the extension holds no dot, and the name is a non-empty stem, a dot, then the extension |
| Languages.ExtensionOfStemDotExt | src/languages.rs:16 | `stem.ext` with a non-empty stem has extension `ext` |
| Languages.ExtensionOfBareName | src/languages.rs:16 | `Path::extension` of a slash-free `stem.ext` is `ext` |
| Languages.NoDotExtension | src/languages.rs:16 | a name without a dot has no extension |
| Languages.NoDotNoExtension | src/languages.rs:16 | a path without an extension gets no language (the `?` on `extension()`) |
| Languages.InferHiddenFile | src/languages.rs:16 | `src/.rs` is a hidden file with no extension, so it gets no language |
| Languages.Extension | src/languages.rs:16 | definition: `path.extension()`, the extension of the file name; its properties are `Languages.ExtensionOfName` and `Languages.ExtensionOfBareName` |
| Languages.LanguageOfExtension | src/languages.rs:17-24 | definition: the extension table; `Languages.ExtensionTable` and `Languages.UnlistedExtension` state it |
| Languages.InferLanguage | src/languages.rs:15-26 | definition: the table applied to the extension, `None` without one; `Languages.InferFromExtension` and `Languages.InferByExtension` state it |
| Languages.ExtensionTable | src/languages.rs:17-24 | an extension maps to a language exactly when it is that language's extension, or `jsx` for JavaScript |
| Languages.TableEntry | src/languages.rs:17-23 | every language's own extension maps back to it |
| Languages.UnlistedExtension | src/languages.rs:24 | any extension outside `rs py go js jsx ts tsx md` gives `None` |
| Languages.InferFromExtension | src/languages.rs:15-26 | `infer_language` is the table applied to the path's extension |
| Languages.InferByExtension | src/languages.rs:15-26 | `dir/stem.ext` gets the language of `ext`, whatever the directory |
| Languages.InferUpperCase | src/languages.rs:17-24 | the match is case-sensitive: `LIB.RS` gets no language |
| Languages.InferBareName | src/languages.rs:15-26 | a slash-free `stem.ext` with a non-empty stem gets the language of `ext` |
| Languages.InferMainRs | src/languages.rs:47 | `main.rs` is Rust |
| Languages.InferReadmeMd | src/languages.rs:48-51 | `README.md` is Markdown |
| Languages.InferScriptPy | src/languages.rs:52-55 | `script.py` is Python |
| Languages.InferPhotoJpg | src/languages.rs:56 | `photo.jpg` gets no language |
| Parser.HeadingLevel | src/parser.rs:55 | definition: the number of leading `#`; `Parser.HeadingParts` states it |
| Parser.HeadingKind | src/parser.rs:56 | definition: `h` followed by the level; `Parser.SingleHeading` and `Formatter.HeadingKinds` state it |
| Parser.HeadingName | src/parser.rs:57 | definition: the text after the `#` run, trimmed; `Parser.HeadingParts` states it |
| Parser.ApplyCapture | src/parser.rs:35-61 | definition: one step of the capture loop over a match; `Parser.LastItemWins` and `Parser.LastNameWins` state it |
| Parser.FoldCaptures | src/parser.rs:25-62 | definition: the capture loop of one match from the empty draft; `Parser.LastParentWins` and `Parser.FoldedNameTrimmed` state it |
| Parser.Emits | src/parser.rs:64 | definition: a non-empty name and a line above 0; `Parser.SilentMatch` and `Parser.ExtractedSymbolsValid` state it |
| Parser.ToSymbol | src/parser.rs:69-75 | definition: the pushed symbol carries the draft's name, parent, kind and lines; `Parser.BothKept` and `Parser.ItemThenName` state it |
| Parser.IsDuplicate | src/parser.rs:65-67 | definition: a bare draft on a line that already holds a symbol with a parent; `Parser.BareDroppedIff` states it |
| Parser.Collect | src/parser.rs:64-77 | definition: appends the match's symbol when it has a name and a line and is not a duplicate; `Parser.BareDroppedIff` and `Parser.MemberNeverDropped` state it |
| Parser.Extracted | src/parser.rs:24-78 | definition: `Parser.Collect` folded over the matches; `Parser.ExtractedSymbolsValid` and `Parser.NoBareAfterMember` state it |
| Parser.ExtractSymbols | src/parser.rs:11-81 | the two nested loops compute `Extracted(matches)`, the fold of the per-match captures with the duplicate rule |
| Parser.LastItemWins | src/parser.rs:46-59 | the last `item` capture of a match sets its kind and its 1-based start and end lines |
| Parser.NoItemNoSymbol | src/parser.rs:28-64 | a match without an `item` capture keeps line 0 and yields no symbol |
| Parser.LastNameWins | src/parser.rs:36-58 | the name comes from the last capture to set it: a `name` capture (trimmed) or a heading `item` |
| Parser.NoNameNoSymbol | src/parser.rs:25-64 | a match where nothing sets a name yields no symbol |
| Parser.LastParentWins | src/parser.rs:41-45 | the last readable `parent` capture gives the parent, untrimmed |
| Parser.NoParentBare | src/parser.rs:26-45 | with no readable `parent` capture the symbol has no parent |
| Parser.FoldedNameTrimmed | src/parser.rs:38-57 | a match's name has no whitespace at either end |
| Parser.FoldedSpanOrdered | src/parser.rs:49-50 | when node spans are ordered, the start line is at most the end line |
| Parser.SingleHeading | src/parser.rs:52-58 | an `atx_heading` item sets the kind to `h` plus its level and the name to its text |
| Parser.HeadingParts | src/parser.rs:55-57 | for `#…# title`, the level is the number of `#` and the name is the title |
| Parser.ItemThenName | src/parser.rs:36-50 | an item then a name fold to the trimmed name, the item's kind and its lines |
| Parser.ItemThenTrimmedName | src/parser.rs:36-50 | the same, for a name with no whitespace to trim |
| Parser.ExtractedStep | src/parser.rs:24-78 | one more match runs one more step of the outer loop |
| Parser.ExtractedSymbolsValid | src/parser.rs:64-76 | every symbol has a non-empty trimmed name and a line of at least 1 |
| Parser.ExtractedSpansOrdered | src/parser.rs:49-75 | with ordered node spans, every symbol's line is at most its end line |
| Parser.ExtractedPrefix | src/parser.rs:64-77 | symbols are only appended: earlier results are a prefix of later ones |
| Parser.ExtractedAtMostOnePerMatch | src/parser.rs:24-78 | there are at most as many symbols as matches |
| Parser.MemberNeverDropped | src/parser.rs:64-76 | an emitted match with a parent is always kept |
| Parser.BareDroppedIff | src/parser.rs:64-76 | an emitted match without a parent is dropped exactly when a symbol with a parent is already on its line |
| Parser.SilentMatch | src/parser.rs:64 | a match with an empty name or line 0 adds nothing |
| Parser.SameLinePairs | src/parser.rs:65-67 | on one line, member then bare keeps only the member, and bare then member keeps both |
| Parser.BothKept | src/parser.rs:65-75 | two emitted matches are both kept in order unless the first has a parent on the second's line |
| Parser.NoBareAfterMember | src/parser.rs:65-67 | on any line, no symbol without a parent follows one with a parent |
| Parser.StructMatchFold | src/parser.rs:88-91 | the test's struct match folds to `MyStruct`, kind `struct_item`, on the source's line |
| Parser.FunctionMatchFold | src/parser.rs:88-91 | the test's function match folds to `my_func`, kind `function_item` |
| Parser.RustStructThenFunction | src/parser.rs:88-98 | the test's two matches give exactly `MyStruct` then `my_func`, both top-level |
| Formatter.LangTag | src/formatter.rs:63-106 | definition: the fence tag of each language, `typescript` for TSX too; `Formatter.MarkdownRendering` uses it |
| Formatter.HasImportQuery | src/formatter.rs:38-57 | definition: every language but Markdown has an import query; `Formatter.ImportsByLanguage` states it |
| Formatter.ImportsFor | src/formatter.rs:111-115 | definition: the extracted imports, or none without an import query; `Formatter.ImportsByLanguage` states it |
| Formatter.ImportsByLanguage | src/formatter.rs:38-57 | Markdown files get no imports whatever is extracted, and files of every other language get exactly the extracted ones |
| Formatter.IndentDepth | src/formatter.rs:134-136 | definition: for a kind `h` plus text, the parsed level (1 when it does not parse) minus one, saturating at 0; `Formatter.DisplayNameOfHeading` and `Formatter.DisplayNameUnindented` state it |
| Formatter.DisplayName | src/formatter.rs:131-141 | definition: `parent > name` or the indented name; `Formatter.DisplayNameOfMember` and `Formatter.DisplayNameOfHeading` state it |
| Formatter.Row | src/formatter.rs:142-145 | definition: one table row; `Formatter.RowColumns` and `Formatter.RowShowsKindAndName` state it |
| Formatter.Rows | src/formatter.rs:129-146 | definition: the rows of the symbols in order; `Formatter.RowsConcat` and `Formatter.RowsLineCount` state it |
| Formatter.FileHeading | src/formatter.rs:120 | definition: `\n## path\n`; `Formatter.HeadingLineBreaks` and `Formatter.FragmentLayout` state it |
| Formatter.ImportsLine | src/formatter.rs:123-125 | definition: `imports: ` and the imports joined by a comma and a space, or nothing; `Formatter.ImportsLineBreaks` states it |
| Formatter.CodeBlock | src/formatter.rs:127-148 | definition: the fence with the language tag, the rows, the closing fence, or nothing; `Formatter.CodeBlockLineBreaks` and `Formatter.RowInFragment` state it |
| Formatter.Fragment | src/formatter.rs:117-149 | definition: heading, imports line and fenced table, or nothing; `Formatter.FragmentEmptyIff` and `Formatter.FragmentLayout` state it |
| Formatter.Size | src/formatter.rs:130 | the `usize` size `end_line - line + 1`: the true span when it does not wrap, and always below 2^64 |
| Formatter.DisplayNameOfMember | src/formatter.rs:132 | a member is shown as `parent > name` |
| Formatter.DisplayNameOfHeading | src/formatter.rs:133-136 | a heading of level `n` is indented by `2(n-1)` spaces |
| Formatter.HeadingSymbolIndent | src/formatter.rs:133-136 | a symbol built from a heading is indented by its level |
| Formatter.DisplayNameUnindented | src/formatter.rs:133-139 | a bare symbol whose kind is not `h` plus a positive number is shown by its name alone |
| Formatter.RowColumns | src/formatter.rs:142-145 | a row is `L`, the line padded to three, the kind padded to ten, the display name padded to thirty, then the size, with a bar-separator between columns |
| Formatter.RowShowsKindAndName | src/formatter.rs:142-145 | for every symbol, the row holds the padded kind, the separator, then the display name, right after the line column (at offset 7 when the line has at most three digits) |
| Formatter.RowIsOneLine | src/formatter.rs:142-145 | a row holds exactly one line break, at its end |
| Formatter.RowsConcat | src/formatter.rs:129-146 | the rows of two symbol lists are the rows of each, concatenated |
| Formatter.RowsLineCount | src/formatter.rs:129-146 | the table holds one line per symbol |
| Formatter.RowsAround | src/formatter.rs:129-146 | each symbol's row sits between the rows before and after it |
| Formatter.ProcessFileWithStats | src/formatter.rs:108-151 | returns the fragment of the extracted symbols and imports, the symbol count, and `lines().count()` of the content |
| Formatter.RenderFragment | src/formatter.rs:117-149 | the rendering loop builds exactly `Fragment(path, symbols, imports, tag)` |
| Formatter.FragmentEmptyIff | src/formatter.rs:119 | the fragment is empty exactly when there are no symbols and no imports |
| Formatter.FragmentLayout | src/formatter.rs:119-149 | a fragment is the heading, then the imports line if any imports exist, then the fenced table if any symbols exist |
| Formatter.HeadingLineBreaks | src/formatter.rs:120 | the file heading holds two line breaks |
| Formatter.ImportsLineBreaks | src/formatter.rs:123-125 | the imports line holds one line break, or none when there are no imports |
| Formatter.CodeBlockLineBreaks | src/formatter.rs:127-148 | the fenced table holds one line break per symbol plus two fences, or nothing without symbols |
| Formatter.FragmentLineBreaks | src/formatter.rs:117-149 | a fragment's line breaks add up from its parts |
| Formatter.RowInFragment | src/formatter.rs:127-148 | each symbol's row sits in the fragment after the fence and the rows before it |
| Formatter.KindAndNameInFragment | src/formatter.rs:142-145 | for every symbol, whatever its kind and name, the fragment contains its padded kind followed by its display name |
| Formatter.HeadingTitle1 | src/formatter.rs:215 | `# title` is a level-1 heading named `title` |
| Formatter.HeadingTitle2 | src/formatter.rs:215 | `## title` is a level-2 heading named `title` |
| Formatter.HeadingKinds | src/parser.rs:56 | headings of levels 1 and 2 get kinds `h1` and `h2` |
| Formatter.TwoHeadingsFold | src/formatter.rs:212-218 | the two heading matches fold to `h1` on line 1 and `h2` on line 2 |
| Formatter.TwoHeadingSymbols | src/formatter.rs:212-220 | the two heading matches give exactly those two symbols |
| Formatter.TwoLines | src/formatter.rs:151 | two newline-terminated lines count as two |
| Formatter.TwoHeadingsLines | src/formatter.rs:221 | the test file has two lines |
| Formatter.PaddedHeadingKinds | src/formatter.rs:222-223 | the padded `h1` and `h2` cells, with the level-2 indent, are the strings the test searches for |
| Formatter.FirstHeadingCells | src/formatter.rs:222 | for any title, the level-1 heading's kind and name cells are `h1` padded to ten, the separator, then the title |
| Formatter.SecondHeadingCells | src/formatter.rs:223 | for any title, the level-2 heading's cells are `h2` padded to ten, the separator, two spaces of indent, then the title |
| Formatter.TwoHeadingRows | src/formatter.rs:222-223 | for any titles, a fragment of those two symbols contains both searched strings |
| Formatter.MarkdownRendering | src/formatter.rs:55-105 | Markdown has no import query and the fence tag `markdown` |
| Formatter.TwoHeadingsFormatting | src/formatter.rs:212-224 | for any two heading titles: two symbols, two lines, and the fragment contains both padded rows |
| Formatter.TestTitles | src/formatter.rs:215-223 | the test's titles and file text, instantiated |
| Formatter.MarkdownFormatting | src/formatter.rs:212-224 | the Markdown test: two symbols, two lines, and both searched strings in the output |
| Formatter.SummaryRow | src/formatter.rs:24-29 | definition: the summary table row of one file; `Formatter.MainRsSummaryRow` states it |
| Formatter.RepoStats.constructor | src/formatter.rs:14-20 | a new accumulator is empty with a file count of 0 |
| Formatter.RepoStats.AddFile | src/formatter.rs:22-31 | appends the fragment and the summary row, and counts one more file |
| Formatter.RepoStats.EstimateTokens | src/formatter.rs:33-35 | the estimate is the UTF-8 byte length divided by four, rounded down |
| Formatter.EstimateAtMostChars | src/formatter.rs:34 | the estimate never exceeds the number of characters |
| Formatter.FourHundredAsciiChars | src/formatter.rs:237-242 | 400 ASCII characters estimate to 100 tokens |
| Formatter.MainRsSummaryRow | src/formatter.rs:24-29 | the summary row of `src/main.rs` with 5 symbols and 100 lines is the exact line the test searches for |
| Formatter.TestNumerals | src/formatter.rs:27-28 | 5 and 100 render as `5` and `100` |
| Formatter.AggregationExample | src/formatter.rs:226-235 | after one `add_file` the count is 1 and the rows hold the expected line |
| Formatter.MapHeader | src/formatter.rs:155-158 | definition: the title, the root and the file count; `Formatter.HeaderShowsFileCount` states it |
| Formatter.SummarySection | src/formatter.rs:159-165 | definition: the summary table and a rule, or the rule alone; `Formatter.FinalMapLayout` states it |
| Formatter.FinalMap | src/formatter.rs:154-168 | definition: header, summary section, map content; `Formatter.FinalMapLayout` and `Formatter.HeaderShowsFileCount` state it |
| Formatter.AssembleFinalMap | src/formatter.rs:154-168 | builds the header, then the summary table and rule (or the rule alone), then the map content |
| Formatter.FinalMapLayout | src/formatter.rs:154-168 | the final map starts with the header, holds the summary rows when asked, and ends with the map content |
| Formatter.HeaderShowsFileCount | src/formatter.rs:155-158 | the file count in the header reads back as the count |
| Splicer.TokenDisplay | src/formatter.rs:174-178 | below 1000 the display is `~n tokens` and `n` reads back; from 1000 it is `~` plus the kilo figure plus `k tokens` |
| Splicer.WrapInterior | src/formatter.rs:180-183 | definition: the block between the two markers; `Splicer.InBlock` and `Splicer.WrapShowsContent` state it |
| Splicer.WrapForClaudeMd | src/formatter.rs:173-184 | the block starts with the START marker and ends with the END marker and a newline |
| Splicer.InBlock | src/formatter.rs:180-183 | anything in the block's interior appears after the START marker |
| Splicer.WrapShowsContent | src/formatter.rs:180-183 | the block contains the map content |
| Splicer.WrapShowsCounts | src/formatter.rs:180-183 | the block shows the file count and the token display |
| Splicer.WrapMarkedOnce | src/formatter.rs:170-183 | when the content holds no `<!`, the wrapped block holds no END marker before its own |
| Splicer.UpdateOrAppendRepomap | src/formatter.rs:186-204 | definition: splice between the markers when both are found, else append; `Splicer.SpliceAt` and `Splicer.AppendWhenUnmarked` state it |
| Splicer.AppendWhenUnmarked | src/formatter.rs:195-203 | without both markers, blank text becomes the new block, and other text is trimmed at the end and given a blank line before the block |
| Splicer.BlankBecomesBlock | src/formatter.rs:197-199 | whitespace-only text becomes exactly the new block |
| Splicer.SpliceAt | src/formatter.rs:187-194 | with both markers found, the result is the text before START, trimmed at the end, then the new block, then the text after END |
| Splicer.ReplaceSection | src/formatter.rs:187-194 | a marked section between unmarked text is replaced by the new block |
| Splicer.ReplacePriorBlock | src/formatter.rs:186-194 | a block from an earlier run is replaced, and the newline after its END marker stays |
| Splicer.SpliceBlockTwice | src/formatter.rs:186-194 | splicing a block into itself adds one trailing newline |
| Splicer.SpliceTwice | src/formatter.rs:173-204 | a block spliced into empty text is itself, and splicing it again adds one newline |
| Splicer.EndBeforeStart | src/formatter.rs:187-194 | with END before START, the text between the markers is kept twice |
| Splicer.NewBlockPresent | src/formatter.rs:186-204 | the result always contains the new block |
| Scan.TargetLanguage | src/main.rs:48 | definition: `--language` when given, otherwise the inferred language; `Scan.RegisteredIff` states it |
| Scan.Registers | src/main.rs:47-55 | definition: the registration one walked entry yields, if any; `Scan.RegisteredIff` and `Scan.RegisteredCounts` state it |
| Scan.Registrations | src/main.rs:43-57 | definition: the registrations of the entries in walk order; `Scan.ScanEntries` and `Scan.RegistrationsNonEmpty` state it |
| Scan.ScanEntry | src/main.rs:47-55 | one entry is added to the accumulator exactly when it yields a registration, and otherwise nothing changes |
| Scan.ScanEntries | src/main.rs:43-57 | the loop appends the fragments and summary rows of all registrations, in walk order, and counts them |
| Scan.Run | src/main.rs:41-66 | the output is the final map of the registrations, and the token estimate is a quarter of its UTF-8 length |
| Scan.RegistrationsNonEmpty | src/main.rs:52 | each registered fragment is non-empty, with at most one per entry |
| Scan.RegisteredIff | src/main.rs:47-55 | a file is registered exactly when it is a readable, non-binary regular file with a language and a symbol or an import |
| Scan.RegisteredCounts | src/main.rs:50-54 | a registration carries the file's path, symbol count and line count |
| Scan.NothingRegistered | src/formatter.rs:154-168 | with no registrations the map is the header and the rule |
| RustStr.IsWhitespace | src/parser.rs:38 | definition: the Unicode `White_Space` class that `trim` removes; `RustStr.Trim` and `RustStr.TrimKeepsMiddle` state it |
| RustStr.TrimStart | src/parser.rs:38 | `trim_start` keeps a suffix with no leading whitespace, dropping only whitespace |
| RustStr.TrimEnd | src/formatter.rs:194-197 | `trim_end` keeps a prefix with no trailing whitespace, dropping only whitespace |
| RustStr.Trim | src/parser.rs:38 | `trim` leaves no whitespace at either end |
| RustStr.TrimKeepsMiddle | src/parser.rs:38 | `trim` keeps a contiguous middle part, with only whitespace on either side |
| RustStr.TrimOfTrimmed | src/parser.rs:38 | trimming trimmed text changes nothing |
| RustStr.TrimEndEmptyIff | src/formatter.rs:197-198 | `trim_end` is empty exactly when the text is all whitespace |
| RustStr.TrimEndIgnoresTrailingWhitespace | src/formatter.rs:197 | trailing whitespace does not change `trim_end` |
| RustStr.CountLeading | src/parser.rs:55 | `take_while(c == '#').count()` counts exactly the leading run |
| RustStr.TrimStartMatches | src/parser.rs:57 | `trim_start_matches('#')` drops only `#`s and leaves none at the front |
| RustStr.TrimStartMatchesDropsLeadingRun | src/parser.rs:55-57 | `trim_start_matches` drops exactly the run that the level counts |
| RustStr.NatToString | src/formatter.rs:143-144 | a number renders as non-empty digits with no leading zero |
| RustStr.NatToStringValue | src/formatter.rs:143-144 | the rendered digits denote the number |
| RustStr.NatToStringBelow1000 | src/formatter.rs:143 | lines below 1000 fit the three-wide column |
| RustStr.ParseUsize | src/formatter.rs:135 | `parse::<usize>` accepts only an optional `+` and digits, with a value of at most 2^64-1 |
| RustStr.ParseRendered | src/formatter.rs:135 | a rendered `usize` parses back to itself |
| RustStr.Spaces | src/formatter.rs:136 | `n` spaces |
| RustStr.PadRight | src/formatter.rs:143 | `{:<w}` keeps the text and pads it with spaces to at least `w` characters |
| RustStr.Repeat | src/formatter.rs:136 | `repeat(n)` is `n` times as long, starts with the text, and repeats with the text's length as period |
| RustStr.RepeatTwoSpaces | src/formatter.rs:136 | repeating two spaces `n` times gives `2n` spaces |
| RustStr.Join | src/formatter.rs:124 | definition: `join` of the imports with a separator; `RustStr.JoinSnoc` states it |
| RustStr.JoinSnoc | src/formatter.rs:124 | joining one more import adds the separator and that import |
| RustStr.Find | src/formatter.rs:188-189 | `find` returns the first occurrence, and `None` exactly when there is none |
| RustStr.FindFirst | src/formatter.rs:188-189 | an occurrence with none before it is what `find` returns |
| RustStr.LastIndexOfChar | src/languages.rs:16 | the last dot of a file name, or none when there is no dot |
| RustStr.Lines | src/formatter.rs:151 | definition: `lines()`, the pieces ended by a newline, with an unterminated last piece; `RustStr.LineCountByNewlines` states it |
| RustStr.LineCount | src/formatter.rs:151 | definition: `lines().count()`; `RustStr.LineCountByNewlines` and `Formatter.TwoLines` state it |
| RustStr.LineCountByNewlines | src/formatter.rs:151 | `lines().count()` is the number of newlines, plus one for an unterminated last line |
| RustStr.Utf8Length | src/formatter.rs:34 | the UTF-8 byte length is between one and four bytes per character |
| RustStr.AsciiUtf8Length | src/formatter.rs:34 | ASCII text has one byte per character |

## Left out

- Tree-sitter parsing and querying: `get_ts_language` (src/languages.rs:28-38), the query strings
  (src/formatter.rs:63-104) and `extract_imports`. Matches and imports are inputs. Only the
  capture roles `name`, `parent` and `item` and the node kind `atx_heading` are modelled.
- Reading a file (`fs::read_to_string`): the content is an `Option`, where `None` stands for
  the error path, non-UTF-8 text included. The walker (src/walk.rs) and `is_binary` are left out
  too: each walked entry arrives with its flags already set.
- The walker error that `result?` propagates (src/main.rs:44): entries are given as a finished
  sequence.
- Command-line parsing, the `eprintln!` report and `println!`/`fs::write` of the output
  (src/main.rs:61-74). `Scan.Run` returns the output and the token estimate instead.
- `Splicer.TokenDisplay`: the `{:.1}` floating-point figure for 1000 tokens or more is a
  parameter. Floating-point formatting is not modelled.
- Paths are `/`-separated strings. `path.display()` is the identity, non-UTF-8 paths are not
  modelled, and neither are Windows separators or prefixes.
- `Formatter.RepoStats.AddFile`: `file_count` and the `row + 1` line numbers are unbounded
  naturals, so `usize` overflow is not modelled.
- `Formatter.Size`: it wraps modulo 2^64, as a release build does. A debug build would panic
  when `end_line < line`, which tree-sitter spans never give.
- `RustStr.Find`: it returns character indices where Rust returns byte offsets. The code only
  uses the offset to slice the same string, so the resulting strings are the same.
- `Formatter.TwoHeadingsFormatting`: the two heading matches of the Markdown test are built by
  `Formatter.TwoHeadingMatches` (one `item` capture each, on rows 0 and 1), standing in for the
  parser's output.
- `Parser.RustStructThenFunction`: the test's two matches are built by `Parser.StructMatch` and
  `Parser.FunctionMatch`, standing in for the Rust grammar's output. The lemma holds for any row
  the source sits on; the test's row is 0.
- `RustStr.TrimKeepsMiddle`: it takes the start offset of the kept part as a parameter, equal to
  the length that `trim_start` drops.

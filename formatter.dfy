/**
 * The per-file renderer, the repository accumulator and the final map of
 * src/formatter.rs.
 */
module Formatter {
  import opened Wrappers
  import opened RustStr
  import opened Languages
  import opened Parser

  // ---------------------------------------------------------------------------
  // Per-language tables
  // ---------------------------------------------------------------------------

  /** The info string of the fenced code block for each language. */
  function LangTag(lang: Language): string {
    match lang
    case Rust => "rust"
    case Python => "python"
    case Go => "go"
    case Javascript => "javascript"
    case Typescript => "typescript"
    case Tsx => "typescript"
    case Markdown => "markdown"
  }

  /** `get_import_query(lang).is_some()`: the languages that have an import query. */
  predicate HasImportQuery(lang: Language) {
    match lang
    case Rust => true
    case Python => true
    case Go => true
    case Javascript => true
    case Typescript => true
    case Tsx => true
    case Markdown => false
  }

  /** The imports a file is rendered with: the extracted ones, or none without an import query. */
  function ImportsFor(lang: Language, extracted: seq<string>): seq<string> {
    if HasImportQuery(lang) then extracted else []
  }

  /**
   * Markdown files are rendered without imports whatever the extractor finds,
   * the files of every other language with exactly the extracted imports.
   */
  lemma ImportsByLanguage(extracted: seq<string>)
    ensures ImportsFor(Markdown, extracted) == []
    ensures ImportsFor(Rust, extracted) == extracted && ImportsFor(Python, extracted) == extracted
    ensures ImportsFor(Go, extracted) == extracted && ImportsFor(Javascript, extracted) == extracted
    ensures ImportsFor(Typescript, extracted) == extracted && ImportsFor(Tsx, extracted) == extracted
  {
  }

  // ---------------------------------------------------------------------------
  // One symbol row
  // ---------------------------------------------------------------------------

  /**
   * The indentation depth of a bare symbol: for a kind `h<text>` the level is
   * `<text>` read as a `usize` (1 when it does not parse), and the depth is one
   * less, saturating at 0; other kinds are not indented.
   */
  function IndentDepth(kind: string): nat {
    if |kind| > 1 && kind[0] == 'h' then
      var level := ParseUsize(kind[1..]).UnwrapOr(1);
      if level >= 1 then level - 1 else 0
    else
      0
  }

  /** The name column: `parent > name` for a member, otherwise the indented name. */
  function DisplayName(sym: Symbol): string {
    match sym.parent
    case Some(p) => p + " > " + sym.name
    case None => Repeat("  ", IndentDepth(sym.kind)) + sym.name
  }

  const USIZE_MODULUS: nat := USIZE_MAX + 1

  /**
   * Lines the symbol spans, both ends included: `end_line - line + 1` on
   * `usize`, which wraps around (as a release build does) when the span is
   * reversed.
   */
  function Size(sym: Symbol): (n: nat)
    ensures n <= USIZE_MAX
    ensures sym.line <= sym.endLine < USIZE_MAX ==> n == sym.endLine - sym.line + 1
  {
    (sym.endLine - sym.line + 1) % USIZE_MODULUS
  }

  /** `format!("L{: <3} | {: <10} | {: <30} | ({} lines)\n", ...)`. */
  function Row(sym: Symbol): string
  {
    "L" + PadRight(NatToString(sym.line), 3) + " | " + PadRight(sym.kind, 10) + " | "
    + PadRight(DisplayName(sym), 30) + " | (" + NatToString(Size(sym)) + " lines)\n"
  }

  /** The rows of `symbols`, in order. */
  function Rows(symbols: seq<Symbol>): string
    decreases |symbols|
  {
    if symbols == [] then [] else Rows(symbols[..|symbols| - 1]) + Row(symbols[|symbols| - 1])
  }

  lemma RowsStep(symbols: seq<Symbol>, k: nat)
    requires k < |symbols|
    ensures Rows(symbols[..k + 1]) == Rows(symbols[..k]) + Row(symbols[k])
  {
    assert symbols[..k + 1][..k] == symbols[..k];
  }

  /** Appending the next row to the rows so far gives the rows of the longer prefix. */
  lemma AppendRow(header: string, symbols: seq<Symbol>, k: nat, out: string)
    requires k < |symbols|
    requires out == header + Rows(symbols[..k])
    ensures out + Row(symbols[k]) == header + Rows(symbols[..k + 1])
  {
    RowsStep(symbols, k);
    Associate3(header, Rows(symbols[..k]), Row(symbols[k]));
  }

  // ---------------------------------------------------------------------------
  // One file's fragment
  // ---------------------------------------------------------------------------

  function FileHeading(path: string): string {
    "\n## " + path + "\n"
  }

  function ImportsLine(imports: seq<string>): string {
    if imports == [] then [] else "imports: " + Join(imports, ", ") + "\n"
  }

  function CodeBlock(langTag: string, symbols: seq<Symbol>): string
  {
    if symbols == [] then [] else "```" + langTag + "\n" + Rows(symbols) + "```\n"
  }

  /** The Markdown fragment a file contributes to the map. */
  function Fragment(path: string, symbols: seq<Symbol>, imports: seq<string>, langTag: string): string
  {
    if symbols == [] && imports == [] then []
    else FileHeading(path) + ImportsLine(imports) + CodeBlock(langTag, symbols)
  }

  /**
   * The tail of `process_file_with_stats`: the file's content is given as
   * `content`, the query engine's matches for it as `matches`, and what
   * `extract_imports` would return as `extractedImports`. Returns the fragment,
   * the number of symbols and the number of lines of the file.
   */
  method ProcessFileWithStats(path: string, lang: Language, content: string, matches: seq<Match>,
                              extractedImports: seq<string>)
    returns (fileOutput: string, symCount: nat, lineCount: nat)
    ensures fileOutput == Fragment(path, Extracted(matches), ImportsFor(lang, extractedImports), LangTag(lang))
    ensures symCount == |Extracted(matches)|
    ensures lineCount == LineCount(content)
  {
    var langTag := LangTag(lang);
    var symbols := ExtractSymbols(matches);
    var imports := if HasImportQuery(lang) then extractedImports else [];
    fileOutput := RenderFragment(path, symbols, imports, langTag);
    symCount := |symbols|;
    lineCount := LineCount(content);
  }

  /** Appends the heading, the imports line and the code block, as the tail of `process_file_with_stats` does. */
  method RenderFragment(path: string, symbols: seq<Symbol>, imports: seq<string>, langTag: string)
    returns (fileOutput: string)
    ensures fileOutput == Fragment(path, symbols, imports, langTag)
  {
    fileOutput := "";
    if symbols != [] || imports != [] {
      fileOutput := fileOutput + ("\n## " + path + "\n");
      assert fileOutput == FileHeading(path) + [];
      if imports != [] {
        fileOutput := fileOutput + ("imports: " + Join(imports, ", ") + "\n");
      }
      ghost var beforeBlock := fileOutput;
      assert beforeBlock == FileHeading(path) + ImportsLine(imports);
      if symbols != [] {
        var fence := "```" + langTag + "\n";
        fileOutput := fileOutput + fence;
        ghost var header := fileOutput;
        EndsOfPrefixes(symbols);
        for k := 0 to |symbols|
          invariant fileOutput == header + Rows(symbols[..k])
        {
          // the `format!` of one symbol's row, display name included
          var row := Row(symbols[k]);
          AppendRow(header, symbols, k, fileOutput);
          fileOutput := fileOutput + row;
        }
        fileOutput := fileOutput + "```\n";
        Associate4(beforeBlock, fence, Rows(symbols), "```\n");
      }
      assert fileOutput == beforeBlock + CodeBlock(langTag, symbols);
    }
  }

  lemma EndsOfPrefixes(symbols: seq<Symbol>)
    ensures symbols[..0] == [] && symbols[..|symbols|] == symbols
  {
  }

  // ---------------------------------------------------------------------------
  // Properties of the rendering
  // ---------------------------------------------------------------------------

  /** A member is shown as `parent > name`; a bare symbol as its name, indented only for a heading. */
  lemma DisplayNameOfMember(sym: Symbol)
    requires sym.parent.Some?
    ensures DisplayName(sym) == sym.parent.value + " > " + sym.name
  {
  }

  /** A heading kind `h<L>` is indented by two spaces per level below the first. */
  lemma {:induction false} DisplayNameOfHeading(sym: Symbol, level: nat)
    requires sym.parent.None?
    requires 1 <= level <= USIZE_MAX && sym.kind == "h" + NatToString(level)
    ensures DisplayName(sym) == Spaces(2 * (level - 1)) + sym.name
  {
    assert sym.kind[1..] == NatToString(level);
    ParseRendered(level);
    RepeatTwoSpaces(level - 1);
  }

  /** A bare symbol whose kind is not `h` followed by a positive `usize` is not indented. */
  lemma DisplayNameUnindented(sym: Symbol)
    requires sym.parent.None?
    requires |sym.kind| <= 1 || sym.kind[0] != 'h' || ParseUsize(sym.kind[1..]).None?
             || ParseUsize(sym.kind[1..]) == Some(0)
    ensures DisplayName(sym) == sym.name
  {
  }

  /** The heading symbols of the Markdown extractor are indented by their level. */
  lemma HeadingSymbolIndent(raw: string, name: string, line: nat, endLine: nat)
    requires 1 <= HeadingLevel(raw) <= USIZE_MAX
    ensures DisplayName(Symbol(name, None, line, HeadingKind(raw), endLine))
            == Spaces(2 * (HeadingLevel(raw) - 1)) + name
  {
    DisplayNameOfHeading(Symbol(name, None, line, HeadingKind(raw), endLine), HeadingLevel(raw));
  }

  /**
   * With a line number of at most three digits, a kind of at most ten
   * characters and a display name of at most thirty, every row has its
   * columns at the same offsets.
   */
  lemma RowColumns(sym: Symbol)
    requires sym.line < 1000 && |sym.kind| <= 10 && |DisplayName(sym)| <= 30
    ensures |Row(sym)| > 50
    ensures Row(sym)[0] == 'L'
    ensures Row(sym)[1..4] == PadRight(NatToString(sym.line), 3)
    ensures Row(sym)[4..7] == " | " && Row(sym)[17..20] == " | "
    ensures Row(sym)[7..17] == PadRight(sym.kind, 10)
    ensures Row(sym)[20..50] == PadRight(DisplayName(sym), 30)
    ensures Row(sym)[50..] == " | (" + NatToString(Size(sym)) + " lines)\n"
  {
    NatToStringBelow1000(sym.line);
    Columns(Row(sym), PadRight(NatToString(sym.line), 3), PadRight(sym.kind, 10), PadRight(DisplayName(sym), 30),
            " | (" + NatToString(Size(sym)) + " lines)\n");
  }

  /** The offsets of a row's columns once the three padded cells have their widths. */
  lemma Columns(row: string, lineCell: string, kindCell: string, nameCell: string, tail: string)
    requires |lineCell| == 3 && |kindCell| == 10 && |nameCell| == 30
    requires row == "L" + lineCell + " | " + kindCell + " | " + nameCell + tail
    ensures |row| == 50 + |tail| && row[0] == 'L' && row[1..4] == lineCell
    ensures row[4..7] == " | " && row[7..17] == kindCell && row[17..20] == " | "
    ensures row[20..50] == nameCell && row[50..] == tail
  {
    var a := "L" + lineCell;
    var b := a + " | " + kindCell;
    var c := b + " | " + nameCell;
    assert row == c + tail;
    assert row[..50] == c;
    assert c[..17] == b && b[..4] == a;
  }

  /** A symbol whose texts hold no line break renders as exactly one line. */
  lemma RowIsOneLine(sym: Symbol)
    requires NoNewline(sym.name) && NoNewline(sym.kind)
    requires sym.parent.Some? ==> NoNewline(sym.parent.value)
    ensures CountChar(Row(sym), '\n') == 1
    ensures Row(sym)[|Row(sym)| - 1] == '\n'
  {
    NoNewlineDisplayName(sym);
    NoNewlinePadRight(NatToString(sym.line), 3);
    NoNewlinePadRight(sym.kind, 10);
    NoNewlinePadRight(DisplayName(sym), 30);
    var body := "L" + PadRight(NatToString(sym.line), 3) + " | " + PadRight(sym.kind, 10) + " | "
                + PadRight(DisplayName(sym), 30) + " | (" + NatToString(Size(sym)) + " lines)";
    NoNewlineConcat("L", PadRight(NatToString(sym.line), 3));
    NoNewlineConcat("L" + PadRight(NatToString(sym.line), 3), " | ");
    NoNewlineConcat("L" + PadRight(NatToString(sym.line), 3) + " | ", PadRight(sym.kind, 10));
    NoNewlineConcat("L" + PadRight(NatToString(sym.line), 3) + " | " + PadRight(sym.kind, 10), " | ");
    NoNewlineConcat("L" + PadRight(NatToString(sym.line), 3) + " | " + PadRight(sym.kind, 10) + " | ",
                    PadRight(DisplayName(sym), 30));
    NoNewlineConcat("L" + PadRight(NatToString(sym.line), 3) + " | " + PadRight(sym.kind, 10) + " | "
                    + PadRight(DisplayName(sym), 30), " | (");
    NoNewlineConcat("L" + PadRight(NatToString(sym.line), 3) + " | " + PadRight(sym.kind, 10) + " | "
                    + PadRight(DisplayName(sym), 30) + " | (", NatToString(Size(sym)));
    NoNewlineConcat("L" + PadRight(NatToString(sym.line), 3) + " | " + PadRight(sym.kind, 10) + " | "
                    + PadRight(DisplayName(sym), 30) + " | (" + NatToString(Size(sym)), " lines)");
    assert Row(sym) == body + "\n";
    NoNewlineCount(body, '\n');
    CountCharConcat(body, "\n", '\n');
  }

  lemma NoNewlinePadRight(s: string, w: nat)
    requires NoNewline(s)
    ensures NoNewline(PadRight(s, w))
  {
  }

  lemma NoNewlineDisplayName(sym: Symbol)
    requires NoNewline(sym.name)
    requires sym.parent.Some? ==> NoNewline(sym.parent.value)
    ensures NoNewline(DisplayName(sym))
  {
    match sym.parent
    case Some(p) =>
      NoNewlineConcat(p, " > ");
      NoNewlineConcat(p + " > ", sym.name);
    case None =>
      RepeatTwoSpaces(IndentDepth(sym.kind));
      NoNewlineConcat(Repeat("  ", IndentDepth(sym.kind)), sym.name);
  }

  /** The rows of a concatenation are the rows of its parts, in order. */
  lemma {:induction false} RowsConcat(a: seq<Symbol>, b: seq<Symbol>)
    ensures Rows(a + b) == Rows(a) + Rows(b)
    decreases |b|
  {
    if b == [] {
      assert a + b == a;
    } else {
      var b', x := b[..|b| - 1], b[|b| - 1];
      assert (a + b)[..|a + b| - 1] == a + b';
      assert (a + b)[|a + b| - 1] == x;
      assert Rows(a + b) == Rows(a + b') + Row(x);
      assert Rows(b) == Rows(b') + Row(x);
      RowsConcat(a, b');
      Associate3(Rows(a), Rows(b'), Row(x));
    }
  }

  /** One line per symbol, when no symbol text holds a line break. */
  lemma {:induction false} RowsLineCount(symbols: seq<Symbol>)
    requires forall i :: 0 <= i < |symbols| ==> NoNewline(symbols[i].name) && NoNewline(symbols[i].kind)
    requires forall i :: 0 <= i < |symbols| && symbols[i].parent.Some? ==> NoNewline(symbols[i].parent.value)
    ensures CountChar(Rows(symbols), '\n') == |symbols|
    ensures LineCount(Rows(symbols)) == |symbols|
    decreases |symbols|
  {
    if symbols != [] {
      var last := symbols[|symbols| - 1];
      RowsLineCount(symbols[..|symbols| - 1]);
      RowIsOneLine(last);
      CountCharConcat(Rows(symbols[..|symbols| - 1]), Row(last), '\n');
    }
    LineCountByNewlines(Rows(symbols));
  }

  /** A file contributes nothing exactly when it has neither symbols nor imports. */
  lemma FragmentEmptyIff(path: string, symbols: seq<Symbol>, imports: seq<string>, langTag: string)
    ensures Fragment(path, symbols, imports, langTag) == [] <==> symbols == [] && imports == []
  {
    if symbols != [] || imports != [] {
      assert |FileHeading(path)| > 0;
    }
  }

  /**
   * A non-empty fragment starts with the file's heading, then the imports line
   * exactly when there are imports, and ends with the fenced rows exactly when
   * there are symbols.
   */
  lemma FragmentLayout(path: string, symbols: seq<Symbol>, imports: seq<string>, langTag: string)
    requires symbols != [] || imports != []
    ensures var f := Fragment(path, symbols, imports, langTag);
            && f[..|FileHeading(path)|] == FileHeading(path)
            && (imports != [] ==> OccursAt(f, "imports: " + Join(imports, ", ") + "\n", |FileHeading(path)|))
            && (imports == [] ==> f[|FileHeading(path)|..] == CodeBlock(langTag, symbols))
            && (symbols != [] ==> f[|f| - |CodeBlock(langTag, symbols)|..] == CodeBlock(langTag, symbols))
            && (symbols == [] ==> f[|FileHeading(path)|..] == ImportsLine(imports))
  {
    var il := ImportsLine(imports);
    var cb := CodeBlock(langTag, symbols);
    ThreeParts(FileHeading(path), il, cb);
    assert il + [] == il && [] + cb == cb;
  }

  lemma ThreeParts(h: string, il: string, cb: string)
    ensures var f := h + il + cb;
            && f[..|h|] == h && f[|h|..] == il + cb
            && f[|h|..|h| + |il|] == il && f[|f| - |cb|..] == cb
  {
    var f := h + il + cb;
    assert f == h + (il + cb);
    assert f[|h|..] == il + cb;
    assert (il + cb)[..|il|] == il;
  }

  lemma LiteralLineBreaks()
    ensures CountChar("\n", '\n') == 1 && CountChar("\n## ", '\n') == 1
    ensures CountChar("imports: ", '\n') == 0 && CountChar("```", '\n') == 0 && CountChar("```\n", '\n') == 1
  {
    assert "\n"[..0] == [];
    NoNewlineCount("## ", '\n');
    CountCharConcat("\n", "## ", '\n');
    assert "\n" + "## " == "\n## ";
    NoNewlineCount("imports: ", '\n');
    NoNewlineCount("```", '\n');
    CountCharConcat("```", "\n", '\n');
    assert "```" + "\n" == "```\n";
  }

  lemma HeadingLineBreaks(path: string)
    requires NoNewline(path)
    ensures CountChar(FileHeading(path), '\n') == 2
  {
    NoNewlineCount(path, '\n');
    LiteralLineBreaks();
    CountCharConcat("\n## ", path, '\n');
    CountCharConcat("\n## " + path, "\n", '\n');
  }

  lemma ImportsLineBreaks(imports: seq<string>)
    requires NoNewline(Join(imports, ", "))
    ensures CountChar(ImportsLine(imports), '\n') == if imports != [] then 1 else 0
  {
    if imports != [] {
      LiteralLineBreaks();
      NoNewlineCount(Join(imports, ", "), '\n');
      CountCharConcat("imports: ", Join(imports, ", "), '\n');
      CountCharConcat("imports: " + Join(imports, ", "), "\n", '\n');
    }
  }

  lemma CodeBlockLineBreaks(langTag: string, symbols: seq<Symbol>)
    requires NoNewline(langTag)
    requires forall i :: 0 <= i < |symbols| ==> NoNewline(symbols[i].name) && NoNewline(symbols[i].kind)
    requires forall i :: 0 <= i < |symbols| && symbols[i].parent.Some? ==> NoNewline(symbols[i].parent.value)
    ensures CountChar(CodeBlock(langTag, symbols), '\n') == if symbols != [] then |symbols| + 2 else 0
  {
    if symbols != [] {
      RowsLineCount(symbols);
      FenceLineBreaks(langTag, Rows(symbols));
    }
  }

  /** A fenced block adds two line breaks to those of its rows. */
  lemma FenceLineBreaks(langTag: string, rows: string)
    requires NoNewline(langTag)
    ensures CountChar("```" + langTag + "\n" + rows + "```\n", '\n') == CountChar(rows, '\n') + 2
  {
    LiteralLineBreaks();
    NoNewlineCount(langTag, '\n');
    CountCharConcat("```", langTag, '\n');
    CountCharConcat("```" + langTag, "\n", '\n');
    CountCharConcat("```" + langTag + "\n", rows, '\n');
    CountCharConcat("```" + langTag + "\n" + rows, "```\n", '\n');
  }

  /** The fragment's line breaks in terms of its parts, when no text holds one of its own. */
  lemma FragmentLineBreaks(path: string, symbols: seq<Symbol>, imports: seq<string>, langTag: string)
    requires NoNewline(path) && NoNewline(langTag) && NoNewline(Join(imports, ", "))
    requires forall i :: 0 <= i < |symbols| ==> NoNewline(symbols[i].name) && NoNewline(symbols[i].kind)
    requires forall i :: 0 <= i < |symbols| && symbols[i].parent.Some? ==> NoNewline(symbols[i].parent.value)
    ensures CountChar(Fragment(path, symbols, imports, langTag), '\n')
            == if symbols == [] && imports == [] then 0
               else 2 + (if imports != [] then 1 else 0) + (if symbols != [] then |symbols| + 2 else 0)
  {
    if symbols != [] || imports != [] {
      HeadingLineBreaks(path);
      ImportsLineBreaks(imports);
      CodeBlockLineBreaks(langTag, symbols);
      CountCharConcat(FileHeading(path), ImportsLine(imports), '\n');
      CountCharConcat(FileHeading(path) + ImportsLine(imports), CodeBlock(langTag, symbols), '\n');
    }
  }

  /**
   * Every row shows the padded kind column, the separator, then the display
   * name, right after the line column; with a line of at most three digits
   * that is offset 7. Neither the kind nor the name needs to fit its width.
   */
  lemma RowShowsKindAndName(sym: Symbol)
    ensures OccursAt(Row(sym), PadRight(sym.kind, 10) + " | " + DisplayName(sym),
                     4 + |PadRight(NatToString(sym.line), 3)|)
    ensures sym.line < 1000 ==> 4 + |PadRight(NatToString(sym.line), 3)| == 7
  {
    if sym.line < 1000 {
      NatToStringBelow1000(sym.line);
    }
    CellsAt(Row(sym), PadRight(NatToString(sym.line), 3), PadRight(sym.kind, 10), DisplayName(sym),
            PadRight(DisplayName(sym), 30), " | (" + NatToString(Size(sym)) + " lines)\n");
  }

  /** A name cell that starts with `dn` puts `kindCell | dn` right after the line column. */
  lemma CellsAt(row: string, lineCell: string, kindCell: string, dn: string, nameCell: string, tail: string)
    requires |dn| <= |nameCell| && nameCell[..|dn|] == dn
    requires row == "L" + lineCell + " | " + kindCell + " | " + nameCell + tail
    ensures OccursAt(row, kindCell + " | " + dn, 4 + |lineCell|)
  {
    var p, x, q := "L" + lineCell + " | ", kindCell + " | " + dn, nameCell[|dn|..] + tail;
    assert nameCell == dn + nameCell[|dn|..];
    assert row == p + x + q;
    OccursInMiddle(p, x, q);
  }

  /**
   * Every symbol's row appears in the fragment between the rows of the
   * symbols before it and the rows of the symbols after it.
   */
  lemma RowInFragment(path: string, symbols: seq<Symbol>, imports: seq<string>, langTag: string, i: nat)
    requires i < |symbols|
    ensures Fragment(path, symbols, imports, langTag)
            == (FileHeading(path) + ImportsLine(imports) + ("```" + langTag + "\n") + Rows(symbols[..i]))
               + Row(symbols[i]) + (Rows(symbols[i + 1..]) + "```\n")
  {
    var pre, x, post := symbols[..i], symbols[i], symbols[i + 1..];
    RowsAround(symbols, i);
    Regroup(FileHeading(path) + ImportsLine(imports), "```" + langTag + "\n", Rows(pre), Row(x), Rows(post), "```\n");
  }

  /** The rows of `symbols` around the row of symbol `i`. */
  lemma RowsAround(symbols: seq<Symbol>, i: nat)
    requires i < |symbols|
    ensures Rows(symbols) == Rows(symbols[..i]) + Row(symbols[i]) + Rows(symbols[i + 1..])
  {
    SplitAround(symbols, i);
    RowsOfThree(symbols[..i], symbols[i], symbols[i + 1..]);
  }

  lemma SplitAround(symbols: seq<Symbol>, i: nat)
    requires i < |symbols|
    ensures symbols == symbols[..i] + [symbols[i]] + symbols[i + 1..]
  {
  }

  lemma RowsOfThree(pre: seq<Symbol>, x: Symbol, post: seq<Symbol>)
    ensures Rows(pre + [x] + post) == Rows(pre) + Row(x) + Rows(post)
  {
    RowsConcat(pre + [x], post);
    RowsConcat(pre, [x]);
    RowsSingle(x);
  }

  lemma RowsSingle(x: Symbol)
    ensures Rows([x]) == Row(x)
  {
    assert [x][..0] == [];
  }

  lemma Regroup(a: string, b: string, c: string, d: string, e: string, f: string)
    ensures a + (b + (c + d + e) + f) == (a + b + c) + d + (e + f)
  {
  }

  // ---------------------------------------------------------------------------
  // The repository's Markdown test: `# Header 1\n## Header 2\n`
  // ---------------------------------------------------------------------------

  /** A title as it can follow the `#` run of a heading: non-empty, trimmed, on one line. */
  predicate IsTitle(t: string) {
    t != [] && !IsWhitespace(t[0]) && !IsWhitespace(t[|t| - 1]) && NoNewline(t)
  }

  /** A file of a level-one heading `t1` followed by a level-two heading `t2`. */
  function TwoHeadings(t1: string, t2: string): string {
    "# " + t1 + "\n" + "## " + t2 + "\n"
  }

  /** The matches of `(atx_heading) @item` on `TwoHeadings(t1, t2)`: one heading node per line. */
  function TwoHeadingMatches(t1: string, t2: string): seq<Match> {
    [[Capture(ItemRole, Some("# " + t1), HEADING_NODE, 0, 0)], [Capture(ItemRole, Some("## " + t2), HEADING_NODE, 1, 1)]]
  }

  lemma HeadingKinds()
    ensures "h" + NatToString(1) == "h1" && "h" + NatToString(2) == "h2"
  {
  }

  lemma HeadingTitle1(t: string)
    requires IsTitle(t)
    ensures HeadingLevel("# " + t) == 1 && HeadingName("# " + t) == t
  {
    assert "# " + t == "#" + " " + t;
    HeadingParts("#", t);
  }

  lemma HeadingTitle2(t: string)
    requires IsTitle(t)
    ensures HeadingLevel("## " + t) == 2 && HeadingName("## " + t) == t
  {
    assert "## " + t == "##" + " " + t;
    HeadingParts("##", t);
  }

  lemma TwoHeadingsFold(t1: string, t2: string)
    requires IsTitle(t1) && IsTitle(t2)
    ensures FoldCaptures(TwoHeadingMatches(t1, t2)[0]) == Draft(t1, None, "h1", 1, 1)
    ensures FoldCaptures(TwoHeadingMatches(t1, t2)[1]) == Draft(t2, None, "h2", 2, 2)
  {
    var ms := TwoHeadingMatches(t1, t2);
    var c1, c2 := ms[0][0], ms[1][0];
    assert ms[0] == [c1] && ms[1] == [c2];
    HeadingTitle1(t1);
    HeadingTitle2(t2);
    SingleHeading(c1);
    SingleHeading(c2);
    HeadingKinds();
  }

  lemma TwoHeadingSymbols(t1: string, t2: string)
    requires IsTitle(t1) && IsTitle(t2)
    ensures Extracted(TwoHeadingMatches(t1, t2)) == [Symbol(t1, None, 1, "h1", 1), Symbol(t2, None, 2, "h2", 2)]
  {
    TwoHeadingsFold(t1, t2);
    var ms := TwoHeadingMatches(t1, t2);
    var m1, m2 := ms[0], ms[1];
    assert ms == [m1, m2];
    BothKept(m1, m2);
  }

  /** Two lines, each ended by a line break, count as two lines. */
  lemma TwoLines(a: string, b: string)
    requires NoNewline(a) && NoNewline(b)
    ensures LineCount(a + "\n" + b + "\n") == 2
  {
    LiteralLineBreaks();
    NoNewlineCount(a, '\n');
    NoNewlineCount(b, '\n');
    CountCharConcat(a, "\n", '\n');
    CountCharConcat(a + "\n", b, '\n');
    CountCharConcat(a + "\n" + b, "\n", '\n');
    LineCountByNewlines(a + "\n" + b + "\n");
  }

  lemma TwoHeadingsLines(t1: string, t2: string)
    requires NoNewline(t1) && NoNewline(t2)
    ensures LineCount(TwoHeadings(t1, t2)) == 2
  {
    NoNewlineConcat("# ", t1);
    NoNewlineConcat("## ", t2);
    assert TwoHeadings(t1, t2) == ("# " + t1) + "\n" + ("## " + t2) + "\n";
    TwoLines("# " + t1, "## " + t2);
  }

  /** The text `kind | name` of every symbol's row appears in the fragment. */
  lemma KindAndNameInFragment(path: string, symbols: seq<Symbol>, imports: seq<string>, langTag: string, i: nat)
    requires i < |symbols|
    ensures Contains(Fragment(path, symbols, imports, langTag),
                     PadRight(symbols[i].kind, 10) + " | " + DisplayName(symbols[i]))
  {
    var x := symbols[i];
    var a := FileHeading(path) + ImportsLine(imports) + ("```" + langTag + "\n") + Rows(symbols[..i]);
    RowInFragment(path, symbols, imports, langTag, i);
    OccursInMiddle(a, Row(x), Rows(symbols[i + 1..]) + "```\n");
    RowShowsKindAndName(x);
    OccursWithin(Fragment(path, symbols, imports, langTag), Row(x), PadRight(x.kind, 10) + " | " + DisplayName(x),
                 |a|, 4 + |PadRight(NatToString(x.line), 3)|);
  }

  lemma PaddedHeadingKinds()
    ensures PadRight("h1", 10) + " | " == "h1         | "
    ensures PadRight("h2", 10) + " | " + Spaces(2) == "h2         |   "
  {
    assert PadRight("h1", 10) == "h1" + Spaces(8);
    assert PadRight("h2", 10) == "h2" + Spaces(8);
  }

  /**
   * The repository's Markdown test, for any two titles: two symbols, two
   * lines, the first heading unindented and the second indented by two spaces.
   */
  lemma TwoHeadingsFormatting(path: string, t1: string, t2: string, extractedImports: seq<string>)
    requires IsTitle(t1) && IsTitle(t2)
    ensures |Extracted(TwoHeadingMatches(t1, t2))| == 2
    ensures LineCount(TwoHeadings(t1, t2)) == 2
    ensures Contains(Fragment(path, Extracted(TwoHeadingMatches(t1, t2)), ImportsFor(Markdown, extractedImports),
                              LangTag(Markdown)), "h1         | " + t1)
    ensures Contains(Fragment(path, Extracted(TwoHeadingMatches(t1, t2)), ImportsFor(Markdown, extractedImports),
                              LangTag(Markdown)), "h2         |   " + t2)
  {
    TwoHeadingSymbols(t1, t2);
    TwoHeadingsLines(t1, t2);
    MarkdownRendering(extractedImports);
    TwoHeadingRows(path, t1, t2);
  }

  /** A Markdown file is rendered without imports under the `markdown` tag. */
  lemma MarkdownRendering(extractedImports: seq<string>)
    ensures ImportsFor(Markdown, extractedImports) == [] && LangTag(Markdown) == "markdown"
  {
  }

  /** The fragment of the two heading symbols shows each with its kind and indentation. */
  lemma TwoHeadingRows(path: string, t1: string, t2: string)
    ensures Contains(Fragment(path, [Symbol(t1, None, 1, "h1", 1), Symbol(t2, None, 2, "h2", 2)], [], "markdown"),
                     "h1         | " + t1)
    ensures Contains(Fragment(path, [Symbol(t1, None, 1, "h1", 1), Symbol(t2, None, 2, "h2", 2)], [], "markdown"),
                     "h2         |   " + t2)
  {
    var symbols := [Symbol(t1, None, 1, "h1", 1), Symbol(t2, None, 2, "h2", 2)];
    FirstHeadingCells(symbols[0], t1);
    SecondHeadingCells(symbols[1], t2);
    KindAndNameInFragment(path, symbols, [], "markdown", 0);
    KindAndNameInFragment(path, symbols, [], "markdown", 1);
  }

  lemma FirstHeadingCells(s1: Symbol, t1: string)
    requires s1 == Symbol(t1, None, 1, "h1", 1)
    ensures PadRight(s1.kind, 10) + " | " + DisplayName(s1) == "h1         | " + t1
  {
    HeadingKinds();
    DisplayNameOfHeading(s1, 1);
    assert Spaces(0) + t1 == t1;
    PaddedHeadingKinds();
  }

  lemma SecondHeadingCells(s2: Symbol, t2: string)
    requires s2 == Symbol(t2, None, 2, "h2", 2)
    ensures PadRight(s2.kind, 10) + " | " + DisplayName(s2) == "h2         |   " + t2
  {
    HeadingKinds();
    DisplayNameOfHeading(s2, 2);
    PaddedHeadingKinds();
    Associate3(PadRight("h2", 10), " | ", Spaces(2) + t2);
    Associate3(PadRight("h2", 10) + " | ", Spaces(2), t2);
  }

  lemma TestTitles()
    ensures IsTitle("Header 1") && IsTitle("Header 2")
    ensures "h1         | " + "Header 1" == "h1         | Header 1"
    ensures "h2         |   " + "Header 2" == "h2         |   Header 2"
    ensures TwoHeadings("Header 1", "Header 2") == "# Header 1\n## Header 2\n"
  {
  }

  /** The test's own file: `# Header 1` then `## Header 2`. */
  lemma MarkdownFormatting(path: string, extractedImports: seq<string>)
    ensures TwoHeadings("Header 1", "Header 2") == "# Header 1\n## Header 2\n"
    ensures |Extracted(TwoHeadingMatches("Header 1", "Header 2"))| == 2
    ensures LineCount(TwoHeadings("Header 1", "Header 2")) == 2
    ensures var f := Fragment(path, Extracted(TwoHeadingMatches("Header 1", "Header 2")),
                              ImportsFor(Markdown, extractedImports), LangTag(Markdown));
            Contains(f, "h1         | Header 1") && Contains(f, "h2         |   Header 2")
  {
    TestTitles();
    TwoHeadingsFormatting(path, "Header 1", "Header 2", extractedImports);
  }

  // ---------------------------------------------------------------------------
  // The repository accumulator and the final map
  // ---------------------------------------------------------------------------

  /** `format!("| `{}` | {} | {} |\n", path, sym_count, line_count)`. */
  function SummaryRow(path: string, symCount: nat, lineCount: nat): string {
    "| `" + path + "` | " + NatToString(symCount) + " | " + NatToString(lineCount) + " |\n"
  }

  /** The map, the summary rows and the number of files registered so far. */
  class RepoStats {
    var mapContent: string
    var tableRows: string
    var fileCount: nat

    constructor ()
      ensures mapContent == [] && tableRows == [] && fileCount == 0
    {
      mapContent := [];
      tableRows := [];
      fileCount := 0;
    }

    /** Registers one file: its fragment, its summary row, and one more file. */
    method AddFile(path: string, fileMap: string, symCount: nat, lineCount: nat)
      modifies this
      ensures mapContent == old(mapContent) + fileMap
      ensures tableRows == old(tableRows) + SummaryRow(path, symCount, lineCount)
      ensures fileCount == old(fileCount) + 1
    {
      mapContent := mapContent + fileMap;
      tableRows := tableRows + ("| `" + path + "` | " + NatToString(symCount) + " | " + NatToString(lineCount) + " |\n");
      fileCount := fileCount + 1;
    }

    /** A quarter of the output's length in UTF-8 bytes, rounded down. */
    function EstimateTokens(finalOutput: string): (n: nat)
      ensures 4 * n <= Utf8Length(finalOutput) < 4 * n + 4
    {
      Utf8Length(finalOutput) / 4
    }
  }

  /** The token estimate never exceeds the number of characters of the output. */
  lemma EstimateAtMostChars(stats: RepoStats, s: string)
    ensures stats.EstimateTokens(s) <= |s|
  {
  }

  /** The repository's test: 400 ASCII characters are 100 tokens. */
  lemma FourHundredAsciiChars(stats: RepoStats)
    ensures stats.EstimateTokens(seq(400, _ => 'a')) == 100
  {
    var s := seq(400, _ => 'a');
    assert IsAscii(s);
    AsciiUtf8Length(s);
  }

  /** The repository's test: the summary row of `src/main.rs` with 5 symbols and 100 lines. */
  lemma MainRsSummaryRow()
    ensures SummaryRow("src/main.rs", 5, 100) == "| `src/main.rs` | 5 | 100 |\n"
  {
    TestNumerals();
  }

  lemma TestNumerals()
    ensures NatToString(5) == "5" && NatToString(100) == "100"
  {
    assert NatToString(10) == "10";
  }

  /** The repository's aggregation test: one file registered on a fresh accumulator. */
  method AggregationExample() returns (stats: RepoStats)
    ensures stats.fileCount == 1
    ensures stats.tableRows == "| `src/main.rs` | 5 | 100 |\n"
    ensures stats.mapContent == "Dummy content"
  {
    stats := new RepoStats();
    stats.AddFile("src/main.rs", "Dummy content", 5, 100);
    MainRsSummaryRow();
  }

  function MapHeader(root: string, fileCount: nat): string {
    "# Repository Map\n**Root:** `" + root + "`\n**Files:** " + NatToString(fileCount) + "\n\n"
  }

  const SUMMARY_HEAD := "## Summary\n| File | Symbols | Lines |\n| :--- | :--- | :--- |\n"

  /** The summary table, or only the rule when the summary is off. */
  function SummarySection(tableRows: string, showSummary: bool): string {
    if showSummary then SUMMARY_HEAD + tableRows + "\n---\n" else "---\n"
  }

  /** The whole map `assemble_final_map` returns. */
  function FinalMap(root: string, fileCount: nat, tableRows: string, mapContent: string, showSummary: bool): string {
    MapHeader(root, fileCount) + SummarySection(tableRows, showSummary) + mapContent
  }

  /** `assemble_final_map`: reads the accumulator and changes nothing. */
  method AssembleFinalMap(root: string, stats: RepoStats, showSummary: bool) returns (output: string)
    ensures output == FinalMap(root, stats.fileCount, stats.tableRows, stats.mapContent, showSummary)
  {
    output := "# Repository Map\n**Root:** `" + root + "`\n**Files:** " + NatToString(stats.fileCount) + "\n\n";
    ghost var header := output;
    if showSummary {
      output := output + SUMMARY_HEAD;
      output := output + stats.tableRows;
      output := output + "\n---\n";
      Associate4(header, SUMMARY_HEAD, stats.tableRows, "\n---\n");
    } else {
      output := output + "---\n";
    }
    output := output + stats.mapContent;
  }

  /**
   * The map starts with the header naming the root and the file count, ends
   * with the files' fragments, and has the summary table between them exactly
   * when it is asked for.
   */
  lemma FinalMapLayout(root: string, fileCount: nat, tableRows: string, mapContent: string, showSummary: bool)
    ensures var m := FinalMap(root, fileCount, tableRows, mapContent, showSummary);
            var h := MapHeader(root, fileCount);
            && m[..|h|] == h
            && m[|m| - |mapContent|..] == mapContent
            && (showSummary ==> m[|h|..|h| + |SUMMARY_HEAD| + |tableRows|] == SUMMARY_HEAD + tableRows)
            && (showSummary ==> m[|h| + |SUMMARY_HEAD| + |tableRows|..|m| - |mapContent|] == "\n---\n")
            && (!showSummary ==> m[|h|..|m| - |mapContent|] == "---\n")
  {
    var m := FinalMap(root, fileCount, tableRows, mapContent, showSummary);
    var h, sec := MapHeader(root, fileCount), SummarySection(tableRows, showSummary);
    assert m == h + sec + mapContent;
    assert m[..|h|] == h;
    assert m[|m| - |mapContent|..] == mapContent;
    if showSummary {
      assert sec == (SUMMARY_HEAD + tableRows) + "\n---\n";
      assert m[|h|..|h| + |SUMMARY_HEAD| + |tableRows|] == sec[..|SUMMARY_HEAD| + |tableRows|];
      assert m[|h| + |SUMMARY_HEAD| + |tableRows|..|m| - |mapContent|] == sec[|SUMMARY_HEAD| + |tableRows|..];
    } else {
      assert m[|h|..|m| - |mapContent|] == sec;
    }
  }

  /** The header shows the file count, and reading it back gives the count. */
  lemma HeaderShowsFileCount(root: string, fileCount: nat)
    requires fileCount <= USIZE_MAX
    ensures var h := MapHeader(root, fileCount);
            var at := |"# Repository Map\n**Root:** `" + root + "`\n**Files:** "|;
            ParseUsize(h[at..|h| - 2]) == Some(fileCount)
  {
    ParseRendered(fileCount);
    var pre := "# Repository Map\n**Root:** `" + root + "`\n**Files:** ";
    var h := MapHeader(root, fileCount);
    assert h == pre + NatToString(fileCount) + "\n\n";
    assert h[|pre|..|h| - 2] == NatToString(fileCount);
  }
}

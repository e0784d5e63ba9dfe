/**
 * Embedding the finished map in an assistant context document (a
 * `CLAUDE.md`): the marker-delimited block the tool writes, and the rule that
 * either replaces an earlier block or appends the new one.
 */
module Splicer {
  import opened Wrappers
  import opened RustStr

  const REPOMAP_START: string := "<!-- REPOMAP START -->"
  const REPOMAP_END: string := "<!-- REPOMAP END -->"

  // The literal stretches of the block's `format!` string, in order.
  const SECTION_HEADING: string := "\n## Repository Structure\n\n"
  const DETAILS_OPEN: string := "<details>\n"
  const SUMMARY_LABEL: string := "<summary>Repository map "
  const SUMMARY_OPEN: string := SECTION_HEADING + DETAILS_OPEN + SUMMARY_LABEL
  const SUMMARY_CLOSE: string := "</summary>\n\n"
  const DETAILS_CLOSE: string := "\n</details>\n"

  // ---------------------------------------------------------------------------
  // The block (`wrap_for_claude_md`)
  // ---------------------------------------------------------------------------

  /**
   * The token figure of the summary line: `~N tokens` below 1000, otherwise
   * `~Xk tokens` where `X` is `N / 1000` printed as a float with one decimal.
   * That float rendering is not modelled: the caller supplies it as `kilo`.
   * Below 1000 the figure reads back as the estimate itself.
   */
  function TokenDisplay(tokenEstimate: nat, kilo: string): (r: string)
    ensures |r| >= 8 && r[0] == '~' && r[|r| - 7..] == " tokens"
    ensures tokenEstimate < 1000 ==> ParseUsize(r[1..|r| - 7]) == Some(tokenEstimate)
    ensures tokenEstimate >= 1000 ==> |r| == |kilo| + 9 && r[1..|r| - 8] == kilo && r[|r| - 8] == 'k'
  {
    if tokenEstimate >= 1000 then
      "~" + kilo + "k tokens"
    else
      var digits := NatToString(tokenEstimate);
      ParseRendered(tokenEstimate);
      assert ("~" + digits + " tokens")[1..|digits| + 1] == digits;
      "~" + digits + " tokens"
  }

  /** The parenthesised counts of the summary line. */
  function SummaryFigure(fileCount: nat, display: string): string {
    "(" + NatToString(fileCount) + " files, " + display + ")"
  }

  /** Everything of the block between the two markers. */
  function WrapInterior(content: string, fileCount: nat, display: string): string {
    SUMMARY_OPEN + SummaryFigure(fileCount, display) + SUMMARY_CLOSE + content + DETAILS_CLOSE
  }

  /**
   * `wrap_for_claude_md`: the map inside a collapsible section, between the
   * start and end markers, followed by one newline.
   */
  function WrapForClaudeMd(content: string, fileCount: nat, tokenEstimate: nat, kilo: string): (r: string)
    ensures OccursAt(r, REPOMAP_START, 0)
    ensures |r| > |REPOMAP_END| && OccursAt(r, REPOMAP_END, |r| - |REPOMAP_END| - 1) && r[|r| - 1] == '\n'
  {
    var interior := WrapInterior(content, fileCount, TokenDisplay(tokenEstimate, kilo));
    StartsWith(REPOMAP_START, interior);
    OccursExtend(REPOMAP_START + interior, REPOMAP_END, REPOMAP_START, 0);
    OccursExtend(REPOMAP_START + interior + REPOMAP_END, "\n", REPOMAP_START, 0);
    OccursInMiddle(REPOMAP_START + interior, REPOMAP_END, "\n");
    REPOMAP_START + interior + REPOMAP_END + "\n"
  }

  /** An occurrence inside the interior is one inside the whole block. */
  lemma InBlock(content: string, fileCount: nat, tokenEstimate: nat, kilo: string, q: string, j: nat)
    requires OccursAt(WrapInterior(content, fileCount, TokenDisplay(tokenEstimate, kilo)), q, j)
    ensures OccursAt(WrapForClaudeMd(content, fileCount, tokenEstimate, kilo), q, |REPOMAP_START| + j)
  {
    var interior := WrapInterior(content, fileCount, TokenDisplay(tokenEstimate, kilo));
    OccursShift(REPOMAP_START, interior, q, j);
    OccursExtend(REPOMAP_START + interior, REPOMAP_END, q, |REPOMAP_START| + j);
    OccursExtend(REPOMAP_START + interior + REPOMAP_END, "\n", q, |REPOMAP_START| + j);
  }

  /** The block shows the map verbatim. */
  lemma WrapShowsContent(content: string, fileCount: nat, tokenEstimate: nat, kilo: string)
    ensures Contains(WrapForClaudeMd(content, fileCount, tokenEstimate, kilo), content)
  {
    var head := SUMMARY_OPEN + SummaryFigure(fileCount, TokenDisplay(tokenEstimate, kilo)) + SUMMARY_CLOSE;
    OccursAtEnd(head, content);
    OccursExtend(head + content, DETAILS_CLOSE, content, |head|);
    InBlock(content, fileCount, tokenEstimate, kilo, content, |head|);
  }

  /**
   * The summary line shows the file count and the token figure, which below
   * 1000 is `~N tokens`.
   */
  lemma WrapShowsCounts(content: string, fileCount: nat, tokenEstimate: nat, kilo: string)
    ensures Contains(WrapForClaudeMd(content, fileCount, tokenEstimate, kilo),
                     "(" + NatToString(fileCount) + " files, " + TokenDisplay(tokenEstimate, kilo) + ")")
    ensures tokenEstimate < 1000 ==>
              Contains(WrapForClaudeMd(content, fileCount, tokenEstimate, kilo),
                       "(" + NatToString(fileCount) + " files, " + "~" + NatToString(tokenEstimate) + " tokens" + ")")
  {
    var display := TokenDisplay(tokenEstimate, kilo);
    var figure := SummaryFigure(fileCount, display);
    OccursAtEnd(SUMMARY_OPEN, figure);
    OccursExtend(SUMMARY_OPEN + figure, SUMMARY_CLOSE, figure, |SUMMARY_OPEN|);
    OccursExtend(SUMMARY_OPEN + figure + SUMMARY_CLOSE, content, figure, |SUMMARY_OPEN|);
    OccursExtend(SUMMARY_OPEN + figure + SUMMARY_CLOSE + content, DETAILS_CLOSE, figure, |SUMMARY_OPEN|);
    InBlock(content, fileCount, tokenEstimate, kilo, figure, |SUMMARY_OPEN|);
    if tokenEstimate < 1000 {
      var lead := "(" + NatToString(fileCount) + " files, ";
      var digits := NatToString(tokenEstimate);
      Associate3(lead, "~" + digits, " tokens");
      Associate3(lead, "~", digits);
      assert figure == lead + "~" + digits + " tokens" + ")";
    }
  }

  // ---------------------------------------------------------------------------
  // The splice (`update_or_append_repomap`)
  // ---------------------------------------------------------------------------

  /**
   * `update_or_append_repomap`: when both markers occur, the text from the
   * first start marker to the end of the first end marker is replaced by the
   * new block, with trailing whitespace trimmed off the text before it;
   * otherwise the new block is appended after one blank line, or stands
   * alone when the document is blank. The code does not check that the end
   * marker comes after the start marker.
   */
  function UpdateOrAppendRepomap(existing: string, newRepomap: string): string {
    var start := Find(existing, REPOMAP_START);
    var end := Find(existing, REPOMAP_END);
    if start.Some? && end.Some? then
      TrimEnd(existing[..start.value]) + newRepomap + existing[end.value + |REPOMAP_END|..]
    else
      var trimmed := TrimEnd(existing);
      if trimmed == [] then newRepomap else trimmed + "\n\n" + newRepomap
  }

  /** Both markers start with `<`, which occurs nowhere else in either. */
  lemma MarkerFacts()
    ensures |REPOMAP_START| == 22 && |REPOMAP_END| == 20
    ensures REPOMAP_START[0] == '<' && REPOMAP_END[0] == '<'
    ensures forall t :: 0 < t < |REPOMAP_START| ==> REPOMAP_START[t] != '<'
    ensures forall t :: 0 < t < |REPOMAP_END| ==> REPOMAP_END[t] != '<'
    ensures REPOMAP_START[13] == 'S' && REPOMAP_END[13] == 'E'
  {
  }

  /**
   * When `q` does not occur in `x` and `y` begins with it, the first
   * occurrence in `x + y` is the one at the seam.
   */
  lemma FindAtSeam(x: string, y: string, q: string)
    requires q != [] && forall t :: 0 < t < |q| ==> q[t] != q[0]
    requires Absent(x, q) && OccursAt(y, q, 0)
    ensures Find(x + y, q) == Some(|x|)
  {
    assert y[0] == y[0..|q|][0] == q[0];
    NoOccurrenceBefore(x, y, q);
    OccursShift(x, y, q, 0);
    FindFirst(x + y, q, |x|);
  }

  /** Joining `x` to a `y` that begins with `q`'s first character creates no new occurrence of `q`. */
  lemma AbsentAcrossSeam(x: string, y: string, q: string)
    requires q != [] && forall t :: 0 < t < |q| ==> q[t] != q[0]
    requires Absent(x, q) && Absent(y, q) && y != [] && y[0] == q[0]
    ensures Absent(x + y, q)
  {
    NoOccurrenceBefore(x, y, q);
    forall i: nat | |x| <= i <= |x + y| ensures !OccursAt(x + y, q, i) {
      OccursShift(x, y, q, i - |x|);
    }
  }

  lemma StartsWith(q: string, rest: string)
    ensures OccursAt(q + rest, q, 0)
  {
    assert (q + rest)[0..|q|] == q;
  }

  /** Without an end marker, or without a start marker, the new block is appended. */
  lemma AppendWhenUnmarked(existing: string, newRepomap: string)
    requires Absent(existing, REPOMAP_START) || Absent(existing, REPOMAP_END)
    ensures AllWhitespace(existing) ==> UpdateOrAppendRepomap(existing, newRepomap) == newRepomap
    ensures !AllWhitespace(existing) ==>
              UpdateOrAppendRepomap(existing, newRepomap) == TrimEnd(existing) + "\n\n" + newRepomap
  {
    TrimEndEmptyIff(existing);
  }

  /** A string is its first character followed by the rest. */
  lemma FirstAndRest(s: string)
    requires s != []
    ensures s == [s[0]] + s[1..]
  {
  }

  /** With both markers found, the splice is determined by the two positions. */
  lemma SpliceAt(existing: string, newRepomap: string, start: nat, end: nat)
    requires Find(existing, REPOMAP_START) == Some(start) && Find(existing, REPOMAP_END) == Some(end)
    ensures end + |REPOMAP_END| <= |existing|
    ensures UpdateOrAppendRepomap(existing, newRepomap)
            == TrimEnd(existing[..start]) + newRepomap + existing[end + |REPOMAP_END|..]
  {
  }

  /**
   * A document holding one marked section: the section is replaced by the
   * new block, the text after the end marker is kept byte for byte, and the
   * text before the start marker loses only its trailing whitespace.
   */
  lemma ReplaceSection(before: string, body: string, after: string, newRepomap: string)
    requires Absent(before, REPOMAP_START) && Absent(before, REPOMAP_END)
    requires Absent(REPOMAP_START + body, REPOMAP_END)
    ensures UpdateOrAppendRepomap(before + REPOMAP_START + body + REPOMAP_END + after, newRepomap)
            == TrimEnd(before) + newRepomap + after
  {
    MarkerFacts();
    var section := REPOMAP_START + body;
    var doc := before + REPOMAP_START + body + REPOMAP_END + after;
    var tail := section + REPOMAP_END + after;
    Associate3(before, REPOMAP_START, body);
    Associate3(before + section, REPOMAP_END, after);
    assert doc == (before + section) + (REPOMAP_END + after);
    Associate4(before, section, REPOMAP_END, after);
    assert doc == before + tail;
    StartsWith(REPOMAP_START, body);
    OccursExtend(section, REPOMAP_END, REPOMAP_START, 0);
    OccursExtend(section + REPOMAP_END, after, REPOMAP_START, 0);
    FindAtSeam(before, tail, REPOMAP_START);
    AbsentAcrossSeam(before, section, REPOMAP_END);
    StartsWith(REPOMAP_END, after);
    FindAtSeam(before + section, REPOMAP_END + after, REPOMAP_END);
    SpliceAt(doc, newRepomap, |before|, |before + section|);
    assert doc[..|before|] == before;
    assert doc[|before + section| + |REPOMAP_END|..] == after;
  }

  /**
   * No `<!`, the opening of an HTML comment, occurs in `s`. When the map
   * content satisfies this, the interior of its block cannot hold a marker
   * (the rest of the interior and `kilo`, a float rendering, never do).
   */
  predicate NoCommentOpener(s: string) {
    forall k :: 0 <= k < |s| - 1 ==> !(s[k] == '<' && s[k + 1] == '!')
  }

  lemma NoCommentOpenerAbsent(s: string, q: string)
    requires NoCommentOpener(s) && |q| >= 2 && q[0] == '<' && q[1] == '!'
    ensures Absent(s, q)
  {
    forall i: nat | i <= |s| ensures !OccursAt(s, q, i) {
      if i + |q| <= |s| {
        assert s[i..i + |q|][0] == s[i] && s[i..i + |q|][1] == s[i + 1];
      }
    }
  }

  lemma NoCommentOpenerConcat(a: string, b: string)
    requires NoCommentOpener(a) && NoCommentOpener(b)
    requires a == [] || b == [] || a[|a| - 1] != '<' || b[0] != '!'
    ensures NoCommentOpener(a + b)
  {
    forall k | 0 <= k < |a + b| - 1 ensures !((a + b)[k] == '<' && (a + b)[k + 1] == '!') {
      if k + 1 < |a| {
        assert (a + b)[k] == a[k] && (a + b)[k + 1] == a[k + 1];
      } else if k >= |a| {
        assert (a + b)[k] == b[k - |a|] && (a + b)[k + 1] == b[k + 1 - |a|];
      }
    }
  }

  /** A string without `!` holds no `<!`. */
  lemma NoBangNoCommentOpener(s: string)
    requires forall k :: 0 <= k < |s| ==> s[k] != '!'
    ensures NoCommentOpener(s)
  {
  }

  /** A string without `<` holds no `<!`. */
  lemma NoAngleNoCommentOpener(s: string)
    requires forall k :: 0 <= k < |s| ==> s[k] != '<'
    ensures NoCommentOpener(s)
  {
  }

  lemma StartTailNoCommentOpener()
    ensures NoCommentOpener(REPOMAP_START[1..]) && REPOMAP_START[|REPOMAP_START| - 1] == '>'
  {
    NoAngleNoCommentOpener(REPOMAP_START[1..]);
  }

  lemma SummaryOpenNoCommentOpener()
    ensures NoCommentOpener(SUMMARY_OPEN) && SUMMARY_OPEN[|SUMMARY_OPEN| - 1] == ' '
  {
    NoBangNoCommentOpener(SECTION_HEADING);
    NoBangNoCommentOpener(DETAILS_OPEN);
    NoBangNoCommentOpener(SUMMARY_LABEL);
    assert SECTION_HEADING[|SECTION_HEADING| - 1] == '\n' && DETAILS_OPEN[|DETAILS_OPEN| - 1] == '\n';
    NoCommentOpenerConcat(SECTION_HEADING, DETAILS_OPEN);
    NoCommentOpenerConcat(SECTION_HEADING + DETAILS_OPEN, SUMMARY_LABEL);
  }

  lemma ClosesNoCommentOpener()
    ensures NoCommentOpener(SUMMARY_CLOSE) && SUMMARY_CLOSE[|SUMMARY_CLOSE| - 1] == '\n'
    ensures NoCommentOpener(DETAILS_CLOSE) && DETAILS_CLOSE[0] == '\n'
  {
    NoBangNoCommentOpener(SUMMARY_CLOSE);
    NoBangNoCommentOpener(DETAILS_CLOSE);
  }

  lemma DigitsNoCommentOpener(s: string)
    requires AllDigits(s)
    ensures NoCommentOpener(s)
  {
    NoAngleNoCommentOpener(s);
  }

  lemma TokenDisplayNoCommentOpener(tokenEstimate: nat, kilo: string)
    requires NoCommentOpener(kilo)
    ensures NoCommentOpener(TokenDisplay(tokenEstimate, kilo))
  {
    var tilde := "~";
    if tokenEstimate >= 1000 {
      var suffix := "k tokens";
      NoAngleNoCommentOpener(tilde);
      NoAngleNoCommentOpener(suffix);
      NoCommentOpenerConcat(tilde, kilo);
      NoCommentOpenerConcat(tilde + kilo, suffix);
    } else {
      var suffix := " tokens";
      var digits := NatToString(tokenEstimate);
      NoAngleNoCommentOpener(tilde);
      NoAngleNoCommentOpener(suffix);
      DigitsNoCommentOpener(digits);
      NoCommentOpenerConcat(tilde, digits);
      NoCommentOpenerConcat(tilde + digits, suffix);
    }
  }

  lemma FigureNoCommentOpener(fileCount: nat, display: string)
    requires NoCommentOpener(display) && display != [] && display[0] == '~'
    ensures var figure := SummaryFigure(fileCount, display);
            NoCommentOpener(figure) && figure[0] == '(' && figure[|figure| - 1] == ')'
  {
    var open, sep, close := "(", " files, ", ")";
    var digits := NatToString(fileCount);
    NoAngleNoCommentOpener(open);
    NoAngleNoCommentOpener(sep);
    NoAngleNoCommentOpener(close);
    DigitsNoCommentOpener(digits);
    NoCommentOpenerConcat(open, digits);
    NoCommentOpenerConcat(open + digits, sep);
    NoCommentOpenerConcat(open + digits + sep, display);
    NoCommentOpenerConcat(open + digits + sep + display, close);
  }

  lemma InteriorNoCommentOpener(content: string, fileCount: nat, display: string)
    requires NoCommentOpener(content) && NoCommentOpener(display) && display != [] && display[0] == '~'
    ensures NoCommentOpener(WrapInterior(content, fileCount, display))
  {
    SummaryOpenNoCommentOpener();
    ClosesNoCommentOpener();
    var figure := SummaryFigure(fileCount, display);
    FigureNoCommentOpener(fileCount, display);
    NoCommentOpenerConcat(SUMMARY_OPEN, figure);
    var a := SUMMARY_OPEN + figure;
    assert a[|a| - 1] == ')';
    NoCommentOpenerConcat(a, SUMMARY_CLOSE);
    var b := a + SUMMARY_CLOSE;
    assert b[|b| - 1] == '\n';
    NoCommentOpenerConcat(b, content);
    NoCommentOpenerConcat(b + content, DETAILS_CLOSE);
  }

  /** The block written by the tool holds no end marker before its own. */
  lemma WrapMarkedOnce(content: string, fileCount: nat, tokenEstimate: nat, kilo: string)
    requires NoCommentOpener(content) && NoCommentOpener(kilo)
    ensures Absent(REPOMAP_START + WrapInterior(content, fileCount, TokenDisplay(tokenEstimate, kilo)), REPOMAP_END)
  {
    MarkerFacts();
    StartTailNoCommentOpener();
    var display := TokenDisplay(tokenEstimate, kilo);
    var interior := WrapInterior(content, fileCount, display);
    TokenDisplayNoCommentOpener(tokenEstimate, kilo);
    InteriorNoCommentOpener(content, fileCount, display);
    var lead := [REPOMAP_START[0]];
    var rest := REPOMAP_START[1..] + interior;
    NoCommentOpenerConcat(REPOMAP_START[1..], interior);
    NoCommentOpenerAbsent(rest, REPOMAP_END);
    var s := REPOMAP_START + interior;
    FirstAndRest(REPOMAP_START);
    Associate3(lead, REPOMAP_START[1..], interior);
    assert s == lead + rest;
    assert s[0..20][13] == s[13] == 'S';
    forall i: nat | 1 <= i <= |s| ensures !OccursAt(s, REPOMAP_END, i) {
      OccursShift(lead, rest, REPOMAP_END, i - 1);
    }
  }

  /** Regrouping a document made of a block between two stretches. */
  lemma RegroupBlock(before: string, start: string, interior: string, end: string, after: string)
    ensures before + (start + interior + end + "\n") + after
            == before + start + interior + end + ("\n" + after)
  {
  }

  /**
   * Running the tool again on a document that holds its earlier block
   * replaces that block; since the block ends in a newline that the splice
   * keeps, each run leaves one more newline after the end marker.
   */
  lemma ReplacePriorBlock(before: string, after: string, content: string, fileCount: nat,
                          tokenEstimate: nat, kilo: string, newRepomap: string)
    requires Absent(before, REPOMAP_START) && Absent(before, REPOMAP_END)
    requires NoCommentOpener(content) && NoCommentOpener(kilo)
    ensures UpdateOrAppendRepomap(before + WrapForClaudeMd(content, fileCount, tokenEstimate, kilo) + after, newRepomap)
            == TrimEnd(before) + newRepomap + ("\n" + after)
  {
    var interior := WrapInterior(content, fileCount, TokenDisplay(tokenEstimate, kilo));
    WrapMarkedOnce(content, fileCount, tokenEstimate, kilo);
    RegroupBlock(before, REPOMAP_START, interior, REPOMAP_END, after);
    ReplaceSection(before, interior, "\n" + after, newRepomap);
  }

  /**
   * Splicing is not idempotent: the block spliced into a blank document and
   * then spliced again gains a newline.
   */
  lemma SpliceTwice(content: string, fileCount: nat, tokenEstimate: nat, kilo: string)
    requires NoCommentOpener(content) && NoCommentOpener(kilo)
    ensures var block := WrapForClaudeMd(content, fileCount, tokenEstimate, kilo);
            && UpdateOrAppendRepomap([], block) == block
            && UpdateOrAppendRepomap(UpdateOrAppendRepomap([], block), block) == block + "\n"
  {
    var interior := WrapInterior(content, fileCount, TokenDisplay(tokenEstimate, kilo));
    WrapMarkedOnce(content, fileCount, tokenEstimate, kilo);
    var block := WrapForClaudeMd(content, fileCount, tokenEstimate, kilo);
    BlankBecomesBlock([], block);
    SpliceBlockTwice(block, interior);
  }

  lemma SpliceBlockTwice(block: string, body: string)
    requires block == REPOMAP_START + body + REPOMAP_END + "\n"
    requires Absent(REPOMAP_START + body, REPOMAP_END)
    ensures UpdateOrAppendRepomap(block, block) == block + "\n"
  {
    var none: string := [];
    assert Absent(none, REPOMAP_START) && Absent(none, REPOMAP_END);
    assert block == none + REPOMAP_START + body + REPOMAP_END + "\n";
    ReplaceSection(none, body, "\n", block);
  }

  /** A blank document becomes the new block alone. */
  lemma BlankBecomesBlock(blank: string, newRepomap: string)
    requires AllWhitespace(blank)
    ensures UpdateOrAppendRepomap(blank, newRepomap) == newRepomap
  {
    forall i: nat | i <= |blank| ensures !OccursAt(blank, REPOMAP_START, i) {
      if i + |REPOMAP_START| <= |blank| {
        assert blank[i..i + |REPOMAP_START|][0] == blank[i];
      }
    }
    AppendWhenUnmarked(blank, newRepomap);
  }

  /**
   * When the first end marker comes before the first start marker, the code
   * still takes the "found" branch: the old start marker and the text between
   * the markers survive after the new block.
   */
  lemma EndBeforeStart(before: string, middle: string, after: string, newRepomap: string)
    requires Absent(before, REPOMAP_START) && Absent(before, REPOMAP_END)
    requires Absent(REPOMAP_END + middle, REPOMAP_START)
    ensures UpdateOrAppendRepomap(before + REPOMAP_END + middle + REPOMAP_START + after, newRepomap)
            == TrimEnd(before + REPOMAP_END + middle) + newRepomap + (middle + REPOMAP_START + after)
  {
    MarkerFacts();
    var closed := REPOMAP_END + middle;
    var doc := before + REPOMAP_END + middle + REPOMAP_START + after;
    var tail := closed + REPOMAP_START + after;
    Associate3(before, REPOMAP_END, middle);
    Associate3(before + closed, REPOMAP_START, after);
    assert doc == (before + closed) + (REPOMAP_START + after);
    Associate4(before, closed, REPOMAP_START, after);
    assert doc == before + tail;
    StartsWith(REPOMAP_END, middle);
    OccursExtend(closed, REPOMAP_START, REPOMAP_END, 0);
    OccursExtend(closed + REPOMAP_START, after, REPOMAP_END, 0);
    FindAtSeam(before, tail, REPOMAP_END);
    AbsentAcrossSeam(before, closed, REPOMAP_START);
    StartsWith(REPOMAP_START, after);
    FindAtSeam(before + closed, REPOMAP_START + after, REPOMAP_START);
    SpliceAt(doc, newRepomap, |before + closed|, |before|);
    assert doc[..|before + closed|] == before + REPOMAP_END + middle;
    Associate4(before + REPOMAP_END, middle, REPOMAP_START, after);
    assert doc == (before + REPOMAP_END) + (middle + REPOMAP_START + after);
    assert doc[|before| + |REPOMAP_END|..] == middle + REPOMAP_START + after;
  }

  /** Whatever the document, the result holds the new block. */
  lemma NewBlockPresent(existing: string, newRepomap: string)
    ensures Contains(UpdateOrAppendRepomap(existing, newRepomap), newRepomap)
  {
    var start := Find(existing, REPOMAP_START);
    var end := Find(existing, REPOMAP_END);
    if start.Some? && end.Some? {
      OccursInMiddle(TrimEnd(existing[..start.value]), newRepomap, existing[end.value + |REPOMAP_END|..]);
    } else if TrimEnd(existing) == [] {
      StartsWith(newRepomap, []);
      assert newRepomap + [] == newRepomap;
    } else {
      OccursAtEnd(TrimEnd(existing) + "\n\n", newRepomap);
    }
  }
}

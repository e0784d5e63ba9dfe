/**
 * The symbol normaliser of src/parser.rs: `extract_symbols` folds the captures
 * of each structural-query match into one symbol, rewrites Markdown headings,
 * and drops a bare symbol when a member symbol on the same line was already
 * collected. The query engine itself is not modelled: its matches are the
 * input.
 */
module Parser {
  import opened Wrappers
  import opened RustStr

  /**
   * The capture names a symbol query binds: `name`, `parent` and `item`;
   * `OtherRole` stands for every other name, which the fold ignores.
   */
  datatype Role = NameRole | ParentRole | ItemRole | OtherRole

  /**
   * One capture of a match as the query engine reports it: its role, the
   * source text of its node (`None` when the node's byte range does not fall
   * on character boundaries, so that `str::get` fails), the node's kind and
   * its 0-based start and end rows.
   */
  datatype Capture = Capture(role: Role, text: Option<string>, nodeKind: string, startRow: nat, endRow: nat)

  /** The captures of one match, in the order the engine yields them. */
  type Match = seq<Capture>

  /** A structural element of a file: 1-based first and last line. */
  datatype Symbol = Symbol(name: string, parent: Option<string>, line: nat, kind: string, endLine: nat)

  /** The mutable locals `extract_symbols` keeps while it reads one match. */
  datatype Draft = Draft(name: string, parent: Option<string>, kind: string, startLine: nat, endLine: nat)

  const EmptyDraft := Draft("", None, "", 0, 0)

  /** The node kind of a Markdown ATX heading. */
  const HEADING_NODE := "atx_heading"

  /** The heading level: the number of leading `#`. */
  function HeadingLevel(raw: string): nat {
    CountLeading(raw, '#')
  }

  function HeadingKind(raw: string): string {
    "h" + NatToString(HeadingLevel(raw))
  }

  /** The heading text: leading `#` removed, then trimmed. */
  function HeadingName(raw: string): string {
    Trim(TrimStartMatches(raw, '#'))
  }

  /** The effect of one capture on the locals (the body of the inner loop). */
  function ApplyCapture(d: Draft, c: Capture): Draft {
    match c.role
    case NameRole =>
      if c.text.Some? then d.(name := Trim(c.text.value)) else d
    case ParentRole =>
      if c.text.Some? then d.(parent := Some(c.text.value)) else d
    case ItemRole =>
      var d1 := d.(kind := c.nodeKind, startLine := c.startRow + 1, endLine := c.endRow + 1);
      if c.nodeKind == HEADING_NODE && c.text.Some? then
        d1.(kind := HeadingKind(c.text.value), name := HeadingName(c.text.value))
      else
        d1
    case OtherRole => d
  }

  /** The locals after reading the captures `cs` in order. */
  function FoldCaptures(cs: seq<Capture>): Draft
    decreases |cs|
  {
    if cs == [] then EmptyDraft else ApplyCapture(FoldCaptures(cs[..|cs| - 1]), cs[|cs| - 1])
  }

  /** A match yields a symbol only with a non-empty name and an `item` capture. */
  predicate Emits(d: Draft) {
    d.name != [] && d.startLine > 0
  }

  function ToSymbol(d: Draft): Symbol {
    Symbol(d.name, d.parent, d.startLine, d.kind, d.endLine)
  }

  /** Some collected symbol on `line` has a parent. */
  predicate HasParentedAt(symbols: seq<Symbol>, line: nat) {
    exists i :: 0 <= i < |symbols| && symbols[i].line == line && symbols[i].parent.Some?
  }

  /** The dedup test: a bare symbol on a line that already holds a member symbol. */
  predicate IsDuplicate(symbols: seq<Symbol>, d: Draft) {
    d.parent.None? && HasParentedAt(symbols, d.startLine)
  }

  /** One iteration of the outer loop: fold the match, then push or skip. */
  function Collect(symbols: seq<Symbol>, m: Match): seq<Symbol> {
    var d := FoldCaptures(m);
    if Emits(d) && !IsDuplicate(symbols, d) then symbols + [ToSymbol(d)] else symbols
  }

  /** The symbols `extract_symbols` returns for the matches `ms`. */
  function Extracted(ms: seq<Match>): seq<Symbol>
    decreases |ms|
  {
    if ms == [] then [] else Collect(Extracted(ms[..|ms| - 1]), ms[|ms| - 1])
  }

  /** `extract_symbols`, with the query engine's matches given as `matches`. */
  method ExtractSymbols(matches: seq<Match>) returns (symbols: seq<Symbol>)
    ensures symbols == Extracted(matches)
  {
    symbols := [];
    var i := 0;
    while i < |matches|
      invariant 0 <= i <= |matches|
      invariant symbols == Extracted(matches[..i])
    {
      var m := matches[i];
      var name: string, parent: Option<string>, kind: string := "", None, "";
      var startLine: nat, endLine: nat := 0, 0;
      for j := 0 to |m|
        invariant Draft(name, parent, kind, startLine, endLine) == FoldCaptures(m[..j])
      {
        var capture := m[j];
        FoldCapturesStep(m, j);
        match capture.role {
          case NameRole =>
            if capture.text.Some? {
              name := Trim(capture.text.value);
            }
          case ParentRole =>
            if capture.text.Some? {
              parent := Some(capture.text.value);
            }
          case ItemRole =>
            kind := capture.nodeKind;
            startLine := capture.startRow + 1;
            endLine := capture.endRow + 1;
            if capture.nodeKind == HEADING_NODE && capture.text.Some? {
              var raw := capture.text.value;
              var level := CountLeading(raw, '#');
              kind := "h" + NatToString(level);
              name := Trim(TrimStartMatches(raw, '#'));
            }
          case OtherRole =>
        }
      }
      assert m[..|m|] == m;
      if name != [] && startLine > 0 {
        var isDuplicate := exists k :: 0 <= k < |symbols| && symbols[k].line == startLine
                                       && symbols[k].parent.Some? && parent.None?;
        if !isDuplicate {
          symbols := symbols + [Symbol(name, parent, startLine, kind, endLine)];
        }
      }
      assert matches[..i + 1][..i] == matches[..i];
      i := i + 1;
    }
    assert matches[..|matches|] == matches;
  }

  lemma FoldCapturesStep(cs: seq<Capture>, j: nat)
    requires j < |cs|
    ensures FoldCaptures(cs[..j + 1]) == ApplyCapture(FoldCaptures(cs[..j]), cs[j])
  {
    assert cs[..j + 1][..j] == cs[..j];
  }

  // ---------------------------------------------------------------------------
  // One match: the last capture of each role wins
  // ---------------------------------------------------------------------------

  /** The kind an `item` capture gives: `h<level>` for a heading with text, else the node kind. */
  function ItemKind(c: Capture): string {
    if c.nodeKind == HEADING_NODE && c.text.Some? then HeadingKind(c.text.value) else c.nodeKind
  }

  /** A capture that sets the name: a `name` with text, or a heading `item` with text. */
  predicate SetsName(c: Capture) {
    c.text.Some? && (c.role.NameRole? || (c.role.ItemRole? && c.nodeKind == HEADING_NODE))
  }

  function NameFrom(c: Capture): string
    requires SetsName(c)
  {
    if c.role.NameRole? then Trim(c.text.value) else HeadingName(c.text.value)
  }

  /** A capture that sets the parent: a `parent` with text, kept untrimmed. */
  predicate SetsParent(c: Capture) {
    c.role.ParentRole? && c.text.Some?
  }

  /** The kind and span come from the last `item` capture, rows shifted to 1-based lines. */
  lemma {:induction false} LastItemWins(cs: seq<Capture>, k: nat)
    requires k < |cs| && cs[k].role.ItemRole?
    requires forall j :: k < j < |cs| ==> !cs[j].role.ItemRole?
    ensures FoldCaptures(cs).startLine == cs[k].startRow + 1
    ensures FoldCaptures(cs).endLine == cs[k].endRow + 1
    ensures FoldCaptures(cs).kind == ItemKind(cs[k])
    decreases |cs|
  {
    if k < |cs| - 1 {
      LastItemWins(cs[..|cs| - 1], k);
    }
  }

  /** Without an `item` capture the start line stays 0, so the match yields nothing. */
  lemma {:induction false} NoItemNoSymbol(cs: seq<Capture>)
    requires forall j :: 0 <= j < |cs| ==> !cs[j].role.ItemRole?
    ensures FoldCaptures(cs).startLine == 0 && !Emits(FoldCaptures(cs))
    decreases |cs|
  {
    if cs != [] {
      NoItemNoSymbol(cs[..|cs| - 1]);
    }
  }

  /**
   * The name comes from the last capture that sets one: a `name` capture
   * (trimmed) or a heading `item` (its text without leading `#`, trimmed),
   * whichever comes later.
   */
  lemma {:induction false} LastNameWins(cs: seq<Capture>, k: nat)
    requires k < |cs| && SetsName(cs[k])
    requires forall j :: k < j < |cs| ==> !SetsName(cs[j])
    ensures FoldCaptures(cs).name == NameFrom(cs[k])
    decreases |cs|
  {
    if k < |cs| - 1 {
      LastNameWins(cs[..|cs| - 1], k);
    }
  }

  /** With no capture that sets a name the name stays empty, so the match yields nothing. */
  lemma {:induction false} NoNameNoSymbol(cs: seq<Capture>)
    requires forall j :: 0 <= j < |cs| ==> !SetsName(cs[j])
    ensures FoldCaptures(cs).name == [] && !Emits(FoldCaptures(cs))
    decreases |cs|
  {
    if cs != [] {
      NoNameNoSymbol(cs[..|cs| - 1]);
    }
  }

  /** The parent is the untrimmed text of the last `parent` capture. */
  lemma {:induction false} LastParentWins(cs: seq<Capture>, k: nat)
    requires k < |cs| && SetsParent(cs[k])
    requires forall j :: k < j < |cs| ==> !SetsParent(cs[j])
    ensures FoldCaptures(cs).parent == cs[k].text
    decreases |cs|
  {
    if k < |cs| - 1 {
      LastParentWins(cs[..|cs| - 1], k);
    }
  }

  /** Without a `parent` capture the symbol is bare. */
  lemma {:induction false} NoParentBare(cs: seq<Capture>)
    requires forall j :: 0 <= j < |cs| ==> !SetsParent(cs[j])
    ensures FoldCaptures(cs).parent == None
    decreases |cs|
  {
    if cs != [] {
      NoParentBare(cs[..|cs| - 1]);
    }
  }

  /** A name is never padded with whitespace. */
  lemma {:induction false} FoldedNameTrimmed(cs: seq<Capture>)
    ensures IsTrimmed(FoldCaptures(cs).name)
    decreases |cs|
  {
    if cs != [] {
      FoldedNameTrimmed(cs[..|cs| - 1]);
    }
  }

  /** Nodes end no earlier than they start. */
  predicate WellFormedCaptures(cs: seq<Capture>) {
    forall j :: 0 <= j < |cs| ==> cs[j].startRow <= cs[j].endRow
  }

  predicate WellFormedMatches(ms: seq<Match>) {
    forall i :: 0 <= i < |ms| ==> WellFormedCaptures(ms[i])
  }

  lemma {:induction false} FoldedSpanOrdered(cs: seq<Capture>)
    requires WellFormedCaptures(cs)
    ensures FoldCaptures(cs).startLine <= FoldCaptures(cs).endLine
    decreases |cs|
  {
    if cs != [] {
      FoldedSpanOrdered(cs[..|cs| - 1]);
    }
  }

  // ---------------------------------------------------------------------------
  // Many matches: push-only collection and the same-line dedup rule
  // ---------------------------------------------------------------------------

  /** The outer loop's step: what one more match does to the collected symbols. */
  lemma ExtractedStep(ms: seq<Match>, m: Match)
    ensures Extracted(ms + [m]) == Collect(Extracted(ms), m)
  {
    assert (ms + [m])[..|ms|] == ms;
  }

  /** Every symbol has a trimmed, non-empty name and a line of at least 1. */
  lemma {:induction false} ExtractedSymbolsValid(ms: seq<Match>)
    ensures forall i :: 0 <= i < |Extracted(ms)| ==>
              Extracted(ms)[i].name != [] && IsTrimmed(Extracted(ms)[i].name) && Extracted(ms)[i].line >= 1
    decreases |ms|
  {
    if ms != [] {
      ExtractedSymbolsValid(ms[..|ms| - 1]);
      FoldedNameTrimmed(ms[|ms| - 1]);
    }
  }

  /** When the engine's nodes are well formed, every symbol spans at least its own line. */
  lemma {:induction false} ExtractedSpansOrdered(ms: seq<Match>)
    requires WellFormedMatches(ms)
    ensures forall i :: 0 <= i < |Extracted(ms)| ==> Extracted(ms)[i].line <= Extracted(ms)[i].endLine
    decreases |ms|
  {
    if ms != [] {
      ExtractedSpansOrdered(ms[..|ms| - 1]);
      FoldedSpanOrdered(ms[|ms| - 1]);
    }
  }

  /** Symbols are only appended: later matches never remove or reorder earlier output. */
  lemma {:induction false} ExtractedPrefix(ms: seq<Match>, more: seq<Match>)
    ensures Extracted(ms) <= Extracted(ms + more)
    decreases |more|
  {
    if more == [] {
      assert ms + more == ms;
    } else {
      var init := more[..|more| - 1];
      assert ms + more == (ms + init) + [more[|more| - 1]];
      ExtractedPrefix(ms, init);
      ExtractedStep(ms + init, more[|more| - 1]);
    }
  }

  /** At most one symbol per match. */
  lemma {:induction false} ExtractedAtMostOnePerMatch(ms: seq<Match>)
    ensures |Extracted(ms)| <= |ms|
    decreases |ms|
  {
    if ms != [] {
      ExtractedAtMostOnePerMatch(ms[..|ms| - 1]);
    }
  }

  /** A match with a parent that yields a symbol is always kept, at the end. */
  lemma MemberNeverDropped(ms: seq<Match>, m: Match)
    requires Emits(FoldCaptures(m)) && FoldCaptures(m).parent.Some?
    ensures Extracted(ms + [m]) == Extracted(ms) + [ToSymbol(FoldCaptures(m))]
  {
    ExtractedStep(ms, m);
  }

  /**
   * A bare symbol is dropped exactly when a symbol with a parent was already
   * collected on its line; otherwise it is appended.
   */
  lemma BareDroppedIff(ms: seq<Match>, m: Match)
    requires Emits(FoldCaptures(m)) && FoldCaptures(m).parent.None?
    ensures Extracted(ms + [m]) == Extracted(ms) <==> HasParentedAt(Extracted(ms), FoldCaptures(m).startLine)
    ensures !HasParentedAt(Extracted(ms), FoldCaptures(m).startLine) ==>
              Extracted(ms + [m]) == Extracted(ms) + [ToSymbol(FoldCaptures(m))]
  {
    ExtractedStep(ms, m);
    var e := Extracted(ms);
    if !HasParentedAt(e, FoldCaptures(m).startLine) {
      assert |Extracted(ms + [m])| == |e| + 1;
    }
  }

  /** A match that yields no symbol leaves the output as it was. */
  lemma SilentMatch(ms: seq<Match>, m: Match)
    requires !Emits(FoldCaptures(m))
    ensures Extracted(ms + [m]) == Extracted(ms)
  {
    ExtractedStep(ms, m);
  }

  /** Two matches in a row, the first of which yields a symbol. */
  lemma PairStep(m1: Match, m2: Match)
    requires Emits(FoldCaptures(m1))
    ensures Extracted([m1]) == [ToSymbol(FoldCaptures(m1))]
    ensures Extracted([m1, m2]) == Collect([ToSymbol(FoldCaptures(m1))], m2)
  {
    assert [m1][..0] == [];
    assert [m1, m2][..1] == [m1];
  }

  /**
   * The dedup rule is order-dependent. Of two symbols on one line, one bare
   * and one with a parent: member first keeps only the member, bare first
   * keeps both. Two bare symbols, or two members, are both kept.
   */
  lemma SameLinePairs(m1: Match, m2: Match)
    requires Emits(FoldCaptures(m1)) && Emits(FoldCaptures(m2))
    requires FoldCaptures(m1).startLine == FoldCaptures(m2).startLine
    ensures FoldCaptures(m1).parent.Some? && FoldCaptures(m2).parent.None? ==>
              Extracted([m1, m2]) == [ToSymbol(FoldCaptures(m1))]
    ensures FoldCaptures(m1).parent.None? || FoldCaptures(m2).parent.Some? ==>
              Extracted([m1, m2]) == [ToSymbol(FoldCaptures(m1)), ToSymbol(FoldCaptures(m2))]
  {
    PairStep(m1, m2);
    var s1 := ToSymbol(FoldCaptures(m1));
    assert HasParentedAt([s1], s1.line) <==> s1.parent.Some? by {
      if s1.parent.Some? {
        assert [s1][0] == s1;
      }
    }
    assert [s1] + [ToSymbol(FoldCaptures(m2))] == [s1, ToSymbol(FoldCaptures(m2))];
  }

  /** Two matches that yield symbols are both kept when the first is bare or they lie on different lines. */
  lemma BothKept(m1: Match, m2: Match)
    requires Emits(FoldCaptures(m1)) && Emits(FoldCaptures(m2))
    requires FoldCaptures(m1).parent.None? || FoldCaptures(m1).startLine != FoldCaptures(m2).startLine
    ensures Extracted([m1, m2]) == [ToSymbol(FoldCaptures(m1)), ToSymbol(FoldCaptures(m2))]
  {
    PairStep(m1, m2);
    var s1 := ToSymbol(FoldCaptures(m1));
    assert !HasParentedAt([s1], FoldCaptures(m2).startLine) by {
      assert forall i :: 0 <= i < |[s1]| ==> [s1][i] == s1;
    }
    assert [s1] + [ToSymbol(FoldCaptures(m2))] == [s1, ToSymbol(FoldCaptures(m2))];
  }

  /**
   * What the dedup rule does guarantee: on any line, no bare symbol comes
   * after a symbol with a parent.
   */
  lemma {:induction false} NoBareAfterMember(ms: seq<Match>)
    ensures forall i, j :: (0 <= i < j < |Extracted(ms)| && Extracted(ms)[i].line == Extracted(ms)[j].line
                            && Extracted(ms)[i].parent.Some?) ==> Extracted(ms)[j].parent.Some?
    decreases |ms|
  {
    if ms != [] {
      var init := ms[..|ms| - 1];
      NoBareAfterMember(init);
      var e := Extracted(init);
      var d := FoldCaptures(ms[|ms| - 1]);
      if Emits(d) && !IsDuplicate(e, d) {
        var r := e + [ToSymbol(d)];
        forall i | 0 <= i < |e| && e[i].line == d.startLine && e[i].parent.Some?
          ensures d.parent.Some?
        {
          assert HasParentedAt(e, d.startLine);
        }
      }
    }
  }

  /**
   * The matches the repository's test query yields for `struct MyStruct { field: i32 } fn my_func() {}`
   * when that source sits on row `row` (the test's is row 0).
   */
  function StructMatch(row: nat): Match {
    [Capture(ItemRole, Some("struct MyStruct { field: i32 }"), "struct_item", row, row),
     Capture(NameRole, Some("MyStruct"), "type_identifier", row, row)]
  }

  function FunctionMatch(row: nat): Match {
    [Capture(ItemRole, Some("fn my_func() {}"), "function_item", row, row),
     Capture(NameRole, Some("my_func"), "identifier", row, row)]
  }

  /** A match made of an `item` capture followed by its `name` capture. */
  lemma ItemThenName(item: Capture, name: Capture)
    requires item.role.ItemRole? && item.nodeKind != HEADING_NODE
    requires name.role.NameRole? && name.text.Some?
    ensures FoldCaptures([item, name]) == Draft(Trim(name.text.value), None, item.nodeKind, item.startRow + 1, item.endRow + 1)
  {
    FoldTwo(item, name);
  }

  lemma FoldTwo(a: Capture, b: Capture)
    ensures FoldCaptures([a, b]) == ApplyCapture(ApplyCapture(EmptyDraft, a), b)
  {
    assert [a, b][..1] == [a];
    assert [a][..0] == [];
    assert FoldCaptures([a]) == ApplyCapture(EmptyDraft, a);
  }

  /** The same, for a name with no whitespace to trim. */
  lemma ItemThenTrimmedName(item: Capture, name: Capture)
    requires item.role.ItemRole? && item.nodeKind != HEADING_NODE
    requires name.role.NameRole? && name.text.Some? && IsTrimmed(name.text.value)
    ensures FoldCaptures([item, name]) == Draft(name.text.value, None, item.nodeKind, item.startRow + 1, item.endRow + 1)
  {
    ItemThenName(item, name);
    TrimOfTrimmed(name.text.value);
  }

  /** What the struct match of the repository's test folds to. */
  lemma StructMatchFold(row: nat)
    ensures FoldCaptures(StructMatch(row)) == Draft("MyStruct", None, "struct_item", row + 1, row + 1)
  {
    var a, b := StructMatch(row)[0], StructMatch(row)[1];
    assert StructMatch(row) == [a, b];
    assert IsTrimmed("MyStruct");
    ItemThenTrimmedName(a, b);
  }

  /** What the function match of the repository's test folds to. */
  lemma FunctionMatchFold(row: nat)
    ensures FoldCaptures(FunctionMatch(row)) == Draft("my_func", None, "function_item", row + 1, row + 1)
  {
    var c, d := FunctionMatch(row)[0], FunctionMatch(row)[1];
    assert FunctionMatch(row) == [c, d];
    assert IsTrimmed("my_func");
    ItemThenTrimmedName(c, d);
  }

  /**
   * The repository's test: a struct match then a function match give `MyStruct` then `my_func`,
   * both top-level, on whatever line the source sits.
   */
  lemma RustStructThenFunction(row: nat)
    ensures Extracted([StructMatch(row), FunctionMatch(row)])
            == [Symbol("MyStruct", None, row + 1, "struct_item", row + 1),
                Symbol("my_func", None, row + 1, "function_item", row + 1)]
  {
    var d1 := Draft("MyStruct", None, "struct_item", row + 1, row + 1);
    var d2 := Draft("my_func", None, "function_item", row + 1, row + 1);
    StructMatchFold(row);
    FunctionMatchFold(row);
    KeptTopLevelPair(StructMatch(row), FunctionMatch(row), d1, d2);
  }

  /** Two matches folding to emitted drafts, the first without a parent, are both kept, in order. */
  lemma KeptTopLevelPair(m1: Match, m2: Match, d1: Draft, d2: Draft)
    requires FoldCaptures(m1) == d1 && Emits(d1) && d1.parent.None?
    requires FoldCaptures(m2) == d2 && Emits(d2)
    ensures Extracted([m1, m2]) == [ToSymbol(d1), ToSymbol(d2)]
  {
    BothKept(m1, m2);
  }

  /** A match made of one Markdown heading capture. */
  lemma SingleHeading(c: Capture)
    requires c.role.ItemRole? && c.nodeKind == HEADING_NODE && c.text.Some?
    ensures FoldCaptures([c])
            == Draft(HeadingName(c.text.value), None, HeadingKind(c.text.value), c.startRow + 1, c.endRow + 1)
  {
    assert [c][..0] == [];
  }

  /** A run of `#`, a space and a title give the run's length as level and the title as name. */
  lemma HeadingParts(hashes: string, title: string)
    requires forall k :: 0 <= k < |hashes| ==> hashes[k] == '#'
    requires title != [] && !IsWhitespace(title[0]) && !IsWhitespace(title[|title| - 1])
    ensures HeadingLevel(hashes + " " + title) == |hashes|
    ensures HeadingName(hashes + " " + title) == title
  {
    assert hashes + " " + title == hashes + (" " + title);
    LeadingRunOf(hashes, " " + title, '#');
    TrimAfterSpace(title);
  }

  lemma LeadingRunOf(run: string, rest: string, c: char)
    requires forall k :: 0 <= k < |run| ==> run[k] == c
    requires rest != [] && rest[0] != c
    ensures CountLeading(run + rest, c) == |run|
    ensures TrimStartMatches(run + rest, c) == rest
  {
    var s := run + rest;
    assert s[|run|] == rest[0];
    TrimStartMatchesDropsLeadingRun(s, c);
    assert s[|run|..] == rest;
  }

  lemma TrimAfterSpace(title: string)
    requires title != [] && !IsWhitespace(title[0]) && !IsWhitespace(title[|title| - 1])
    ensures Trim(" " + title) == title
  {
    assert IsWhitespace(' ');
    assert (" " + title)[1..] == title;
    assert TrimStart(" " + title) == title;
  }
}

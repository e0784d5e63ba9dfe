/**
 * The registration loop of src/main.rs: every walked entry that is a regular,
 * non-binary file with a known (or forced) language is processed, and its
 * fragment is added to the accumulator unless it is empty. Walking the
 * directory, reading files and detecting binaries are outside the model:
 * their results arrive as one `Entry` per path.
 */
module Scan {
  import opened Wrappers
  import opened RustStr
  import opened Languages
  import opened Parser
  import opened Formatter

  /**
   * One entry of the walk: whether it is a regular file, whether it looks
   * binary, its text (`None` when reading it fails, so that processing
   * returns an error), and the matches and imports the query engine finds in
   * that text for the language the file is processed as.
   */
  datatype Entry = Entry(path: string, isFile: bool, isBinary: bool, content: Option<string>,
                         matches: seq<Match>, imports: seq<string>)

  /** The arguments of one `add_file` call. */
  datatype Registration = Registration(path: string, fileMap: string, symCount: nat, lineCount: nat)

  /** `--language` wins over the language inferred from the path. */
  function TargetLanguage(forced: Option<Language>, path: string): Option<Language> {
    if forced.Some? then forced else InferLanguage(path)
  }

  /** What one entry adds to the accumulator, if anything. */
  function Registers(forced: Option<Language>, e: Entry): Option<Registration> {
    if !e.isFile || e.isBinary then None
    else match TargetLanguage(forced, e.path)
      case None => None
      case Some(lang) =>
        match e.content
        case None => None
        case Some(content) =>
          var symbols := Extracted(e.matches);
          var fileMap := Fragment(e.path, symbols, ImportsFor(lang, e.imports), LangTag(lang));
          if fileMap == [] then None else Some(Registration(e.path, fileMap, |symbols|, LineCount(content)))
  }

  function AsSeq(r: Option<Registration>): seq<Registration> {
    if r.Some? then [r.value] else []
  }

  /** The `add_file` calls the loop makes, in walk order. */
  function Registrations(forced: Option<Language>, entries: seq<Entry>): seq<Registration>
    decreases |entries|
  {
    if entries == [] then []
    else Registrations(forced, entries[..|entries| - 1]) + AsSeq(Registers(forced, entries[|entries| - 1]))
  }

  /** The map content the registrations add. */
  function MapOf(rs: seq<Registration>): string
    decreases |rs|
  {
    if rs == [] then [] else MapOf(rs[..|rs| - 1]) + rs[|rs| - 1].fileMap
  }

  /** The summary rows the registrations add. */
  function RowsOf(rs: seq<Registration>): string
    decreases |rs|
  {
    if rs == [] then [] else RowsOf(rs[..|rs| - 1]) + SummaryRow(rs[|rs| - 1].path, rs[|rs| - 1].symCount, rs[|rs| - 1].lineCount)
  }

  lemma RegistrationsStep(forced: Option<Language>, entries: seq<Entry>, i: nat)
    requires i < |entries|
    ensures Registrations(forced, entries[..i + 1])
            == Registrations(forced, entries[..i]) + AsSeq(Registers(forced, entries[i]))
  {
    assert entries[..i + 1][..i] == entries[..i];
  }

  lemma AppendRegistration(rs: seq<Registration>, r: Registration)
    ensures MapOf(rs + [r]) == MapOf(rs) + r.fileMap
    ensures RowsOf(rs + [r]) == RowsOf(rs) + SummaryRow(r.path, r.symCount, r.lineCount)
  {
    assert (rs + [r])[..|rs|] == rs;
  }

  /** One iteration of `main`'s loop: process the entry and register a non-empty fragment. */
  method ScanEntry(stats: RepoStats, forced: Option<Language>, e: Entry)
    modifies stats
    ensures Registers(forced, e).None? ==>
              && stats.mapContent == old(stats.mapContent)
              && stats.tableRows == old(stats.tableRows)
              && stats.fileCount == old(stats.fileCount)
    ensures Registers(forced, e).Some? ==>
              var r := Registers(forced, e).value;
              && stats.mapContent == old(stats.mapContent) + r.fileMap
              && stats.tableRows == old(stats.tableRows) + SummaryRow(r.path, r.symCount, r.lineCount)
              && stats.fileCount == old(stats.fileCount) + 1
  {
    if e.isFile && !e.isBinary {
      var target := if forced.Some? then forced else InferLanguage(e.path);
      if target.Some? && e.content.Some? {
        var fileMap, symCount, lineCount :=
          ProcessFileWithStats(e.path, target.value, e.content.value, e.matches, e.imports);
        assert TargetLanguage(forced, e.path) == target;
        assert Registers(forced, e)
               == if fileMap == [] then None else Some(Registration(e.path, fileMap, symCount, lineCount));
        if fileMap != [] {
          stats.AddFile(e.path, fileMap, symCount, lineCount);
        }
      }
    }
  }

  /** The loop of `main` over the walked entries. */
  method ScanEntries(stats: RepoStats, forced: Option<Language>, entries: seq<Entry>)
    modifies stats
    ensures stats.mapContent == old(stats.mapContent) + MapOf(Registrations(forced, entries))
    ensures stats.tableRows == old(stats.tableRows) + RowsOf(Registrations(forced, entries))
    ensures stats.fileCount == old(stats.fileCount) + |Registrations(forced, entries)|
  {
    for i := 0 to |entries|
      invariant stats.mapContent == old(stats.mapContent) + MapOf(Registrations(forced, entries[..i]))
      invariant stats.tableRows == old(stats.tableRows) + RowsOf(Registrations(forced, entries[..i]))
      invariant stats.fileCount == old(stats.fileCount) + |Registrations(forced, entries[..i])|
    {
      ghost var done := Registrations(forced, entries[..i]);
      RegistrationsStep(forced, entries, i);
      ScanEntry(stats, forced, entries[i]);
      match Registers(forced, entries[i]) {
        case None =>
          assert done + [] == done;
        case Some(r) =>
          AppendRegistration(done, r);
          Associate3(old(stats.mapContent), MapOf(done), r.fileMap);
          Associate3(old(stats.tableRows), RowsOf(done), SummaryRow(r.path, r.symCount, r.lineCount));
      }
    }
    assert entries[..|entries|] == entries;
  }

  /**
   * `main` without its I/O: scan the entries, assemble the map and estimate
   * its tokens.
   */
  method Run(root: string, forced: Option<Language>, entries: seq<Entry>, showSummary: bool)
    returns (finalOutput: string, tokens: nat)
    ensures var rs := Registrations(forced, entries);
            finalOutput == FinalMap(root, |rs|, RowsOf(rs), MapOf(rs), showSummary)
    ensures 4 * tokens <= Utf8Length(finalOutput) < 4 * tokens + 4
  {
    ghost var rs := Registrations(forced, entries);
    var stats := new RepoStats();
    ScanEntries(stats, forced, entries);
    assert stats.mapContent == MapOf(rs) && stats.tableRows == RowsOf(rs) && stats.fileCount == |rs|;
    finalOutput := AssembleFinalMap(root, stats, showSummary);
    tokens := stats.EstimateTokens(finalOutput);
  }

  /** Every registration carries a non-empty fragment, at most one per entry. */
  lemma {:induction false} RegistrationsNonEmpty(forced: Option<Language>, entries: seq<Entry>)
    ensures |Registrations(forced, entries)| <= |entries|
    ensures forall i :: 0 <= i < |Registrations(forced, entries)| ==> Registrations(forced, entries)[i].fileMap != []
    decreases |entries|
  {
    if entries != [] {
      RegistrationsNonEmpty(forced, entries[..|entries| - 1]);
    }
  }

  /**
   * A file is registered exactly when it is a readable, non-binary regular
   * file with a language, and it has a symbol or (with an import query) an
   * import.
   */
  lemma RegisteredIff(forced: Option<Language>, e: Entry)
    ensures Registers(forced, e).Some? <==>
              && e.isFile && !e.isBinary && e.content.Some?
              && TargetLanguage(forced, e.path).Some?
              && (Extracted(e.matches) != []
                  || (HasImportQuery(TargetLanguage(forced, e.path).value) && e.imports != []))
  {
    if e.isFile && !e.isBinary && e.content.Some? && TargetLanguage(forced, e.path).Some? {
      var lang := TargetLanguage(forced, e.path).value;
      FragmentEmptyIff(e.path, Extracted(e.matches), ImportsFor(lang, e.imports), LangTag(lang));
    }
  }

  /** A registered file's row counts its symbols and its lines. */
  lemma RegisteredCounts(forced: Option<Language>, e: Entry)
    requires Registers(forced, e).Some?
    ensures Registers(forced, e).value.path == e.path
    ensures Registers(forced, e).value.symCount == |Extracted(e.matches)|
    ensures Registers(forced, e).value.lineCount == LineCount(e.content.value)
  {
  }

  /** With nothing registered the map holds only its header and rule. */
  lemma NothingRegistered(root: string)
    ensures FinalMap(root, 0, RowsOf([]), MapOf([]), false) == MapHeader(root, 0) + "---\n"
  {
    assert MapHeader(root, 0) + "---\n" + [] == MapHeader(root, 0) + "---\n";
  }
}

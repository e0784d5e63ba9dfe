/**
 * The languages the map understands and how a file's language is inferred
 * from its path (src/languages.rs).
 */
module Languages {
  import opened Wrappers
  import opened RustStr

  datatype Language = Rust | Python | Go | Javascript | Typescript | Tsx | Markdown

  /** The final component of a path as written, after the last `/`. */
  function LastComponent(path: string): (name: string)
    ensures |name| <= |path| && name == path[|path| - |name|..]
    ensures forall k :: 0 <= k < |name| ==> name[k] != '/'
    ensures |name| < |path| ==> path[|path| - |name| - 1] == '/'
  {
    match LastIndexOfChar(path, '/')
    case None => path
    case Some(i) => path[i + 1..]
  }

  /**
   * `Path::file_name`: the last normal component of a `/`-separated path.
   * Empty and `.` components are skipped, as Rust's component iterator does,
   * and a path ending in `..` (or consisting only of the root or `.`) has none.
   */
  function FileName(path: string): (r: Option<string>)
    ensures r.Some? ==> r.value != [] && r.value != "." && r.value != ".."
    ensures r.Some? ==> forall k :: 0 <= k < |r.value| ==> r.value[k] != '/'
    decreases |path|
  {
    if path == [] then None
    else if path[|path| - 1] == '/' then FileName(path[..|path| - 1])
    else
      var name := LastComponent(path);
      if name == "." then FileName(path[..|path| - 1])
      else if name == ".." then None
      else Some(name)
  }

  /**
   * The extension of a file name as `Path::extension` splits it: the text after
   * the last `.`, unless that `.` is the first character (a hidden file such as
   * `.bashrc` has no extension) or the name is `..`.
   */
  function ExtensionOfName(name: string): (r: Option<string>)
    ensures r.Some? ==> forall k :: 0 <= k < |r.value| ==> r.value[k] != '.'
    ensures r.Some? ==> exists stem :: (stem != [] && name == stem + "." + r.value)
  {
    if name == ".." then None
    else match LastIndexOfChar(name, '.')
      case None => None
      case Some(i) =>
        if i == 0 then None
        else
          assert name == name[..i] + "." + name[i + 1..];
          Some(name[i + 1..])
  }

  /** `Path::extension`. */
  function Extension(path: string): Option<string> {
    match FileName(path)
    case None => None
    case Some(name) => ExtensionOfName(name)
  }

  /** The extension table: exact, case-sensitive comparison. */
  function LanguageOfExtension(ext: string): Option<Language> {
    match ext
    case "rs" => Some(Rust)
    case "py" => Some(Python)
    case "go" => Some(Go)
    case "js" => Some(Javascript)
    case "jsx" => Some(Javascript)
    case "ts" => Some(Typescript)
    case "tsx" => Some(Tsx)
    case "md" => Some(Markdown)
    case _ => None
  }

  /** `infer_language`: no extension, or an unknown one, gives no language. */
  function InferLanguage(path: string): Option<Language> {
    match Extension(path)
    case None => None
    case Some(ext) => LanguageOfExtension(ext)
  }

  /** The extension the table lists first for each language. */
  function CanonicalExtension(lang: Language): string {
    match lang
    case Rust => "rs"
    case Python => "py"
    case Go => "go"
    case Javascript => "js"
    case Typescript => "ts"
    case Tsx => "tsx"
    case Markdown => "md"
  }

  /**
   * Every language is reachable, and an extension that maps to a language is
   * that language's own extension, or `jsx` for JavaScript.
   */
  lemma ExtensionTable(ext: string, lang: Language)
    ensures LanguageOfExtension(CanonicalExtension(lang)) == Some(lang)
    ensures LanguageOfExtension(ext) == Some(lang) <==>
              ext == CanonicalExtension(lang) || (lang == Javascript && ext == "jsx")
  {
  }

  /** The file name of `dir + name` is `name` when `name` is a plain component. */
  lemma FileNameAfterDirectory(dir: string, name: string)
    requires dir == [] || dir[|dir| - 1] == '/'
    requires name != [] && name != "." && name != ".."
    requires forall k :: 0 <= k < |name| ==> name[k] != '/'
    ensures FileName(dir + name) == Some(name)
  {
    var path := dir + name;
    assert path[|path| - 1] == name[|name| - 1];
    forall k | |dir| <= k < |path| ensures path[k] != '/' {
      assert path[k] == name[k - |dir|];
    }
    assert path[|path| - |name|..] == name;
  }

  /** The extension of `stem.ext` is `ext` when `ext` holds no `.` and `stem` is not empty. */
  lemma ExtensionOfStemDotExt(stem: string, ext: string)
    requires stem != [] && stem + "." + ext != ".."
    requires forall k :: 0 <= k < |ext| ==> ext[k] != '.'
    ensures ExtensionOfName(stem + "." + ext) == Some(ext)
  {
    var name := stem + "." + ext;
    assert name[|stem|] == '.';
    forall k | |stem| < k < |name| ensures name[k] != '.' {
      assert name[k] == ext[k - |stem| - 1];
    }
    assert LastIndexOfChar(name, '.') == Some(|stem|);
    assert name[|stem| + 1..] == ext;
  }

  /**
   * A path whose last component is `stem.ext` (after a directory part ending in
   * `/`, or none) has the language the table gives `ext`.
   */
  lemma InferByExtension(dir: string, stem: string, ext: string)
    requires dir == [] || dir[|dir| - 1] == '/'
    requires stem != [] && stem + "." + ext != ".."
    requires forall k :: 0 <= k < |stem| ==> stem[k] != '/'
    requires forall k :: 0 <= k < |ext| ==> ext[k] != '/' && ext[k] != '.'
    ensures InferLanguage(dir + stem + "." + ext) == LanguageOfExtension(ext)
  {
    var name := stem + "." + ext;
    DottedNameNoSlash(stem, ext);
    FileNameAfterDirectory(dir, name);
    Associate4(dir, stem, ".", ext);
    ExtensionOfStemDotExt(stem, ext);
  }

  lemma DottedNameNoSlash(stem: string, ext: string)
    requires forall k :: 0 <= k < |stem| ==> stem[k] != '/'
    requires forall k :: 0 <= k < |ext| ==> ext[k] != '/'
    ensures forall k :: 0 <= k < |stem + "." + ext| ==> (stem + "." + ext)[k] != '/'
  {
    var name := stem + "." + ext;
    forall k | 0 <= k < |name| ensures name[k] != '/' {
      if k < |stem| { assert name[k] == stem[k]; }
      else if k > |stem| { assert name[k] == ext[k - |stem| - 1]; }
    }
  }

  /** A bare file name `stem.ext` has extension `ext`. */
  lemma ExtensionOfBareName(name: string, stem: string, ext: string)
    requires name == stem + "." + ext && stem != [] && name != ".."
    requires forall k :: 0 <= k < |name| ==> name[k] != '/'
    requires forall k :: 0 <= k < |ext| ==> ext[k] != '.'
    ensures Extension(name) == Some(ext)
  {
    FileNameAfterDirectory("", name);
    assert "" + name == name;
    ExtensionOfStemDotExt(stem, ext);
  }

  /** Any extension outside the table, compared exactly, has no language. */
  lemma UnlistedExtension(ext: string)
    requires ext !in ["rs", "py", "go", "js", "jsx", "ts", "tsx", "md"]
    ensures LanguageOfExtension(ext) == None
  {
  }

  /** The language of a path is the table's entry for its extension. */
  lemma InferFromExtension(path: string, ext: string)
    requires Extension(path) == Some(ext)
    ensures InferLanguage(path) == LanguageOfExtension(ext)
  {
  }

  /** The table maps each language's own extension to it. */
  lemma TableEntry(lang: Language)
    ensures LanguageOfExtension(CanonicalExtension(lang)) == Some(lang)
  {
  }

  /** A bare file name `stem.ext` gets the language of `ext`. */
  lemma InferBareName(name: string, stem: string, ext: string)
    requires name == stem + "." + ext && stem != [] && name != ".."
    requires forall k :: 0 <= k < |name| ==> name[k] != '/'
    requires forall k :: 0 <= k < |ext| ==> ext[k] != '.'
    ensures InferLanguage(name) == LanguageOfExtension(ext)
  {
    ExtensionOfBareName(name, stem, ext);
    InferFromExtension(name, ext);
  }

  /** From the repository's test: `main.rs` is Rust. */
  lemma InferMainRs()
    ensures InferLanguage("main.rs") == Some(Rust)
  {
    InferBareName("main.rs", "main", "rs");
    TableEntry(Rust);
  }

  /** From the repository's test: `README.md` is Markdown. */
  lemma InferReadmeMd()
    ensures InferLanguage("README.md") == Some(Markdown)
  {
    InferBareName("README.md", "README", "md");
    TableEntry(Markdown);
  }

  /** From the repository's test: `script.py` is Python. */
  lemma InferScriptPy()
    ensures InferLanguage("script.py") == Some(Python)
  {
    InferBareName("script.py", "script", "py");
    TableEntry(Python);
  }

  /** From the repository's test: `photo.jpg` has no language. */
  lemma InferPhotoJpg()
    ensures InferLanguage("photo.jpg") == None
  {
    InferBareName("photo.jpg", "photo", "jpg");
    UnlistedExtension("jpg");
  }

  /** Upper case is not folded: `LIB.RS` has no language. */
  lemma InferUpperCase()
    ensures InferLanguage("LIB.RS") == None
  {
    InferBareName("LIB.RS", "LIB", "RS");
    UnlistedExtension("RS");
  }

  /** A hidden file such as `src/.rs` has no extension. */
  lemma InferHiddenFile()
    ensures InferLanguage("src/.rs") == None
  {
    FileNameAfterDirectory("src/", ".rs");
    assert "src/" + ".rs" == "src/.rs";
    assert LastIndexOfChar(".rs", '.') == Some(0);
  }

  /** A bare name without a dot has no extension. */
  lemma NoDotNoExtension(name: string)
    requires name != []
    requires forall k :: 0 <= k < |name| ==> name[k] != '/' && name[k] != '.'
    ensures InferLanguage(name) == None
  {
    NoDotExtension(name);
  }

  lemma NoDotExtension(name: string)
    requires name != []
    requires forall k :: 0 <= k < |name| ==> name[k] != '/' && name[k] != '.'
    ensures Extension(name) == None
  {
    assert name[0] != '.' && name != "." && name != "..";
    BareFileName(name);
    assert LastIndexOfChar(name, '.') == None;
  }

  /** A name without `/` that is not `.` or `..` is its own file name. */
  lemma BareFileName(name: string)
    requires name != [] && name != "." && name != ".."
    requires forall k :: 0 <= k < |name| ==> name[k] != '/'
    ensures FileName(name) == Some(name)
  {
    FileNameAfterDirectory("", name);
    assert "" + name == name;
  }
}

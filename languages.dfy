/** The language helpers shared by the explorer, the tabs and the editor:
    the extension-to-language table and the icon classifier. */
module Languages {
  import opened Options
  import opened Text

  /** The text after the last '.', lower-cased; a name without '.' is its
      own extension (`fileName.split('.').pop().toLowerCase()`). */
  function Extension(fileName: string): (ext: string)
    ensures '.' !in ext
    ensures '.' !in fileName ==> ext == ToLower(fileName)
    ensures |ext| <= |fileName|
  {
    var parts := Split(fileName, '.');
    SplitThenJoin(fileName, '.');
    JoinLastPartLength(parts, '.');
    if '.' !in fileName then
      JoinThenSplit([fileName], '.');
      ToLower(parts[|parts| - 1])
    else
      ToLower(parts[|parts| - 1])
  }

  /** The last part of a join is no longer than the joined text. */
  lemma {:induction false} JoinLastPartLength(parts: seq<string>, sep: char)
    requires |parts| >= 1
    ensures |parts[|parts| - 1]| <= |Join(parts, sep)|
  {
    if |parts| > 1 {
      JoinLastPartLength(parts[1..], sep);
    }
  }

  /** The own entries of `extensionMap`: the language an extension maps
      to, if the table lists it. */
  function TableLanguage(ext: string): (lang: Option<string>)
    ensures lang.Some? ==> lang.value in TableLanguages
  {
    match ext
    case "js" => Some("javascript")
    case "ts" => Some("typescript")
    case "jsx" => Some("javascript")
    case "tsx" => Some("typescript")
    case "html" => Some("html")
    case "htm" => Some("html")
    case "css" => Some("css")
    case "scss" => Some("scss")
    case "less" => Some("less")
    case "json" => Some("json")
    case "md" => Some("markdown")
    case "markdown" => Some("markdown")
    case "py" => Some("python")
    case "java" => Some("java")
    case "c" => Some("c")
    case "cpp" => Some("cpp")
    case "cc" => Some("cpp")
    case "h" => Some("c")
    case "hpp" => Some("cpp")
    case "cs" => Some("csharp")
    case "php" => Some("php")
    case "rb" => Some("ruby")
    case "go" => Some("go")
    case "rs" => Some("rust")
    case "swift" => Some("swift")
    case "kt" => Some("kotlin")
    case "kts" => Some("kotlin")
    case "dart" => Some("dart")
    case "sql" => Some("sql")
    case "sh" => Some("shell")
    case "bash" => Some("shell")
    case "yaml" => Some("yaml")
    case "yml" => Some("yaml")
    case "xml" => Some("xml")
    case "txt" => Some("plaintext")
    case _ => None
  }

  /** The languages the table maps to. */
  const TableLanguages: set<string> := {
    "javascript", "typescript", "html", "css", "scss", "less", "json", "markdown",
    "python", "java", "c", "cpp", "csharp", "php", "ruby", "go", "rust", "swift",
    "kotlin", "dart", "sql", "shell", "yaml", "xml", "plaintext"
  }

  /** The members every plain JavaScript object inherits from
      `Object.prototype`; indexing an object literal with one of these
      names yields the inherited member rather than `undefined`.  The
      extension is lower-cased before the lookup, so only the all-lower-case
      names, `constructor` and `__proto__`, can ever reach it. */
  const ObjectPrototypeMembers: set<string> := {
    "constructor", "__proto__", "hasOwnProperty", "isPrototypeOf",
    "propertyIsEnumerable", "toString", "toLocaleString", "valueOf",
    "__defineGetter__", "__defineSetter__", "__lookupGetter__", "__lookupSetter__"
  }

  /** What `extensionMap[ext] || 'plaintext'` evaluates to. */
  datatype LookupValue = Language(name: string) | InheritedMember(member: string)

  /** getLanguageFromExtension as written: an object-literal lookup, which
      also finds the members the literal inherits. */
  function LanguageFromExtensionAsWritten(fileName: string): (v: LookupValue)
    ensures Extension(fileName) in ObjectPrototypeMembers && TableLanguage(Extension(fileName)).None?
            ==> v.InheritedMember?
  {
    var ext := Extension(fileName);
    if TableLanguage(ext).Some? then Language(TableLanguage(ext).value)
    else if ext in ObjectPrototypeMembers then InheritedMember(ext)
    else Language("plaintext")
  }

  /** The inherited lookup returns a non-string for any file named
      "<stem>.constructor": the result is not a language. */
  lemma ConstructorExtensionIsNotALanguage(stem: string)
    ensures LanguageFromExtensionAsWritten(stem + ".constructor") == InheritedMember("constructor")
  {
    ConstructorExtension(stem);
    assert TableLanguage("constructor").None?;
    assert "constructor" in ObjectPrototypeMembers;
  }

  lemma ConstructorExtension(stem: string)
    ensures Extension(stem + ".constructor") == "constructor"
  {
    ExtensionAfterLastDot(stem, "constructor");
    assert stem + ".constructor" == stem + "." + "constructor";
    assert ToLower("constructor") == "constructor";
  }

  /** The extension is the text after the last '.', whatever precedes it. */
  lemma ExtensionAfterLastDot(stem: string, ext: string)
    requires '.' !in ext
    ensures Extension(stem + "." + ext) == ToLower(ext)
  {
    SplitLastPart(stem, ext, '.');
  }

  /** A split of `s + [sep] + t`, where `t` holds no separator, has at least
      two parts and ends with `t`. */
  lemma {:induction false} SplitLastPart(s: string, t: string, sep: char)
    requires sep !in t
    ensures var parts := Split(s + [sep] + t, sep); |parts| >= 2 && parts[|parts| - 1] == t
  {
    var whole := s + [sep] + t;
    if s == [] {
      assert whole == [sep] + t && whole[1..] == t;
      SplitAfterSeparatorFree(t, [], sep);
      assert t + [] == t;
    } else {
      SplitLastPart(s[1..], t, sep);
      assert whole[0] == s[0] && whole[1..] == s[1..] + [sep] + t;
    }
  }

  /** getLanguageFromExtension, looking up own entries only: the mapped
      language, or 'plaintext' for any other extension (the empty one
      included). */
  function LanguageFromExtension(fileName: string): (lang: string)
    ensures lang != ""
    ensures lang == TableLanguage(Extension(fileName)).GetOr("plaintext")
  {
    match TableLanguage(Extension(fileName))
    case Some(l) => l
    case None => "plaintext"
  }

  /** The two lookups agree on every name except those whose extension is an
      inherited member name. */
  lemma AsWrittenAgreesOutsideInheritedNames(fileName: string)
    requires Extension(fileName) !in ObjectPrototypeMembers
    ensures LanguageFromExtensionAsWritten(fileName) == Language(LanguageFromExtension(fileName))
  {
  }

  /** Lookup ignores case: upper- and lower-case spellings of a name give
      the same language. */
  lemma LanguageIgnoresCase(fileName: string)
    ensures LanguageFromExtension(ToLower(fileName)) == LanguageFromExtension(fileName)
  {
    ExtensionOfLowered(fileName);
  }

  lemma ExtensionOfLowered(fileName: string)
    ensures Extension(ToLower(fileName)) == Extension(fileName)
  {
    var parts := Split(fileName, '.');
    var lowered := LowerEach(parts);
    forall i | 0 <= i < |lowered| ensures '.' !in lowered[i] {
      LowerKeepsNoDot(parts[i]);
    }
    SplitThenJoin(fileName, '.');
    JoinOfLowered(parts, '.');
    JoinThenSplit(lowered, '.');
    ToLowerIdempotent(parts[|parts| - 1]);
  }

  /** Lower-casing adds no '.'. */
  lemma LowerKeepsNoDot(s: string)
    requires '.' !in s
    ensures '.' !in ToLower(s)
  {
    forall i | 0 <= i < |s| ensures ToLower(s)[i] != '.' {
      assert s[i] != '.';
    }
  }

  /** Every part lower-cased. */
  function LowerEach(parts: seq<string>): (r: seq<string>)
    ensures |r| == |parts|
    ensures forall i :: 0 <= i < |parts| ==> r[i] == ToLower(parts[i])
  {
    if parts == [] then [] else [ToLower(parts[0])] + LowerEach(parts[1..])
  }

  /** Lower-casing commutes with joining parts on a separator that is not a
      letter. */
  lemma {:induction false} JoinOfLowered(parts: seq<string>, sep: char)
    requires LowerChar(sep) == sep
    ensures ToLower(Join(parts, sep)) == Join(LowerEach(parts), sep)
  {
    if |parts| > 1 {
      JoinOfLowered(parts[1..], sep);
      assert LowerEach(parts)[1..] == LowerEach(parts[1..]);
      ToLowerOfConcat(parts[0] + [sep], Join(parts[1..], sep));
      ToLowerOfConcat(parts[0], [sep]);
    }
  }

  lemma ToLowerOfConcat(a: string, b: string)
    ensures ToLower(a + b) == ToLower(a) + ToLower(b)
  {
  }

  /** The script aliases collapse: jsx to javascript, tsx to typescript. */
  lemma ScriptAliasesCollapse(stem: string)
    ensures LanguageFromExtension(stem + ".jsx") == LanguageFromExtension(stem + ".js") == "javascript"
    ensures LanguageFromExtension(stem + ".tsx") == LanguageFromExtension(stem + ".ts") == "typescript"
  {
    TableEntry(stem, ".jsx", "jsx");
    TableEntry(stem, ".js", "js");
    TableEntry(stem, ".tsx", "tsx");
    TableEntry(stem, ".ts", "ts");
  }

  /** The header aliases collapse: h to c, hpp to cpp. */
  lemma HeaderAliasesCollapse(stem: string)
    ensures LanguageFromExtension(stem + ".h") == "c"
    ensures LanguageFromExtension(stem + ".hpp") == "cpp"
  {
    TableEntry(stem, ".h", "h");
    TableEntry(stem, ".hpp", "hpp");
  }

  /** yml to yaml, and sh and bash to shell. */
  lemma ShellAndYamlAliasesCollapse(stem: string)
    ensures LanguageFromExtension(stem + ".yml") == "yaml"
    ensures LanguageFromExtension(stem + ".sh") == LanguageFromExtension(stem + ".bash") == "shell"
  {
    TableEntry(stem, ".yml", "yml");
    TableEntry(stem, ".sh", "sh");
    TableEntry(stem, ".bash", "bash");
  }

  /** A name ending in a lower-case table extension gets that entry. */
  lemma TableEntry(stem: string, suffix: string, ext: string)
    requires suffix == "." + ext && '.' !in ext && ToLower(ext) == ext && TableLanguage(ext).Some?
    ensures LanguageFromExtension(stem + suffix) == TableLanguage(ext).value
  {
    ExtensionAfterLastDot(stem, ext);
    assert stem + suffix == stem + "." + ext;
  }

  // ---------------------------------------------------------------------
  // getFileIcon, as a classifier of the icon it draws
  // ---------------------------------------------------------------------

  /** The icon and colour getFileIcon picks. */
  datatype Icon =
    | ScriptIcon      // FileCode, yellow
    | MarkupIcon      // FileCode, orange
    | StyleIcon       // FileCode, blue
    | JsonIcon        // FileJson, green
    | MarkdownIcon    // FileText, light blue
    | PythonIcon      // FileCode, dark blue
    | JavaIcon        // FileCode, red
    | SqlIcon         // FileCode, purple
    | ShellIcon       // FileCode, grey
    | CodeIcon        // FileCode, default colour
    | GenericIcon     // plain File

  /** The icon for a language tag, compared case-insensitively. */
  function FileIcon(language: string): (icon: Icon)
    ensures icon == GenericIcon <==> ToLower(language) !in KnownIconLanguages
  {
    match ToLower(language)
    case "javascript" => ScriptIcon
    case "typescript" => ScriptIcon
    case "jsx" => ScriptIcon
    case "tsx" => ScriptIcon
    case "html" => MarkupIcon
    case "css" => StyleIcon
    case "scss" => StyleIcon
    case "less" => StyleIcon
    case "json" => JsonIcon
    case "markdown" => MarkdownIcon
    case "python" => PythonIcon
    case "java" => JavaIcon
    case "sql" => SqlIcon
    case "bash" => ShellIcon
    case "shell" => ShellIcon
    case "c" => CodeIcon
    case "cpp" => CodeIcon
    case "csharp" => CodeIcon
    case "php" => CodeIcon
    case "ruby" => CodeIcon
    case "go" => CodeIcon
    case "rust" => CodeIcon
    case "swift" => CodeIcon
    case "kotlin" => CodeIcon
    case "dart" => CodeIcon
    case _ => GenericIcon
  }

  /** The language tags getFileIcon has a specific icon for. */
  const KnownIconLanguages: set<string> := {
    "javascript", "typescript", "jsx", "tsx", "html", "css", "scss", "less",
    "json", "markdown", "python", "java", "sql", "bash", "shell",
    "c", "cpp", "csharp", "php", "ruby", "go", "rust", "swift", "kotlin", "dart"
  }

  /** The icon does not depend on the case of the language tag. */
  lemma FileIconIgnoresCase(language: string)
    ensures FileIcon(ToLower(language)) == FileIcon(language)
  {
    ToLowerIdempotent(language);
  }

  /** Every language the extension table yields, except plain text, YAML and
      XML, has a specific icon. */
  lemma TableLanguagesHaveIcons(fileName: string)
    ensures LanguageFromExtension(fileName) !in {"plaintext", "yaml", "xml"}
            ==> FileIcon(LanguageFromExtension(fileName)) != GenericIcon
  {
    var lang := LanguageFromExtension(fileName);
    if lang !in {"plaintext", "yaml", "xml"} {
      assert lang in TableLanguages;
      TableLanguageHasIcon(lang);
    }
  }

  lemma TableLanguageHasIcon(l: string)
    requires l in TableLanguages && l !in {"plaintext", "yaml", "xml"}
    ensures ToLower(l) == l && l in KnownIconLanguages
  {
  }
}

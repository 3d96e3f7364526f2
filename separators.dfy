/** `TextSplitter.GetSeparators` of Vectra/TextSplitter.cs: the separator list for a
    document type, tried in order by the recursive splitter. */
module Separators {
  import opened Wrappers

  /** `ToLower` on the ASCII letters; every other character is kept. */
  function ToLowerAscii(s: string): (r: string)
    ensures |r| == |s|
    ensures forall i :: 0 <= i < |s| ==> r[i] == LowerChar(s[i])
  {
    seq(|s|, i requires 0 <= i < |s| => LowerChar(s[i]))
  }

  function LowerChar(c: char): char {
    if 'A' <= c <= 'Z' then (c as int - 'A' as int + 'a' as int) as char else c
  }

  /** The list used for an unknown or absent document type: paragraphs, lines, words,
      and finally the empty separator that keeps the text whole. */
  const DefaultSeparators: seq<string> := ["\n\n", "\n", " ", ""]

  /** The list for a lower-cased document type name. */
  function SeparatorsFor(docType: string): seq<string> {
    match docType
    case "cpp" =>
      ["\nclass ", "\nvoid ", "\nint ", "\nfloat ", "\ndouble ", "\nif ", "\nfor ", "\nwhile ", "\nswitch ",
       "\ncase ", "\n\n", "\n", " "]
    case "go" =>
      ["\nfunc ", "\nvar ", "\nconst ", "\ntype ", "\nif ", "\nfor ", "\nswitch ", "\ncase ", "\n\n", "\n", " "]
    case "java" => CLikeSeparators
    case "c#" => CLikeSeparators
    case "csharp" => CLikeSeparators
    case "cs" => CLikeSeparators
    case "ts" => CLikeSeparators
    case "tsx" => CLikeSeparators
    case "typescript" => CLikeSeparators
    case "js" => JsSeparators
    case "jsx" => JsSeparators
    case "javascript" => JsSeparators
    case "php" =>
      ["\nfunction ", "\nclass ", "\nif ", "\nforeach ", "\nwhile ", "\ndo ", "\nswitch ", "\ncase ", "\n\n",
       "\n", " "]
    case "proto" =>
      ["\nmessage ", "\nservice ", "\nenum ", "\noption ", "\nimport ", "\nsyntax ", "\n\n", "\n", " "]
    case "python" => PythonSeparators
    case "py" => PythonSeparators
    case "rst" => ["\n===\n", "\n---\n", "\n***\n", "\n.. ", "\n\n", "\n", " "]
    case "ruby" =>
      ["\ndef ", "\nclass ", "\nif ", "\nunless ", "\nwhile ", "\nfor ", "\ndo ", "\nbegin ", "\nrescue ",
       "\n\n", "\n", " "]
    case "rust" =>
      ["\nfn ", "\nconst ", "\nlet ", "\nif ", "\nwhile ", "\nfor ", "\nloop ", "\nmatch ", "\nconst ", "\n\n",
       "\n", " "]
    case "scala" =>
      ["\nclass ", "\nobject ", "\ndef ", "\nval ", "\nvar ", "\nif ", "\nfor ", "\nwhile ", "\nmatch ",
       "\ncase ", "\n\n", "\n", " "]
    case "swift" =>
      ["\nfunc ", "\nclass ", "\nstruct ", "\nenum ", "\nif ", "\nfor ", "\nwhile ", "\ndo ", "\nswitch ",
       "\ncase ", "\n\n", "\n", " "]
    case "md" => MarkdownSeparators
    case "markdown" => MarkdownSeparators
    case "latex" =>
      ["\n\\chapter{", "\n\\section{", "\n\\subsection{", "\n\\subsubsection{", "\n\\begin{enumerate}",
       "\n\\begin{itemize}", "\n\\begin{description}", "\n\\begin{list}", "\n\\begin{quote}",
       "\n\\begin{quotation}", "\n\\begin{verse}", "\n\\begin{verbatim}", "\n\\begin{align}", "$$", "$",
       "\n\n", "\n", " "]
    case "html" =>
      ["<body>", "<div>", "<p>", "<br>", "<li>", "<h1>", "<h2>", "<h3>", "<h4>", "<h5>", "<h6>", "<span>",
       "<table>", "<tr>", "<td>", "<th>", "<ul>", "<ol>", "<header>", "<footer>", "<nav>", "<head>",
       "<style>", "<script>", "<meta>", "<title>", " "]
    case "sol" =>
      ["\npragma ", "\nusing ", "\ncontract ", "\ninterface ", "\nlibrary ", "\nconstructor ", "\ntype ",
       "\nfunction ", "\nevent ", "\nmodifier ", "\nerror ", "\nstruct ", "\nenum ", "\nif ", "\nfor ",
       "\nwhile ", "\ndo while ", "\nassembly ", "\n\n", "\n", " "]
    case _ => DefaultSeparators
  }

  const CLikeSeparators: seq<string> :=
    ["\nclass ", "\npublic ", "\nprotected ", "\nprivate ", "\nstatic ", "\nif ", "\nfor ", "\nwhile ",
     "\nswitch ", "\ncase ", "\n\n", "\n", " "]

  const JsSeparators: seq<string> :=
    ["\nclass ", "\nfunction ", "\nconst ", "\nlet ", "\nvar ", "\nclass ", "\nif ", "\nfor ", "\nwhile ",
     "\nswitch ", "\ncase ", "\ndefault ", "\n\n", "\n", " "]

  const PythonSeparators: seq<string> := ["\nclass ", "\ndef ", "\n\tdef ", "\n\n", "\n", " "]

  const MarkdownSeparators: seq<string> :=
    ["\n## ", "\n### ", "\n#### ", "\n##### ", "\n###### ", "```\n\n", "\n\n***\n\n", "\n\n---\n\n",
     "\n\n___\n\n", "<table>", "\n\n", "\n", " "]

  /** The document type names the switch recognises. */
  const KnownDocTypes: set<string> :=
    {"cpp", "go", "java", "c#", "csharp", "cs", "ts", "tsx", "typescript", "js", "jsx", "javascript", "php",
     "proto", "python", "py", "rst", "ruby", "rust", "scala", "swift", "md", "markdown", "latex", "html", "sol"}

  /** `GetSeparators(docType)`: the list for the lower-cased name, or the default. */
  function GetSeparators(docType: Option<string>): seq<string> {
    SeparatorsFor(if docType.Some? then ToLowerAscii(docType.value) else "")
  }

  /** A list for source text: it ends with the word separator " " and never uses the
      empty separator. */
  predicate EndsWithWords(seps: seq<string>) {
    |seps| > 0 && seps[|seps| - 1] == " " && forall k :: 0 <= k < |seps| ==> seps[k] != ""
  }

  /** Every known document type gets a list that ends with the word separator " " and
      never uses the empty separator (one lemma per group of the switch's cases). */
  lemma ListsEndWithWordsCppToTypescript()
    ensures EndsWithWords(SeparatorsFor("cpp"))
    ensures EndsWithWords(SeparatorsFor("go"))
    ensures EndsWithWords(SeparatorsFor("java"))
    ensures EndsWithWords(SeparatorsFor("c#"))
    ensures EndsWithWords(SeparatorsFor("csharp"))
    ensures EndsWithWords(SeparatorsFor("cs"))
    ensures EndsWithWords(SeparatorsFor("ts"))
    ensures EndsWithWords(SeparatorsFor("tsx"))
    ensures EndsWithWords(SeparatorsFor("typescript"))
  {
  }

  lemma ListsEndWithWordsJsToPy()
    ensures EndsWithWords(SeparatorsFor("js"))
    ensures EndsWithWords(SeparatorsFor("jsx"))
    ensures EndsWithWords(SeparatorsFor("javascript"))
    ensures EndsWithWords(SeparatorsFor("php"))
    ensures EndsWithWords(SeparatorsFor("proto"))
    ensures EndsWithWords(SeparatorsFor("python"))
    ensures EndsWithWords(SeparatorsFor("py"))
  {
  }

  lemma ListsEndWithWordsRstToSwift()
    ensures EndsWithWords(SeparatorsFor("rst"))
    ensures EndsWithWords(SeparatorsFor("ruby"))
    ensures EndsWithWords(SeparatorsFor("rust"))
    ensures EndsWithWords(SeparatorsFor("scala"))
    ensures EndsWithWords(SeparatorsFor("swift"))
  {
  }

  lemma ListsEndWithWordsMdToLatex()
    ensures EndsWithWords(SeparatorsFor("md"))
    ensures EndsWithWords(SeparatorsFor("markdown"))
    ensures EndsWithWords(SeparatorsFor("latex"))
  {
  }

  lemma ListsEndWithWordsHtmlAndSol()
    ensures EndsWithWords(SeparatorsFor("html"))
    ensures EndsWithWords(SeparatorsFor("sol"))
  {
  }

  /** Every document type the switch does not name gets the default list, whose last
      separator is the empty one. */
  lemma UnknownDocTypeGetsDefault(docType: string)
    requires docType !in KnownDocTypes
    ensures SeparatorsFor(docType) == DefaultSeparators
    ensures DefaultSeparators[|DefaultSeparators| - 1] == "" && !EndsWithWords(DefaultSeparators)
  {
  }

  /** No document type at all gives the default list, and the name is matched without
      regard to ASCII case. */
  lemma DocTypeLookup(docType: string)
    ensures GetSeparators(None) == DefaultSeparators
    ensures GetSeparators(Some(docType)) == SeparatorsFor(ToLowerAscii(docType))
    ensures GetSeparators(Some(ToLowerAscii(docType))) == GetSeparators(Some(docType))
  {
    var lower := ToLowerAscii(docType);
    assert ToLowerAscii(lower) == lower by {
      forall i | 0 <= i < |lower| ensures ToLowerAscii(lower)[i] == lower[i] {
        assert LowerChar(LowerChar(docType[i])) == LowerChar(docType[i]);
      }
    }
  }

  /** The aliases of a language share one list. */
  lemma AliasesShareList()
    ensures SeparatorsFor("java") == SeparatorsFor("c#") == SeparatorsFor("csharp") == SeparatorsFor("cs")
         == SeparatorsFor("ts") == SeparatorsFor("tsx") == SeparatorsFor("typescript")
    ensures SeparatorsFor("js") == SeparatorsFor("jsx") == SeparatorsFor("javascript")
    ensures SeparatorsFor("python") == SeparatorsFor("py")
    ensures SeparatorsFor("md") == SeparatorsFor("markdown")
    ensures GetSeparators(Some("CSharp")) == CLikeSeparators
  {
    assert ToLowerAscii("CSharp") == "csharp";
  }
}

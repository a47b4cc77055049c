/** The value types of `data/models.rs`: `Document` and `FileType`. */
module Models {
  import opened Outcomes

  /** An `f32`, kept as its IEEE-754 bit pattern; the model never computes with it. */
  type F32 = bv32

  /**
   * A chunk of text with optional string metadata and an optional embedding.
   * `Document::new` is this datatype's constructor: it stores its three
   * arguments as they are.
   */
  datatype Document = Document(
    pageContent: string,
    metadata: Option<map<string, string>>,
    embeddingVector: Option<seq<F32>>)

  /** `PartialEq for Document`: only the page content is compared. */
  predicate Same(a: Document, b: Document)
  {
    a.pageContent == b.pageContent
  }

  /**
   * `Hash for Document`: a hasher is modelled by the sequence of values written
   * into it, and hashing a Document writes its page content and nothing else.
   */
  function Hash(d: Document, state: seq<string>): (r: seq<string>)
    ensures |r| == |state| + 1 && r[..|state|] == state
    ensures r[|state|] == d.pageContent
  {
    state + [d.pageContent]
  }

  /** Equality ignores metadata and embedding: replacing them gives an equal Document. */
  lemma SameIgnoresMetadata(d: Document, m: Option<map<string, string>>, e: Option<seq<F32>>)
    ensures Same(d, d.(metadata := m, embeddingVector := e))
    ensures Same(d, Document(d.pageContent, m, e))
  {
  }

  /** Documents with different page content are never equal. */
  lemma DifferentContentNotSame(a: Document, b: Document)
    requires a.pageContent != b.pageContent
    ensures !Same(a, b)
  {
  }

  /** `Same` is an equivalence relation, as `impl Eq for Document` asserts. */
  lemma SameIsEquivalence(a: Document, b: Document, c: Document)
    ensures Same(a, a)
    ensures Same(a, b) ==> Same(b, a)
    ensures Same(a, b) && Same(b, c) ==> Same(a, c)
  {
  }

  /** Equal Documents feed a hasher the same values, so every hasher finishes with the same hash. */
  lemma HashConsistentWithSame(a: Document, b: Document, state: seq<string>, finish: seq<string> -> nat)
    requires Same(a, b)
    ensures Hash(a, state) == Hash(b, state)
    ensures finish(Hash(a, state)) == finish(Hash(b, state))
  {
  }

  /** The closed set of file kinds the extractor knows. */
  datatype FileType = PDF | TXT | DOCX | UNKNOWN

  /** The extension tokens that select the DOCX-family extractor. */
  const DocxFamily: set<string> := {"docx", "pptx", "xlsx", "odt", "ods", "odp"}

  /** `From<String> for FileType`: an exact, case-sensitive match on the extension token. */
  function FileTypeFrom(s: string): (t: FileType)
    ensures t == PDF <==> s == "pdf"
    ensures t == TXT <==> s == "txt"
    ensures t == DOCX <==> s in DocxFamily
    ensures t == UNKNOWN <==> s != "pdf" && s != "txt" && s !in DocxFamily
  {
    match s
    case "pdf" => PDF
    case "txt" => TXT
    case "docx" => DOCX
    case "pptx" => DOCX
    case "xlsx" => DOCX
    case "odt" => DOCX
    case "ods" => DOCX
    case "odp" => DOCX
    case _ => UNKNOWN
  }

  /** `Display for FileType`: the canonical lower-case token, which parses back to the same variant. */
  function Display(t: FileType): (s: string)
    ensures FileTypeFrom(s) == t
    ensures s == "unknown" <==> t == UNKNOWN
  {
    match t
    case DOCX => "docx"
    case PDF => "pdf"
    case TXT => "txt"
    case UNKNOWN => "unknown"
  }

  /** Rendering then parsing is the identity on every variant. */
  lemma FileTypeRoundTrip(t: FileType)
    ensures FileTypeFrom(Display(t)) == t
  {
  }

  /** Parsing then rendering is the identity exactly on the canonical tokens. */
  lemma TokenRoundTrip(s: string)
    ensures Display(FileTypeFrom(s)) == s <==> s in {"pdf", "txt", "docx", "unknown"}
  {
  }

  /** Parsing is not injective: the other DOCX-family tokens render as "docx". */
  lemma FileTypeFromNotInjective()
    ensures FileTypeFrom("pptx") == FileTypeFrom("docx")
    ensures forall s :: s in DocxFamily ==> Display(FileTypeFrom(s)) == "docx"
    ensures FileTypeFrom("PDF") == UNKNOWN && FileTypeFrom("Txt") == UNKNOWN
  {
  }
}

/**
 * `TextChunker` in `data/chunking.rs`: flattening PDF dictionaries to string
 * maps, collecting font metadata, the outcome logic of the per-format
 * extractors, the CSV row fan-out onto the embedding queue, and `chunk`.
 * lopdf, pdf_extract, dotext, the csv crate, `std::fs` and the text splitter
 * appear only through the outcomes they return.
 */
module Chunking {
  import opened Outcomes
  import opened Text
  import opened Pairs
  import opened Models
  import opened PdfObjects

  // ---------------------------------------------------------------------------
  // dictionary_to_hashmap
  // ---------------------------------------------------------------------------

  /**
   * The formatters `dictionary_to_hashmap` relies on: `String::from_utf8_lossy`,
   * `f32::to_string`, and `serde_json::to_string` of a string map (None when it fails).
   */
  datatype Renderers = Renderers(
    lossy: Bytes -> string,
    float: F32 -> string,
    json: map<string, string> -> Option<string>)

  function BoolText(b: bool): string
  {
    if b then "true" else "false"
  }

  /** How an element of an array value is rendered: scalars as text, anything else as "Unknown Type". */
  function RenderElement(o: Object, R: Renderers): string
  {
    match o
    case Str(s, _) => R.lossy(s)
    case Name(s) => R.lossy(s)
    case Integer(i) => IntToDecimal(i as int)
    case Real(f) => R.float(f)
    case Boolean(b) => BoolText(b)
    case _ => "Unknown Type"
  }

  /** The renderings of an array's elements, in order. */
  function ElementTexts(xs: seq<Object>, R: Renderers): (r: seq<string>)
    ensures |r| == |xs| && forall i :: 0 <= i < |xs| ==> r[i] == RenderElement(xs[i], R)
  {
    seq(|xs|, i requires 0 <= i < |xs| => RenderElement(xs[i], R))
  }

  /** The serialised nested map, or "Invalid JSON" when serialisation fails. */
  function JsonOrInvalid(m: map<string, string>, R: Renderers): string
  {
    match R.json(m)
    case Some(s) => s
    case None => "Invalid JSON"
  }

  /** The string a dictionary value becomes. */
  function RenderValue(o: Object, R: Renderers): string
  {
    match o
    case Array(xs) => "[" + Join(ElementTexts(xs, R), ", ") + "]"
    case Dictionary(d) => JsonOrInvalid(FromPairs(DictPairs(d, R)), R)
    case Stream(_, _) => "Stream Data"
    case _ => RenderElement(o, R)
  }

  /** The (key, value) pairs `dictionary_to_hashmap` inserts, in the dictionary's order. */
  function DictPairs(d: Dictionary, R: Renderers): (r: seq<(string, string)>)
  {
    seq(|d|, i requires 0 <= i < |d| => (R.lossy(d[i].key), RenderValue(d[i].value, R)))
  }

  /** The map `dictionary_to_hashmap` returns. */
  function DictMap(d: Dictionary, R: Renderers): map<string, string>
  {
    FromPairs(DictPairs(d, R))
  }

  /** `dictionary_to_hashmap`: one insert per entry, recursing into nested dictionaries. */
  method DictionaryToHashmap(d: Dictionary, R: Renderers) returns (m: map<string, string>)
    ensures m == DictMap(d, R)
  {
    m := map[];
    for i := 0 to |d|
      invariant m == FromPairs(DictPairs(d, R)[..i])
    {
      var key := R.lossy(d[i].key);
      var value: string;
      match d[i].value {
        case Dictionary(nested) =>
          var nestedMap := DictionaryToHashmap(nested, R);
          value := JsonOrInvalid(nestedMap, R);
        case Array(xs) =>
          value := "[" + Join(ElementTexts(xs, R), ", ") + "]";
        case Stream(_, _) =>
          value := "Stream Data";
        case _ =>
          value := RenderElement(d[i].value, R);
      }
      assert DictPairs(d, R)[..i + 1] == DictPairs(d, R)[..i] + [(key, value)];
      FromPairsSnoc(DictPairs(d, R)[..i], (key, value));
      m := m[key := value];
    }
    assert DictPairs(d, R)[..|d|] == DictPairs(d, R);
  }

  /** The map has one key per entry's decoded key, and no other keys. */
  lemma DictMapKeys(d: Dictionary, R: Renderers)
    ensures DictMap(d, R).Keys == set i | 0 <= i < |d| :: R.lossy(d[i].key)
  {
    FromPairsKeys(DictPairs(d, R));
    var ps := DictPairs(d, R);
    assert KeysOf(ps) == set i | 0 <= i < |d| :: R.lossy(d[i].key) by {
      forall k | k in KeysOf(ps) ensures k in set i | 0 <= i < |d| :: R.lossy(d[i].key) {
        var i :| 0 <= i < |ps| && ps[i].0 == k;
        assert R.lossy(d[i].key) == k;
      }
      forall k | k in set i | 0 <= i < |d| :: R.lossy(d[i].key) ensures k in KeysOf(ps) {
        var i :| 0 <= i < |d| && R.lossy(d[i].key) == k;
        assert ps[i].0 == k;
      }
    }
  }

  /**
   * An entry's rendered value is stored under its decoded key unless a later
   * entry's key decodes to the same text (lossy decoding can merge keys).
   */
  lemma DictMapValue(d: Dictionary, R: Renderers, i: nat)
    requires i < |d|
    requires forall j :: i < j < |d| ==> R.lossy(d[j].key) != R.lossy(d[i].key)
    ensures R.lossy(d[i].key) in DictMap(d, R)
    ensures DictMap(d, R)[R.lossy(d[i].key)] == RenderValue(d[i].value, R)
  {
    var ps := DictPairs(d, R);
    assert LastWithKey(ps, i) by {
      forall j | i < j < |ps| ensures ps[j].0 != ps[i].0 {
        assert ps[j].0 == R.lossy(d[j].key);
      }
    }
    FromPairsLastWins(ps, i);
  }

  /** When no two keys decode to the same text, the map has exactly one entry per dictionary entry. */
  lemma DictMapSize(d: Dictionary, R: Renderers)
    requires forall i, j :: 0 <= i < j < |d| ==> R.lossy(d[i].key) != R.lossy(d[j].key)
    ensures |DictMap(d, R)| == |d|
  {
    var ps := DictPairs(d, R);
    assert DistinctKeys(ps) by {
      forall i, j | 0 <= i < j < |ps| ensures ps[i].0 != ps[j].0 {
        assert ps[i].0 == R.lossy(d[i].key) && ps[j].0 == R.lossy(d[j].key);
      }
    }
    FromPairsSize(ps);
  }

  /**
   * The rendering of each kind of value. An integer's text is its canonical
   * decimal form (no leading zeros, no "-0"), which parses back to the integer.
   */
  lemma RenderValueCases(o: Object, R: Renderers)
    ensures o.Str? ==> RenderValue(o, R) == R.lossy(o.bytes)
    ensures o.Name? ==> RenderValue(o, R) == R.lossy(o.name)
    ensures o.Boolean? ==> RenderValue(o, R) == (if o.b then "true" else "false")
    ensures o.Real? ==> RenderValue(o, R) == R.float(o.f)
    ensures o.Stream? ==> RenderValue(o, R) == "Stream Data"
    ensures o.Null? || o.Reference? ==> RenderValue(o, R) == "Unknown Type"
    ensures o.Dictionary? && R.json(DictMap(o.dict, R)).None? ==> RenderValue(o, R) == "Invalid JSON"
    ensures o.Dictionary? && R.json(DictMap(o.dict, R)).Some? ==>
      RenderValue(o, R) == R.json(DictMap(o.dict, R)).value
    ensures o.Integer? ==> var r := RenderValue(o, R);
      |r| > 0 && (if r[0] == '-' then IsDigits(r[1..]) else IsDigits(r)) && ParseInt(r) == o.i as int
    ensures o.Integer? ==> var r := RenderValue(o, R);
      (r[0] == '0' ==> r == "0") && (r[0] == '-' ==> |r| > 1 && r[1] != '0')
  {
    if o.Integer? {
      IntDecimalRoundTrip(o.i as int);
    }
  }

  /**
   * Inside an array only scalars are rendered; a nested array, dictionary or
   * stream becomes "Unknown Type". The array's text is bracketed.
   */
  lemma ArrayRendering(xs: seq<Object>, R: Renderers)
    ensures var r := RenderValue(Array(xs), R);
      |r| >= 2 && r[0] == '[' && r[|r| - 1] == ']' && r[1..|r| - 1] == Join(ElementTexts(xs, R), ", ")
    ensures forall i :: 0 <= i < |xs| && (xs[i].Array? || xs[i].Dictionary? || xs[i].Stream?) ==>
      ElementTexts(xs, R)[i] == "Unknown Type"
    ensures forall i :: 0 <= i < |xs| && !(xs[i].Array? || xs[i].Dictionary? || xs[i].Stream?) ==>
      ElementTexts(xs, R)[i] == RenderValue(xs[i], R)
  {
  }

  /** A worked example: elements are joined by ", " and a nested array is not expanded. */
  lemma ArrayRenderingExample(R: Renderers)
    ensures RenderValue(Array([Integer(7), Array([Boolean(false)])]), R) == "[7, Unknown Type]"
  {
    var xs := [Integer(7), Array([Boolean(false)])];
    assert IntToDecimal(7) == "7";
    assert ElementTexts(xs, R) == ["7", "Unknown Type"];
    ExampleJoin();
  }

  lemma ExampleJoin()
    ensures "[" + Join(["7", "Unknown Type"], ", ") + "]" == "[7, Unknown Type]"
  {
    assert Join(["Unknown Type"], ", ") == "Unknown Type";
    assert Join(["7", "Unknown Type"], ", ") == "7, Unknown Type";
  }

  // ---------------------------------------------------------------------------
  // detect_pdf_fonts
  // ---------------------------------------------------------------------------

  const FontKey: Bytes := [0x46, 0x6F, 0x6E, 0x74]                              // "Font"
  const BaseFontKey: Bytes := [0x42, 0x61, 0x73, 0x65, 0x46, 0x6F, 0x6E, 0x74]  // "BaseFont"
  const EncodingKey: Bytes := [0x45, 0x6E, 0x63, 0x6F, 0x64, 0x69, 0x6E, 0x67]  // "Encoding"

  /** A font dictionary whose BaseFont (required) and Encoding (optional) read as names. */
  predicate FontDictReadable(fd: Dictionary, utf8: Utf8Decoder)
  {
    && Get(fd, BaseFontKey).Some?
    && AsNameStr(Get(fd, BaseFontKey).value, utf8).Some?
    && (Get(fd, EncodingKey).Some? ==> AsNameStr(Get(fd, EncodingKey).value, utf8).Some?)
  }

  /** A font entry that is a reference `get_object` resolves, readable if it resolves to a dictionary. */
  predicate FontEntryReadable(doc: PdfDocument, e: Entry, utf8: Utf8Decoder)
  {
    && e.value.Reference?
    && GetObject(doc, e.value.id).Ok?
    && (GetObject(doc, e.value.id).value.Dictionary? ==> FontDictReadable(GetObject(doc, e.value.id).value.dict, utf8))
  }

  /** Resources whose `Font` entry is a dictionary. */
  predicate HasFontDict(r: Dictionary)
  {
    Get(r, FontKey).Some? && Get(r, FontKey).value.Dictionary?
  }

  function FontEntries(r: Dictionary): Dictionary
    requires HasFontDict(r)
  {
    Get(r, FontKey).value.dict
  }

  /** Every entry of a page's font dictionary is readable. */
  predicate EntriesReadable(doc: PdfDocument, fonts: Dictionary, utf8: Utf8Decoder)
  {
    forall i :: 0 <= i < |fonts| ==> FontEntryReadable(doc, fonts[i], utf8)
  }

  /** Every `unwrap` in `detect_pdf_fonts` succeeds on this page. */
  predicate PageReadable(doc: PdfDocument, p: PdfPage, utf8: Utf8Decoder)
  {
    p.resources.Some? ==>
      && HasFontDict(p.resources.value)
      && EntriesReadable(doc, FontEntries(p.resources.value), utf8)
  }

  /** Every `unwrap` in `detect_pdf_fonts` succeeds on this document. */
  predicate FontsReadable(doc: PdfDocument, utf8: Utf8Decoder)
  {
    forall p :: p in doc.pages ==> PageReadable(doc, p, utf8)
  }

  function BaseFontName(fd: Dictionary, utf8: Utf8Decoder): string
    requires FontDictReadable(fd, utf8)
  {
    AsNameStr(Get(fd, BaseFontKey).value, utf8).value
  }

  /** The Encoding name, or "Unknown" when the font dictionary has no Encoding. */
  function EncodingName(fd: Dictionary, utf8: Utf8Decoder): (r: string)
    requires FontDictReadable(fd, utf8)
    ensures Get(fd, EncodingKey).None? ==> r == "Unknown"
    ensures Get(fd, EncodingKey).Some? ==> r == AsNameStr(Get(fd, EncodingKey).value, utf8).value
  {
    match Get(fd, EncodingKey)
    case None => "Unknown"
    case Some(e) => AsNameStr(e, utf8).value
  }

  /** The (BaseFont, Encoding) pairs of a page's font entries; entries not resolving to a dictionary give none. */
  function EntryFontPairs(doc: PdfDocument, fonts: Dictionary, utf8: Utf8Decoder): seq<(string, string)>
    requires EntriesReadable(doc, fonts, utf8)
  {
    if fonts == [] then []
    else
      var n := |fonts| - 1;
      var before := EntryFontPairs(doc, fonts[..n], utf8);
      match GetObject(doc, fonts[n].value.id).value
      case Dictionary(fd) => before + [(BaseFontName(fd, utf8), EncodingName(fd, utf8))]
      case _ => before
  }

  /** A page without resources contributes no pairs. */
  function PageFontPairs(doc: PdfDocument, p: PdfPage, utf8: Utf8Decoder): seq<(string, string)>
    requires PageReadable(doc, p, utf8)
  {
    match p.resources
    case None => []
    case Some(r) => EntryFontPairs(doc, FontEntries(r), utf8)
  }

  /** The pairs of all pages, in page order then font order. */
  function FontPairs(doc: PdfDocument, pages: seq<PdfPage>, utf8: Utf8Decoder): seq<(string, string)>
    requires forall p :: p in pages ==> PageReadable(doc, p, utf8)
  {
    if pages == [] then []
    else
      var n := |pages| - 1;
      assert pages[n] in pages;
      FontPairs(doc, pages[..n], utf8) + PageFontPairs(doc, pages[n], utf8)
  }

  /** The map `detect_pdf_fonts` returns: later pairs overwrite earlier ones with the same BaseFont. */
  function FontMap(doc: PdfDocument, utf8: Utf8Decoder): map<string, string>
    requires FontsReadable(doc, utf8)
  {
    FromPairs(FontPairs(doc, doc.pages, utf8))
  }

  /** The pairs of the first `p + 1` pages extend those of the first `p` by page `p`'s pairs. */
  lemma FontPairsPrefix(doc: PdfDocument, pages: seq<PdfPage>, p: nat, utf8: Utf8Decoder)
    requires p < |pages| && forall q :: q in pages ==> PageReadable(doc, q, utf8)
    ensures forall q :: q in pages[..p + 1] ==> PageReadable(doc, q, utf8)
    ensures forall q :: q in pages[..p] ==> PageReadable(doc, q, utf8)
    ensures pages[p] in pages
    ensures FontPairs(doc, pages[..p + 1], utf8) == FontPairs(doc, pages[..p], utf8) + PageFontPairs(doc, pages[p], utf8)
  {
    assert pages[..p + 1][..p] == pages[..p];
  }

  /** The inner loop of `detect_pdf_fonts`: inserts the pairs of one page's font entries. */
  method InsertPageFonts(doc: PdfDocument, fonts: Dictionary, utf8: Utf8Decoder,
                         ghost before: seq<(string, string)>, m0: map<string, string>)
    returns (m: map<string, string>)
    requires EntriesReadable(doc, fonts, utf8) && m0 == FromPairs(before)
    ensures m == FromPairs(before + EntryFontPairs(doc, fonts, utf8))
  {
    m := m0;
    assert fonts[..0] == [] && before + [] == before;
    for f := 0 to |fonts|
      invariant m == FromPairs(before + EntryFontPairs(doc, fonts[..f], utf8))
    {
      assert fonts[..f + 1][..f] == fonts[..f];
      ghost var done := before + EntryFontPairs(doc, fonts[..f], utf8);
      match GetObject(doc, fonts[f].value.id).value {
        case Dictionary(fd) =>
          var baseFont := BaseFontName(fd, utf8);
          var encoding := EncodingName(fd, utf8);
          assert before + EntryFontPairs(doc, fonts[..f + 1], utf8) == done + [(baseFont, encoding)];
          FromPairsSnoc(done, (baseFont, encoding));
          m := m[baseFont := encoding];
        case _ =>
      }
    }
    assert fonts[..|fonts|] == fonts;
  }

  /** `detect_pdf_fonts`: one insert per font entry that resolves to a dictionary, page by page. */
  method DetectPdfFonts(doc: PdfDocument, utf8: Utf8Decoder) returns (m: map<string, string>)
    requires FontsReadable(doc, utf8)
    ensures m == FontMap(doc, utf8)
  {
    m := map[];
    for p := 0 to |doc.pages|
      invariant m == FromPairs(FontPairs(doc, doc.pages[..p], utf8))
    {
      FontPairsPrefix(doc, doc.pages, p, utf8);
      var page := doc.pages[p];
      match page.resources {
        case None =>
          assert FontPairs(doc, doc.pages[..p], utf8) + [] == FontPairs(doc, doc.pages[..p], utf8);
        case Some(r) =>
          m := InsertPageFonts(doc, FontEntries(r), utf8, FontPairs(doc, doc.pages[..p], utf8), m);
      }
    }
    assert doc.pages[..|doc.pages|] == doc.pages;
  }

  /** The font entry names the font `name` as its BaseFont. */
  predicate EntryDeclares(doc: PdfDocument, e: Entry, name: string, utf8: Utf8Decoder)
  {
    FontEntryReadable(doc, e, utf8) && GetObject(doc, e.value.id).value.Dictionary? && BaseFontName(GetObject(doc, e.value.id).value.dict, utf8) == name
  }

  /** The page has resources, and one of its font entries names the font `name`. */
  predicate PageDeclares(doc: PdfDocument, p: PdfPage, name: string, utf8: Utf8Decoder)
  {
    PageReadable(doc, p, utf8) && p.resources.Some? &&
    exists e :: e in FontEntries(p.resources.value) && EntryDeclares(doc, e, name, utf8)
  }

  lemma {:induction false} EntryFontPairsKeys(doc: PdfDocument, fonts: Dictionary, name: string, utf8: Utf8Decoder)
    requires EntriesReadable(doc, fonts, utf8)
    ensures name in KeysOf(EntryFontPairs(doc, fonts, utf8)) <==>
      exists e :: e in fonts && EntryDeclares(doc, e, name, utf8)
  {
    if fonts != [] {
      var n := |fonts| - 1;
      EntryFontPairsKeys(doc, fonts[..n], name, utf8);
      assert fonts == fonts[..n] + [fonts[n]];
      assert fonts[n] in fonts;
      match GetObject(doc, fonts[n].value.id).value
      case Dictionary(fd) =>
        var pair := (BaseFontName(fd, utf8), EncodingName(fd, utf8));
        KeysOfConcat(EntryFontPairs(doc, fonts[..n], utf8), [pair]);
        KeysOfSingleton(pair);
      case _ =>
    }
  }

  lemma {:induction false} FontPairsKeys(doc: PdfDocument, pages: seq<PdfPage>, name: string, utf8: Utf8Decoder)
    requires forall p :: p in pages ==> PageReadable(doc, p, utf8)
    ensures name in KeysOf(FontPairs(doc, pages, utf8)) <==>
      exists p :: p in pages && PageDeclares(doc, p, name, utf8)
  {
    if pages != [] {
      var n := |pages| - 1;
      var last := pages[n];
      assert last in pages;
      assert forall p :: p in pages[..n] ==> p in pages;
      FontPairsKeys(doc, pages[..n], name, utf8);
      KeysOfConcat(FontPairs(doc, pages[..n], utf8), PageFontPairs(doc, last, utf8));
      PageFontPairsKeys(doc, last, name, utf8);
      DeclaresSplit(doc, pages, name, utf8);
    }
  }

  /** A page's own pairs name a font exactly when the page declares it. */
  lemma PageFontPairsKeys(doc: PdfDocument, page: PdfPage, name: string, utf8: Utf8Decoder)
    requires PageReadable(doc, page, utf8)
    ensures name in KeysOf(PageFontPairs(doc, page, utf8)) <==> PageDeclares(doc, page, name, utf8)
  {
    if page.resources.Some? {
      EntryFontPairsKeys(doc, FontEntries(page.resources.value), name, utf8);
    }
  }

  /** Some page declares the font exactly when an earlier page or the last one does. */
  lemma DeclaresSplit(doc: PdfDocument, pages: seq<PdfPage>, name: string, utf8: Utf8Decoder)
    requires pages != []
    ensures (exists p :: p in pages && PageDeclares(doc, p, name, utf8)) <==>
      (exists p :: p in pages[..|pages| - 1] && PageDeclares(doc, p, name, utf8)) || PageDeclares(doc, pages[|pages| - 1], name, utf8)
  {
    var n := |pages| - 1;
    assert pages == pages[..n] + [pages[n]];
    if p :| p in pages && PageDeclares(doc, p, name, utf8) {
      if p != pages[n] { assert p in pages[..n]; }
    }
  }

  /**
   * The font map has a key exactly for each BaseFont named by a font entry of a
   * page with resources; pages without resources add nothing.
   */
  lemma FontMapKeys(doc: PdfDocument, name: string, utf8: Utf8Decoder)
    requires FontsReadable(doc, utf8)
    ensures name in FontMap(doc, utf8) <==> exists p :: p in doc.pages && PageDeclares(doc, p, name, utf8)
  {
    FromPairsKeys(FontPairs(doc, doc.pages, utf8));
    FontPairsKeys(doc, doc.pages, name, utf8);
  }

  /** Appending a page without resources leaves the collected pairs unchanged. */
  lemma PageWithoutResourcesAddsNothing(doc: PdfDocument, pages: seq<PdfPage>, id: ObjectId, utf8: Utf8Decoder)
    requires forall p :: p in pages ==> PageReadable(doc, p, utf8)
    ensures forall p :: p in pages + [PdfPage(id, None)] ==> PageReadable(doc, p, utf8)
    ensures FontPairs(doc, pages + [PdfPage(id, None)], utf8) == FontPairs(doc, pages, utf8)
  {
    assert (pages + [PdfPage(id, None)])[..|pages|] == pages;
  }

  /**
   * The value under a BaseFont is the encoding from the last pair naming that
   * font: a later font with the same BaseFont overwrites an earlier one.
   */
  lemma FontMapLastWins(doc: PdfDocument, utf8: Utf8Decoder, i: nat)
    requires FontsReadable(doc, utf8)
    requires i < |FontPairs(doc, doc.pages, utf8)| && LastWithKey(FontPairs(doc, doc.pages, utf8), i)
    ensures var pair := FontPairs(doc, doc.pages, utf8)[i];
      pair.0 in FontMap(doc, utf8) && FontMap(doc, utf8)[pair.0] == pair.1
  {
    FromPairsLastWins(FontPairs(doc, doc.pages, utf8), i);
  }

  // ---------------------------------------------------------------------------
  // extract_text_from_pdf / _docx / _txt
  // ---------------------------------------------------------------------------

  /** Why an extraction or chunking call returned `Err`. */
  datatype ChunkingError =
    | PdfLoadFailed(cause: string)            // lopdf could not load the document
    | PdfTextFailed(cause: string)            // pdf_extract failed
    | PageNotADictionary(lookup: LookupError) // `get_dictionary(page)?`
    | EmptyPdfText                            // extracted text was empty
    | ReadFailed(cause: string)               // `fs::read_to_string` failed
    | ChunkerFailed                           // the splitter returned `Err`

  /** The text of a document and its metadata. */
  type Extracted = (string, map<string, string>)

  const CharacterCountKey: string := "character count"

  /**
   * `extract_text_from_pdf`, given what lopdf's loader and pdf_extract return
   * for the path. The font map is computed first and only survives when the
   * document has no pages.
   */
  function ExtractTextFromPdf(load: Result<PdfDocument, string>, extracted: Result<string, string>,
                              R: Renderers, utf8: Utf8Decoder): (r: Result<Extracted, ChunkingError>)
    requires load.Ok? ==> FontsReadable(load.value, utf8)
    ensures load.Err? ==> r == Err(PdfLoadFailed(load.error))
    ensures load.Ok? && load.value.pages == [] ==> r == Ok(("", FontMap(load.value, utf8)))
    ensures load.Ok? && load.value.pages != [] && extracted.Err? ==> r == Err(PdfTextFailed(extracted.error))
    ensures load.Ok? && load.value.pages != [] && extracted.Ok? ==>
      var first := GetDictionary(load.value, load.value.pages[0].id);
      && (first.Err? ==> r == Err(PageNotADictionary(first.error)))
      && (first.Ok? && extracted.value == "" ==> r == Err(EmptyPdfText))
      && (first.Ok? && extracted.value != "" ==>
            r == Ok((extracted.value,
                     DictMap(first.value, R)[CharacterCountKey := IntToDecimal(Utf8Length(extracted.value))])))
  {
    match load
    case Err(e) => Err(PdfLoadFailed(e))
    case Ok(doc) =>
      var fonts := FontMap(doc, utf8);
      if doc.pages == [] then Ok(("", fonts))
      else
        match extracted
        case Err(e) => Err(PdfTextFailed(e))
        case Ok(text) =>
          match GetDictionary(doc, doc.pages[0].id)
          case Err(e) => Err(PageNotADictionary(e))
          case Ok(pageDict) =>
            if text == "" then Err(EmptyPdfText)
            else Ok((text, DictMap(pageDict, R)[CharacterCountKey := IntToDecimal(Utf8Length(text))]))
  }
  /**
   * The font map never reaches a caller: it is kept only when there are no
   * pages, and then no page declares a font, so the map is empty.
   */
  lemma NoPagesGivesNoFonts(load: Result<PdfDocument, string>, extracted: Result<string, string>,
                            R: Renderers, utf8: Utf8Decoder)
    requires load.Ok? && load.value.pages == [] && FontsReadable(load.value, utf8)
    ensures ExtractTextFromPdf(load, extracted, R, utf8) == Ok(("", map[]))
  {
  }


  /**
   * A successful extraction from a PDF with pages has non-empty text; its
   * metadata holds the first page's decoded keys plus "character count", whose
   * value is the decimal UTF-8 byte length of the text (the character count
   * only for ASCII text). None of the font metadata remains.
   */
  lemma PdfSuccessMetadata(load: Result<PdfDocument, string>, extracted: Result<string, string>,
                           R: Renderers, utf8: Utf8Decoder)
    requires load.Ok? && FontsReadable(load.value, utf8) && load.value.pages != []
    requires ExtractTextFromPdf(load, extracted, R, utf8).Ok?
    ensures var doc := load.value;
      var first := GetDictionary(doc, doc.pages[0].id);
      var (text, metadata) := ExtractTextFromPdf(load, extracted, R, utf8).value;
      && extracted == Ok(text) && text != "" && first.Ok?
      && metadata.Keys == (set i | 0 <= i < |first.value| :: R.lossy(first.value[i].key)) + {CharacterCountKey}
      && ParseInt(metadata[CharacterCountKey]) == Utf8Length(text)
      && (IsAscii(text) ==> ParseInt(metadata[CharacterCountKey]) == |text|)
  {
    var doc := load.value;
    var first := GetDictionary(doc, doc.pages[0].id);
    var text := extracted.value;
    DictMapKeys(first.value, R);
    IntDecimalRoundTrip(Utf8Length(text));
    if IsAscii(text) {
      AsciiUtf8Length(text);
    }
  }

  /** `extract_text_from_txt`: the file's text with empty metadata, or the read error. */
  function ExtractTextFromTxt(read: Result<string, string>): (r: Result<Extracted, ChunkingError>)
    ensures r.Ok? <==> read.Ok?
    ensures r.Ok? ==> r.value == (read.value, map[])
    ensures r.Err? ==> r.error == ReadFailed(read.error)
  {
    match read
    case Ok(t) => Ok((t, map[]))
    case Err(e) => Err(ReadFailed(e))
  }

  /**
   * `extract_text_from_docx`, given what opening and reading the container
   * yields; both `expect`/`unwrap` calls panic on failure, so success is required.
   * The result is always `Ok` with empty metadata.
   */
  function ExtractTextFromDocx(read: Result<string, string>): (r: Result<Extracted, ChunkingError>)
    requires read.Ok?
    ensures r.Ok? && r.value.0 == read.value && r.value.1 == map[]
  {
    Ok((read.value, map[]))
  }

  // ---------------------------------------------------------------------------
  // extract_text_from_csv
  // ---------------------------------------------------------------------------

  /**
   * The embedding queue (`MyQueue` behind an `RwLock`), as the sequence of
   * (datasource id, text) items pushed onto it.
   */
  class EmbeddingQueue {
    var items: seq<(string, string)>

    constructor ()
      ensures items == []
    {
      items := [];
    }

    method Push(item: (string, string))
      modifies this
      ensures items == old(items) + [item]
    {
      items := items + [item];
    }
  }

  /** A CSV record as the reader yields it: its fields, or a decoding error. */
  type CsvRow = Result<seq<string>, string>

  /** The items pushed for `rows`: one per decoded row, its fields joined by ", ". */
  function RowItems(rows: seq<CsvRow>, datasourceId: string): seq<(string, string)>
  {
    if rows == [] then []
    else
      var n := |rows| - 1;
      RowItems(rows[..n], datasourceId)
        + (if rows[n].Ok? then [(datasourceId, Join(rows[n].value, ", "))] else [])
  }

  /** The rows the reader decoded, in order. */
  function DecodedRows(rows: seq<CsvRow>): seq<seq<string>>
  {
    if rows == [] then []
    else
      var n := |rows| - 1;
      DecodedRows(rows[..n]) + (if rows[n].Ok? then [rows[n].value] else [])
  }

  /** What opening the reader pushes: nothing when it cannot be opened. */
  function CsvItems(reader: Result<seq<CsvRow>, string>, datasourceId: string): seq<(string, string)>
  {
    match reader
    case Err(_) => []
    case Ok(rows) => RowItems(rows, datasourceId)
  }

  /** `extract_text_from_csv`: one push per decoded row, in row order; rows in error are skipped. */
  method ExtractTextFromCsv(reader: Result<seq<CsvRow>, string>, datasourceId: string, queue: EmbeddingQueue)
    modifies queue
    ensures queue.items == old(queue.items) + CsvItems(reader, datasourceId)
  {
    match reader {
      case Err(_) =>
        assert old(queue.items) + [] == old(queue.items);
      case Ok(rows) =>
        for i := 0 to |rows|
          invariant queue.items == old(queue.items) + RowItems(rows[..i], datasourceId)
        {
          assert rows[..i + 1][..i] == rows[..i];
          match rows[i] {
            case Ok(record) =>
              var line := Join(record, ", ");
              queue.Push((datasourceId, line));
            case Err(_) =>
          }
        }
        assert rows[..|rows|] == rows;
    }
  }

  /**
   * The pushed items are exactly the decoded rows, in order: every item is
   * tagged with the datasource id and carries its row's fields joined by ", ".
   */
  lemma {:induction false} RowItemsAreDecodedRows(rows: seq<CsvRow>, datasourceId: string)
    ensures |RowItems(rows, datasourceId)| == |DecodedRows(rows)|
    ensures forall i :: 0 <= i < |DecodedRows(rows)| ==>
      RowItems(rows, datasourceId)[i] == (datasourceId, Join(DecodedRows(rows)[i], ", "))
  {
    if rows != [] {
      RowItemsAreDecodedRows(rows[..|rows| - 1], datasourceId);
    }
  }

  /** One item per row decoded without error. */
  lemma {:induction false} DecodedRowsCount(rows: seq<CsvRow>)
    ensures |DecodedRows(rows)| == |set i | 0 <= i < |rows| && rows[i].Ok?|
  {
    if rows != [] {
      var n := |rows| - 1;
      DecodedRowsCount(rows[..n]);
      var before := set i | 0 <= i < n && rows[..n][i].Ok?;
      var all := set i | 0 <= i < |rows| && rows[i].Ok?;
      assert before == set i | 0 <= i < n && rows[i].Ok?;
      if rows[n].Ok? {
        assert all == before + {n};
      } else {
        assert all == before;
      }
    }
  }

  /** A three-row source whose rows all decode yields three items for its datasource. */
  lemma ThreeRowExample(datasourceId: string)
    ensures var rows: seq<CsvRow> := [Ok(["a", "1"]), Ok(["b", "2"]), Ok(["c", "3"])];
      CsvItems(Ok(rows), datasourceId) ==
        [(datasourceId, "a, 1"), (datasourceId, "b, 2"), (datasourceId, "c, 3")]
  {
    var rows: seq<CsvRow> := [Ok(["a", "1"]), Ok(["b", "2"]), Ok(["c", "3"])];
    assert rows[..2][..1] == rows[..1] && rows[..3][..2] == rows[..2] && rows[..1][..0] == [];
    assert Join(["a", "1"], ", ") == "a, 1";
    assert Join(["b", "2"], ", ") == "b, 2";
    assert Join(["c", "3"], ", ") == "c, 3";
    assert RowItems(rows[..1], datasourceId) == [(datasourceId, "a, 1")];
    assert RowItems(rows[..2], datasourceId) == [(datasourceId, "a, 1"), (datasourceId, "b, 2")];
    assert rows[..3] == rows;
  }

  // ---------------------------------------------------------------------------
  // chunk
  // ---------------------------------------------------------------------------

  /** The chunking strategies; only the semantic one is named in the core. */
  datatype ChunkingStrategy = SemanticChunking | OtherStrategy(name: string)

  /** The embedding model that bounds chunk size, identified by name. */
  datatype EmbeddingModel = EmbeddingModel(name: string)

  /** The arguments of `Chunker::new`. */
  datatype ChunkerConfig = ChunkerConfig(
    model: EmbeddingModel,
    flag: bool,
    strategy: Option<ChunkingStrategy>,
    chunkingCharacter: Option<string>)

  /** `Chunker::split_documents`: the opaque splitter, by its configuration and input documents. */
  type Splitter = (ChunkerConfig, seq<Document>) -> Result<seq<Document>, string>

  /** The configuration `chunk` builds. */
  function ChunkConfig(strategy: ChunkingStrategy, chunkingCharacter: Option<string>, model: EmbeddingModel): ChunkerConfig
  {
    ChunkerConfig(model, true, Some(strategy), chunkingCharacter)
  }

  /**
   * `chunk`: hands the splitter a single Document holding the text and
   * metadata and no embedding; fails exactly when the splitter fails, and
   * otherwise returns the splitter's output unchanged, even an empty one.
   */
  function Chunk(data: string, metadata: Option<map<string, string>>, strategy: ChunkingStrategy,
                 chunkingCharacter: Option<string>, model: EmbeddingModel, split: Splitter)
    : (r: Result<seq<Document>, ChunkingError>)
    ensures var out := split(ChunkConfig(strategy, chunkingCharacter, model), [Document(data, metadata, None)]);
      && (r.Err? <==> out.Err?)
      && (r.Err? ==> r.error == ChunkerFailed)
      && (r.Ok? ==> r.value == out.value)
  {
    var doc := Document(data, metadata, None);
    match split(ChunkConfig(strategy, chunkingCharacter, model), [doc])
    case Ok(results) => Ok(results)
    case Err(_) => Err(ChunkerFailed)
  }

  /** With a splitter that returns its input, `chunk` yields exactly the one Document it built. */
  lemma ChunkPassesOneDocument(data: string, metadata: Option<map<string, string>>, strategy: ChunkingStrategy,
                               chunkingCharacter: Option<string>, model: EmbeddingModel)
    ensures Chunk(data, metadata, strategy, chunkingCharacter, model, (c, docs) => Ok(docs))
      == Ok([Document(data, metadata, None)])
  {
  }

  /** An empty split is not turned into an error: `chunk` can return `Ok` with no chunks. */
  lemma ChunkMayBeEmpty(data: string, metadata: Option<map<string, string>>, strategy: ChunkingStrategy,
                        chunkingCharacter: Option<string>, model: EmbeddingModel)
    ensures Chunk(data, metadata, strategy, chunkingCharacter, model, (c, docs) => Ok([])) == Ok([])
  {
  }
}

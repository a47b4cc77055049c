# vector-db-proxy core in Dafny

This project models the ingestion core of `vector-db-proxy`, the Rust service that takes messages off a RabbitMQ queue and writes them into a Qdrant vector store. The core has four parts:

- **`data/models.rs`**: the `Document` record, whose equality and hash look only at `page_content`, and the `FileType` classifier with its display tokens.
- **`data/chunking.rs`**: turning files into `(text, metadata)`.
  - Rendering a PDF dictionary as a string map (`dictionary_to_hashmap`).
  - Collecting font names and encodings over every page (`detect_pdf_fonts`).
  - Extracting text from PDF, TXT and DOCX files.
  - Pushing one queue item per CSV record (`extract_text_from_csv`).
  - Handing text to the chunker (`chunk`).
- **`data/processing_incoming_messages.rs`**: the write path for an inline JSON record (`process_messages`).
  - Look up the datasource's embedding model and text field.
  - Move the text field to `page_content`.
  - Embed it, bulk-upsert one point, and increment a usage counter.
- **`rabbitmq/consume.rs`**: the consumer loop `subscribe_to_queue`.
  - Derive the datasource id from the `stream` header.
  - Upsert the chunks of a file pointer when a `type` header is present.
  - Acknowledge the delivery and hand the body to `process_messages`.
  - Cancel the consumer when the deliveries end.

Foreign collaborators become explicit inputs of the model. These include the PDF parser and text extractor, the UTF-8 decoders, float and JSON formatting, the CSV reader, the text splitter, the metadata and cache stores, the embedder and the vector store. Each operation is stated for every behaviour those collaborators may have. Operations that cannot fail become functions. Loops become methods with invariants, proved equal to those functions. Objects the code mutates (the embedding queue, the usage counter) become classes.

Module layout:

- `outcomes.dfy`: `Option` and `Result`.
- `text.dfy`: joining, decimal rendering and parsing, UTF-8 byte length.
- `pairs.dfy`: building a map by successive inserts, where the last write wins.
- `models.dfy`: `data/models.rs`.
- `pdf_objects.dfy`: the PDF object model the core reads.
- `chunking.dfy`: `data/chunking.rs`.
- `incoming.dfy`: `data/processing_incoming_messages.rs`.
- `consume.dfy`: `rabbitmq/consume.rs`.

The model follows the code, including these behaviours a reader might not expect:

- `chunk` returns `Ok` with no chunks when the splitter returns an empty list. It does not report an error.
- The consumer acknowledges a message before `process_messages` runs and whatever it returns. It does not acknowledge only when the write succeeds.
- The consumer stores a chunk's content in its point payload under `"text"`.
- `extract_text_from_pdf` returns the font map from `detect_pdf_fonts` only for a document without pages, where that map is empty. Its font work therefore never reaches a caller.
- The "character count" metadata value is `text.len()`, which is the UTF-8 byte length, not the number of characters.

## Model

| member | source | states |
|---|---|---|
| Models.Same | vector-db-proxy/src/data/models.rs:27-31 | Defines `PartialEq::eq` for `Document`. Its properties are stated by `SameIgnoresMetadata`, `DifferentContentNotSame` and `SameIsEquivalence` |
| Models.SameIgnoresMetadata | vector-db-proxy/src/data/models.rs:27-31 | Two documents with the same content are equal whatever their metadata and embeddings |
| Models.DifferentContentNotSame | vector-db-proxy/src/data/models.rs:27-31 | Documents with different content are never equal |
| Models.SameIsEquivalence | vector-db-proxy/src/data/models.rs:27-33 | Document equality is reflexive, symmetric and transitive, as `Eq` requires |
| Models.Hash | vector-db-proxy/src/data/models.rs:35-39 | Hashing adds exactly one item to the hasher state, and that item is the page content. What was there before is kept |
| Models.HashConsistentWithSame | vector-db-proxy/src/data/models.rs:27-39 | Equal documents hash identically for every hasher state and every finishing function |
| Models.FileTypeFrom | vector-db-proxy/src/data/models.rs:49-58 | PDF exactly for "pdf"; TXT exactly for "txt"; DOCX exactly for the six office tokens; UNKNOWN for everything else |
| Models.Display | vector-db-proxy/src/data/models.rs:60-69 | The token displayed for a file type classifies back to that type, and "unknown" is shown only for UNKNOWN |
| Models.FileTypeRoundTrip | vector-db-proxy/src/data/models.rs:49-69 | Classifying the display token of any file type gives the type back |
| Models.TokenRoundTrip | vector-db-proxy/src/data/models.rs:49-69 | A token survives classify-then-display exactly when it is one of "pdf", "txt", "docx", "unknown" |
| Models.FileTypeFromNotInjective | vector-db-proxy/src/data/models.rs:52-55 | "pptx" and the other office tokens all become DOCX (shown as "docx"); matching is case-sensitive, so "PDF" is UNKNOWN |
| PdfObjects.Get | vector-db-proxy/src/data/chunking.rs:183-186 | Dictionary lookup returns a value exactly when an entry has the key, and the value returned is one stored under that key |
| PdfObjects.AsNameStr | vector-db-proxy/src/data/chunking.rs:183-186 | Defines `as_name_str`: the strict UTF-8 text of a name, None for other objects. `FontDictReadable` and `EncodingName` rely on it |
| PdfObjects.GetDictionary | vector-db-proxy/src/data/chunking.rs:111 | Resolving a page follows references like `get_object`. It gives the dictionary at the end of the chain. It fails with NotADictionary exactly when the chain ends in another kind of object, with ObjectNotFound for a missing id, and otherwise with `get_object`'s own error |
| PdfObjects.GetObject | vector-db-proxy/src/data/chunking.rs:179 | The result is never a reference. A missing id gives ObjectNotFound, and a stored non-reference is returned as it is |
| PdfObjects.Dereference | vector-db-proxy/src/data/chunking.rs:179 | Following references ends in a non-reference. A missing target gives ObjectNotFound, and the only other error is ReferenceLimit |
| PdfObjects.DereferenceFollows | vector-db-proxy/src/data/chunking.rs:179 | Dereferencing succeeds exactly with the non-reference at the end of a reference chain of at most `MaxDereferences` hops. Any success is such an end, and any such end is the success |
| PdfObjects.SelfReferenceHitsLimit | vector-db-proxy/src/data/chunking.rs:179 | An object that refers to itself gives ReferenceLimit rather than looping |
| PdfObjects.ReferenceChainFollowed | vector-db-proxy/src/data/chunking.rs:111 | A page id whose object is a reference to a dictionary resolves to that dictionary |
| PdfObjects.SelfReferenceExample | vector-db-proxy/src/data/chunking.rs:111 | A page id whose object refers to itself gives ReferenceLimit |
| Chunking.BoolText | vector-db-proxy/src/data/chunking.rs:66 | Defines `b.to_string()`: "true" or "false". `RenderValueCases` states it |
| Chunking.RenderElement | vector-db-proxy/src/data/chunking.rs:71-79 | Defines the rendering of an array element. `ArrayRendering` states it |
| Chunking.RenderValue | vector-db-proxy/src/data/chunking.rs:60-96 | Defines the rendering of a dictionary value. `RenderValueCases` and `ArrayRendering` state it case by case |
| Chunking.ElementTexts | vector-db-proxy/src/data/chunking.rs:69-80 | One rendering per array element, in order |
| Chunking.DictionaryToHashmap | vector-db-proxy/src/data/chunking.rs:56-100 | The loop (recursing into nested dictionaries) yields the map built by inserting each entry's decoded key and rendered value in order |
| Chunking.DictPairs | vector-db-proxy/src/data/chunking.rs:58-97 | Defines the inserts of `dictionary_to_hashmap`: the decoded key and the rendered value of each entry, in order. `DictMapKeys` and `DictMapValue` are stated over it |
| Chunking.JsonOrInvalid | vector-db-proxy/src/data/chunking.rs:86-88 | Defines the nested-dictionary arm: the serialised map, or "Invalid JSON". `RenderValueCases` states it |
| Chunking.DictMap | vector-db-proxy/src/data/chunking.rs:56-100 | Defines the map `dictionary_to_hashmap` returns, as inserts in entry order. `DictMapKeys`, `DictMapValue` and `DictMapSize` state its properties, and `DictionaryToHashmap` is proved equal to it |
| Chunking.DictMapKeys | vector-db-proxy/src/data/chunking.rs:57-59 | The map's keys are exactly the lossily decoded entry keys |
| Chunking.DictMapValue | vector-db-proxy/src/data/chunking.rs:97 | An entry's rendering is stored under its key unless a later entry's key decodes to the same text |
| Chunking.DictMapSize | vector-db-proxy/src/data/chunking.rs:57-99 | When decoded keys are distinct, the map has one entry per dictionary entry |
| Chunking.RenderValueCases | vector-db-proxy/src/data/chunking.rs:60-96 | The rendering of each object kind is given. An integer renders as decimal digits that parse back to it. A nested dictionary renders as its JSON text, or "Invalid JSON" when that fails. A stream renders as "Stream Data"; anything else as "Unknown Type" |
| Chunking.ArrayRendering | vector-db-proxy/src/data/chunking.rs:67-83 | An array renders as "[" + its element texts joined by ", " + "]", and nested compound values inside it render as "Unknown Type" |
| Chunking.ArrayRenderingExample | vector-db-proxy/src/data/chunking.rs:67-83 | `[7, [false]]` renders as "[7, Unknown Type]" |
| Chunking.BaseFontName | vector-db-proxy/src/data/chunking.rs:183 | Defines the BaseFont name read as a strict UTF-8 name. `EntryFontPairsKeys` and `FontMapKeys` are stated over it |
| Chunking.EncodingName | vector-db-proxy/src/data/chunking.rs:184-186 | A font without an Encoding entry gets "Unknown"; otherwise its encoding name |
| Chunking.InsertPageFonts | vector-db-proxy/src/data/chunking.rs:177-190 | The inner loop adds one BaseFont → encoding insert per font entry that resolves to a dictionary, in order |
| Chunking.DetectPdfFonts | vector-db-proxy/src/data/chunking.rs:168-198 | The page loop yields the map of all those inserts over all pages in order; pages without resources contribute nothing |
| Chunking.EntryFontPairs | vector-db-proxy/src/data/chunking.rs:176-190 | Defines the inserts for one page's font entries. `EntryFontPairsKeys` states its keys, and `InsertPageFonts` is proved to perform them |
| Chunking.PageFontPairs | vector-db-proxy/src/data/chunking.rs:172-197 | Defines one page's inserts, none without resources. `PageFontPairsKeys` states its keys |
| Chunking.FontPairs | vector-db-proxy/src/data/chunking.rs:170-197 | Defines every insert of `detect_pdf_fonts`, page by page. `FontPairsKeys` and `FontMapLastWins` are stated over it |
| Chunking.FontMap | vector-db-proxy/src/data/chunking.rs:168-198 | Defines the map `detect_pdf_fonts` returns. `FontMapKeys` and `FontMapLastWins` state its properties, and `DetectPdfFonts` is proved equal to it |
| Chunking.FontPairsPrefix | vector-db-proxy/src/data/chunking.rs:171-196 | The inserts for the first p+1 pages extend those for the first p pages by page p's inserts |
| Chunking.EntryFontPairsKeys | vector-db-proxy/src/data/chunking.rs:177-190 | A font name is inserted for a page exactly when one of its font entries names it as BaseFont |
| Chunking.FontPairsKeys | vector-db-proxy/src/data/chunking.rs:171-196 | A font name is inserted over a page sequence exactly when some page with resources declares it |
| Chunking.PageFontPairsKeys | vector-db-proxy/src/data/chunking.rs:172-197 | A page's own inserts name a font exactly when the page has resources and one of its font entries declares that font |
| Chunking.FontMapKeys | vector-db-proxy/src/data/chunking.rs:168-198 | The font map has a key exactly for each BaseFont declared on a page with resources |
| Chunking.PageWithoutResourcesAddsNothing | vector-db-proxy/src/data/chunking.rs:192-194 | A page without resources adds no font entry |
| Chunking.FontMapLastWins | vector-db-proxy/src/data/chunking.rs:188 | For a font declared several times, the map holds the encoding of its last declaration |
| Chunking.ExtractTextFromPdf | vector-db-proxy/src/data/chunking.rs:102-142 | Covers every outcome: load failure; no pages (empty text with the font map, which is then empty; see `NoPagesGivesNoFonts`); extraction failure; first page not a dictionary; empty text; otherwise text with the first page's map plus "character count" |
| Chunking.NoPagesGivesNoFonts | vector-db-proxy/src/data/chunking.rs:105-135 | A document without pages gives empty text and an empty map: `detect_pdf_fonts`'s result never reaches a caller non-empty |
| Chunking.PdfSuccessMetadata | vector-db-proxy/src/data/chunking.rs:111-122 | A successful PDF extraction has non-empty text. Its metadata keys are the first page's keys plus "character count". That count parses back to the text's UTF-8 byte length, and to its length for ASCII text |
| Chunking.ExtractTextFromTxt | vector-db-proxy/src/data/chunking.rs:153-166 | Ok with the file's text and empty metadata exactly when reading succeeds, else ReadFailed with the read error |
| Chunking.ExtractTextFromDocx | vector-db-proxy/src/data/chunking.rs:144-152 | Always Ok with the container's text and empty metadata |
| Chunking.EmbeddingQueue.Push | vector-db-proxy/src/data/chunking.rs:217-223 | A push appends one item at the end of the queue |
| Chunking.ExtractTextFromCsv | vector-db-proxy/src/data/chunking.rs:199-233 | The queue grows by exactly the items for the decoded rows, in row order; nothing for an unopenable file; existing items are kept |
| Chunking.RowItems | vector-db-proxy/src/data/chunking.rs:208-226 | Defines the queue items pushed for the records: one per Ok record, in order. `RowItemsAreDecodedRows` and `DecodedRowsCount` state its properties |
| Chunking.CsvItems | vector-db-proxy/src/data/chunking.rs:207-232 | Defines the items pushed for a reader: none when it cannot be opened. `ExtractTextFromCsv` is proved to push them |
| Chunking.DecodedRows | vector-db-proxy/src/data/chunking.rs:209-225 | Defines the records the reader decodes, in order, skipping errors. `RowItemsAreDecodedRows` and `DecodedRowsCount` are stated over it |
| Chunking.RowItemsAreDecodedRows | vector-db-proxy/src/data/chunking.rs:209-227 | Item i is (datasource id, fields of the i-th decoded row joined by ", "), with one item per decoded row |
| Chunking.DecodedRowsCount | vector-db-proxy/src/data/chunking.rs:209-227 | The number of items equals the number of rows read without error |
| Chunking.ThreeRowExample | vector-db-proxy/src/data/chunking.rs:209-223 | Three good records give three items "a, 1", "b, 2", "c, 3" for the datasource. `csv::Reader::from_path` reads the first line as a header by default, so the records given to the model are the lines after it |
| Chunking.ChunkConfig | vector-db-proxy/src/data/chunking.rs:244 | Defines the `Chunker::new` configuration: the model, `true`, the strategy and the chunking character. `Chunk` hands it to the splitter |
| Chunking.Chunk | vector-db-proxy/src/data/chunking.rs:236-254 | The splitter gets a single Document with the text, the metadata and no embedding. `chunk` fails exactly when the splitter fails, and otherwise returns the splitter's output unchanged |
| Chunking.ChunkPassesOneDocument | vector-db-proxy/src/data/chunking.rs:244-253 | With an identity splitter the result is exactly the one Document built from the inputs |
| Chunking.ChunkMayBeEmpty | vector-db-proxy/src/data/chunking.rs:250-253 | An empty split yields Ok with no chunks, not an error |
| IncomingMessages.AsU64 | vector-db-proxy/src/data/processing_incoming_messages.rs:31 | `as u64` yields a value below 2^64 that equals the input whenever the input is already in range |
| IncomingMessages.RewriteMetadata | vector-db-proxy/src/data/processing_incoming_messages.rs:39-40 | The text field's key is removed and its value is stored under "page_content"; every other key keeps its value |
| IncomingMessages.ProcessMessages | vector-db-proxy/src/data/processing_incoming_messages.rs:14-92 | Each branch gives its outcome. Invalid JSON makes no calls. A failed or empty lookup, a non-object record or no text field stop after the lookup. A failed embedding stops after the embed. A failed upsert stops after the upsert. An Ok upsert increments the counter and returns its value |
| IncomingMessages.WritePathGuarantees | vector-db-proxy/src/data/processing_incoming_messages.rs:24-92 | Calls come in the order lookup, embed, upsert, increment, each at most once, and exactly one point is upserted. The counter moves by 1 under "some_key" exactly when the upsert succeeds. Success means the upsert returned Ok(true), and the embedder sees the text under "page_content" |
| IncomingMessages.HelloWorldRecord | vector-db-proxy/src/data/processing_incoming_messages.rs:36-59 | The record {"text": "hello world"} yields an embed of page_content "hello world" with no "text" key left, one upsert with vector length 4, and one increment |
| IncomingMessages.UsageCounter.IncrementCount | vector-db-proxy/src/data/processing_incoming_messages.rs:58 | Adds the amount to the key's count, counting from 0 for a new key |
| IncomingMessages.ProcessMessagesInPlace | vector-db-proxy/src/data/processing_incoming_messages.rs:14-92 | The in-place version returns the calls and result of `ProcessMessages`. The counter changes by 1 under "some_key" exactly when that increment was issued, and otherwise stays as it was |
| Consume.DatasourceId | vector-db-proxy/src/rabbitmq/consume.rs:44-46 | The id is the longest prefix of the stream header without "_": the whole header when it has none, otherwise everything before the first "_" |
| Consume.DatasourceIdUnique | vector-db-proxy/src/rabbitmq/consume.rs:45-46 | Any string with those three properties is the datasource id |
| Consume.DatasourceIdExamples | vector-db-proxy/src/rabbitmq/consume.rs:45-46 | "ds1_abc" → "ds1", "ds1" → "ds1", "_abc" → "", "a_b_c" → "a" |
| Consume.ChunkPoint | vector-db-proxy/src/rabbitmq/consume.rs:74-87 | The point's vector is the chunk's embedding. Its payload is the chunk's metadata plus "text" = the chunk's content |
| Consume.UpsertChunks | vector-db-proxy/src/rabbitmq/consume.rs:73-91 | At most one upsert per chunk. It fails exactly when the last attempted upsert failed, and a loop that does not fail attempts every chunk |
| Consume.UpsertChunksShape | vector-db-proxy/src/rabbitmq/consume.rs:74-90 | The i-th attempted upsert puts the point of the i-th chunk into the datasource's collection, and every upsert before the last succeeded, so the loop stops right after the first failure |
| Consume.Uploads | vector-db-proxy/src/rabbitmq/consume.rs:50-96 | Defines the `type` branch: the chunk upserts when a `type` header and a file are present, nothing otherwise. `UploadsSpec` states which upserts, and `UploadsFromMessage` states that they belong to the message |
| Consume.UploadsSpec | vector-db-proxy/src/rabbitmq/consume.rs:50-91 | Without a `type` header and a file, no upserts are issued. Otherwise upsert i is the point of chunk i in the datasource's collection. Every chunk is upserted when none fails; otherwise the upserts stop right after the first failure |
| Consume.UploadsFromMessage | vector-db-proxy/src/rabbitmq/consume.rs:73-90 | Every upsert issued for a delivered message goes into its datasource's collection and carries the point of one of its chunks |
| Consume.HandleMessage | vector-db-proxy/src/rabbitmq/consume.rs:42-108 | Defines one iteration of the message loop. `HandleMessageOutcome` gives its whole trace in terms of `Uploads`, `HandleMessageActions` its soundness and pairing, and `HandleOne` is proved equal to it |
| Consume.UpsertChunksFails | vector-db-proxy/src/rabbitmq/consume.rs:90 | The chunk loop fails exactly when one of the chunk upserts fails |
| Consume.UploadChunks | vector-db-proxy/src/rabbitmq/consume.rs:73-91 | The `for` loop with its early return issues exactly the upserts of `UpsertChunks` |
| Consume.HandleOne | vector-db-proxy/src/rabbitmq/consume.rs:42-108 | One iteration of the loop body gives exactly `HandleMessage`'s actions and failure flag |
| Consume.Run | vector-db-proxy/src/rabbitmq/consume.rs:41-115 | A run that returns Ok ends with the cancel of its consumer tag |
| Consume.SubscribeToQueue | vector-db-proxy/src/rabbitmq/consume.rs:41-115 | The message loop followed by the cancel produces exactly `Run`'s trace and result |
| Consume.HandleMessageOutcome | vector-db-proxy/src/rabbitmq/consume.rs:43-105 | A message fails exactly when it has a stream header and a UTF-8 body and one of its upserts fails. Without those two it does nothing. Otherwise its trace is exactly the upserts of its `type` branch, then the ack of its own tag (multiple = false), then the `process_messages` call with its datasource id and body. A failing message issues exactly those upserts |
| Consume.HandleMessageActions | vector-db-proxy/src/rabbitmq/consume.rs:73-103 | Every action issued for a message is one the message warrants: its own tag, its datasource id, its chunks. Its acks come immediately before its `process_messages` calls |
| Consume.RunAckPaired | vector-db-proxy/src/rabbitmq/consume.rs:97-103 | Across a whole run, every ack is immediately followed by a `process_messages` call and every such call immediately follows an ack |
| Consume.RunOkIffNoFailure | vector-db-proxy/src/rabbitmq/consume.rs:41-115 | The run returns Ok exactly when no message's upserts fail |
| Consume.RunCancels | vector-db-proxy/src/rabbitmq/consume.rs:112-115 | The consumer is cancelled exactly when the run returns Ok, and nowhere but the last action |
| Consume.RunActionsFromMessages | vector-db-proxy/src/rabbitmq/consume.rs:41-109 | Every action except the cancel belongs to one of the delivered messages |
| Consume.RunAcknowledges | vector-db-proxy/src/rabbitmq/consume.rs:97-103 | Each message handled before the first failure is acknowledged with its own tag and passed to `process_messages` with its datasource id and body, provided it has a stream header and a UTF-8 body and its upserts succeed |
| Consume.FailureStopsConsumption | vector-db-proxy/src/rabbitmq/consume.rs:90 | After a failing message no later delivery is consumed: appending messages leaves the trace and the Err unchanged |
| Consume.RunCons | vector-db-proxy/src/rabbitmq/consume.rs:41-109 | A message that does not fail contributes exactly its own trace, followed by the run over the later deliveries |
| Consume.RunAppend | vector-db-proxy/src/rabbitmq/consume.rs:41-115 | A successful run followed by further deliveries behaves as the two runs back to back, with only the final cancel kept |
| Consume.TextMessageHandled | vector-db-proxy/src/rabbitmq/consume.rs:43-103 | A text message on stream "ds1_abc" with body "hi" is acked with its tag and then passed to `process_messages` under "ds1" |
| Consume.FileMessageHandled | vector-db-proxy/src/rabbitmq/consume.rs:73-91 | A pdf message with one chunk whose upsert fails issues exactly that upsert into "ds2" and fails |
| Consume.ConsumeExample | vector-db-proxy/src/rabbitmq/consume.rs:41-115 | A text message is acked and processed; a message without a stream header is skipped; a file message whose chunk upsert fails ends the run with Err, before the next delivery and without a cancel |
| Text.Join | vector-db-proxy/src/data/chunking.rs:81 | Defines `join`: the parts in order with the separator between neighbours. `ArrayRenderingExample` and `ThreeRowExample` show it on concrete parts |
| Text.IntToDecimal | vector-db-proxy/src/data/chunking.rs:64 | `to_string` of an integer is canonical: a leading `-` exactly for negatives, "0" as the only text starting with a zero, and no "-0" |
| Text.NatDecimalRoundTrip | vector-db-proxy/src/data/chunking.rs:120 | Decimal rendering of a natural number reads back to the number |
| Text.IntDecimalRoundTrip | vector-db-proxy/src/data/chunking.rs:64 | `i.to_string()` of an integer parses back to the integer |
| Text.AsciiUtf8Length | vector-db-proxy/src/data/chunking.rs:120 | For ASCII text, the UTF-8 byte length (`len()`) equals the number of characters |
| Text.NonAsciiUtf8Length | vector-db-proxy/src/data/chunking.rs:120 | Text with a non-ASCII character has more UTF-8 bytes than characters |
| Text.Utf8Length | vector-db-proxy/src/data/chunking.rs:120 | The UTF-8 length lies between the number of characters and four times that |
| Pairs.FromPairs | vector-db-proxy/src/data/chunking.rs:97 | Defines a `HashMap` built by `insert`s in order. `FromPairsKeys`, `FromPairsLastWins` and `FromPairsSize` state its properties |
| Pairs.FromPairsKeys | vector-db-proxy/src/data/chunking.rs:97 | A map built by successive inserts has exactly the inserted keys |
| Pairs.FromPairsLastWins | vector-db-proxy/src/data/chunking.rs:97 | Under successive inserts, a key's value is that of its last insert |
| Pairs.FromPairsSize | vector-db-proxy/src/data/chunking.rs:97 | With distinct keys, the map has one entry per insert |

## Left out

- `main.rs`, connection set-up, the exchange and queue binding, and the object-storage fetch are left out. The model covers only what the consumer does with each delivery.
- The PDF parser, the text extractor and the `get_page_resources` lookup are not modelled. Their results are inputs: a page list, an object table and the extraction outcome. A page carries only the first part of `get_page_resources`, its own inline resource dictionary. The code discards the referenced and inherited resource ids (chunking.rs:172), so such a page contributes no fonts.
- UTF-8 decoding of bytes, strict (`Utf8Decoder`) and lossy (`Renderers.lossy`), is an input function rather than a model of the decoder. Invalid UTF-8 and lossily merged keys are covered for whatever results a decoder can give.
- `f32` formatting and `serde_json::to_string` are inputs, because floating point and the JSON printer are outside the model. `serde_json::to_string` prints a `HashMap` in that map's randomized iteration order, so two nested dictionaries with equal contents can serialize differently. `Renderers.json` is a function of the map's contents and so fixes one order.
- The text splitter (`Chunker::split_documents`) is an input function. Chunk sizes and semantic boundaries are not modelled.
- The point UUIDs (`Uuid::new_v4`) are not modelled, because they are random. A consumer point carries only its vector and payload.
- The payload conversion through `hash_map_values_as_serde_values!` and `json!(...).try_into()` is taken to succeed. Its failure would be a panic.
- The file branch of the consumer looks up JSON keys `""` for the bucket and the file name, then fetches, extracts and chunks the file. It is summarised by what it produces: nothing, or a list of chunks with one upsert result per chunk. `FileBranch` has no variant for the `expect` on `extract_text_from_pdf` (consume.rs:64) or the `unwrap` on `chunk` (consume.rs:72). Those panics are therefore outside the model, among them the one for a PDF whose text is empty, which ends the consumer task. `MessageReady` excludes only the `metadata.unwrap()` and `embedding_vector.unwrap()` panics (consume.rs:74, 85).
- Panics are preconditions:
  - `detect_pdf_fonts`'s `unwrap`s, through `FontsReadable`
  - the `unwrap` of the text field in `process_messages`, through `TextFieldPresent`
  - the chunk `unwrap`s in the consumer, through `ChunksReady`
  - `extract_text_from_docx`'s `expect`/`unwrap`, by requiring a successful read
- Missing message headers and a missing delivery are not modelled. The code unwraps them, so a `Message` always has a header map and a delivery tag.
- The rendering of an AMQP header value by `to_string()` is not modelled. Headers are taken as already-rendered text.
- Locks (`RwLock`, `Mutex`), `async` scheduling and the `MyQueue` internals are left out. The embedding queue is the sequence of items pushed onto it.
- In the source, the consumer constructs `PdfChunker`, calls `chunk` with three arguments and calls `process_messages` with three arguments. These differ from the `TextChunker` and the five-argument `chunk` and `process_messages` in `chunking.rs` and `processing_incoming_messages.rs`. The model connects the two only through their results: chunks with upsert outcomes, and a `Process` action.
- The broker's own behaviour is not modelled: redelivery, and the ack's and cancel's own results. Those results are discarded by the code.
- The usage-counter increment's result is ignored by the code and not modelled. The code does not `.await` the call (processing_incoming_messages.rs:58). Whether it takes effect then depends on `RedisConnection`, whose source is not part of this model; `UsageCounter.IncrementCount` assumes it does.
- The `println!`/`eprintln!` logging is left out: it has no effect on results or state.
- Document lookups in lopdf (`get_object`, `get_dictionary`) follow reference chains. lopdf's source is not part of this model. `MaxDereferences` (100) is an assumed bound standing for its `dereference` limit, whose exact value depends on the lopdf version. Chains longer than the real limit but within 100, or the reverse, are resolved differently.

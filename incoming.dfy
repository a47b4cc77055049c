/**
 * `process_messages` in `data/processing_incoming_messages.rs`: the write path
 * for one inline JSON record. The metadata store lookup, the embedding call,
 * the vector-store upsert and the JSON parser are collaborators whose results
 * are inputs; the model records which calls are made, with which arguments,
 * and what is returned.
 */
module IncomingMessages {
  import opened Outcomes
  import opened Models

  /**
   * The parsed message as the function inspects it: a JSON object, already
   * flattened to strings by `convert_serde_value_to_hashmap_string`, or any
   * other JSON value.
   */
  datatype JsonValue = JsonObject(flattened: map<string, string>) | OtherJson

  /** The datasource's embedding model as the metadata store returns it. */
  datatype ModelParameters = ModelParameters(embeddingLength: int, model: string)

  /** `get_embedding_model_and_embedding_key`: the model parameters and the name of the text field, if configured. */
  type LookupResult = Result<(Option<ModelParameters>, Option<string>), string>

  /** A point as `embed_payload` builds it; its id is generated there. */
  datatype PointStruct = PointStruct(id: string, vector: seq<F32>, payload: map<string, string>)

  /** The calls `process_messages` makes, in order. */
  datatype Call =
    | Lookup(datasourceId: string)
    | Embed(metadata: map<string, string>, text: string, datasourceId: string, model: string)
    | BulkUpsert(collection: string, points: seq<PointStruct>, vectorLength: nat, modelName: string)
    | Increment(key: string, amount: int)

  datatype WriteOutcome = WriteOutcome(success: bool, calls: seq<Call>)

  const PageContentKey: string := "page_content"
  const CounterKey: string := "some_key"
  const U64Modulus: int := 0x1_0000_0000_0000_0000

  /** Rust's `as u64` on a signed integer: two's-complement reinterpretation, i.e. reduction modulo 2^64. */
  function AsU64(x: int): (r: nat)
    ensures r < U64Modulus
    ensures 0 <= x < U64Modulus ==> r == x
  {
    x % U64Modulus
  }

  /**
   * Lines 39-40: the text field is removed from the record's metadata and its
   * value is stored under "page_content"; every other key keeps its value.
   */
  function RewriteMetadata(m: map<string, string>, field: string): (r: map<string, string>)
    requires field in m
    ensures r.Keys == m.Keys - {field} + {PageContentKey}
    ensures r[PageContentKey] == m[field]
    ensures forall k :: k in m && k != field && k != PageContentKey ==> k in r && r[k] == m[k]
    ensures field != PageContentKey ==> field !in r
  {
    (m - {field})[PageContentKey := m[field]]
  }

  /**
   * The one `unwrap` of the function (line 39) succeeds: when the record is a
   * JSON object and a text field is configured, the record has that field.
   */
  predicate TextFieldPresent(message: Result<JsonValue, string>, lookup: LookupResult)
  {
    (message.Ok? && message.value.JsonObject? && lookup.Ok? && lookup.value.0.Some? && lookup.value.1.Some?)
    ==> lookup.value.1.value in message.value.flattened
  }

  /**
   * `process_messages` as a function of the collaborators' results: the JSON
   * parse of the message, the lookup, the embedding and the upsert (each
   * consulted only if the code reaches that call).
   */
  function ProcessMessages(message: Result<JsonValue, string>, datasourceId: string, lookup: LookupResult,
                           embed: Result<PointStruct, string>, upsert: Result<bool, string>): (o: WriteOutcome)
    requires TextFieldPresent(message, lookup)
    ensures message.Err? ==> o == WriteOutcome(false, [])
    ensures message.Ok? ==> |o.calls| >= 1 && o.calls[0] == Lookup(datasourceId)
    ensures message.Ok? && (lookup.Err? || lookup.value.0.None? || lookup.value.1.None? || !message.value.JsonObject?)
      ==> o == WriteOutcome(false, [Lookup(datasourceId)])
    ensures message.Ok? && message.value.JsonObject? && lookup.Ok? && lookup.value.0.Some? && lookup.value.1.Some? ==>
      var params := lookup.value.0.value;
      var field := lookup.value.1.value;
      var metadata := RewriteMetadata(message.value.flattened, field);
      var embedCall := Embed(metadata, message.value.flattened[field], datasourceId, params.model);
      && |o.calls| >= 2 && o.calls[1] == embedCall
      && (embed.Err? ==> o == WriteOutcome(false, [Lookup(datasourceId), embedCall]))
      && (embed.Ok? ==>
            var upsertCall := BulkUpsert(datasourceId, [embed.value], AsU64(params.embeddingLength), params.model);
            && (upsert.Err? ==> o == WriteOutcome(false, [Lookup(datasourceId), embedCall, upsertCall]))
            && (upsert.Ok? ==>
                  o == WriteOutcome(upsert.value, [Lookup(datasourceId), embedCall, upsertCall, Increment(CounterKey, 1)])))
  {
    match message
    case Err(_) => WriteOutcome(false, [])
    case Ok(data) =>
      var lookupCall := Lookup(datasourceId);
      match lookup
      case Err(_) => WriteOutcome(false, [lookupCall])
      case Ok((None, _)) => WriteOutcome(false, [lookupCall])
      case Ok((Some(params), field)) =>
        match data
        case OtherJson => WriteOutcome(false, [lookupCall])
        case JsonObject(flattened) =>
          match field
          case None => WriteOutcome(false, [lookupCall])
          case Some(textField) =>
            var text := flattened[textField];
            var embedCall := Embed(RewriteMetadata(flattened, textField), text, datasourceId, params.model);
            match embed
            case Err(_) => WriteOutcome(false, [lookupCall, embedCall])
            case Ok(point) =>
              var upsertCall := BulkUpsert(datasourceId, [point], AsU64(params.embeddingLength), params.model);
              match upsert
              case Err(_) => WriteOutcome(false, [lookupCall, embedCall, upsertCall])
              case Ok(b) => WriteOutcome(b, [lookupCall, embedCall, upsertCall, Increment(CounterKey, 1)])
  }

  /**
   * The guarantees of the write path: calls happen in the order lookup,
   * embed, upsert, increment, each at most once; the upsert carries exactly
   * one point; the counter is incremented (by 1 under "some_key") exactly when
   * the upsert returned `Ok`; success is reported only for `Ok(true)`; and the
   * embedder always sees the text under "page_content".
   */
  lemma WritePathGuarantees(message: Result<JsonValue, string>, datasourceId: string, lookup: LookupResult,
                            embed: Result<PointStruct, string>, upsert: Result<bool, string>)
    requires TextFieldPresent(message, lookup)
    ensures var o := ProcessMessages(message, datasourceId, lookup, embed, upsert);
      && |o.calls| <= 4
      && (forall i :: 0 <= i < |o.calls| ==> (o.calls[i].Lookup? <==> i == 0))
      && (forall i :: 0 <= i < |o.calls| ==> (o.calls[i].Embed? <==> i == 1))
      && (forall i :: 0 <= i < |o.calls| ==> (o.calls[i].BulkUpsert? <==> i == 2))
      && (forall i :: 0 <= i < |o.calls| ==> (o.calls[i].Increment? <==> i == 3))
      && (|o.calls| >= 3 ==> |o.calls[2].points| == 1 && (|o.calls| == 4 <==> upsert.Ok?))
      && (|o.calls| == 4 ==> o.calls[3] == Increment(CounterKey, 1))
      && (|o.calls| >= 2 ==> o.calls[1].metadata[PageContentKey] == o.calls[1].text)
      && (o.success ==> |o.calls| == 4 && upsert == Ok(true))
  {
  }

  /**
   * The record `{"text": "hello world"}` for a datasource configured with model
   * "modelA", embedding length 4 and text field "text": the embedder sees
   * page_content "hello world" and no residual "text" key, one point is
   * upserted with vector length 4, and the counter is incremented once.
   */
  lemma HelloWorldRecord(datasourceId: string, point: PointStruct, b: bool)
    ensures var o := ProcessMessages(Ok(JsonObject(map["text" := "hello world"])), datasourceId,
                                     Ok((Some(ModelParameters(4, "modelA")), Some("text"))), Ok(point), Ok(b));
      o == WriteOutcome(b, [Lookup(datasourceId),
                            Embed(map[PageContentKey := "hello world"], "hello world", datasourceId, "modelA"),
                            BulkUpsert(datasourceId, [point], 4, "modelA"),
                            Increment(CounterKey, 1)])
  {
    assert map["text" := "hello world"] - {"text"} == map[];
  }

  /** The usage counters in the cache store, by key. */
  class UsageCounter {
    var counts: map<string, int>

    constructor ()
      ensures counts == map[]
    {
      counts := map[];
    }

    /** `increment_count(key, amount)`; an absent key counts from 0. */
    method IncrementCount(key: string, amount: int)
      modifies this
      ensures counts == old(counts)[key := (if key in old(counts) then old(counts)[key] else 0) + amount]
    {
      var current := if key in counts then counts[key] else 0;
      counts := counts[key := current + amount];
    }
  }

  /**
   * `process_messages` as the code runs it: the metadata map is changed in
   * place (remove, then insert) and the counter is incremented as a side
   * effect. It returns what `ProcessMessages` says and changes the counter
   * exactly by the increments that function records.
   */
  method ProcessMessagesInPlace(counter: UsageCounter, message: Result<JsonValue, string>, datasourceId: string,
                        lookup: LookupResult, embed: Result<PointStruct, string>, upsert: Result<bool, string>)
    returns (ok: bool, calls: seq<Call>)
    requires TextFieldPresent(message, lookup)
    modifies counter
    ensures WriteOutcome(ok, calls) == ProcessMessages(message, datasourceId, lookup, embed, upsert)
    ensures counter.counts == if Increment(CounterKey, 1) !in calls then old(counter.counts)
      else old(counter.counts)[CounterKey := (if CounterKey in old(counter.counts) then old(counter.counts)[CounterKey] else 0) + 1]
  {
    ok, calls := false, [];
    if message.Err? {
      return;
    }
    calls := [Lookup(datasourceId)];
    if lookup.Err? || lookup.value.0.None? {
      return;
    }
    var params := lookup.value.0.value;
    var vectorLength := AsU64(params.embeddingLength);
    if !message.value.JsonObject? {
      return;
    }
    var metadata := message.value.flattened;
    if lookup.value.1.None? {
      return;
    }
    var textField := lookup.value.1.value;
    var text := metadata[textField];
    metadata := metadata - {textField};
    metadata := metadata[PageContentKey := text];
    calls := calls + [Embed(metadata, text, datasourceId, params.model)];
    if embed.Err? {
      return;
    }
    calls := calls + [BulkUpsert(datasourceId, [embed.value], vectorLength, params.model)];
    if upsert.Ok? {
      counter.IncrementCount(CounterKey, 1);
      calls := calls + [Increment(CounterKey, 1)];
      ok := upsert.value;
      return;
    }
  }
}

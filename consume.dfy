/**
 * The message loop of `subscribe_to_queue` in `rabbitmq/consume.rs`. The
 * broker delivers a finite sequence of messages; the model produces the trace
 * of side effects the loop issues (acks, upserts, calls to `process_messages`,
 * the final cancel) and the function's result. Connection set-up, the queue
 * binding, object-storage fetches, extraction and chunking are reduced to the
 * outcomes they produce.
 */
module Consume {
  import opened Outcomes
  import opened Models
  import opened PdfObjects

  /**
   * What the file-pointer branch (taken when the `type` header is present)
   * produced for a message.
   */
  datatype FileBranch =
    /** The body was not JSON, a pointer key was missing or the fetch failed: nothing is upserted. */
    | NoFile
    /** The fetched file's chunks, and for each whether its `upsert_data_point` returned `Ok` (whatever its boolean). */
    | Chunks(chunks: seq<Document>, upserts: seq<bool>)

  /**
   * A delivered message: its headers (already rendered as text), its body if
   * any, its delivery tag, and what the file branch produces for it.
   */
  datatype Message = Message(headers: map<string, string>, content: Option<Bytes>, deliveryTag: nat, file: FileBranch)

  /** A vector-store point built from a chunk; its random UUID is not modelled. */
  datatype Point = Point(vector: seq<F32>, payload: map<string, string>)

  /** The side effects of the loop, in the order they are issued. */
  datatype Action =
    | Ack(deliveryTag: nat, multiple: bool)
    | Upsert(collection: string, point: Point)
    | Process(datasourceId: string, body: string)
    | Cancel(consumerTag: string)

  const StreamHeader: string := "stream"
  const TypeHeader: string := "type"

  /**
   * The datasource id of a `stream` header: the text before the first "_"
   * (`split("_")` then element 0); all of it when there is no "_".
   */
  function DatasourceId(stream: string): (r: string)
    ensures |r| <= |stream| && r == stream[..|r|]
    ensures forall i :: 0 <= i < |r| ==> r[i] != '_'
    ensures |r| < |stream| ==> stream[|r|] == '_'
  {
    if stream == [] || stream[0] == '_' then "" else [stream[0]] + DatasourceId(stream[1..])
  }

  lemma DatasourceIdExamples()
    ensures DatasourceId("ds1_abc") == "ds1"
    ensures DatasourceId("ds1") == "ds1"
    ensures DatasourceId("_abc") == ""
    ensures DatasourceId("a_b_c") == "a"
  {
  }

  /** The datasource id is determined by the three properties `DatasourceId` promises. */
  lemma {:induction false} DatasourceIdUnique(stream: string, r: string)
    requires |r| <= |stream| && r == stream[..|r|]
    requires forall i :: 0 <= i < |r| ==> r[i] != '_'
    requires |r| < |stream| ==> stream[|r|] == '_'
    ensures r == DatasourceId(stream)
  {
    if |r| == 0 {
    } else {
      assert r[0] == stream[0];
      var t := r[1..];
      assert t == stream[1..][..|t|];
      assert forall i :: 0 <= i < |t| ==> t[i] == r[i + 1];
      DatasourceIdUnique(stream[1..], t);
      assert r == [stream[0]] + t;
    }
  }

  /** The chunk can be turned into a point: `metadata.unwrap()` and `embedding_vector.unwrap()` succeed. */
  predicate ChunkReady(d: Document)
  {
    d.metadata.Some? && d.embeddingVector.Some?
  }

  /** The point for a chunk: its metadata plus "text" = its content, and its embedding. */
  function ChunkPoint(d: Document): (p: Point)
    requires ChunkReady(d)
    ensures p.vector == d.embeddingVector.value
    ensures p.payload.Keys == d.metadata.value.Keys + {"text"}
    ensures p.payload["text"] == d.pageContent
    ensures forall k :: k in d.metadata.value && k != "text" ==> p.payload[k] == d.metadata.value[k]
  {
    Point(d.embeddingVector.value, d.metadata.value["text" := d.pageContent])
  }

  /** Every chunk the loop reaches (up to and including the first failed upsert) can be turned into a point. */
  predicate ChunksReady(chunks: seq<Document>, upserts: seq<bool>)
    requires |chunks| == |upserts|
  {
    chunks == [] || (ChunkReady(chunks[0]) && (upserts[0] ==> ChunksReady(chunks[1..], upserts[1..])))
  }

  /** The upserts attempted for the chunks, in order, and whether one failed (which stops at once). */
  function UpsertChunks(collection: string, chunks: seq<Document>, upserts: seq<bool>): (r: (seq<Action>, bool))
    requires |chunks| == |upserts| && ChunksReady(chunks, upserts)
    ensures |r.0| <= |chunks|
    ensures r.1 <==> |r.0| > 0 && !upserts[|r.0| - 1]
    ensures !r.1 ==> |r.0| == |chunks|
  {
    if chunks == [] then ([], false)
    else
      var first := Upsert(collection, ChunkPoint(chunks[0]));
      if !upserts[0] then ([first], true)
      else
        var rest := UpsertChunks(collection, chunks[1..], upserts[1..]);
        ([first] + rest.0, rest.1)
  }

  /** The i-th attempted upsert is the point of the i-th chunk, and every upsert before the last succeeded. */
  lemma {:induction false} UpsertChunksShape(collection: string, chunks: seq<Document>, upserts: seq<bool>)
    requires |chunks| == |upserts| && ChunksReady(chunks, upserts)
    ensures forall i :: 0 <= i < |UpsertChunks(collection, chunks, upserts).0| ==> ChunkReady(chunks[i])
    ensures forall i :: 0 <= i < |UpsertChunks(collection, chunks, upserts).0| ==>
      UpsertChunks(collection, chunks, upserts).0[i] == Upsert(collection, ChunkPoint(chunks[i]))
    ensures forall i :: 0 <= i < |UpsertChunks(collection, chunks, upserts).0| - 1 ==> upserts[i]
  {
    if chunks != [] && upserts[0] {
      var rest := UpsertChunks(collection, chunks[1..], upserts[1..]);
      UpsertChunksShape(collection, chunks[1..], upserts[1..]);
      var r := UpsertChunks(collection, chunks, upserts);
      assert r.0 == [Upsert(collection, ChunkPoint(chunks[0]))] + rest.0;
      forall i | 0 < i < |r.0|
        ensures ChunkReady(chunks[i]) && r.0[i] == Upsert(collection, ChunkPoint(chunks[i]))
      {
        assert r.0[i] == rest.0[i - 1] && chunks[i] == chunks[1..][i - 1];
      }
      forall i | 0 < i < |r.0| - 1
        ensures upserts[i]
      {
        assert upserts[i] == upserts[1..][i - 1];
      }
    }
  }

  /** The upsert loop fails exactly when one of the upserts fails. */
  lemma UpsertChunksFails(collection: string, chunks: seq<Document>, upserts: seq<bool>)
    requires |chunks| == |upserts| && ChunksReady(chunks, upserts)
    ensures UpsertChunks(collection, chunks, upserts).1 <==> exists i :: 0 <= i < |upserts| && !upserts[i]
  {
    var r := UpsertChunks(collection, chunks, upserts);
    if r.1 {
      assert !upserts[|r.0| - 1];
    } else {
      assert forall i :: 0 <= i < |upserts| ==> upserts[i];
    }
  }

  /** Handling the message cannot panic. */
  predicate MessageReady(m: Message)
  {
    m.file.Chunks? ==> |m.file.chunks| == |m.file.upserts| && ChunksReady(m.file.chunks, m.file.upserts)
  }

  /** The upserts of the file branch: attempted only when the `type` header is present. */
  function Uploads(m: Message, collection: string): (seq<Action>, bool)
    requires MessageReady(m)
  {
    if TypeHeader in m.headers && m.file.Chunks?
    then UpsertChunks(collection, m.file.chunks, m.file.upserts)
    else ([], false)
  }

  /**
   * One pass of the loop body: the actions for message `m`, and whether an
   * upsert failed (the `?` that returns from `subscribe_to_queue`).
   */
  function HandleMessage(m: Message, utf8: Utf8Decoder): (seq<Action>, bool)
    requires MessageReady(m)
  {
    if StreamHeader !in m.headers then ([], false)
    else
      var datasourceId := DatasourceId(m.headers[StreamHeader]);
      match m.content
      case None => ([], false)
      case Some(bytes) =>
        match utf8.strict(bytes)
        case None => ([], false)
        case Some(body) =>
          var uploads := Uploads(m, datasourceId);
          if uploads.1 then uploads
          else (uploads.0 + [Ack(m.deliveryTag, false), Process(datasourceId, body)], false)
  }

  /** Every message the loop reaches can be handled without a panic. */
  predicate MessagesReady(ms: seq<Message>, utf8: Utf8Decoder)
  {
    ms == [] || (MessageReady(ms[0]) && (!HandleMessage(ms[0], utf8).1 ==> MessagesReady(ms[1..], utf8)))
  }

  /**
   * `subscribe_to_queue` over the messages `ms`: the trace of actions and
   * whether it returns `Ok` (after cancelling the consumer) or `Err` (an upsert
   * failed; later messages are not consumed and no cancel is issued).
   */
  function Run(ms: seq<Message>, consumerTag: string, utf8: Utf8Decoder): (r: (seq<Action>, bool))
    requires MessagesReady(ms, utf8)
    ensures r.1 ==> |r.0| > 0 && r.0[|r.0| - 1] == Cancel(consumerTag)
  {
    if ms == [] then ([Cancel(consumerTag)], true)
    else
      var (actions, failed) := HandleMessage(ms[0], utf8);
      if failed then (actions, false)
      else
        var rest := Run(ms[1..], consumerTag, utf8);
        (actions + rest.0, rest.1)
  }

  /** Case analysis of `UpsertChunks` starting at chunk `i`. */
  lemma UpsertChunksStep(collection: string, chunks: seq<Document>, upserts: seq<bool>, i: nat)
    requires |chunks| == |upserts| && i < |chunks| && ChunksReady(chunks[i..], upserts[i..])
    ensures ChunkReady(chunks[i])
    ensures !upserts[i] ==> UpsertChunks(collection, chunks[i..], upserts[i..]) == ([Upsert(collection, ChunkPoint(chunks[i]))], true)
    ensures upserts[i] ==> ChunksReady(chunks[i + 1..], upserts[i + 1..])
    ensures upserts[i] ==>
      (UpsertChunks(collection, chunks[i..], upserts[i..])
       == ([Upsert(collection, ChunkPoint(chunks[i]))] + UpsertChunks(collection, chunks[i + 1..], upserts[i + 1..]).0,
           UpsertChunks(collection, chunks[i + 1..], upserts[i + 1..]).1))
  {
    assert chunks[i..][1..] == chunks[i + 1..];
    assert upserts[i..][1..] == upserts[i + 1..];
  }

  /** The `for element in chunks.iter()` loop: one upsert per chunk, returning at the first failure. */
  method UploadChunks(collection: string, chunks: seq<Document>, upserts: seq<bool>) returns (actions: seq<Action>, failed: bool)
    requires |chunks| == |upserts| && ChunksReady(chunks, upserts)
    ensures (actions, failed) == UpsertChunks(collection, chunks, upserts)
  {
    actions := [];
    var i := 0;
    assert chunks[i..] == chunks && upserts[i..] == upserts;
    assert actions + UpsertChunks(collection, chunks, upserts).0 == UpsertChunks(collection, chunks, upserts).0;
    while i < |chunks|
      invariant 0 <= i <= |chunks|
      invariant ChunksReady(chunks[i..], upserts[i..])
      invariant UpsertChunks(collection, chunks, upserts)
        == (actions + UpsertChunks(collection, chunks[i..], upserts[i..]).0, UpsertChunks(collection, chunks[i..], upserts[i..]).1)
    {
      UpsertChunksStep(collection, chunks, upserts, i);
      var upsert := Upsert(collection, ChunkPoint(chunks[i]));
      if !upserts[i] {
        return actions + [upsert], true;
      }
      ConcatAssoc(actions, [upsert], UpsertChunks(collection, chunks[i + 1..], upserts[i + 1..]).0);
      actions := actions + [upsert];
      i := i + 1;
    }
    assert chunks[i..] == [] && actions + [] == actions;
    failed := false;
  }

  lemma ConcatAssoc<T>(a: seq<T>, b: seq<T>, c: seq<T>)
    ensures (a + b) + c == a + (b + c)
  {
  }

  /** The body of the `while let Some(message)` loop for one message. */
  method HandleOne(m: Message, utf8: Utf8Decoder) returns (actions: seq<Action>, failed: bool)
    requires MessageReady(m)
    ensures (actions, failed) == HandleMessage(m, utf8)
  {
    actions, failed := [], false;
    if StreamHeader !in m.headers {
      return;
    }
    var datasourceId := DatasourceId(m.headers[StreamHeader]);
    if m.content.None? {
      return;
    }
    var decoded := utf8.strict(m.content.value);
    if decoded.None? {
      return;
    }
    if TypeHeader in m.headers && m.file.Chunks? {
      actions, failed := UploadChunks(datasourceId, m.file.chunks, m.file.upserts);
      if failed {
        return;
      }
    }
    actions := actions + [Ack(m.deliveryTag, false), Process(datasourceId, decoded.value)];
  }

  /** Case analysis of `Run` starting at message `i`. */
  lemma RunStep(ms: seq<Message>, consumerTag: string, utf8: Utf8Decoder, i: nat)
    requires i < |ms| && MessagesReady(ms[i..], utf8)
    ensures MessageReady(ms[i])
    ensures HandleMessage(ms[i], utf8).1 ==> Run(ms[i..], consumerTag, utf8) == (HandleMessage(ms[i], utf8).0, false)
    ensures !HandleMessage(ms[i], utf8).1 ==> MessagesReady(ms[i + 1..], utf8)
    ensures !HandleMessage(ms[i], utf8).1 ==>
      (Run(ms[i..], consumerTag, utf8)
       == (HandleMessage(ms[i], utf8).0 + Run(ms[i + 1..], consumerTag, utf8).0, Run(ms[i + 1..], consumerTag, utf8).1))
  {
    assert ms[i..][1..] == ms[i + 1..];
  }

  /**
   * `subscribe_to_queue` after the consumer is registered: handle each
   * delivered message in turn; on an upsert failure return `Err` at once;
   * once the stream of deliveries ends, cancel the consumer and return `Ok`.
   */
  method SubscribeToQueue(messages: seq<Message>, consumerTag: string, utf8: Utf8Decoder) returns (trace: seq<Action>, ok: bool)
    requires MessagesReady(messages, utf8)
    ensures (trace, ok) == Run(messages, consumerTag, utf8)
  {
    trace := [];
    var i := 0;
    assert messages[i..] == messages;
    assert trace + Run(messages, consumerTag, utf8).0 == Run(messages, consumerTag, utf8).0;
    while i < |messages|
      invariant 0 <= i <= |messages|
      invariant MessagesReady(messages[i..], utf8)
      invariant Run(messages, consumerTag, utf8)
        == (trace + Run(messages[i..], consumerTag, utf8).0, Run(messages[i..], consumerTag, utf8).1)
    {
      RunStep(messages, consumerTag, utf8, i);
      var actions, failed := HandleOne(messages[i], utf8);
      if failed {
        return trace + actions, false;
      }
      ConcatAssoc(trace, actions, Run(messages[i + 1..], consumerTag, utf8).0);
      trace := trace + actions;
      i := i + 1;
    }
    trace := trace + [Cancel(consumerTag)];
    ok := true;
  }

  /** The message has a stream header and a body that is valid UTF-8: the loop acts on it. */
  predicate Delivered(m: Message, utf8: Utf8Decoder)
  {
    StreamHeader in m.headers && m.content.Some? && utf8.strict(m.content.value).Some?
  }

  /** The file branch is taken and one of the chunk upserts fails. */
  predicate UploadFails(m: Message)
  {
    TypeHeader in m.headers && m.file.Chunks? && exists i :: 0 <= i < |m.file.upserts| && !m.file.upserts[i]
  }

  /** Handling the message makes `subscribe_to_queue` return an error. */
  predicate Fails(m: Message, utf8: Utf8Decoder)
  {
    Delivered(m, utf8) && UploadFails(m)
  }

  /** The action `a` is one that handling message `m` may issue. */
  predicate FromMessage(m: Message, utf8: Utf8Decoder, a: Action)
  {
    Delivered(m, utf8) &&
    var datasourceId := DatasourceId(m.headers[StreamHeader]);
    match a
    case Ack(tag, multiple) => tag == m.deliveryTag && !multiple && !UploadFails(m)
    case Process(id, body) => id == datasourceId && utf8.strict(m.content.value) == Some(body) && !UploadFails(m)
    case Upsert(collection, point) =>
      collection == datasourceId && TypeHeader in m.headers && m.file.Chunks? &&
      exists i :: 0 <= i < |m.file.chunks| && ChunkReady(m.file.chunks[i]) && point == ChunkPoint(m.file.chunks[i])
    case Cancel(_) => false
  }

  /** Every ack is immediately followed by a call to `process_messages`, and every such call immediately follows an ack. */
  predicate AckPaired(t: seq<Action>)
  {
    forall j :: 0 <= j < |t| ==> PairedAt(t, j)
  }

  /** Position `j` of the trace respects the pairing. */
  predicate PairedAt(t: seq<Action>, j: nat)
    requires j < |t|
  {
    (t[j].Ack? ==> j + 1 < |t| && t[j + 1].Process?) && (t[j].Process? ==> 0 < j && t[j - 1].Ack?)
  }

  /**
   * One message: it fails exactly when it is delivered and an upsert fails;
   * an undelivered message does nothing; a delivered one that does not fail
   * ends with the ack of its own delivery tag and the call to
   * `process_messages` with its datasource id and body. Both are preceded by
   * exactly the upserts of its `type` branch; a failing one issues those upserts only.
   */
  lemma HandleMessageOutcome(m: Message, utf8: Utf8Decoder)
    requires MessageReady(m)
    ensures HandleMessage(m, utf8).1 <==> Fails(m, utf8)
    ensures !Delivered(m, utf8) ==> HandleMessage(m, utf8).0 == []
    ensures Delivered(m, utf8) && !UploadFails(m) ==>
      (var a := HandleMessage(m, utf8).0;
       |a| >= 2 && a[|a| - 2] == Ack(m.deliveryTag, false) &&
       a[|a| - 1] == Process(DatasourceId(m.headers[StreamHeader]), utf8.strict(m.content.value).value))
    ensures Delivered(m, utf8) && !UploadFails(m) ==>
      HandleMessage(m, utf8).0 == Uploads(m, DatasourceId(m.headers[StreamHeader])).0
        + [Ack(m.deliveryTag, false), Process(DatasourceId(m.headers[StreamHeader]), utf8.strict(m.content.value).value)]
    ensures Delivered(m, utf8) && UploadFails(m) ==>
      HandleMessage(m, utf8).0 == Uploads(m, DatasourceId(m.headers[StreamHeader])).0
  {
    if Delivered(m, utf8) && TypeHeader in m.headers && m.file.Chunks? {
      UpsertChunksFails(DatasourceId(m.headers[StreamHeader]), m.file.chunks, m.file.upserts);
    }
  }

  /**
   * The upserts of the `type` branch: none without a `type` header and a file;
   * otherwise one per chunk, in chunk order, for every chunk when no upsert
   * fails, and up to and including the first failed one when one does.
   */
  lemma UploadsSpec(m: Message, collection: string)
    requires MessageReady(m)
    ensures !(TypeHeader in m.headers && m.file.Chunks?) ==> Uploads(m, collection) == ([], false)
    ensures TypeHeader in m.headers && m.file.Chunks? ==>
      var u := Uploads(m, collection).0;
      && |u| <= |m.file.chunks|
      && (forall i :: 0 <= i < |u| ==> ChunkReady(m.file.chunks[i]) && u[i] == Upsert(collection, ChunkPoint(m.file.chunks[i])))
      && (!UploadFails(m) ==> |u| == |m.file.chunks|)
      && (UploadFails(m) ==> |u| > 0 && !m.file.upserts[|u| - 1] && forall i :: 0 <= i < |u| - 1 ==> m.file.upserts[i])
  {
    if TypeHeader in m.headers && m.file.Chunks? {
      UpsertChunksShape(collection, m.file.chunks, m.file.upserts);
      UpsertChunksFails(collection, m.file.chunks, m.file.upserts);
    }
  }

  /** The upserts issued for a delivered message belong to it. */
  lemma UploadsFromMessage(m: Message, utf8: Utf8Decoder)
    requires MessageReady(m) && Delivered(m, utf8)
    ensures var u := Uploads(m, DatasourceId(m.headers[StreamHeader])).0;
      forall j :: 0 <= j < |u| ==> u[j].Upsert? && FromMessage(m, utf8, u[j])
  {
    if TypeHeader in m.headers && m.file.Chunks? {
      UpsertChunksShape(DatasourceId(m.headers[StreamHeader]), m.file.chunks, m.file.upserts);
    }
  }

  /** A run of upserts, optionally followed by an ack and a call to `process_messages`, is paired. */
  lemma UpsertsPaired(u: seq<Action>, tail: seq<Action>)
    requires forall j :: 0 <= j < |u| ==> u[j].Upsert?
    requires tail == [] || (|tail| == 2 && tail[0].Ack? && tail[1].Process?)
    ensures AckPaired(u + tail)
  {
    var t := u + tail;
    forall j | 0 <= j < |t|
      ensures PairedAt(t, j)
    {
      if j < |u| {
        assert t[j] == u[j];
      } else {
        assert t[j] == tail[j - |u|];
      }
    }
  }

  /** Every action issued for a message belongs to it, and its acks and calls to `process_messages` are paired. */
  lemma HandleMessageActions(m: Message, utf8: Utf8Decoder)
    requires MessageReady(m)
    ensures forall a :: a in HandleMessage(m, utf8).0 ==> FromMessage(m, utf8, a)
    ensures AckPaired(HandleMessage(m, utf8).0)
  {
    if Delivered(m, utf8) {
      var datasourceId := DatasourceId(m.headers[StreamHeader]);
      var uploads := Uploads(m, datasourceId);
      UploadsFromMessage(m, utf8);
      var h := HandleMessage(m, utf8).0;
      if uploads.1 {
        assert h == uploads.0 + [];
        UpsertsPaired(uploads.0, []);
      } else {
        var tail := [Ack(m.deliveryTag, false), Process(datasourceId, utf8.strict(m.content.value).value)];
        assert h == uploads.0 + tail;
        HandleMessageOutcome(m, utf8);
        assert FromMessage(m, utf8, tail[0]) && FromMessage(m, utf8, tail[1]);
        UpsertsPaired(uploads.0, tail);
      }
    } else {
      assert HandleMessage(m, utf8).0 == [];
    }
  }

  /** Both halves of the per-message specification. */
  lemma HandleMessageSpec(m: Message, utf8: Utf8Decoder)
    requires MessageReady(m)
    ensures HandleMessage(m, utf8).1 <==> Fails(m, utf8)
    ensures forall a :: a in HandleMessage(m, utf8).0 ==> FromMessage(m, utf8, a)
    ensures AckPaired(HandleMessage(m, utf8).0)
  {
    HandleMessageOutcome(m, utf8);
    HandleMessageActions(m, utf8);
  }

  /** Pairing of acks with calls to `process_messages` survives concatenation. */
  lemma AckPairedConcat(a: seq<Action>, b: seq<Action>)
    requires AckPaired(a) && AckPaired(b)
    ensures AckPaired(a + b)
  {
    var t := a + b;
    forall j | 0 <= j < |t|
      ensures PairedAt(t, j)
    {
      if j < |a| {
        assert PairedAt(a, j);
        assert t[j] == a[j];
        if j + 1 < |a| {
          assert t[j + 1] == a[j + 1];
        }
        if 0 < j {
          assert t[j - 1] == a[j - 1];
        }
      } else {
        assert PairedAt(b, j - |a|);
        assert t[j] == b[j - |a|];
        if j + 1 < |t| {
          assert t[j + 1] == b[j + 1 - |a|];
        }
        if |a| < j {
          assert t[j - 1] == b[j - 1 - |a|];
        }
      }
    }
  }

  /** Across the whole run, acks and calls to `process_messages` come in adjacent pairs. */
  lemma {:induction false} RunAckPaired(ms: seq<Message>, consumerTag: string, utf8: Utf8Decoder)
    requires MessagesReady(ms, utf8)
    ensures AckPaired(Run(ms, consumerTag, utf8).0)
  {
    if ms != [] {
      HandleMessageSpec(ms[0], utf8);
      if !HandleMessage(ms[0], utf8).1 {
        RunAckPaired(ms[1..], consumerTag, utf8);
        AckPairedConcat(HandleMessage(ms[0], utf8).0, Run(ms[1..], consumerTag, utf8).0);
      }
    }
  }

  /** The run returns `Ok` exactly when none of the messages fails. */
  lemma {:induction false} RunOkIffNoFailure(ms: seq<Message>, consumerTag: string, utf8: Utf8Decoder)
    requires MessagesReady(ms, utf8)
    ensures Run(ms, consumerTag, utf8).1 <==> forall i :: 0 <= i < |ms| ==> !Fails(ms[i], utf8)
  {
    if ms != [] {
      HandleMessageSpec(ms[0], utf8);
      if !HandleMessage(ms[0], utf8).1 {
        RunOkIffNoFailure(ms[1..], consumerTag, utf8);
        assert forall i :: 0 < i < |ms| ==> ms[i] == ms[1..][i - 1];
      }
    }
  }

  /** The consumer is cancelled exactly when the run returns `Ok`, and only as the last action. */
  lemma {:induction false} RunCancels(ms: seq<Message>, consumerTag: string, utf8: Utf8Decoder)
    requires MessagesReady(ms, utf8)
    ensures Run(ms, consumerTag, utf8).1 <==> Cancel(consumerTag) in Run(ms, consumerTag, utf8).0
    ensures forall j :: 0 <= j < |Run(ms, consumerTag, utf8).0| - 1 ==> !Run(ms, consumerTag, utf8).0[j].Cancel?
  {
    if ms != [] {
      HandleMessageSpec(ms[0], utf8);
      var h := HandleMessage(ms[0], utf8);
      assert forall a :: a in h.0 ==> !a.Cancel?;
      if !h.1 {
        var rest := Run(ms[1..], consumerTag, utf8);
        RunCancels(ms[1..], consumerTag, utf8);
        var r := Run(ms, consumerTag, utf8);
        assert r.0 == h.0 + rest.0;
        forall j | 0 <= j < |r.0| - 1
          ensures !r.0[j].Cancel?
        {
          if j < |h.0| {
            assert r.0[j] in h.0;
          } else {
            assert r.0[j] == rest.0[j - |h.0|];
          }
        }
      }
    }
  }

  /** Every action other than the cancel was issued on behalf of one of the messages. */
  lemma {:induction false} RunActionsFromMessages(ms: seq<Message>, consumerTag: string, utf8: Utf8Decoder)
    requires MessagesReady(ms, utf8)
    ensures forall a :: a in Run(ms, consumerTag, utf8).0 && !a.Cancel? ==> exists i :: 0 <= i < |ms| && FromMessage(ms[i], utf8, a)
  {
    if ms != [] {
      HandleMessageSpec(ms[0], utf8);
      var h := HandleMessage(ms[0], utf8);
      if !h.1 {
        var rest := Run(ms[1..], consumerTag, utf8);
        RunActionsFromMessages(ms[1..], consumerTag, utf8);
        forall a | a in h.0 + rest.0 && !a.Cancel?
          ensures exists i :: 0 <= i < |ms| && FromMessage(ms[i], utf8, a)
        {
          if a in h.0 {
            assert FromMessage(ms[0], utf8, a);
          } else {
            var i :| 0 <= i < |ms[1..]| && FromMessage(ms[1..][i], utf8, a);
            assert FromMessage(ms[i + 1], utf8, a);
          }
        }
      }
    }
  }

  /**
   * Every message the loop reaches before the first failure that is
   * delivered and whose upserts succeed is acknowledged, with its own delivery
   * tag, and handed to `process_messages`.
   */
  lemma {:induction false} RunAcknowledges(ms: seq<Message>, consumerTag: string, utf8: Utf8Decoder, i: nat)
    requires MessagesReady(ms, utf8)
    requires i < |ms| && forall k :: 0 <= k < i ==> !Fails(ms[k], utf8)
    requires Delivered(ms[i], utf8) && !UploadFails(ms[i])
    ensures Ack(ms[i].deliveryTag, false) in Run(ms, consumerTag, utf8).0
    ensures Process(DatasourceId(ms[i].headers[StreamHeader]), utf8.strict(ms[i].content.value).value) in Run(ms, consumerTag, utf8).0
  {
    HandleMessageSpec(ms[0], utf8);
    var h := HandleMessage(ms[0], utf8).0;
    if i == 0 {
      assert h[|h| - 2] in h && h[|h| - 1] in h;
    } else {
      assert !Fails(ms[0], utf8);
      assert forall k :: 0 <= k < i - 1 ==> ms[1..][k] == ms[k + 1];
      RunAcknowledges(ms[1..], consumerTag, utf8, i - 1);
    }
  }

  /** Once a message fails, later deliveries are never consumed: appending messages changes nothing. */
  lemma {:induction false} FailureStopsConsumption(ms: seq<Message>, later: seq<Message>, consumerTag: string, utf8: Utf8Decoder)
    requires MessagesReady(ms, utf8) && !Run(ms, consumerTag, utf8).1
    ensures MessagesReady(ms + later, utf8)
    ensures Run(ms + later, consumerTag, utf8) == Run(ms, consumerTag, utf8)
  {
    assert (ms + later)[0] == ms[0];
    if !HandleMessage(ms[0], utf8).1 {
      assert (ms + later)[1..] == ms[1..] + later;
      FailureStopsConsumption(ms[1..], later, consumerTag, utf8);
    }
  }

  /** Dropping the last element of a concatenation whose right part is not empty. */
  lemma DropLastConcat<T>(a: seq<T>, b: seq<T>, c: seq<T>)
    requires |b| > 0
    ensures (a + b)[..|a + b| - 1] + c == a + (b[..|b| - 1] + c)
  {
    assert (a + b)[..|a + b| - 1] == a + b[..|b| - 1];
  }

  /** The trace arithmetic behind `RunAppend`. */
  lemma ComposeTraces(first: (seq<Action>, bool), combined: (seq<Action>, bool), head: seq<Action>,
                      rest: (seq<Action>, bool), tail: (seq<Action>, bool), second: (seq<Action>, bool))
    requires first == (head + rest.0, rest.1) && combined == (head + tail.0, tail.1)
    requires |rest.0| > 0 && tail == (rest.0[..|rest.0| - 1] + second.0, second.1)
    ensures |first.0| > 0 && combined == (first.0[..|first.0| - 1] + second.0, second.1)
  {
    DropLastConcat(head, rest.0, second.0);
  }

  /** A run that succeeds on `ms` lets every message of `later` that is reachable be handled too. */
  lemma {:induction false} ReadyAppend(ms: seq<Message>, later: seq<Message>, consumerTag: string, utf8: Utf8Decoder)
    requires MessagesReady(ms, utf8) && Run(ms, consumerTag, utf8).1 && MessagesReady(later, utf8)
    ensures MessagesReady(ms + later, utf8)
  {
    if ms == [] {
      assert ms + later == later;
    } else {
      assert (ms + later)[0] == ms[0];
      assert (ms + later)[1..] == ms[1..] + later;
      ReadyAppend(ms[1..], later, consumerTag, utf8);
    }
  }

  /** `Run` on a non-empty sequence whose first message does not fail. */
  lemma RunCons(ms: seq<Message>, consumerTag: string, utf8: Utf8Decoder)
    requires ms != [] && MessagesReady(ms, utf8) && !HandleMessage(ms[0], utf8).1
    ensures MessagesReady(ms[1..], utf8)
    ensures Run(ms, consumerTag, utf8) == (HandleMessage(ms[0], utf8).0 + Run(ms[1..], consumerTag, utf8).0, Run(ms[1..], consumerTag, utf8).1)
  {
  }

  /** `Run` on `ms + later` when the first message of `ms` does not fail. */
  lemma RunConsAppend(ms: seq<Message>, later: seq<Message>, consumerTag: string, utf8: Utf8Decoder)
    requires ms != [] && MessagesReady(ms + later, utf8) && MessageReady(ms[0]) && !HandleMessage(ms[0], utf8).1
    ensures MessagesReady(ms[1..] + later, utf8)
    ensures Run(ms + later, consumerTag, utf8)
      == (HandleMessage(ms[0], utf8).0 + Run(ms[1..] + later, consumerTag, utf8).0, Run(ms[1..] + later, consumerTag, utf8).1)
  {
    var whole := ms + later;
    assert whole[0] == ms[0] && whole[1..] == ms[1..] + later;
    RunCons(whole, consumerTag, utf8);
  }

  /**
   * A run that succeeds on `ms` and then receives `later` behaves as the
   * two runs one after the other, with the first run's cancel dropped.
   */
  lemma {:induction false} RunAppend(ms: seq<Message>, later: seq<Message>, consumerTag: string, utf8: Utf8Decoder)
    requires MessagesReady(ms, utf8) && Run(ms, consumerTag, utf8).1 && MessagesReady(later, utf8) && MessagesReady(ms + later, utf8)
    ensures var first := Run(ms, consumerTag, utf8).0;
      Run(ms + later, consumerTag, utf8) == (first[..|first| - 1] + Run(later, consumerTag, utf8).0, Run(later, consumerTag, utf8).1)
  {
    if ms == [] {
      assert ms + later == later;
      assert [Cancel(consumerTag)][..0] + Run(later, consumerTag, utf8).0 == Run(later, consumerTag, utf8).0;
    } else {
      RunCons(ms, consumerTag, utf8);
      ReadyAppend(ms[1..], later, consumerTag, utf8);
      RunAppend(ms[1..], later, consumerTag, utf8);
      RunConsAppend(ms, later, consumerTag, utf8);
      ComposeTraces(Run(ms, consumerTag, utf8), Run(ms + later, consumerTag, utf8), HandleMessage(ms[0], utf8).0,
                    Run(ms[1..], consumerTag, utf8), Run(ms[1..] + later, consumerTag, utf8), Run(later, consumerTag, utf8));
    }
  }

  /** A text message for datasource "ds1" whose body is the bytes of "hi". */
  const TextMessage: Message := Message(map[StreamHeader := "ds1_abc"], Some([104, 105]), 7, NoFile)
  /** A message without a stream header. */
  const UnnamedMessage: Message := Message(map[], Some([104, 105]), 8, NoFile)
  /** A chunk with metadata page = 1 and a one-element embedding. */
  const ExampleChunk: Document := Document("hello", Some(map["page" := "1"]), Some([0]))
  /** A file message for datasource "ds2" whose only chunk fails to upsert. */
  const FileMessage: Message := Message(map[StreamHeader := "ds2_f", TypeHeader := "pdf"], Some([104, 105]), 9, Chunks([ExampleChunk], [false]))

  /** The text message is acknowledged and handed to `process_messages` under datasource "ds1". */
  lemma TextMessageHandled(utf8: Utf8Decoder)
    requires utf8.strict([104, 105]) == Some("hi")
    ensures MessageReady(TextMessage)
    ensures HandleMessage(TextMessage, utf8) == ([Ack(7, false), Process("ds1", "hi")], false)
  {
    assert DatasourceId("ds1_abc") == "ds1";
    assert TypeHeader !in TextMessage.headers && TextMessage.headers[StreamHeader] == "ds1_abc";
    assert HandleMessage(TextMessage, utf8).0 == [] + [Ack(7, false), Process(DatasourceId("ds1_abc"), "hi")];
    assert [] + [Ack(7, false), Process(DatasourceId("ds1_abc"), "hi")] == [Ack(7, false), Process("ds1", "hi")];
  }

  /** The file message issues its one upsert into "ds2", which fails. */
  lemma FileMessageHandled(utf8: Utf8Decoder)
    requires utf8.strict([104, 105]) == Some("hi")
    ensures MessageReady(FileMessage)
    ensures HandleMessage(FileMessage, utf8) == ([Upsert("ds2", Point([0], map["page" := "1", "text" := "hello"]))], true)
  {
    var point := Point([0], map["page" := "1", "text" := "hello"]);
    assert DatasourceId("ds2_f") == "ds2";
    assert ChunkPoint(ExampleChunk) == point;
    assert FileMessage.headers[StreamHeader] == "ds2_f" && TypeHeader in FileMessage.headers;
    assert UpsertChunks("ds2", [ExampleChunk], [false]) == ([Upsert("ds2", point)], true);
  }

  /**
   * Three deliveries: the text message is acknowledged and processed, the one
   * with no stream header is skipped, and the file message's failed upsert
   * ends the run with an error before the fourth delivery is consumed.
   */
  lemma ConsumeExample(utf8: Utf8Decoder)
    requires utf8.strict([104, 105]) == Some("hi")
    ensures MessagesReady([TextMessage, UnnamedMessage], utf8)
    ensures Run([TextMessage, UnnamedMessage], "c", utf8) == ([Ack(7, false), Process("ds1", "hi"), Cancel("c")], true)
    ensures MessagesReady([TextMessage, UnnamedMessage, FileMessage, TextMessage], utf8)
    ensures Run([TextMessage, UnnamedMessage, FileMessage, TextMessage], "c", utf8)
      == ([Ack(7, false), Process("ds1", "hi"), Upsert("ds2", Point([0], map["page" := "1", "text" := "hello"]))], false)
  {
    TextMessageHandled(utf8);
    FileMessageHandled(utf8);
    assert HandleMessage(UnnamedMessage, utf8) == ([], false);
    var point := Point([0], map["page" := "1", "text" := "hello"]);
    var text := [Ack(7, false), Process("ds1", "hi")];
    var ms := [TextMessage, UnnamedMessage, FileMessage, TextMessage];
    assert ms[1..] == [UnnamedMessage, FileMessage, TextMessage] && ms[1..][1..] == [FileMessage, TextMessage];
    assert [TextMessage, UnnamedMessage][1..] == [UnnamedMessage] && [UnnamedMessage][1..] == [];
    assert Run([UnnamedMessage], "c", utf8) == ([] + [Cancel("c")], true);
    assert Run([TextMessage, UnnamedMessage], "c", utf8) == (text + ([] + [Cancel("c")]), true);
    assert Run([FileMessage, TextMessage], "c", utf8) == ([Upsert("ds2", point)], false);
    assert Run(ms, "c", utf8) == (text + ([] + [Upsert("ds2", point)]), false);
    assert text + ([] + [Cancel("c")]) == [Ack(7, false), Process("ds1", "hi"), Cancel("c")];
    assert text + ([] + [Upsert("ds2", point)]) == [Ack(7, false), Process("ds1", "hi"), Upsert("ds2", point)];
  }
}

/** The model expander (`lambda_handler` of code_lambdas fipe_model_loader.py): for
    each manufacturer message it asks the catalog for the models, retrying twice on
    HTTP 429 with a doubling pause, and emits one message per model through a
    buffer shared by all records that is sent whenever it holds ten messages and
    once more at the end. */
module ModelExpander {
  import opened Wrappers
  import opened Json
  import opened Queue
  import opened ApiService

  /** The `Modelos` field of a dictionary reply. */
  datatype ModelosField = ModelosMissing | ModelosNotList | ModelosList(items: seq<Object>)

  /** What `get_models` does: return a dictionary, return something else, raise
      `requests.HTTPError` with a status, or raise anything else. */
  datatype ModelsReply =
    | ModelsObject(modelos: ModelosField)
    | ModelsNotObject
    | ModelsHttpError(status: int)
    | ModelsRaised

  /** The message emitted for one model. */
  datatype ModelMessage = ModelMessage(
    manufacturer: Value,
    manufacturerCode: Value,
    model: Value,
    modelCode: Value,
    vehicleType: Value,
    referenceMonth: Value,
    referenceTableCode: Value)

  /** The handler's state: the shared buffer, the failure list, the buffers handed
      to `send_sqs_messages` in order, the numbers of `get_models` and
      `send_message_batch` calls made, and the pauses requested. */
  datatype State = State(
    batch: seq<ModelMessage>,
    failures: seq<string>,
    handed: seq<seq<ModelMessage>>,
    modelCalls: nat,
    sqsCalls: nat,
    delays: seq<real>)

  const Start: State := State([], [], [], 0, 0, [])

  const InitialRetries: nat := 2
  const InitialDelay: nat := 5
  /** The pause `get_models` takes after a successful request. */
  const ModelsPause: real := 1.0
  /** The pause after each in-loop send. */
  const BatchPause: real := 0.5

  function Fail(st: State, id: string): State {
    st.(failures := st.failures + [id])
  }

  /** `all([brand_code, vehicle_type, reference_table_code])` */
  predicate Valid(msg: Object) {
    Truthy(Get(msg, "codigoMarca", Null)) && Truthy(Get(msg, "codigoTipoVeiculo", Null))
    && Truthy(Get(msg, "codigoTabelaReferencia", Null))
  }

  /** The message built for one model of a manufacturer message. */
  function ModelMessageOf(msg: Object, item: Object): ModelMessage {
    ModelMessage(
      Get(msg, "nomeMarca", Str("Unknown")),
      Get(msg, "codigoMarca", Null),
      Get(item, "Label", Str("Unknown")),
      Get(item, "Value", Str("Unknown")),
      Get(msg, "codigoTipoVeiculo", Null),
      Get(msg, "mesReferenciaAno", Str("Desconhecido")),
      Get(msg, "codigoTabelaReferencia", Null))
  }

  /** One message per model, in the order of the list. */
  function ModelMessages(msg: Object, items: seq<Object>): (ms: seq<ModelMessage>)
    ensures |ms| == |items|
  {
    seq(|items|, k requires 0 <= k < |items| => ModelMessageOf(msg, items[k]))
  }

  // ---------------------------------------------------------------------------
  // Specification of the loops

  /** The model loop from position `i` on: append, and send the buffer when it
      holds ten or more. A send that raises fails the record and ends the loop,
      leaving the buffer as it was; the flag says whether the loop completed. */
  function EmitFrom(st: State, msg: Object, items: seq<Object>, i: nat, id: string,
                    sqs: nat -> BatchReply): (State, bool)
    decreases |items| - i
  {
    if i >= |items| then (st, true)
    else
      var st1 := st.(batch := st.batch + [ModelMessageOf(msg, items[i])]);
      if |st1.batch| >= MaxBatch then
        var sent := SendResult(st1.batch, sqs, st1.sqsCalls);
        var st2 := st1.(handed := st1.handed + [st1.batch], sqsCalls := st1.sqsCalls + sent.1);
        if sent.0.Raised? then (Fail(st2, id), false)
        else
          EmitFrom(st2.(failures := st2.failures + sent.0.value, batch := [], delays := st2.delays + [BatchPause]),
                   msg, items, i + 1, id, sqs)
      else EmitFrom(st1, msg, items, i + 1, id, sqs)
  }

  /** The retry loop with `retries` attempts left and the next pause `delay`. */
  function FetchFrom(st: State, msg: Object, id: string, retries: nat, delay: nat,
                     getModels: nat -> ModelsReply, sqs: nat -> BatchReply): State
    decreases retries
  {
    if retries == 0 then Fail(st, id)
    else
      var st1 := st.(modelCalls := st.modelCalls + 1);
      match getModels(st.modelCalls)
      case ModelsHttpError(status) =>
        if status == TooManyRequests then
          FetchFrom(st1.(delays := st1.delays + [delay as real]), msg, id, retries - 1, delay * 2, getModels, sqs)
        else Fail(st1, id)
      case ModelsRaised => Fail(st1, id)
      case ModelsNotObject => Fail(st1.(delays := st1.delays + [ModelsPause]), id)
      case ModelsObject(field) =>
        var st2 := st1.(delays := st1.delays + [ModelsPause]);
        match field
        case ModelosNotList => Fail(st2, id)
        case ModelosMissing => st2
        case ModelosList(items) => EmitFrom(st2, msg, items, 0, id, sqs).0
  }

  /** One record: an unreadable or incomplete message fails without a catalog call. */
  function ProcessRecord(st: State, rec: Record, getModels: nat -> ModelsReply, sqs: nat -> BatchReply): State {
    match rec.body
    case None => Fail(st, rec.messageId)
    case Some(msg) =>
      if !Valid(msg) then Fail(st, rec.messageId)
      else FetchFrom(st, msg, rec.messageId, InitialRetries, InitialDelay, getModels, sqs)
  }

  /** The record loop from position `k` on. */
  function RecordsFrom(st: State, records: seq<Record>, k: nat,
                       getModels: nat -> ModelsReply, sqs: nat -> BatchReply): State
    decreases |records| - k
  {
    if k >= |records| then st
    else RecordsFrom(ProcessRecord(st, records[k], getModels, sqs), records, k + 1, getModels, sqs)
  }

  /** The final send of a non-empty buffer; if it raises, every record is failed. */
  function FinalFlush(st: State, records: seq<Record>, sqs: nat -> BatchReply): State {
    if st.batch == [] then st
    else
      var sent := SendResult(st.batch, sqs, st.sqsCalls);
      var st1 := st.(handed := st.handed + [st.batch], sqsCalls := st.sqsCalls + sent.1);
      if sent.0.Ok? then st1.(failures := st1.failures + sent.0.value)
      else st1.(failures := st1.failures + Ids(records))
  }

  /** The whole run once the client exists and the output queue is configured. */
  function Handle(records: seq<Record>, getModels: nat -> ModelsReply, sqs: nat -> BatchReply): State {
    FinalFlush(RecordsFrom(Start, records, 0, getModels, sqs), records, sqs)
  }

  // ---------------------------------------------------------------------------
  // The handler

  /** The model loop of one record. */
  method EmitModels(st0: State, msg: Object, items: seq<Object>, id: string, sqs: nat -> BatchReply)
    returns (st: State, completed: bool)
    ensures (st, completed) == EmitFrom(st0, msg, items, 0, id, sqs)
  {
    st := st0;
    var i := 0;
    while i < |items|
      invariant 0 <= i <= |items|
      invariant EmitFrom(st, msg, items, i, id, sqs) == EmitFrom(st0, msg, items, 0, id, sqs)
    {
      var model := items[i];
      st := st.(batch := st.batch + [ModelMessageOf(msg, model)]);
      if |st.batch| >= MaxBatch {
        var failures, sentChunks, calls := SendSqsMessages(st.batch, sqs, st.sqsCalls);
        st := st.(handed := st.handed + [st.batch], sqsCalls := calls);
        if failures.Raised? {
          st := Fail(st, id);
          return st, false;
        }
        st := st.(failures := st.failures + failures.value, batch := [], delays := st.delays + [BatchPause]);
      }
      i := i + 1;
    }
    completed := true;
  }

  /** The retry loop of one record. */
  method FetchModels(st0: State, msg: Object, id: string, getModels: nat -> ModelsReply, sqs: nat -> BatchReply)
    returns (st: State)
    ensures st == FetchFrom(st0, msg, id, InitialRetries, InitialDelay, getModels, sqs)
  {
    st := st0;
    var retries := InitialRetries;
    var delay := InitialDelay;
    while retries > 0
      invariant FetchFrom(st, msg, id, retries, delay, getModels, sqs)
                == FetchFrom(st0, msg, id, InitialRetries, InitialDelay, getModels, sqs)
      decreases retries
    {
      var reply := getModels(st.modelCalls);
      st := st.(modelCalls := st.modelCalls + 1);
      if reply.ModelsHttpError? && reply.status == TooManyRequests {
        st := st.(delays := st.delays + [delay as real]);
        retries := retries - 1;
        delay := delay * 2;
        continue;
      }
      if reply.ModelsHttpError? || reply.ModelsRaised? {
        st := Fail(st, id);
        return;
      }
      st := st.(delays := st.delays + [ModelsPause]);
      if reply.ModelsNotObject? || reply.modelos.ModelosNotList? {
        st := Fail(st, id);
        return;
      }
      if reply.modelos.ModelosList? {
        var completed;
        st, completed := EmitModels(st, msg, reply.modelos.items, id, sqs);
      }
      return;
    }
    st := Fail(st, id);
  }

  /** `lambda_handler(event, context)`. The constructed client (or the exception
      its construction raised) and the output queue's URL ("" when unset) are
      inputs; `get_models` and `send_message_batch` answer per call number. */
  method LambdaHandler(records: seq<Record>, client: Result<Client>, outputUrl: string,
                       getModels: nat -> ModelsReply, sqs: nat -> BatchReply)
    returns (resp: Response, st: State)
    ensures client.Raised? || outputUrl == "" ==> resp == Response(500, Ids(records)) && st == Start
    ensures client.Ok? && outputUrl != "" ==> st == Handle(records, getModels, sqs) && resp == Response(200, st.failures)
  {
    st := Start;
    if client.Raised? || outputUrl == "" {
      return Response(500, Ids(records)), st;
    }
    for k := 0 to |records|
      invariant RecordsFrom(st, records, k, getModels, sqs) == RecordsFrom(Start, records, 0, getModels, sqs)
    {
      var rec := records[k];
      if rec.body.None? || !Valid(rec.body.value) {
        st := Fail(st, rec.messageId);
      } else {
        st := FetchModels(st, rec.body.value, rec.messageId, getModels, sqs);
      }
    }
    if st.batch != [] {
      var failures, sentChunks, calls := SendSqsMessages(st.batch, sqs, st.sqsCalls);
      st := st.(handed := st.handed + [st.batch], sqsCalls := calls);
      if failures.Ok? {
        st := st.(failures := st.failures + failures.value);
      } else {
        st := st.(failures := st.failures + Ids(records));
      }
    }
    resp := Response(200, st.failures);
  }

  // ---------------------------------------------------------------------------
  // Properties

  /** A record whose body is unreadable or lacks a truthy `codigoMarca`,
      `codigoTipoVeiculo` or `codigoTabelaReferencia` is failed once, before any
      `get_models` call, and nothing else changes. */
  lemma IncompleteRecordFailsWithoutCall(st: State, rec: Record, getModels: nat -> ModelsReply, sqs: nat -> BatchReply)
    requires rec.body.None? || !Valid(rec.body.value)
    ensures ProcessRecord(st, rec, getModels, sqs) == st.(failures := st.failures + [rec.messageId])
  {
  }

  /** The model loop calls no `get_models` and keeps every earlier failure. */
  lemma {:induction false} EmitKeepsCallsAndFailures(st: State, msg: Object, items: seq<Object>, i: nat, id: string,
                                                     sqs: nat -> BatchReply)
    ensures EmitFrom(st, msg, items, i, id, sqs).0.modelCalls == st.modelCalls
    ensures st.failures <= EmitFrom(st, msg, items, i, id, sqs).0.failures
    decreases |items| - i
  {
    if i < |items| {
      var st1 := st.(batch := st.batch + [ModelMessageOf(msg, items[i])]);
      if |st1.batch| >= MaxBatch {
        var sent := SendResult(st1.batch, sqs, st1.sqsCalls);
        var st2 := st1.(handed := st1.handed + [st1.batch], sqsCalls := st1.sqsCalls + sent.1);
        if sent.0.Ok? {
          EmitKeepsCallsAndFailures(st2.(failures := st2.failures + sent.0.value, batch := [], delays := st2.delays + [BatchPause]),
                                    msg, items, i + 1, id, sqs);
        }
      } else {
        EmitKeepsCallsAndFailures(st1, msg, items, i + 1, id, sqs);
      }
    }
  }

  /** A record costs at most `retries` (two) `get_models` calls, and at least one. */
  lemma {:induction false} FetchCallsBounded(st: State, msg: Object, id: string, retries: nat, delay: nat,
                                             getModels: nat -> ModelsReply, sqs: nat -> BatchReply)
    ensures var r := FetchFrom(st, msg, id, retries, delay, getModels, sqs);
            st.modelCalls + (if retries > 0 then 1 else 0) <= r.modelCalls <= st.modelCalls + retries
    decreases retries
  {
    if retries > 0 {
      var st1 := st.(modelCalls := st.modelCalls + 1);
      match getModels(st.modelCalls)
      case ModelsHttpError(status) =>
        if status == TooManyRequests {
          FetchCallsBounded(st1.(delays := st1.delays + [delay as real]), msg, id, retries - 1, delay * 2, getModels, sqs);
        }
      case ModelsRaised =>
      case ModelsNotObject =>
      case ModelsObject(field) =>
        if field.ModelosList? {
          EmitKeepsCallsAndFailures(st1.(delays := st1.delays + [ModelsPause]), msg, field.items, 0, id, sqs);
        }
    }
  }

  /** Each record triggers at most two `get_models` calls. */
  lemma RecordCallsAtMostTwo(st: State, rec: Record, getModels: nat -> ModelsReply, sqs: nat -> BatchReply)
    ensures st.modelCalls <= ProcessRecord(st, rec, getModels, sqs).modelCalls <= st.modelCalls + 2
  {
    if rec.body.Some? && Valid(rec.body.value) {
      FetchCallsBounded(st, rec.body.value, rec.messageId, InitialRetries, InitialDelay, getModels, sqs);
    }
  }

  /** Two 429 answers in a row: the handler pauses 5 then 10 seconds, makes no third
      call, and fails the record exactly once. */
  lemma ThrottledTwiceFailsOnce(st: State, msg: Object, id: string, getModels: nat -> ModelsReply, sqs: nat -> BatchReply)
    requires getModels(st.modelCalls) == ModelsHttpError(TooManyRequests)
    requires getModels(st.modelCalls + 1) == ModelsHttpError(TooManyRequests)
    ensures FetchFrom(st, msg, id, InitialRetries, InitialDelay, getModels, sqs)
            == st.(modelCalls := st.modelCalls + 2, delays := st.delays + [5.0, 10.0], failures := st.failures + [id])
  {
    var st1 := st.(modelCalls := st.modelCalls + 1, delays := st.delays + [5.0]);
    var st2 := st1.(modelCalls := st1.modelCalls + 1, delays := st1.delays + [10.0]);
    assert FetchFrom(st, msg, id, 2, 5, getModels, sqs) == FetchFrom(st1, msg, id, 1, 10, getModels, sqs);
    assert FetchFrom(st1, msg, id, 1, 10, getModels, sqs) == FetchFrom(st2, msg, id, 0, 20, getModels, sqs);
    assert st.delays + [5.0] + [10.0] == st.delays + [5.0, 10.0];
  }

  /** A 429 costs one call and a pause of 5 seconds, then the request is retried
      once more with the delay doubled. */
  lemma ThrottledOnceRetries(st: State, msg: Object, id: string, getModels: nat -> ModelsReply, sqs: nat -> BatchReply)
    requires getModels(st.modelCalls) == ModelsHttpError(TooManyRequests)
    ensures FetchFrom(st, msg, id, InitialRetries, InitialDelay, getModels, sqs)
            == FetchFrom(st.(modelCalls := st.modelCalls + 1, delays := st.delays + [5.0]), msg, id, 1, 10, getModels, sqs)
  {
  }

  /** A non-429 HTTP error, another exception, a reply that is not a dictionary
      or a `Modelos` that is not a list fails the record after that one call,
      without retrying and without touching the buffer. */
  lemma ImmediateFailureNoRetry(st: State, msg: Object, id: string, getModels: nat -> ModelsReply, sqs: nat -> BatchReply)
    requires var reply := getModels(st.modelCalls);
             (reply.ModelsHttpError? && reply.status != TooManyRequests) || reply.ModelsRaised?
             || reply.ModelsNotObject? || (reply.ModelsObject? && reply.modelos.ModelosNotList?)
    ensures var r := FetchFrom(st, msg, id, InitialRetries, InitialDelay, getModels, sqs);
            r.modelCalls == st.modelCalls + 1 && r.failures == st.failures + [id]
            && r.batch == st.batch && r.handed == st.handed && r.sqsCalls == st.sqsCalls
  {
  }

  /** The tail of a record's failures after its model loop: the send failures, and
      its own id at most once (when a send raised). */
  lemma {:induction false} EmitFailsAtMostOnce(st: State, msg: Object, items: seq<Object>, i: nat, id: string,
                                               sqs: nat -> BatchReply)
    ensures var r := EmitFrom(st, msg, items, i, id, sqs);
            !r.1 ==> |r.0.failures| > |st.failures| && r.0.failures[|r.0.failures| - 1] == id
    decreases |items| - i
  {
    if i < |items| {
      var st1 := st.(batch := st.batch + [ModelMessageOf(msg, items[i])]);
      if |st1.batch| >= MaxBatch {
        var sent := SendResult(st1.batch, sqs, st1.sqsCalls);
        var st2 := st1.(handed := st1.handed + [st1.batch], sqsCalls := st1.sqsCalls + sent.1);
        if sent.0.Ok? {
          var st3 := st2.(failures := st2.failures + sent.0.value, batch := [], delays := st2.delays + [BatchPause]);
          EmitFailsAtMostOnce(st3, msg, items, i + 1, id, sqs);
        }
      } else {
        EmitFailsAtMostOnce(st1, msg, items, i + 1, id, sqs);
      }
    }
  }

  /** One pass of the model loop in which no send raises: the state it hands to
      the next pass has the model's message appended to what was handed over
      plus the buffer. */
  lemma EmitStep(st: State, msg: Object, items: seq<Object>, i: nat, id: string, sqs: nat -> BatchReply)
    returns (st': State)
    requires i < |items|
    requires EmitFrom(st, msg, items, i, id, sqs).1
    ensures EmitFrom(st, msg, items, i, id, sqs) == EmitFrom(st', msg, items, i + 1, id, sqs)
    ensures Flatten(st'.handed) + st'.batch == Flatten(st.handed) + st.batch + [ModelMessageOf(msg, items[i])]
  {
    var st1 := st.(batch := st.batch + [ModelMessageOf(msg, items[i])]);
    if |st1.batch| >= MaxBatch {
      var sent := SendResult(st1.batch, sqs, st1.sqsCalls);
      var st2 := st1.(handed := st1.handed + [st1.batch], sqsCalls := st1.sqsCalls + sent.1);
      st' := st2.(failures := st2.failures + sent.0.value, batch := [], delays := st2.delays + [BatchPause]);
      FlattenAppend(st.handed, [st1.batch]);
      assert Flatten([st1.batch]) == st1.batch + Flatten([st1.batch][1..]);
    } else {
      st' := st1;
    }
  }

  /** One message per model, in order: when no send raises, what the model loop
      hands to the queue plus what it leaves in the buffer is what was there
      before followed by the messages of the remaining models. */
  lemma {:induction false} EmitConservesMessages(st: State, msg: Object, items: seq<Object>, i: nat, id: string,
                                                 sqs: nat -> BatchReply)
    requires i <= |items|
    requires EmitFrom(st, msg, items, i, id, sqs).1
    ensures var r := EmitFrom(st, msg, items, i, id, sqs).0;
            Flatten(r.handed) + r.batch == Flatten(st.handed) + st.batch + ModelMessages(msg, items)[i..]
    decreases |items| - i
  {
    var mm := ModelMessages(msg, items);
    if i == |items| {
      assert mm[i..] == [];
    } else {
      var st' := EmitStep(st, msg, items, i, id, sqs);
      EmitConservesMessages(st', msg, items, i + 1, id, sqs);
      assert mm[i..] == [mm[i]] + mm[i + 1..];
    }
  }

  /** Starting from a buffer of fewer than ten, a model loop in which no send
      raises sends only full buffers of exactly ten and leaves fewer than ten. */
  lemma {:induction false} EmitSendsFullBatches(st: State, msg: Object, items: seq<Object>, i: nat, id: string,
                                                sqs: nat -> BatchReply)
    requires |st.batch| < MaxBatch
    requires EmitFrom(st, msg, items, i, id, sqs).1
    ensures var r := EmitFrom(st, msg, items, i, id, sqs).0;
            |r.batch| < MaxBatch && st.handed <= r.handed
            && forall j :: |st.handed| <= j < |r.handed| ==> |r.handed[j]| == MaxBatch
    decreases |items| - i
  {
    if i < |items| {
      var st1 := st.(batch := st.batch + [ModelMessageOf(msg, items[i])]);
      if |st1.batch| >= MaxBatch {
        var sent := SendResult(st1.batch, sqs, st1.sqsCalls);
        var st2 := st1.(handed := st1.handed + [st1.batch], sqsCalls := st1.sqsCalls + sent.1);
        var st3 := st2.(failures := st2.failures + sent.0.value, batch := [], delays := st2.delays + [BatchPause]);
        EmitSendsFullBatches(st3, msg, items, i + 1, id, sqs);
      } else {
        EmitSendsFullBatches(st1, msg, items, i + 1, id, sqs);
      }
    }
  }

  /** Every buffer handed over so far is full, and the buffer holds fewer than ten. */
  ghost predicate Calm(st: State) {
    |st.batch| < MaxBatch && forall j :: 0 <= j < |st.handed| ==> |st.handed[j]| == MaxBatch
  }

  /** When no `send_message_batch` call raises, each record keeps the buffer calm. */
  lemma RecordKeepsCalm(st: State, rec: Record, getModels: nat -> ModelsReply, sqs: nat -> BatchReply)
    requires Calm(st)
    requires forall k :: sqs(k).Accepted?
    ensures Calm(ProcessRecord(st, rec, getModels, sqs))
  {
    if rec.body.Some? && Valid(rec.body.value) {
      FetchKeepsCalm(st, rec.body.value, rec.messageId, InitialRetries, InitialDelay, getModels, sqs);
    }
  }

  lemma {:induction false} FetchKeepsCalm(st: State, msg: Object, id: string, retries: nat, delay: nat,
                                          getModels: nat -> ModelsReply, sqs: nat -> BatchReply)
    requires Calm(st)
    requires forall k :: sqs(k).Accepted?
    ensures Calm(FetchFrom(st, msg, id, retries, delay, getModels, sqs))
    decreases retries
  {
    if retries > 0 {
      var st1 := st.(modelCalls := st.modelCalls + 1);
      match getModels(st.modelCalls)
      case ModelsHttpError(status) =>
        if status == TooManyRequests {
          FetchKeepsCalm(st1.(delays := st1.delays + [delay as real]), msg, id, retries - 1, delay * 2, getModels, sqs);
        }
      case ModelsRaised =>
      case ModelsNotObject =>
      case ModelsObject(field) =>
        if field.ModelosList? {
          var st2 := st1.(delays := st1.delays + [ModelsPause]);
          EmitNeverRaisesWhenAccepted(st2, msg, field.items, 0, id, sqs);
          EmitSendsFullBatches(st2, msg, field.items, 0, id, sqs);
        }
    }
  }

  /** With every batch call accepted, the model loop always completes. */
  lemma {:induction false} EmitNeverRaisesWhenAccepted(st: State, msg: Object, items: seq<Object>, i: nat, id: string,
                                                       sqs: nat -> BatchReply)
    requires forall k :: sqs(k).Accepted?
    ensures EmitFrom(st, msg, items, i, id, sqs).1
    decreases |items| - i
  {
    if i < |items| {
      var st1 := st.(batch := st.batch + [ModelMessageOf(msg, items[i])]);
      if |st1.batch| >= MaxBatch {
        var count := |Chunks(Entries(st1.batch), MaxBatch)|;
        SendChunksAllAccepted(count, sqs, st1.sqsCalls);
        var sent := SendResult(st1.batch, sqs, st1.sqsCalls);
        var st2 := st1.(handed := st1.handed + [st1.batch], sqsCalls := st1.sqsCalls + sent.1);
        var st3 := st2.(failures := st2.failures + sent.0.value, batch := [], delays := st2.delays + [BatchPause]);
        EmitNeverRaisesWhenAccepted(st3, msg, items, i + 1, id, sqs);
      } else {
        EmitNeverRaisesWhenAccepted(st1, msg, items, i + 1, id, sqs);
      }
    }
  }

  lemma {:induction false} RecordsKeepCalm(st: State, records: seq<Record>, k: nat,
                                           getModels: nat -> ModelsReply, sqs: nat -> BatchReply)
    requires Calm(st)
    requires forall c :: sqs(c).Accepted?
    ensures Calm(RecordsFrom(st, records, k, getModels, sqs))
    decreases |records| - k
  {
    if k < |records| {
      RecordKeepsCalm(st, records[k], getModels, sqs);
      RecordsKeepCalm(ProcessRecord(st, records[k], getModels, sqs), records, k + 1, getModels, sqs);
    }
  }

  /** The flush rule: when no `send_message_batch` call raises, every buffer sent
      during the record loop holds exactly ten messages, and only the final send
      may hold fewer (between one and nine). */
  lemma FlushRule(records: seq<Record>, getModels: nat -> ModelsReply, sqs: nat -> BatchReply)
    requires forall c :: sqs(c).Accepted?
    ensures var h := Handle(records, getModels, sqs).handed;
            (forall j :: 0 <= j < |h| - 1 ==> |h[j]| == MaxBatch)
            && (|h| > 0 ==> 0 < |h[|h| - 1]| <= MaxBatch)
  {
    RecordsKeepCalm(Start, records, 0, getModels, sqs);
  }

  /** If the final send raises, every record's id is added to the failures. */
  lemma FinalFlushFailureFailsEveryRecord(st: State, records: seq<Record>, sqs: nat -> BatchReply)
    requires st.batch != [] && SendResult(st.batch, sqs, st.sqsCalls).0.Raised?
    ensures FinalFlush(st, records, sqs).failures == st.failures + Ids(records)
  {
  }
}

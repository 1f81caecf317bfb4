/** The price collector of the src tree (src fipe_price_loader.py): the same
    per-record work as the code_lambdas collector, but the buffer is sent only
    once, after the last record. */
module PriceCollectorSingleFlush {
  import opened Wrappers
  import opened Queue
  import opened ApiService
  import opened PriceCollector

  /** The record loop from position `k` on, with no send inside it. */
  function RecordsFrom(st: State, records: seq<Record>, k: nat, getYears: nat -> YearsReply,
                       getPrice: nat -> PriceReply, order: set<string> -> seq<string>): State
    decreases |records| - k
  {
    if k >= |records| then st
    else
      RecordsFrom(Absorb(st, records[k].messageId, ProcessRecord(st.calls, records[k], getYears, getPrice, order)),
                  records, k + 1, getYears, getPrice, order)
  }

  /** The whole run once the client exists and the output queue is configured. */
  function Handle(records: seq<Record>, getYears: nat -> YearsReply, getPrice: nat -> PriceReply,
                  order: set<string> -> seq<string>, sqs: nat -> BatchReply): State {
    var st := RecordsFrom(Start, records, 0, getYears, getPrice, order);
    if st.batch != [] then SendBatch(st, records, sqs) else st
  }

  /** `lambda_handler(event, context)` of the src tree. */
  method LambdaHandler(records: seq<Record>, client: Result<Client>, outputUrl: string,
                       getYears: nat -> YearsReply, getPrice: nat -> PriceReply,
                       order: set<string> -> seq<string>, sqs: nat -> BatchReply)
    returns (resp: Result<Response>, st: State)
    ensures client.Raised? ==> resp == Raised(client.exc) && st == Start
    ensures client.Ok? && outputUrl == "" ==> resp == Ok(Response(500, Ids(records))) && st == Start
    ensures client.Ok? && outputUrl != "" ==>
              st == Handle(records, getYears, getPrice, order, sqs) && resp == Ok(Response(200, st.failures))
  {
    st := Start;
    if client.Raised? {
      return Raised(client.exc), st;
    }
    if outputUrl == "" {
      return Ok(Response(500, Ids(records))), st;
    }
    for k := 0 to |records|
      invariant RecordsFrom(st, records, k, getYears, getPrice, order)
                == RecordsFrom(Start, records, 0, getYears, getPrice, order)
    {
      var p, failed := CollectRecord(st.calls, records[k], getYears, getPrice, order);
      st := Absorb(st, records[k].messageId, (p, failed));
    }
    if st.batch != [] {
      st := Flush(st, records, sqs);
    }
    resp := Ok(Response(200, st.failures));
  }

  /** The record loop hands nothing to the queue. */
  lemma {:induction false} RecordsSendNothing(st: State, records: seq<Record>, k: nat, getYears: nat -> YearsReply,
                                              getPrice: nat -> PriceReply, order: set<string> -> seq<string>)
    ensures RecordsFrom(st, records, k, getYears, getPrice, order).handed == st.handed
    ensures RecordsFrom(st, records, k, getYears, getPrice, order).sqsCalls == st.sqsCalls
    decreases |records| - k
  {
    if k < |records| {
      RecordsSendNothing(Absorb(st, records[k].messageId, ProcessRecord(st.calls, records[k], getYears, getPrice, order)),
                         records, k + 1, getYears, getPrice, order);
    }
  }

  /** At most one buffer is handed to `send_sqs_messages`, holding every row. */
  lemma SingleSend(records: seq<Record>, getYears: nat -> YearsReply, getPrice: nat -> PriceReply,
                   order: set<string> -> seq<string>, sqs: nat -> BatchReply)
    ensures var rows := RecordsFrom(Start, records, 0, getYears, getPrice, order).batch;
            Handle(records, getYears, getPrice, order, sqs).handed == (if rows == [] then [] else [rows])
  {
    RecordsSendNothing(Start, records, 0, getYears, getPrice, order);
  }

  /** The code_lambdas loop body: absorbing a record and possibly sending keeps
      what was handed over plus the buffer growing by the record's rows. */
  lemma StepAgrees(st: State, id: string, out: (Progress, bool), flush: bool, records: seq<Record>,
                   sqs: nat -> BatchReply)
    ensures var st1 := Absorb(st, id, out);
            var st2 := if flush then SendBatch(st1, records, sqs).(batch := [], delays := st1.delays + [BatchPause])
                       else st1;
            st2.calls == out.0.calls && Flatten(st2.handed) + st2.batch == Flatten(st.handed) + st.batch + out.0.rows
  {
    var st1 := Absorb(st, id, out);
    if flush {
      FlattenAppend(st1.handed, [st1.batch]);
      assert Flatten([st1.batch]) == st1.batch + Flatten<PriceRow>([]);
    }
  }

  lemma ShiftedTail<T>(x: seq<T>, rows: seq<T>, b: seq<T>, big: seq<T>)
    requires b + rows <= big
    ensures b <= big && (x + rows) + big[|b + rows|..] == x + big[|b|..]
  {
    assert big[|b|..] == rows + big[|b + rows|..];
  }

  /** The two record loops make the same catalog calls and produce the same rows in
      the same order: what the code_lambdas loop has handed over plus its buffer
      grows exactly as the src buffer does. */
  lemma {:induction false} LoopsAgree(st: State, st': State, records: seq<Record>, k: nat,
                                      getYears: nat -> YearsReply, getPrice: nat -> PriceReply,
                                      order: set<string> -> seq<string>, sqs: nat -> BatchReply)
    requires st.calls == st'.calls
    ensures var r := PriceCollector.RecordsFrom(st, records, k, getYears, getPrice, order, sqs);
            var r' := RecordsFrom(st', records, k, getYears, getPrice, order);
            r.calls == r'.calls && st'.batch <= r'.batch
            && Flatten(r.handed) + r.batch == Flatten(st.handed) + st.batch + r'.batch[|st'.batch|..]
    decreases |records| - k
  {
    if k < |records| {
      var out := ProcessRecord(st.calls, records[k], getYears, getPrice, order);
      var st1 := Absorb(st, records[k].messageId, out);
      var flush := (k + 1) % FlushEvery == 0;
      var st2 := if flush then SendBatch(st1, records, sqs).(batch := [], delays := st1.delays + [BatchPause])
                 else st1;
      var st1' := Absorb(st', records[k].messageId, out);
      assert PriceCollector.RecordsFrom(st, records, k, getYears, getPrice, order, sqs)
             == PriceCollector.RecordsFrom(st2, records, k + 1, getYears, getPrice, order, sqs);
      assert RecordsFrom(st', records, k, getYears, getPrice, order)
             == RecordsFrom(st1', records, k + 1, getYears, getPrice, order);
      StepAgrees(st, records[k].messageId, out, flush, records, sqs);
      LoopsAgree(st2, st1', records, k + 1, getYears, getPrice, order, sqs);
      assert st1'.batch == st'.batch + out.0.rows;
      ShiftedTail(Flatten(st.handed) + st.batch, out.0.rows, st'.batch,
                  RecordsFrom(st1', records, k + 1, getYears, getPrice, order).batch);
    } else {
      assert st'.batch[|st'.batch|..] == [];
    }
  }

  /** Both collectors hand the queue the same rows in the same order; only the
      batching differs. */
  lemma SameRowsBothCollectors(records: seq<Record>, getYears: nat -> YearsReply, getPrice: nat -> PriceReply,
                               order: set<string> -> seq<string>, sqs: nat -> BatchReply)
    ensures Flatten(PriceCollector.Handle(records, getYears, getPrice, order, sqs).handed)
            == Flatten(Handle(records, getYears, getPrice, order, sqs).handed)
  {
    LoopsAgree(Start, Start, records, 0, getYears, getPrice, order, sqs);
    SingleSend(records, getYears, getPrice, order, sqs);
    var r := PriceCollector.RecordsFrom(Start, records, 0, getYears, getPrice, order, sqs);
    var rows := RecordsFrom(Start, records, 0, getYears, getPrice, order).batch;
    assert Flatten(r.handed) + r.batch == rows;
    FlattenAppend(r.handed, [r.batch]);
    assert Flatten([r.batch]) == r.batch + Flatten<PriceRow>([]);
    assert Flatten([rows]) == rows + Flatten<PriceRow>([]);
  }
}

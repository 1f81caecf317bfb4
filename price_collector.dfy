/** The price collector (`lambda_handler` of code_lambdas fipe_price_loader.py):
    for each model message it asks the catalog for the model's years and fuel
    codes, then for the price of every (year, fuel) pair, retrying the whole
    attempt twice on HTTP 429 with a doubling pause. Every priced pair becomes a
    row in a buffer shared by all records; the buffer is sent after every tenth
    record and once more at the end. */
module PriceCollector {
  import opened Wrappers
  import opened Text
  import opened Json
  import opened Queue
  import opened ApiService

  /** The fields a model message contributes; the first four are required. */
  datatype Message = Message(
    tableCode: Value,
    vehicleType: Value,
    manufacturerCode: Value,
    modelCode: Value,
    manufacturer: Value,
    model: Value,
    referenceMonth: Value)

  /** What `get_years` does: return the items of its reply, raise
      `requests.HTTPError` with a status, or raise anything else. */
  datatype YearsReply = Years(items: seq<YearItem>) | YearsHttpError(status: int) | YearsRaised

  /** What `get_price` does: return a JSON object, return another JSON value
      (only its truthiness matters), raise `requests.HTTPError`, or raise
      anything else. */
  datatype PriceReply =
    | PriceObject(price: Object)
    | PriceOther(truthy: bool)
    | PriceHttpError(status: int)
    | PriceRaised

  /** The row emitted for one priced (year, fuel) pair. */
  datatype PriceRow = PriceRow(
    manufacturer: Value,
    manufacturerCode: Value,
    model: Value,
    modelCode: Value,
    modelYear: string,
    modelYearCode: string,
    fipeValue: Value,
    fipeCode: Value,
    fuelType: string,
    vehicleType: Value,
    referenceMonth: Value,
    referenceTableCode: Value)

  /** The number of `get_years` and `get_price` calls made so far; the catalog
      replies are indexed by them. */
  datatype Calls = Calls(years: nat, prices: nat)

  /** What processing a record has produced so far: its rows, the calls and the
      pauses. */
  datatype Progress = Progress(rows: seq<PriceRow>, calls: Calls, pauses: seq<real>)

  /** How one attempt ended: every pair done, a 429, or any other error. */
  datatype Attempt = Completed | Throttled | Failed

  /** The handler's state: the shared buffer, the failure list, the buffers handed
      to `send_sqs_messages` in order, the catalog and `send_message_batch` calls
      made, and the pauses requested. */
  datatype State = State(
    batch: seq<PriceRow>,
    failures: seq<string>,
    handed: seq<seq<PriceRow>>,
    calls: Calls,
    sqsCalls: nat,
    delays: seq<real>)

  const Start: State := State([], [], [], Calls(0, 0), 0, [])

  const InitialRetries: nat := 2
  const InitialDelay: nat := 5
  /** The pause `get_years` and `get_price` take before each request. */
  const RequestPause: real := 1.0
  /** The pause after each in-loop send. */
  const BatchPause: real := 0.5
  /** The in-loop send happens after every `FlushEvery`-th record. */
  const FlushEvery: nat := 10

  /** Reading a message: a missing `codigoTabelaReferencia`, `vehicle_type`,
      `manufacturer_code` or `model_code` raises KeyError; the names default. */
  function ReadMessage(o: Object): (r: Result<Message>)
    ensures r.Raised? <==> !("codigoTabelaReferencia" in o && "vehicle_type" in o
                              && "manufacturer_code" in o && "model_code" in o)
    ensures r.Raised? ==> r.exc == KeyError
    ensures r.Ok? ==> r.value.tableCode == o["codigoTabelaReferencia"] && r.value.modelCode == o["model_code"]
                      && r.value.manufacturerCode == o["manufacturer_code"] && r.value.vehicleType == o["vehicle_type"]
  {
    if "codigoTabelaReferencia" !in o || "vehicle_type" !in o || "manufacturer_code" !in o || "model_code" !in o then
      Raised(KeyError)
    else
      Ok(Message(o["codigoTabelaReferencia"], o["vehicle_type"], o["manufacturer_code"], o["model_code"],
                 Get(o, "manufacturer", Str("Unknown")), Get(o, "model", Str("Unknown")),
                 Get(o, "mesReferenciaAno", Str("Desconhecido"))))
  }

  /** The code sent for a fuel: what follows the last `-` if there is one. */
  function FuelTypeCode(fuel: string): string {
    if '-' in fuel then LastPiece(fuel, '-') else fuel
  }

  /** The codes `get_years` returns hold no `-`, so they are sent unchanged. */
  lemma FuelTypeCodeOfReturnedCode(items: seq<YearItem>, fuel: string)
    requires fuel in FuelCodes(items)
    ensures FuelTypeCode(fuel) == fuel
  {
    FuelCodesMembers(items, fuel);
    var i :| 0 <= i < |items| && FuelCode(items[i]) == fuel;
    FuelCodeHasNoDash(items[i]);
  }

  /** The row for one priced pair. */
  function RowOf(m: Message, year: YearEntry, fuelCode: string, price: Object): PriceRow {
    PriceRow(m.manufacturer, m.manufacturerCode, m.model, m.modelCode, year.text, year.yearModel,
             Get(price, "Valor", Str("")), Get(price, "CodigoFipe", Str("")), fuelCode,
             m.vehicleType, m.referenceMonth, m.tableCode)
  }

  // ---------------------------------------------------------------------------
  // Specification of one record

  /** The fuel loop of one year from position `j` on. */
  function FuelsFrom(p: Progress, m: Message, year: YearEntry, fuels: seq<string>, j: nat,
                     getPrice: nat -> PriceReply): (Progress, Attempt)
    decreases |fuels| - j
  {
    if j >= |fuels| then (p, Completed)
    else
      var code := FuelTypeCode(fuels[j]);
      var p1 := p.(calls := p.calls.(prices := p.calls.prices + 1), pauses := p.pauses + [RequestPause]);
      match getPrice(p.calls.prices)
      case PriceHttpError(status) => (p1, if status == TooManyRequests then Throttled else Failed)
      case PriceRaised => (p1, Failed)
      case PriceOther(truthy) =>
        if truthy then (p1, Failed) else FuelsFrom(p1, m, year, fuels, j + 1, getPrice)
      case PriceObject(price) =>
        var p2 := if price != map[] then p1.(rows := p1.rows + [RowOf(m, year, code, price)]) else p1;
        FuelsFrom(p2, m, year, fuels, j + 1, getPrice)
  }

  /** The year loop from position `i` on. */
  function YearsFrom(p: Progress, m: Message, years: seq<YearEntry>, fuels: seq<string>, i: nat,
                     getPrice: nat -> PriceReply): (Progress, Attempt)
    decreases |years| - i
  {
    if i >= |years| then (p, Completed)
    else
      var r := FuelsFrom(p, m, years[i], fuels, 0, getPrice);
      if r.1 != Completed then r else YearsFrom(r.0, m, years, fuels, i + 1, getPrice)
  }

  /** The retry loop with `retries` attempts left and the next pause `delay`; the
      flag says whether the record is failed. */
  function AttemptsFrom(p: Progress, m: Message, retries: nat, delay: nat, getYears: nat -> YearsReply,
                        getPrice: nat -> PriceReply, order: set<string> -> seq<string>): (Progress, bool)
    decreases retries
  {
    if retries == 0 then (p, true)
    else
      var p1 := p.(calls := p.calls.(years := p.calls.years + 1), pauses := p.pauses + [RequestPause]);
      match getYears(p.calls.years)
      case YearsHttpError(status) =>
        if status == TooManyRequests then
          AttemptsFrom(p1.(pauses := p1.pauses + [delay as real]), m, retries - 1, delay * 2, getYears, getPrice, order)
        else (p1, true)
      case YearsRaised => (p1, true)
      case Years(items) =>
        var r := YearsFrom(p1, m, KeptYears(items), order(FuelCodes(items)), 0, getPrice);
        match r.1
        case Completed => (r.0, false)
        case Failed => (r.0, true)
        case Throttled =>
          AttemptsFrom(r.0.(pauses := r.0.pauses + [delay as real]), m, retries - 1, delay * 2, getYears, getPrice, order)
  }

  /** One record: an unreadable or incomplete message fails without a catalog call. */
  function ProcessRecord(calls: Calls, rec: Record, getYears: nat -> YearsReply, getPrice: nat -> PriceReply,
                         order: set<string> -> seq<string>): (Progress, bool)
  {
    var p := Progress([], calls, []);
    match rec.body
    case None => (p, true)
    case Some(o) =>
      match ReadMessage(o)
      case Raised(_) => (p, true)
      case Ok(m) => AttemptsFrom(p, m, InitialRetries, InitialDelay, getYears, getPrice, order)
  }

  /** The handler's state after a record: its rows appended to the buffer, its id
      to the failures if it failed. */
  function Absorb(st: State, id: string, out: (Progress, bool)): State {
    st.(batch := st.batch + out.0.rows,
        failures := st.failures + (if out.1 then [id] else []),
        calls := out.0.calls,
        delays := st.delays + out.0.pauses)
  }

  /** `send_batch(batch)`: hand the buffer to `send_sqs_messages`; if that raises,
      every record of the event is failed. */
  function SendBatch(st: State, records: seq<Record>, sqs: nat -> BatchReply): State {
    var sent := SendResult(st.batch, sqs, st.sqsCalls);
    st.(handed := st.handed + [st.batch], sqsCalls := st.sqsCalls + sent.1,
        failures := st.failures + (if sent.0.Ok? then sent.0.value else Ids(records)))
  }

  /** The record loop from position `k` on: after the record with 1-based index a
      multiple of ten the buffer is sent, even when empty, cleared, and the
      handler pauses. */
  function RecordsFrom(st: State, records: seq<Record>, k: nat, getYears: nat -> YearsReply,
                       getPrice: nat -> PriceReply, order: set<string> -> seq<string>,
                       sqs: nat -> BatchReply): State
    decreases |records| - k
  {
    if k >= |records| then st
    else
      var st1 := Absorb(st, records[k].messageId, ProcessRecord(st.calls, records[k], getYears, getPrice, order));
      var st2 := if (k + 1) % FlushEvery == 0
                 then SendBatch(st1, records, sqs).(batch := [], delays := st1.delays + [BatchPause])
                 else st1;
      RecordsFrom(st2, records, k + 1, getYears, getPrice, order, sqs)
  }

  /** The whole run once the client exists and the output queue is configured:
      the record loop, then one more send if rows are left over. */
  function Handle(records: seq<Record>, getYears: nat -> YearsReply, getPrice: nat -> PriceReply,
                  order: set<string> -> seq<string>, sqs: nat -> BatchReply): State {
    var st := RecordsFrom(Start, records, 0, getYears, getPrice, order, sqs);
    if st.batch != [] then SendBatch(st, records, sqs) else st
  }

  // ---------------------------------------------------------------------------
  // The handler

  /** The year and fuel loops of one attempt. */
  method PriceAttempt(p0: Progress, m: Message, years: seq<YearEntry>, fuels: seq<string>, getPrice: nat -> PriceReply)
    returns (p: Progress, outcome: Attempt)
    ensures (p, outcome) == YearsFrom(p0, m, years, fuels, 0, getPrice)
  {
    p := p0;
    var i := 0;
    while i < |years|
      invariant 0 <= i <= |years|
      invariant YearsFrom(p, m, years, fuels, i, getPrice) == YearsFrom(p0, m, years, fuels, 0, getPrice)
    {
      var year := years[i];
      var j := 0;
      while j < |fuels|
        invariant 0 <= j <= |fuels|
        invariant var r := FuelsFrom(p, m, year, fuels, j, getPrice);
                  (if r.1 != Completed then r else YearsFrom(r.0, m, years, fuels, i + 1, getPrice))
                  == YearsFrom(p0, m, years, fuels, 0, getPrice)
      {
        var code := FuelTypeCode(fuels[j]);
        var reply := getPrice(p.calls.prices);
        p := p.(calls := p.calls.(prices := p.calls.prices + 1), pauses := p.pauses + [RequestPause]);
        match reply {
          case PriceHttpError(status) =>
            return p, if status == TooManyRequests then Throttled else Failed;
          case PriceRaised =>
            return p, Failed;
          case PriceOther(truthy) =>
            if truthy {
              return p, Failed;
            }
          case PriceObject(price) =>
            if price != map[] {
              p := p.(rows := p.rows + [RowOf(m, year, code, price)]);
            }
        }
        j := j + 1;
      }
      i := i + 1;
    }
    outcome := Completed;
  }

  /** The retry loop of one record. */
  method PriceRecord(p0: Progress, m: Message, getYears: nat -> YearsReply, getPrice: nat -> PriceReply,
                     order: set<string> -> seq<string>)
    returns (p: Progress, failed: bool)
    ensures (p, failed) == AttemptsFrom(p0, m, InitialRetries, InitialDelay, getYears, getPrice, order)
  {
    p := p0;
    var retries := InitialRetries;
    var delay := InitialDelay;
    var success := false;
    while retries > 0 && !success
      invariant AttemptsFrom(p, m, retries, delay, getYears, getPrice, order)
                == AttemptsFrom(p0, m, InitialRetries, InitialDelay, getYears, getPrice, order)
      invariant !success
      decreases retries
    {
      var reply := getYears(p.calls.years);
      p := p.(calls := p.calls.(years := p.calls.years + 1), pauses := p.pauses + [RequestPause]);
      match reply {
        case YearsHttpError(status) =>
          if status == TooManyRequests {
            p := p.(pauses := p.pauses + [delay as real]);
            retries := retries - 1;
            delay := delay * 2;
          } else {
            return p, true;
          }
        case YearsRaised =>
          return p, true;
        case Years(items) =>
          var years, fuels := ParseYears(items);
          var outcome;
          p, outcome := PriceAttempt(p, m, years, order(fuels), getPrice);
          match outcome {
            case Completed => return p, false;
            case Failed => return p, true;
            case Throttled =>
              p := p.(pauses := p.pauses + [delay as real]);
              retries := retries - 1;
              delay := delay * 2;
          }
      }
    }
    failed := true;
  }

  /** One record of the loop. */
  method CollectRecord(calls: Calls, rec: Record, getYears: nat -> YearsReply, getPrice: nat -> PriceReply,
                       order: set<string> -> seq<string>)
    returns (p: Progress, failed: bool)
    ensures (p, failed) == ProcessRecord(calls, rec, getYears, getPrice, order)
  {
    p := Progress([], calls, []);
    failed := true;
    match rec.body {
      case None =>
      case Some(o) =>
        var msg := ReadMessage(o);
        if msg.Ok? {
          p, failed := PriceRecord(p, msg.value, getYears, getPrice, order);
        }
    }
  }

  /** `send_batch(batch)` */
  method Flush(st0: State, records: seq<Record>, sqs: nat -> BatchReply) returns (st: State)
    ensures st == SendBatch(st0, records, sqs)
  {
    var failures, sentChunks, calls := SendSqsMessages(st0.batch, sqs, st0.sqsCalls);
    st := st0.(handed := st0.handed + [st0.batch], sqsCalls := calls,
               failures := st0.failures + (if failures.Ok? then failures.value else Ids(records)));
  }

  /** `lambda_handler(event, context)` with the outcome of constructing `FipeAPI`
      (outside any `try`, so its exception escapes), the `SQS_OUTPUT_URL`
      setting, the catalog and queue replies, and the iteration order of the
      fuel-code sets. */
  method LambdaHandler(records: seq<Record>, client: Result<Client>, outputUrl: string,
                       getYears: nat -> YearsReply, getPrice: nat -> PriceReply,
                       order: set<string> -> seq<string>, sqs: nat -> BatchReply)
    returns (resp: Result<Response>, st: State)
    ensures client.Raised? ==> resp == Raised(client.exc) && st == Start
    ensures client.Ok? && outputUrl == "" ==> resp == Ok(Response(500, Ids(records))) && st == Start
    ensures client.Ok? && outputUrl != "" ==>
              st == Handle(records, getYears, getPrice, order, sqs) && resp == Ok(Response(200, st.failures))
  {
    st := Start;
    if client.Raised? {
      return Raised(client.exc), st;
    }
    if outputUrl == "" {
      return Ok(Response(500, Ids(records))), st;
    }
    var k := 0;
    while k < |records|
      invariant 0 <= k <= |records|
      invariant RecordsFrom(st, records, k, getYears, getPrice, order, sqs)
                == RecordsFrom(Start, records, 0, getYears, getPrice, order, sqs)
    {
      var p, failed := CollectRecord(st.calls, records[k], getYears, getPrice, order);
      st := Absorb(st, records[k].messageId, (p, failed));
      if (k + 1) % FlushEvery == 0 {
        st := Flush(st, records, sqs);
        st := st.(batch := [], delays := st.delays + [BatchPause]);
      }
      k := k + 1;
    }
    if st.batch != [] {
      st := Flush(st, records, sqs);
    }
    resp := Ok(Response(200, st.failures));
  }

  // ---------------------------------------------------------------------------
  // Properties of one record

  /** A record whose body is unreadable or lacks a required key is failed without
      any catalog call and contributes no row. */
  lemma IncompleteMessageFailsWithoutCall(calls: Calls, rec: Record, getYears: nat -> YearsReply,
                                          getPrice: nat -> PriceReply, order: set<string> -> seq<string>)
    requires rec.body.None? || ReadMessage(rec.body.value).Raised?
    ensures ProcessRecord(calls, rec, getYears, getPrice, order) == (Progress([], calls, []), true)
  {
  }

  /** The fuel loop: no `get_years` call, rows only appended, at most one row per
      `get_price` call, and one call per fuel when it completes. */
  lemma {:induction false} FuelsFromFacts(p: Progress, m: Message, year: YearEntry, fuels: seq<string>, j: nat,
                                          getPrice: nat -> PriceReply)
    requires j <= |fuels|
    ensures var r := FuelsFrom(p, m, year, fuels, j, getPrice).0;
            r.calls.years == p.calls.years && p.rows <= r.rows && p.calls.prices <= r.calls.prices
            && |r.rows| - |p.rows| <= r.calls.prices - p.calls.prices
    ensures FuelsFrom(p, m, year, fuels, j, getPrice).1 == Completed ==>
              FuelsFrom(p, m, year, fuels, j, getPrice).0.calls.prices == p.calls.prices + |fuels| - j
    decreases |fuels| - j
  {
    if j < |fuels| {
      var code := FuelTypeCode(fuels[j]);
      var p1 := p.(calls := p.calls.(prices := p.calls.prices + 1), pauses := p.pauses + [RequestPause]);
      match getPrice(p.calls.prices)
      case PriceHttpError(status) =>
      case PriceRaised =>
      case PriceOther(truthy) =>
        if !truthy {
          FuelsFromFacts(p1, m, year, fuels, j + 1, getPrice);
        }
      case PriceObject(price) =>
        var p2 := if price != map[] then p1.(rows := p1.rows + [RowOf(m, year, code, price)]) else p1;
        FuelsFromFacts(p2, m, year, fuels, j + 1, getPrice);
    }
  }

  /** The year loop: the same facts, and a completed attempt asks for the price
      of every (year, fuel) pair exactly once. */
  lemma {:induction false} YearsFromFacts(p: Progress, m: Message, years: seq<YearEntry>, fuels: seq<string>, i: nat,
                                          getPrice: nat -> PriceReply)
    requires i <= |years|
    ensures var r := YearsFrom(p, m, years, fuels, i, getPrice).0;
            r.calls.years == p.calls.years && p.rows <= r.rows && p.calls.prices <= r.calls.prices
            && |r.rows| - |p.rows| <= r.calls.prices - p.calls.prices
    ensures YearsFrom(p, m, years, fuels, i, getPrice).1 == Completed ==>
              YearsFrom(p, m, years, fuels, i, getPrice).0.calls.prices == p.calls.prices + (|years| - i) * |fuels|
    decreases |years| - i
  {
    if i < |years| {
      var r := FuelsFrom(p, m, years[i], fuels, 0, getPrice);
      FuelsFromFacts(p, m, years[i], fuels, 0, getPrice);
      if r.1 == Completed {
        YearsFromFacts(r.0, m, years, fuels, i + 1, getPrice);
        assert (|years| - i) * |fuels| == |fuels| + (|years| - (i + 1)) * |fuels|;
      }
    }
  }

  /** Across the retries: at most two `get_years` calls, at most one row per
      `get_price` call, and rows once appended are never withdrawn, whether the
      record later completes, fails or is retried. */
  lemma {:induction false} AttemptsFacts(p: Progress, m: Message, retries: nat, delay: nat, getYears: nat -> YearsReply,
                                         getPrice: nat -> PriceReply, order: set<string> -> seq<string>)
    ensures var r := AttemptsFrom(p, m, retries, delay, getYears, getPrice, order).0;
            p.calls.years <= r.calls.years <= p.calls.years + retries && p.rows <= r.rows
            && p.calls.prices <= r.calls.prices && |r.rows| - |p.rows| <= r.calls.prices - p.calls.prices
    decreases retries
  {
    if retries > 0 {
      var p1 := p.(calls := p.calls.(years := p.calls.years + 1), pauses := p.pauses + [RequestPause]);
      match getYears(p.calls.years)
      case YearsHttpError(status) =>
        if status == TooManyRequests {
          AttemptsFacts(p1.(pauses := p1.pauses + [delay as real]), m, retries - 1, delay * 2, getYears, getPrice, order);
        }
      case YearsRaised =>
      case Years(items) =>
        var r := YearsFrom(p1, m, KeptYears(items), order(FuelCodes(items)), 0, getPrice);
        YearsFromFacts(p1, m, KeptYears(items), order(FuelCodes(items)), 0, getPrice);
        if r.1 == Throttled {
          AttemptsFacts(r.0.(pauses := r.0.pauses + [delay as real]), m, retries - 1, delay * 2, getYears, getPrice, order);
        }
    }
  }

  /** Each record makes at most two `get_years` calls and adds at most one row per
      `get_price` call. */
  lemma RecordCallsBounded(calls: Calls, rec: Record, getYears: nat -> YearsReply,
                           getPrice: nat -> PriceReply, order: set<string> -> seq<string>)
    ensures var r := ProcessRecord(calls, rec, getYears, getPrice, order).0;
            calls.years <= r.calls.years <= calls.years + 2 && calls.prices <= r.calls.prices
            && |r.rows| <= r.calls.prices - calls.prices
  {
    if rec.body.Some? && ReadMessage(rec.body.value).Ok? {
      AttemptsFacts(Progress([], calls, []), ReadMessage(rec.body.value).value, InitialRetries, InitialDelay,
                    getYears, getPrice, order);
    }
  }

  /** A row carries the message's identity, one of the attempt's years and the
      code of one of its fuels. */
  ghost predicate RowFrom(row: PriceRow, m: Message, years: seq<YearEntry>, fuels: seq<string>) {
    row.manufacturerCode == m.manufacturerCode && row.modelCode == m.modelCode
    && row.vehicleType == m.vehicleType && row.referenceTableCode == m.tableCode
    && row.referenceMonth == m.referenceMonth
    && (exists y :: y in years && row.modelYear == y.text && row.modelYearCode == y.yearModel)
    && (exists f :: f in fuels && row.fuelType == FuelTypeCode(f))
  }

  lemma {:induction false} FuelsFromRows(p: Progress, m: Message, years: seq<YearEntry>, i: nat, fuels: seq<string>, j: nat,
                                         getPrice: nat -> PriceReply)
    requires i < |years| && j <= |fuels|
    ensures var r := FuelsFrom(p, m, years[i], fuels, j, getPrice).0;
            |p.rows| <= |r.rows| && forall k :: |p.rows| <= k < |r.rows| ==> RowFrom(r.rows[k], m, years, fuels)
    decreases |fuels| - j
  {
    if j < |fuels| {
      var code := FuelTypeCode(fuels[j]);
      var p1 := p.(calls := p.calls.(prices := p.calls.prices + 1), pauses := p.pauses + [RequestPause]);
      match getPrice(p.calls.prices)
      case PriceHttpError(status) =>
      case PriceRaised =>
      case PriceOther(truthy) =>
        if !truthy {
          FuelsFromRows(p1, m, years, i, fuels, j + 1, getPrice);
        }
      case PriceObject(price) =>
        var p2 := if price != map[] then p1.(rows := p1.rows + [RowOf(m, years[i], code, price)]) else p1;
        if price != map[] {
          assert RowFrom(RowOf(m, years[i], code, price), m, years, fuels) by {
            assert years[i] in years && fuels[j] in fuels;
          }
        }
        FuelsFromRows(p2, m, years, i, fuels, j + 1, getPrice);
        FuelsFromFacts(p2, m, years[i], fuels, j + 1, getPrice);
    }
  }

  lemma {:induction false} YearsFromRows(p: Progress, m: Message, years: seq<YearEntry>, fuels: seq<string>, i: nat,
                                         getPrice: nat -> PriceReply)
    requires i <= |years|
    ensures var r := YearsFrom(p, m, years, fuels, i, getPrice).0;
            |p.rows| <= |r.rows| && forall k :: |p.rows| <= k < |r.rows| ==> RowFrom(r.rows[k], m, years, fuels)
    decreases |years| - i
  {
    if i < |years| {
      var r := FuelsFrom(p, m, years[i], fuels, 0, getPrice);
      FuelsFromRows(p, m, years, i, fuels, 0, getPrice);
      if r.1 == Completed {
        YearsFromRows(r.0, m, years, fuels, i + 1, getPrice);
        YearsFromFacts(r.0, m, years, fuels, i + 1, getPrice);
      }
    }
  }

  /** Only what the catalog returned is priced: every row of an attempt carries
      the message's identity, a year whose code is all digits and whose label is
      the catalog's, and one of the returned fuel codes, unchanged. */
  lemma AttemptRowsComeFromCatalog(p: Progress, m: Message, items: seq<YearItem>, getPrice: nat -> PriceReply,
                                   order: set<string> -> seq<string>)
    requires forall f :: f in order(FuelCodes(items)) ==> f in FuelCodes(items)
    ensures var r := YearsFrom(p, m, KeptYears(items), order(FuelCodes(items)), 0, getPrice).0;
            |p.rows| <= |r.rows|
            && forall k :: |p.rows| <= k < |r.rows| ==>
                 r.rows[k].manufacturerCode == m.manufacturerCode && r.rows[k].modelCode == m.modelCode
                 && AllDigits(r.rows[k].modelYearCode) && r.rows[k].fuelType in FuelCodes(items)
                 && exists i :: 0 <= i < |items| && r.rows[k].modelYear == items[i].text
  {
    var years, fuels := KeptYears(items), order(FuelCodes(items));
    var r := YearsFrom(p, m, years, fuels, 0, getPrice).0;
    YearsFromRows(p, m, years, fuels, 0, getPrice);
    KeptYearsWellFormed(items);
    forall k | |p.rows| <= k < |r.rows|
      ensures AllDigits(r.rows[k].modelYearCode) && r.rows[k].fuelType in FuelCodes(items)
              && exists i :: 0 <= i < |items| && r.rows[k].modelYear == items[i].text
    {
      assert RowFrom(r.rows[k], m, years, fuels);
      var y :| y in years && r.rows[k].modelYear == y.text && r.rows[k].modelYearCode == y.yearModel;
      KeptYearsMembers(items, y);
      var f :| f in fuels && r.rows[k].fuelType == FuelTypeCode(f);
      FuelTypeCodeOfReturnedCode(items, f);
    }
  }

  /** What one price reply adds to the buffer: one row when it is a non-empty
      object, nothing otherwise. */
  function PairRow(m: Message, year: YearEntry, fuel: string, reply: PriceReply): (rows: seq<PriceRow>)
    ensures |rows| <= 1
    ensures rows != [] <==> reply.PriceObject? && reply.price != map[]
  {
    if reply.PriceObject? && reply.price != map[] then [RowOf(m, year, FuelTypeCode(fuel), reply.price)] else []
  }

  /** A price reply after which the fuel loop goes on: an object, empty or not,
      or a falsy answer. */
  predicate PairGoesOn(reply: PriceReply) {
    reply.PriceObject? || reply == PriceOther(false)
  }

  /** Reference definition of the rows of one year, fuel by fuel: the fuel at
      position `j` is answered by reply number `base + j`. */
  function YearRows(m: Message, year: YearEntry, fuels: seq<string>, replies: nat -> PriceReply, base: nat): seq<PriceRow> {
    Flatten(seq(|fuels|, j requires 0 <= j < |fuels| => PairRow(m, year, fuels[j], replies(base + j))))
  }

  /** Reference definition of the rows of a whole attempt, year-major: the pair
      (`years[i]`, `fuels[j]`) is answered by reply number `base + i * |fuels| + j`. */
  function CrossRows(m: Message, years: seq<YearEntry>, fuels: seq<string>, replies: nat -> PriceReply,
                     base: nat): seq<PriceRow> {
    Flatten(seq(|years|, i requires 0 <= i < |years| => YearRows(m, years[i], fuels, replies, base + i * |fuels|)))
  }

  lemma YearRowsCons(m: Message, year: YearEntry, fuels: seq<string>, replies: nat -> PriceReply, base: nat)
    requires |fuels| > 0
    ensures YearRows(m, year, fuels, replies, base)
            == PairRow(m, year, fuels[0], replies(base)) + YearRows(m, year, fuels[1..], replies, base + 1)
  {
    var s := seq(|fuels|, j requires 0 <= j < |fuels| => PairRow(m, year, fuels[j], replies(base + j)));
    var t := seq(|fuels[1..]|, j requires 0 <= j < |fuels[1..]| => PairRow(m, year, fuels[1..][j], replies(base + 1 + j)));
    assert s[1..] == t;
  }

  lemma CrossRowsCons(m: Message, years: seq<YearEntry>, fuels: seq<string>, replies: nat -> PriceReply, base: nat)
    requires |years| > 0
    ensures CrossRows(m, years, fuels, replies, base)
            == YearRows(m, years[0], fuels, replies, base) + CrossRows(m, years[1..], fuels, replies, base + |fuels|)
  {
    var s := seq(|years|, i requires 0 <= i < |years| => YearRows(m, years[i], fuels, replies, base + i * |fuels|));
    var t := seq(|years[1..]|, i requires 0 <= i < |years[1..]| =>
                   YearRows(m, years[1..][i], fuels, replies, base + |fuels| + i * |fuels|));
    var width := |fuels|;
    forall i | 0 <= i < |t| ensures s[1..][i] == t[i] {
      assert s[1..][i] == s[i + 1];
      assert (i + 1) * width == width + i * width;
    }
    assert s[1..] == t;
  }

  /** The fuel loop from position `j`: when it completes, it has added exactly the
      reference rows of the remaining fuels, each priced by its own reply. */
  lemma {:induction false} FuelsFromAddsYearRows(p: Progress, m: Message, year: YearEntry, fuels: seq<string>, j: nat,
                                                 getPrice: nat -> PriceReply)
    requires j <= |fuels|
    ensures var r := FuelsFrom(p, m, year, fuels, j, getPrice);
            r.1 == Completed ==> r.0.rows == p.rows + YearRows(m, year, fuels[j..], getPrice, p.calls.prices)
    decreases |fuels| - j
  {
    if j < |fuels| {
      var reply := getPrice(p.calls.prices);
      var p1 := p.(calls := p.calls.(prices := p.calls.prices + 1), pauses := p.pauses + [RequestPause]);
      YearRowsCons(m, year, fuels[j..], getPrice, p.calls.prices);
      assert fuels[j..][1..] == fuels[j + 1..];
      if PairGoesOn(reply) {
        var p2 := p1.(rows := p1.rows + PairRow(m, year, fuels[j], reply));
        if PairRow(m, year, fuels[j], reply) == [] {
          assert p2 == p1;
        }
        assert FuelsFrom(p, m, year, fuels, j, getPrice) == FuelsFrom(p2, m, year, fuels, j + 1, getPrice);
        FuelsFromAddsYearRows(p2, m, year, fuels, j + 1, getPrice);
      }
    }
  }

  /** The fuel loop from position `j` completes exactly when every one of its
      replies lets it go on; otherwise it stops throttled or failed. */
  lemma {:induction false} FuelsFromCompletes(p: Progress, m: Message, year: YearEntry, fuels: seq<string>, j: nat,
                                              getPrice: nat -> PriceReply)
    requires j <= |fuels|
    ensures FuelsFrom(p, m, year, fuels, j, getPrice).1 == Completed
            <==> forall c :: p.calls.prices <= c < p.calls.prices + |fuels| - j ==> PairGoesOn(getPrice(c))
    decreases |fuels| - j
  {
    if j < |fuels| {
      var reply := getPrice(p.calls.prices);
      var p1 := p.(calls := p.calls.(prices := p.calls.prices + 1), pauses := p.pauses + [RequestPause]);
      if PairGoesOn(reply) {
        var p2 := p1.(rows := p1.rows + PairRow(m, year, fuels[j], reply));
        if PairRow(m, year, fuels[j], reply) == [] {
          assert p2 == p1;
        }
        assert FuelsFrom(p, m, year, fuels, j, getPrice) == FuelsFrom(p2, m, year, fuels, j + 1, getPrice);
        FuelsFromCompletes(p2, m, year, fuels, j + 1, getPrice);
      } else {
        assert FuelsFrom(p, m, year, fuels, j, getPrice).1 != Completed;
      }
    }
  }

  /** The year loop from position `i`: when it completes, it has added exactly
      the reference rows of every remaining (year, fuel) pair, year-major. */
  lemma {:induction false} YearsFromAddsCrossRows(p: Progress, m: Message, years: seq<YearEntry>, fuels: seq<string>,
                                                  i: nat, getPrice: nat -> PriceReply)
    requires i <= |years|
    ensures var r := YearsFrom(p, m, years, fuels, i, getPrice);
            r.1 == Completed ==> r.0.rows == p.rows + CrossRows(m, years[i..], fuels, getPrice, p.calls.prices)
    decreases |years| - i
  {
    if i < |years| {
      var r := FuelsFrom(p, m, years[i], fuels, 0, getPrice);
      CrossRowsCons(m, years[i..], fuels, getPrice, p.calls.prices);
      assert years[i..][1..] == years[i + 1..];
      if r.1 == Completed {
        FuelsFromAddsYearRows(p, m, years[i], fuels, 0, getPrice);
        FuelsFromFacts(p, m, years[i], fuels, 0, getPrice);
        assert fuels[0..] == fuels;
        YearsFromAddsCrossRows(r.0, m, years, fuels, i + 1, getPrice);
      }
    }
  }

  /** The year loop from position `i` completes exactly when every price reply of
      its remaining pairs lets it go on. */
  lemma {:induction false} YearsFromCompletes(p: Progress, m: Message, years: seq<YearEntry>, fuels: seq<string>,
                                              i: nat, getPrice: nat -> PriceReply)
    requires i <= |years|
    ensures YearsFrom(p, m, years, fuels, i, getPrice).1 == Completed
            <==> forall c :: p.calls.prices <= c < p.calls.prices + (|years| - i) * |fuels| ==> PairGoesOn(getPrice(c))
    decreases |years| - i
  {
    if i < |years| {
      var base, width := p.calls.prices, |fuels|;
      var later: nat := |years| - (i + 1);
      var rest := later * width;
      assert 0 <= rest;
      assert (|years| - i) * width == width + rest;
      var r := FuelsFrom(p, m, years[i], fuels, 0, getPrice);
      FuelsFromCompletes(p, m, years[i], fuels, 0, getPrice);
      if r.1 == Completed {
        FuelsFromFacts(p, m, years[i], fuels, 0, getPrice);
        assert r.0.calls.prices == base + width;
        YearsFromCompletes(r.0, m, years, fuels, i + 1, getPrice);
        assert YearsFrom(p, m, years, fuels, i, getPrice) == YearsFrom(r.0, m, years, fuels, i + 1, getPrice);
      } else {
        var c :| base <= c < base + width && !PairGoesOn(getPrice(c));
      }
    }
  }

  /** A record whose `get_years` call answers and all of whose price calls go on
      is priced in one attempt: it does not fail, it makes one `get_years` call
      and one `get_price` call per (year, fuel) pair, and it adds exactly the
      reference rows, each carrying its own reply's price and code. */
  lemma AttemptAddsCrossRows(p: Progress, m: Message, retries: nat, delay: nat, getYears: nat -> YearsReply,
                             getPrice: nat -> PriceReply, order: set<string> -> seq<string>, items: seq<YearItem>)
    requires retries > 0 && getYears(p.calls.years) == Years(items)
    requires forall c :: p.calls.prices <= c < p.calls.prices + |KeptYears(items)| * |order(FuelCodes(items))| ==>
                           PairGoesOn(getPrice(c))
    ensures var r := AttemptsFrom(p, m, retries, delay, getYears, getPrice, order);
            !r.1 && r.0.rows == p.rows + CrossRows(m, KeptYears(items), order(FuelCodes(items)), getPrice, p.calls.prices)
            && r.0.calls == Calls(p.calls.years + 1, p.calls.prices + |KeptYears(items)| * |order(FuelCodes(items))|)
  {
    var years, fuels := KeptYears(items), order(FuelCodes(items));
    var p1 := p.(calls := p.calls.(years := p.calls.years + 1), pauses := p.pauses + [RequestPause]);
    YearsFromCompletes(p1, m, years, fuels, 0, getPrice);
    YearsFromAddsCrossRows(p1, m, years, fuels, 0, getPrice);
    YearsFromFacts(p1, m, years, fuels, 0, getPrice);
    assert years[0..] == years;
  }

  /** Two 429 answers from `get_years`: pauses of 1, 5, 1 and 10 seconds, no
      third call, no price asked, and the record failed. */
  lemma YearsThrottledTwiceFails(p: Progress, m: Message, getYears: nat -> YearsReply, getPrice: nat -> PriceReply,
                                 order: set<string> -> seq<string>)
    requires getYears(p.calls.years) == YearsHttpError(TooManyRequests)
    requires getYears(p.calls.years + 1) == YearsHttpError(TooManyRequests)
    ensures AttemptsFrom(p, m, InitialRetries, InitialDelay, getYears, getPrice, order)
            == (p.(calls := p.calls.(years := p.calls.years + 2), pauses := p.pauses + [1.0, 5.0, 1.0, 10.0]), true)
  {
    var p1 := p.(calls := p.calls.(years := p.calls.years + 1), pauses := p.pauses + [RequestPause] + [5 as real]);
    var p2 := p1.(calls := p1.calls.(years := p1.calls.years + 1), pauses := p1.pauses + [RequestPause] + [10 as real]);
    assert AttemptsFrom(p, m, 2, 5, getYears, getPrice, order) == AttemptsFrom(p1, m, 1, 10, getYears, getPrice, order);
    assert AttemptsFrom(p1, m, 1, 10, getYears, getPrice, order) == AttemptsFrom(p2, m, 0, 20, getYears, getPrice, order);
    assert p2.pauses == p.pauses + [1.0, 5.0, 1.0, 10.0];
  }

  /** A 429 from `get_price` restarts the whole record with `get_years`, and the
      rows priced before it stay in the buffer: with one year and fuels `f1`,
      `f2`, a first attempt that prices `f1` and is throttled on `f2` followed by
      a clean second attempt leaves the `f1` row twice. */
  lemma PriceThrottleDuplicatesRows(m: Message, items: seq<YearItem>, year: YearEntry, f1: string, f2: string,
                                    o1: Object, o2: Object, getYears: nat -> YearsReply, getPrice: nat -> PriceReply,
                                    order: set<string> -> seq<string>)
    requires getYears(0) == Years(items) && getYears(1) == Years(items)
    requires KeptYears(items) == [year] && order(FuelCodes(items)) == [f1, f2]
    requires o1 != map[] && o2 != map[]
    requires getPrice(0) == PriceObject(o1) && getPrice(1) == PriceHttpError(TooManyRequests)
    requires getPrice(2) == PriceObject(o1) && getPrice(3) == PriceObject(o2)
    ensures var r := AttemptsFrom(Progress([], Calls(0, 0), []), m, InitialRetries, InitialDelay, getYears, getPrice, order);
            var row1 := RowOf(m, year, FuelTypeCode(f1), o1);
            r.0.rows == [row1, row1, RowOf(m, year, FuelTypeCode(f2), o2)] && !r.1
            && r.0.calls == Calls(2, 4)
  {
    var fuels := [f1, f2];
    var row1 := RowOf(m, year, FuelTypeCode(f1), o1);
    var row2 := RowOf(m, year, FuelTypeCode(f2), o2);
    var p0 := Progress([], Calls(0, 0), []);
    // first attempt
    var p1 := p0.(calls := p0.calls.(years := 1), pauses := p0.pauses + [RequestPause]);
    var q0 := p1.(calls := p1.calls.(prices := 1), pauses := p1.pauses + [RequestPause]);
    var q1 := q0.(rows := q0.rows + [row1]);
    assert FuelsFrom(p1, m, year, fuels, 0, getPrice) == FuelsFrom(q1, m, year, fuels, 1, getPrice);
    var q2 := q1.(calls := q1.calls.(prices := 2), pauses := q1.pauses + [RequestPause]);
    assert FuelsFrom(q1, m, year, fuels, 1, getPrice) == (q2, Throttled);
    assert YearsFrom(p1, m, [year], fuels, 0, getPrice) == (q2, Throttled);
    assert AttemptsFrom(p0, m, 2, 5, getYears, getPrice, order)
           == AttemptsFrom(q2.(pauses := q2.pauses + [5 as real]), m, 1, 10, getYears, getPrice, order);
    // second attempt
    var p2 := q2.(pauses := q2.pauses + [5 as real]);
    var p3 := p2.(calls := p2.calls.(years := 2), pauses := p2.pauses + [RequestPause]);
    var s0 := p3.(calls := p3.calls.(prices := 3), pauses := p3.pauses + [RequestPause]);
    var s1 := s0.(rows := s0.rows + [row1]);
    assert FuelsFrom(p3, m, year, fuels, 0, getPrice) == FuelsFrom(s1, m, year, fuels, 1, getPrice);
    var s2 := s1.(calls := s1.calls.(prices := 4), pauses := s1.pauses + [RequestPause]);
    var s3 := s2.(rows := s2.rows + [row2]);
    assert FuelsFrom(s1, m, year, fuels, 1, getPrice) == FuelsFrom(s3, m, year, fuels, 2, getPrice);
    assert YearsFrom(p3, m, [year], fuels, 0, getPrice) == YearsFrom(s3, m, [year], fuels, 1, getPrice);
    assert AttemptsFrom(p2, m, 1, 10, getYears, getPrice, order) == (s3, false);
    assert s3.rows == [row1, row1, row2];
  }

  // ---------------------------------------------------------------------------
  // Properties of the handler

  /** Sending an empty buffer makes no `send_message_batch` call and adds no failure. */
  lemma EmptyFlushSendsNothing(st: State, records: seq<Record>, sqs: nat -> BatchReply)
    requires st.batch == []
    ensures SendBatch(st, records, sqs).sqsCalls == st.sqsCalls
    ensures SendBatch(st, records, sqs).failures == st.failures
  {
    assert Entries<PriceRow>([]) == [];
    assert Chunks<Entry<PriceRow>>([], MaxBatch) == [];
  }

  /** If `send_sqs_messages` raises, every record of the event is failed, not only
      those whose rows were in the buffer. */
  lemma SendRaiseFailsEveryRecord(st: State, records: seq<Record>, sqs: nat -> BatchReply)
    requires SendResult(st.batch, sqs, st.sqsCalls).0.Raised?
    ensures SendBatch(st, records, sqs).failures == st.failures + Ids(records)
  {
  }

  /** The record loop sends once after every tenth record: from record `k` on it
      hands over `|records| / 10 - k / 10` buffers. */
  lemma {:induction false} InLoopSendCount(st: State, records: seq<Record>, k: nat, getYears: nat -> YearsReply,
                                           getPrice: nat -> PriceReply, order: set<string> -> seq<string>,
                                           sqs: nat -> BatchReply)
    requires k <= |records|
    ensures |RecordsFrom(st, records, k, getYears, getPrice, order, sqs).handed|
            == |st.handed| + |records| / FlushEvery - k / FlushEvery
    decreases |records| - k
  {
    if k < |records| {
      var st1 := Absorb(st, records[k].messageId, ProcessRecord(st.calls, records[k], getYears, getPrice, order));
      var st2 := if (k + 1) % FlushEvery == 0
                 then SendBatch(st1, records, sqs).(batch := [], delays := st1.delays + [BatchPause])
                 else st1;
      InLoopSendCount(st2, records, k + 1, getYears, getPrice, order, sqs);
      NextTenth(k);
    }
  }

  /** Passing a multiple of ten raises `k / 10` by one; any other step keeps it. */
  lemma NextTenth(k: nat)
    ensures (k + 1) / FlushEvery == k / FlushEvery + (if (k + 1) % FlushEvery == 0 then 1 else 0)
  {
  }
}

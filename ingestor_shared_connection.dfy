/** The ingestor of the src tree (`lambda_handler` of src fipe_soma_ingestor.py):
    one connection for the whole invocation; each message is read into a
    dictionary with defaults for the missing keys, checked for truthiness, and
    stored as in the code_lambdas ingestor. A message that fails is reported in
    `batchItemFailures` and the loop goes on. */
module IngestorSharedConnection {
  import opened Wrappers
  import opened Json
  import opened Queue
  import opened Currency
  import opened Store
  import Ingestor

  /** The `data` dictionary built from a message body. */
  datatype Data = Data(
    manufacturer: Value,
    manufacturerCode: Value,
    model: Value,
    modelCode: Value,
    modelYearCode: Value,
    referenceMonth: Value,
    referenceMonthCode: Value,
    fipeValue: Value,
    fipeCode: Value,
    fuelType: Value,
    vehicleType: Value)

  /** The default of the keys that name something. */
  const Unknown: Value := Str("Unknown")

  /** `message_body.get(key, default)` for each key, with "Unknown" for the names,
      the year, the month, the price, the fipe code and the fuel, and 0 for the
      codes and the vehicle type. */
  function DataOf(o: Object): Data {
    Data(Get(o, "manufacturer", Unknown), Get(o, "manufacturer_code", Int(0)), Get(o, "model", Unknown),
         Get(o, "model_code", Int(0)), Get(o, "model_year_code", Unknown), Get(o, "mesReferenciaAno", Unknown),
         Get(o, "codigoTabelaReferencia", Int(0)), Get(o, "fipe_value", Unknown), Get(o, "fipe_code", Unknown),
         Get(o, "fuel_type", Unknown), Get(o, "vehicle_type", Int(0)))
  }

  /** The values the validation hands to `all(...)`, in order. */
  function Required(d: Data): seq<Value> {
    [d.manufacturer, d.manufacturerCode, d.model, d.modelCode, d.fipeCode, d.vehicleType]
  }

  /** Python's `all(values)`. */
  predicate AllTruthy(values: seq<Value>) {
    forall k :: 0 <= k < |values| ==> Truthy(values[k])
  }

  /** The key the price lookup filters on. */
  function KeyOf(d: Data, modelId: nat): ValueKey {
    ValueKey(modelId, PyStr(d.fipeCode), PyStr(d.modelYearCode), PyStr(d.referenceMonthCode))
  }

  // ---------------------------------------------------------------------------
  // Specification

  /** `insert_model_value(conn, data)`: read the price (which may raise), then
      update the row with the same key or insert a new one carrying the vehicle
      type as it came. */
  function StoreValue(t: Tables, d: Data, modelId: nat, manufacturerId: nat): (Tables, bool) {
    match FipeValue(d.fipeValue)
    case Raised(_) => (t, false)
    case Ok(price) =>
      var key := KeyOf(d, modelId);
      match FindValue(t.values, key)
      case Some(id) => (WithUpdatedValue(t, id, price), true)
      case None =>
        (WithInsertedValue(t, ValueDraft(key, PyStr(d.model) + " " + PyStr(d.modelYearCode), PyStr(d.modelCode),
                                         manufacturerId, PyStr(d.referenceMonth), price, PyStr(d.fuelType),
                                         d.vehicleType)), true)
  }

  /** The two `get_or_create` calls: the tables afterwards, the manufacturer id
      and the model id. */
  function CatalogRows(t: Tables, d: Data): (Tables, nat, nat) {
    var (t1, manufacturerId) := WithManufacturer(t, d.manufacturer, d.manufacturerCode, d.vehicleType);
    var (t2, modelId) := WithModel(t1, PyStr(d.model), PyStr(d.modelCode), manufacturerId);
    (t2, manufacturerId, modelId)
  }

  /** The body of the record loop's `try`: the tables afterwards and whether the
      message was processed (False: its id goes to the failures). */
  function Process(t: Tables, body: Option<Object>): (Tables, bool) {
    match body
    case None => (t, false)
    case Some(o) =>
      var d := DataOf(o);
      if !AllTruthy(Required(d)) then (t, false)
      else
        var (t2, manufacturerId, modelId) := CatalogRows(t, d);
        StoreValue(t2, d, modelId, manufacturerId)
  }

  /** What the record loop carries: the tables, `batch_item_failures` and
      `total_processed`. */
  datatype Run = Run(tables: Tables, failures: seq<string>, processed: nat)

  /** The end of one pass of the record loop, given the outcome of its `try`
      block for the message `id`. */
  function Absorb(run: Run, id: string, out: (Tables, bool)): Run {
    if out.1 then Run(out.0, run.failures, run.processed + 1)
    else Run(out.0, run.failures + [id], run.processed)
  }

  /** The record loop from position `k` on. */
  function RecordsFrom(run: Run, records: seq<Record>, k: nat): Run
    decreases |records| - k, 1
  {
    if k >= |records| then run else RecordAt(run, records, k)
  }

  /** The pass of the record loop for the record at `k`, and the loop after it. */
  function RecordAt(run: Run, records: seq<Record>, k: nat): Run
    requires k < |records|
    decreases |records| - k, 0
  {
    RecordsFrom(Absorb(run, records[k].messageId, Process(run.tables, records[k].body)), records, k + 1)
  }

  // ---------------------------------------------------------------------------
  // The handler

  /** `get_db_connection()`: ValueError without the connection settings, and the
      error of `psycopg2.connect` when its one attempt fails. */
  method GetDbConnection(envOk: bool, connects: bool) returns (r: Option<Exception>)
    ensures r.None? <==> envOk && connects
    ensures !envOk ==> r == Some(ValueError)
  {
    if !envOk {
      return Some(ValueError);
    }
    r := if connects then None else Some(ServiceError);
  }

  /** `insert_model_value(conn, data)` */
  method InsertModelValue(db: Database, d: Data, modelId: nat, manufacturerId: nat) returns (ok: bool)
    modifies db
    ensures (db.Snapshot(), ok) == StoreValue(old(db.Snapshot()), d, modelId, manufacturerId)
  {
    var price := FipeValue(d.fipeValue);
    if price.Raised? {
      return false;
    }
    var key := KeyOf(d, modelId);
    var existing := FindValue(db.values, key);
    if existing.Some? {
      db.UpdateValue(existing.value, price.value);
    } else {
      db.InsertValue(ValueDraft(key, PyStr(d.model) + " " + PyStr(d.modelYearCode), PyStr(d.modelCode),
                                manufacturerId, PyStr(d.referenceMonth), price.value, PyStr(d.fuelType),
                                d.vehicleType));
    }
    ok := true;
  }

  /** The `try` block of the record loop for one message body. */
  method ProcessRecord(db: Database, body: Option<Object>) returns (ok: bool)
    modifies db
    ensures (db.Snapshot(), ok) == Process(old(db.Snapshot()), body)
  {
    if body.None? {
      return false;
    }
    var d := DataOf(body.value);
    if !AllTruthy(Required(d)) {
      return false;
    }
    var manufacturerId := db.GetOrCreateManufacturer(d.manufacturer, d.manufacturerCode, d.vehicleType);
    var modelId := db.GetOrCreateModel(PyStr(d.model), PyStr(d.modelCode), manufacturerId);
    ok := InsertModelValue(db, d, modelId, manufacturerId);
  }

  /** `lambda_handler(event, context)` with whether the connection settings are
      present and whether the connection attempt succeeds; also the final
      `total_processed`. */
  method LambdaHandler(db: Database, records: seq<Record>, envOk: bool, connects: bool)
    returns (resp: Response, processed: nat)
    modifies db
    ensures !(envOk && connects) ==>
              resp == Response(500, Ids(records)) && processed == 0
              && db.Snapshot() == old(db.Snapshot())
    ensures envOk && connects ==>
              var run := RecordsFrom(Run(old(db.Snapshot()), [], 0), records, 0);
              db.Snapshot() == run.tables && resp == Response(200, run.failures) && processed == run.processed
  {
    var failure := GetDbConnection(envOk, connects);
    if failure.Some? {
      return Response(500, Ids(records)), 0;
    }
    ghost var t0 := db.Snapshot();
    var failures: seq<string> := [];
    processed := 0;
    for k := 0 to |records|
      invariant RecordsFrom(Run(db.Snapshot(), failures, processed), records, k)
                == RecordsFrom(Run(t0, [], 0), records, 0)
    {
      ghost var before := Run(db.Snapshot(), failures, processed);
      var ok := ProcessRecord(db, records[k].body);
      RecordsFromStep(before, records, k, db.Snapshot(), ok);
      if ok {
        processed := processed + 1;
      } else {
        failures := failures + [records[k].messageId];
      }
      assert Run(db.Snapshot(), failures, processed) == Absorb(before, records[k].messageId, (db.Snapshot(), ok));
    }
    resp := Response(200, failures);
  }

  // ---------------------------------------------------------------------------
  // Properties

  /** One pass of the record loop, given the outcome of its `try` block. */
  lemma RecordsFromStep(run: Run, records: seq<Record>, k: nat, t': Tables, ok: bool)
    requires k < |records| && (t', ok) == Process(run.tables, records[k].body)
    ensures RecordsFrom(run, records, k) == RecordsFrom(Absorb(run, records[k].messageId, (t', ok)), records, k + 1)
  {
  }

  /** The validation requires the manufacturer code, the model code and the
      vehicle type to be present and truthy; the manufacturer name, the model
      name and the fipe code may be missing (they default to "Unknown") but not
      falsy. */
  lemma ValidationRequiresCodes(o: Object)
    ensures AllTruthy(Required(DataOf(o))) <==>
              ("manufacturer_code" in o && Truthy(o["manufacturer_code"]))
              && ("model_code" in o && Truthy(o["model_code"]))
              && ("vehicle_type" in o && Truthy(o["vehicle_type"]))
              && ("manufacturer" !in o || Truthy(o["manufacturer"]))
              && ("model" !in o || Truthy(o["model"]))
              && ("fipe_code" !in o || Truthy(o["fipe_code"]))
  {
    var vs := Required(DataOf(o));
    assert AllTruthy(vs) <==> Truthy(vs[0]) && Truthy(vs[1]) && Truthy(vs[2]) && Truthy(vs[3]) && Truthy(vs[4])
                              && Truthy(vs[5]);
  }

  /** A message is processed exactly when its body is an object that passes the
      validation and whose price (after its defaults) reads as a number: the
      outcome does not depend on the tables. */
  predicate Accepts(body: Option<Object>) {
    body.Some? && AllTruthy(Required(DataOf(body.value))) && FipeValue(DataOf(body.value).fipeValue).Ok?
  }

  /** The catalog stage keeps the tables consistent, leaves the price rows alone,
      removes no manufacturer or model row, and ends with a manufacturer row and a
      model row that carry the message's values (or their defaults). */
  lemma CatalogRowsFound(t: Tables, d: Data)
    requires Consistent(t)
    ensures var (t2, manufacturerId, modelId) := CatalogRows(t, d);
            Consistent(t2) && t2.values == t.values && t.manufacturers <= t2.manufacturers && t.models <= t2.models
            && 1 <= manufacturerId <= |t2.manufacturers|
            && ManufacturerIs(t2.manufacturers[manufacturerId - 1], d.manufacturer, d.manufacturerCode, d.vehicleType)
            && 1 <= modelId <= |t2.models|
            && ModelIs(t2.models[modelId - 1], PyStr(d.model), PyStr(d.modelCode), manufacturerId)
  {
    var (t1, manufacturerId) := WithManufacturer(t, d.manufacturer, d.manufacturerCode, d.vehicleType);
    ManufacturerFoundOrCreated(t, d.manufacturer, d.manufacturerCode, d.vehicleType);
    ModelFoundOrCreated(t1, PyStr(d.model), PyStr(d.modelCode), manufacturerId);
  }

  /** `insert_model_value` keeps the tables consistent, touches only the price
      table and adds at most one row; it succeeds exactly when the price reads as
      a number, and a failure changes nothing. */
  lemma StoreValueFacts(t: Tables, d: Data, modelId: nat, manufacturerId: nat)
    requires Consistent(t)
    ensures var (t', ok) := StoreValue(t, d, modelId, manufacturerId);
            Consistent(t') && t'.manufacturers == t.manufacturers && t'.models == t.models
            && |t.values| <= |t'.values| <= |t.values| + 1
            && (ok <==> FipeValue(d.fipeValue).Ok?) && (!ok ==> t' == t)
  {
    var price := FipeValue(d.fipeValue);
    var key := KeyOf(d, modelId);
    if price.Ok? {
      match FindValue(t.values, key)
      case Some(id) =>
        UpdateChangesOnlyPrice(t, key, price.value);
      case None =>
        InsertKeepsConsistent(t, ValueDraft(key, PyStr(d.model) + " " + PyStr(d.modelYearCode), PyStr(d.modelCode),
                                            manufacturerId, PyStr(d.referenceMonth), price.value, PyStr(d.fuelType),
                                            d.vehicleType));
    }
  }

  /** One message: processed exactly when it is accepted; the tables stay
      consistent, no manufacturer or model row is removed, at most one price row
      is added, and a failure adds none. */
  lemma ProcessOutcome(t: Tables, body: Option<Object>)
    requires Consistent(t)
    ensures var (t', ok) := Process(t, body);
            (ok <==> Accepts(body))
            && Consistent(t') && t.manufacturers <= t'.manufacturers && t.models <= t'.models
            && |t.values| <= |t'.values| <= |t.values| + (if ok then 1 else 0)
  {
    if body.Some? && AllTruthy(Required(DataOf(body.value))) {
      var d := DataOf(body.value);
      var (t2, manufacturerId, modelId) := CatalogRows(t, d);
      CatalogRowsFound(t, d);
      StoreValueFacts(t2, d, modelId, manufacturerId);
    }
  }

  /** Whether a message is processed does not depend on the tables: exactly the
      accepted ones are. */
  lemma ProcessSucceeds(t: Tables, body: Option<Object>)
    ensures Process(t, body).1 <==> Accepts(body)
  {
    if body.Some? && AllTruthy(Required(DataOf(body.value))) {
      var d := DataOf(body.value);
      var (t2, manufacturerId, modelId) := CatalogRows(t, d);
      assert StoreValue(t2, d, modelId, manufacturerId).1 <==> FipeValue(d.fipeValue).Ok?;
    }
  }

  /** The ids of the messages from position `k` on that are not accepted, in order. */
  function FailedIds(records: seq<Record>, k: nat): seq<string>
    decreases |records| - k
  {
    if k >= |records| then []
    else (if Accepts(records[k].body) then [] else [records[k].messageId]) + FailedIds(records, k + 1)
  }

  /** An id is reported exactly when it belongs to a record from `k` on that is
      not accepted. */
  lemma {:induction false} FailedIdsMembers(records: seq<Record>, k: nat)
    ensures forall x :: x in FailedIds(records, k) <==>
              exists i :: k <= i < |records| && records[i].messageId == x && !Accepts(records[i].body)
    decreases |records| - k
  {
    if k < |records| {
      FailedIdsMembers(records, k + 1);
      var here := if Accepts(records[k].body) then [] else [records[k].messageId];
      assert FailedIds(records, k) == here + FailedIds(records, k + 1);
      forall x
        ensures x in FailedIds(records, k) <==>
                exists i :: k <= i < |records| && records[i].messageId == x && !Accepts(records[i].body)
      {
        if x in here {
          assert records[k].messageId == x && !Accepts(records[k].body);
        }
        if exists i :: k <= i < |records| && records[i].messageId == x && !Accepts(records[i].body) {
          var i :| k <= i < |records| && records[i].messageId == x && !Accepts(records[i].body);
          if i == k {
            assert x in here;
          } else {
            assert x in FailedIds(records, k + 1);
          }
        }
      }
    }
  }

  /** The loop from `k` on, whose result is `r`, appends to the failures the ids
      of the records that are not accepted, in order. */
  lemma {:induction false} RecordsFromFailures(run: Run, records: seq<Record>, k: nat, r: Run)
    requires r == RecordsFrom(run, records, k)
    ensures r.failures == run.failures + FailedIds(records, k)
    decreases |records| - k
  {
    if k < |records| {
      var run' := RecordsStep(run, records, k);
      RecordsFromFailures(run', records, k + 1, RecordsFrom(run', records, k + 1));
      var here := if Accepts(records[k].body) then [] else [records[k].messageId];
      assert run.failures + (here + FailedIds(records, k + 1)) == (run.failures + here) + FailedIds(records, k + 1);
    }
  }

  /** Every record from `k` on is either counted as processed or reported. */
  lemma {:induction false} RecordsFromCounts(run: Run, records: seq<Record>, k: nat)
    requires k <= |records|
    ensures var r := RecordsFrom(run, records, k);
            r.processed + |r.failures| == run.processed + |run.failures| + (|records| - k)
    decreases |records| - k
  {
    if k < |records| {
      var run' := RecordsStep(run, records, k);
      RecordsFromCounts(run', records, k + 1);
    }
  }

  /** The loop from `k` on keeps the tables consistent and removes no
      manufacturer or model row. */
  lemma {:induction false} RecordsFromConsistent(run: Run, records: seq<Record>, k: nat)
    requires k <= |records| && Consistent(run.tables)
    ensures var r := RecordsFrom(run, records, k);
            Consistent(r.tables) && run.tables.manufacturers <= r.tables.manufacturers
            && run.tables.models <= r.tables.models
    decreases |records| - k
  {
    if k < |records| {
      var run' := RecordsStepConsistent(run, records, k);
      RecordsFromConsistent(run', records, k + 1);
    }
  }

  /** One pass of the record loop: the record's id is added to the failures
      exactly when it is not accepted, and counted as processed otherwise. */
  lemma RecordsStep(run: Run, records: seq<Record>, k: nat) returns (run': Run)
    requires k < |records|
    ensures RecordsFrom(run, records, k) == RecordsFrom(run', records, k + 1)
    ensures run'.failures == run.failures + (if Accepts(records[k].body) then [] else [records[k].messageId])
    ensures run'.processed == run.processed + (if Accepts(records[k].body) then 1 else 0)
  {
    var out := Process(run.tables, records[k].body);
    ProcessSucceeds(run.tables, records[k].body);
    run' := Absorb(run, records[k].messageId, out);
  }

  /** One pass of the record loop keeps the tables consistent. */
  lemma RecordsStepConsistent(run: Run, records: seq<Record>, k: nat) returns (run': Run)
    requires k < |records| && Consistent(run.tables)
    ensures RecordsFrom(run, records, k) == RecordsFrom(run', records, k + 1)
    ensures Consistent(run'.tables) && run.tables.manufacturers <= run'.tables.manufacturers
            && run.tables.models <= run'.tables.models
  {
    var out := Process(run.tables, records[k].body);
    ProcessOutcome(run.tables, records[k].body);
    run' := Absorb(run, records[k].messageId, out);
  }

  /** With a connection, the handler answers 200 with the ids of exactly the
      messages that were not accepted, in order; every other message is counted as
      processed, so processed and failed add up to the number of records. */
  lemma HandlerReport(t: Tables, records: seq<Record>)
    requires Consistent(t)
    ensures var run := RecordsFrom(Run(t, [], 0), records, 0);
            run.failures == FailedIds(records, 0) && run.processed + |run.failures| == |records|
            && Consistent(run.tables)
  {
    RecordsFromFailures(Run(t, [], 0), records, 0, RecordsFrom(Run(t, [], 0), records, 0));
    RecordsFromCounts(Run(t, [], 0), records, 0);
    RecordsFromConsistent(Run(t, [], 0), records, 0);
  }

  /** The defaults let a message without a manufacturer or model name through:
      it is stored under a manufacturer and a model named "Unknown". */
  lemma MissingNamesStoredAsUnknown(t: Tables, o: Object)
    requires Consistent(t)
    requires "manufacturer" !in o && "model" !in o
    requires "manufacturer_code" in o && Truthy(o["manufacturer_code"])
    requires "model_code" in o && Truthy(o["model_code"])
    requires "vehicle_type" in o && Truthy(o["vehicle_type"])
    requires "fipe_code" !in o || Truthy(o["fipe_code"])
    requires FipeValue(Get(o, "fipe_value", Unknown)).Ok?
    ensures var (t', ok) := Process(t, Some(o));
            ok
            && (exists k :: 0 <= k < |t'.manufacturers| && t'.manufacturers[k].name == Unknown
                            && t'.manufacturers[k].code == o["manufacturer_code"])
            && (exists k :: 0 <= k < |t'.models| && t'.models[k].name == "Unknown")
  {
    var d := DataOf(o);
    ValidationRequiresCodes(o);
    var t2, manufacturerId, modelId := ProcessStages(t, o);
    assert d.manufacturer == Unknown && PyStr(d.model) == "Unknown" && d.manufacturerCode == o["manufacturer_code"];
    StoreValueFacts(t2, d, modelId, manufacturerId);
  }

  /** A message that passes the validation goes through the catalog stage, which
      finds or adds its manufacturer and model rows, and then `insert_model_value`. */
  lemma ProcessStages(t: Tables, o: Object) returns (t2: Tables, manufacturerId: nat, modelId: nat)
    requires Consistent(t) && AllTruthy(Required(DataOf(o)))
    ensures Process(t, Some(o)) == StoreValue(t2, DataOf(o), modelId, manufacturerId)
    ensures Consistent(t2)
    ensures 1 <= manufacturerId <= |t2.manufacturers| && t2.manufacturers[manufacturerId - 1].name == DataOf(o).manufacturer
            && t2.manufacturers[manufacturerId - 1].code == DataOf(o).manufacturerCode
    ensures 1 <= modelId <= |t2.models| && t2.models[modelId - 1].name == PyStr(DataOf(o).model)
  {
    var d := DataOf(o);
    CatalogRowsFound(t, d);
    t2, manufacturerId, modelId := CatalogRows(t, d).0, CatalogRows(t, d).1, CatalogRows(t, d).2;
  }

  /** A message without a price is never processed: the default "Unknown" does
      not read as a number. */
  lemma MissingPriceFails(t: Tables, o: Object)
    requires "fipe_value" !in o
    ensures !Process(t, Some(o)).1 && !Accepts(Some(o))
  {
    assert PyStr(Unknown) == "Unknown";
    FipeValueOfWord(Unknown);
  }

  /** The two ingestors validate differently: a message without a manufacturer
      name fails the code_lambdas validation but passes the src one, while a
      manufacturer name that is empty text passes the code_lambdas validation but
      fails the src one. */
  lemma ValidationsDiffer(o: Object)
    ensures "manufacturer" !in o ==> "manufacturer" in Ingestor.NotIncluded(o) && Truthy(DataOf(o).manufacturer)
    ensures "manufacturer" in o && o["manufacturer"] == Str("") ==>
              "manufacturer" !in Ingestor.NotIncluded(o) && !AllTruthy(Required(DataOf(o)))
  {
    Ingestor.MissingMembers(o, Ingestor.RequiredKeys);
    assert Required(DataOf(o))[0] == DataOf(o).manufacturer;
  }

  /** Only the code_lambdas ingestor converts the vehicle type on insert: for a
      new price row whose vehicle type does not convert to an integer, it fails
      while the src ingestor stores the row with the vehicle type as it came. */
  lemma InsertVehicleTypeDiffers(t: Tables, o: Object, modelId: nat, manufacturerId: nat)
    requires "fipe_value" in o && FipeValue(o["fipe_value"]).Ok?
    requires "vehicle_type" in o && PyInt(o["vehicle_type"]).Raised?
    requires FindValue(t.values, KeyOf(DataOf(o), modelId)).None?
    requires FindValue(t.values, Ingestor.KeyOf(o, modelId)).None?
    ensures !Ingestor.StoreValue(t, o, modelId, manufacturerId).1
    ensures var (t', ok) := StoreValue(t, DataOf(o), modelId, manufacturerId);
            ok && |t'.values| == |t.values| + 1 && t'.values[|t.values|].vehicleType == o["vehicle_type"]
  {
  }
}

/** The ingestor (`lambda_handler` of code_lambdas fipe_soma_ingestor.py): each
    price message is validated, its manufacturer and model are looked up or
    created, and its price row is updated or inserted. Every record opens its own
    connection (up to four attempts). The first record that is not processed
    ends the invocation with an exception: the handler refers to a name bound
    only inside an earlier `except` clause. */
module Ingestor {
  import opened Wrappers
  import opened Json
  import opened Queue
  import opened Currency
  import opened Store

  /** The keys whose value must not be `False` (or 0), in the order they are checked. */
  const RequiredKeys: seq<string> := ["manufacturer", "manufacturer_code", "model", "model_code", "fipe_code", "vehicle_type"]

  /** `psycopg2.connect` is tried while not connected and `attempts < 5`, from 1. */
  const MaxConnectAttempts: nat := 4

  /** `message_body.get(key, False)` */
  function Field(o: Object, key: string): Value {
    Get(o, key, Bool(false))
  }

  /** The required keys of `keys` whose value compares equal to `False`. */
  function Missing(o: Object, keys: seq<string>): seq<string> {
    if keys == [] then []
    else (if EqualsFalse(Field(o, keys[0])) then [keys[0]] else []) + Missing(o, keys[1..])
  }

  /** A key is reported exactly when it is required and its value is `False` or 0. */
  lemma {:induction false} MissingMembers(o: Object, keys: seq<string>)
    ensures forall x :: x in Missing(o, keys) <==> x in keys && EqualsFalse(Field(o, x))
  {
    if keys != [] {
      MissingMembers(o, keys[1..]);
      assert keys == [keys[0]] + keys[1..];
    }
  }

  /** `not_included`: the required keys whose value is `False` or 0, in order. */
  function NotIncluded(o: Object): seq<string> {
    Missing(o, RequiredKeys)
  }

  /** The validation passes exactly when no required value is `False` or 0. */
  lemma NotIncludedEmpty(o: Object)
    ensures NotIncluded(o) == [] <==> forall x :: x in RequiredKeys ==> !EqualsFalse(Field(o, x))
  {
    MissingMembers(o, RequiredKeys);
    var r := NotIncluded(o);
    assert r != [] ==> r[0] in r;
  }

  /** A record whose body is a JSON object that passes the validation. */
  predicate Passes(r: Record) {
    r.body.Some? && NotIncluded(r.body.value) == []
  }

  // ---------------------------------------------------------------------------
  // Specification

  /** The key the price lookup filters on. */
  function KeyOf(o: Object, modelId: nat): ValueKey {
    ValueKey(modelId, PyStr(Field(o, "fipe_code")), PyStr(Field(o, "model_year_code")),
             PyStr(Field(o, "codigoTabelaReferencia")))
  }

  /** `insert_model_value`: read the price (which may raise), then update the
      row with the same key or insert a new one; only the insert converts the
      vehicle type to an integer, which may raise too. */
  function StoreValue(t: Tables, o: Object, modelId: nat, manufacturerId: nat): (Tables, bool) {
    match FipeValue(Field(o, "fipe_value"))
    case Raised(_) => (t, false)
    case Ok(price) =>
      var key := KeyOf(o, modelId);
      match FindValue(t.values, key)
      case Some(id) => (WithUpdatedValue(t, id, price), true)
      case None =>
        match PyInt(Field(o, "vehicle_type"))
        case Raised(_) => (t, false)
        case Ok(vt) =>
          var d := ValueDraft(key, PyStr(Field(o, "model")) + " " + PyStr(Field(o, "model_year_code")),
                              PyStr(Field(o, "model_code")), manufacturerId, PyStr(Field(o, "mesReferenciaAno")),
                              price, PyStr(Field(o, "fuel_type")), Int(vt));
          (WithInsertedValue(t, d), true)
  }

  /** The two `get_or_create` calls of `process_message`: the tables afterwards,
      the manufacturer id and the model id. */
  function CatalogRows(t: Tables, o: Object): (Tables, nat, nat) {
    var (t1, manufacturerId) := WithManufacturer(t, Field(o, "manufacturer"), Field(o, "manufacturer_code"),
                                                 Field(o, "vehicle_type"));
    var (t2, modelId) := WithModel(t1, PyStr(Field(o, "model")), PyStr(Field(o, "model_code")), manufacturerId);
    (t2, manufacturerId, modelId)
  }

  /** `process_message`: the tables afterwards and whether it returned True. */
  function Process(t: Tables, body: Option<Object>): (Tables, bool) {
    match body
    case None => (t, false)
    case Some(o) =>
      if NotIncluded(o) != [] then (t, false)
      else
        var (t2, manufacturerId, modelId) := CatalogRows(t, o);
        StoreValue(t2, o, modelId, manufacturerId)
  }


  /** The connection loop from attempt number `from` with `left` attempts left:
      whether it connected and how many attempts it made. */
  function Connect(connectOk: nat -> bool, from: nat, left: nat): (bool, nat)
    decreases left
  {
    if left == 0 then (false, 0)
    else if connectOk(from) then (true, 1)
    else
      var r := Connect(connectOk, from + 1, left - 1);
      (r.0, r.1 + 1)
  }

  // The record loop is specified by three functions, one per stage of a record:
  // the loop itself, the connection, and `process_message`.

  /** The record loop from position `k` on, with `attempts` connection attempts
      made so far: the tables, and the exception that ends the invocation (None
      when every record was processed). */
  function HandleFrom(t: Tables, records: seq<Record>, k: nat, envOk: bool, connectOk: nat -> bool,
                      attempts: nat): (Tables, Option<Exception>)
    decreases |records| - k, 2
  {
    if k >= |records| then (t, None) else ConnectAt(t, records, k, envOk, connectOk, attempts)
  }

  /** `get_db_connection()` for the record at `k`: ValueError without connection
      settings, otherwise up to four attempts. */
  function ConnectAt(t: Tables, records: seq<Record>, k: nat, envOk: bool, connectOk: nat -> bool,
                     attempts: nat): (Tables, Option<Exception>)
    requires k < |records|
    decreases |records| - k, 1
  {
    if !envOk then (t, Some(ValueError))
    else
      var c := Connect(connectOk, attempts, MaxConnectAttempts);
      ProcessAt(t, records, k, envOk, connectOk, c.0, attempts + c.1)
  }

  /** The record at `k` once the connection loop ended: `process_message` when
      connected; a record that is not processed raises NameError, otherwise the
      loop goes on. */
  function ProcessAt(t: Tables, records: seq<Record>, k: nat, envOk: bool, connectOk: nat -> bool,
                     connected: bool, attempts: nat): (Tables, Option<Exception>)
    requires k < |records|
    decreases |records| - k, 0
  {
    var out := if connected then Process(t, records[k].body) else (t, false);
    if out.1 then HandleFrom(out.0, records, k + 1, envOk, connectOk, attempts) else (out.0, Some(NameError))
  }

  // ---------------------------------------------------------------------------
  // The handler

  /** `get_db_connection()`: ValueError when the connection settings are missing
      (`envOk` false), else the connection attempts; the attempts are numbered
      across the invocation. */
  method GetDbConnection(envOk: bool, connectOk: nat -> bool, from: nat) returns (r: Result<bool>, attempts: nat)
    ensures !envOk ==> r == Raised(ValueError) && attempts == 0
    ensures envOk ==> (r, attempts) == (Ok(Connect(connectOk, from, MaxConnectAttempts).0),
                                        Connect(connectOk, from, MaxConnectAttempts).1)
  {
    if !envOk {
      return Raised(ValueError), 0;
    }
    var connected := false;
    var tries := 1;
    attempts := 0;
    while !connected && tries < 5
      invariant 1 <= tries <= 5 && attempts == tries - 1
      invariant var rest := Connect(connectOk, from + attempts, MaxConnectAttempts - attempts);
                (if connected then (true, attempts) else (rest.0, attempts + rest.1))
                == Connect(connectOk, from, MaxConnectAttempts)
      decreases 5 - tries, !connected
    {
      connected := connectOk(from + attempts);
      attempts := attempts + 1;
      tries := tries + 1;
    }
    r := Ok(connected);
  }

  /** `insert_model_value(conn, data)` */
  method InsertModelValue(db: Database, o: Object, modelId: nat, manufacturerId: nat) returns (ok: bool)
    modifies db
    ensures (db.Snapshot(), ok) == StoreValue(old(db.Snapshot()), o, modelId, manufacturerId)
  {
    var price := FipeValue(Field(o, "fipe_value"));
    if price.Raised? {
      return false;
    }
    var key := KeyOf(o, modelId);
    var existing := FindValue(db.values, key);
    if existing.Some? {
      db.UpdateValue(existing.value, price.value);
    } else {
      var vt := PyInt(Field(o, "vehicle_type"));
      if vt.Raised? {
        return false;
      }
      db.InsertValue(ValueDraft(key, PyStr(Field(o, "model")) + " " + PyStr(Field(o, "model_year_code")),
                                PyStr(Field(o, "model_code")), manufacturerId, PyStr(Field(o, "mesReferenciaAno")),
                                price.value, PyStr(Field(o, "fuel_type")), Int(vt.value)));
    }
    ok := true;
  }

  /** `process_message(conn, record)` */
  method ProcessMessage(db: Database, body: Option<Object>) returns (ok: bool)
    modifies db
    ensures (db.Snapshot(), ok) == Process(old(db.Snapshot()), body)
  {
    if body.None? {
      return false;
    }
    var o := body.value;
    if NotIncluded(o) != [] {
      return false;
    }
    var manufacturerId := db.GetOrCreateManufacturer(Field(o, "manufacturer"), Field(o, "manufacturer_code"),
                                                     Field(o, "vehicle_type"));
    var modelId := db.GetOrCreateModel(PyStr(Field(o, "model")), PyStr(Field(o, "model_code")), manufacturerId);
    ok := InsertModelValue(db, o, modelId, manufacturerId);
  }

  /** The body of the record loop at position `k`: a connection, then
      `process_message`; a record that is not processed raises. */
  method IngestRecord(db: Database, records: seq<Record>, k: nat, envOk: bool, connectOk: nat -> bool, attempts: nat)
    returns (exc: Option<Exception>, made: nat)
    requires k < |records|
    modifies db
    ensures exc.Some? ==> HandleFrom(old(db.Snapshot()), records, k, envOk, connectOk, attempts) == (db.Snapshot(), exc)
    ensures exc.None? ==> HandleFrom(old(db.Snapshot()), records, k, envOk, connectOk, attempts)
                          == HandleFrom(db.Snapshot(), records, k + 1, envOk, connectOk, attempts + made)
  {
    ghost var t := db.Snapshot();
    var conn;
    conn, made := GetDbConnection(envOk, connectOk, attempts);
    if conn.Raised? {
      return Some(conn.exc), made;
    }
    var success := false;
    if conn.value {
      success := ProcessMessage(db, records[k].body);
    }
    ProcessAtUnfold(t, records, k, envOk, connectOk, conn.value, attempts + made, (db.Snapshot(), success));
    if success {
      HandleGoesOn(t, records, k, envOk, connectOk, attempts, conn.value, made, db.Snapshot());
      exc := None;
    } else {
      HandleStops(t, records, k, envOk, connectOk, attempts, conn.value, made, db.Snapshot());
      exc := Some(NameError);
    }
  }

  /** `lambda_handler(event, context)` with the `SQS_INPUT_URL` setting, whether
      the connection settings are present, and the outcome of each connection
      attempt. */
  method LambdaHandler(db: Database, records: seq<Record>, inputUrl: string, envOk: bool, connectOk: nat -> bool)
    returns (resp: Result<Response>)
    modifies db
    ensures inputUrl == "" ==> resp == Ok(Response(500, Ids(records))) && db.Snapshot() == old(db.Snapshot())
    ensures inputUrl != "" ==>
              var h := HandleFrom(old(db.Snapshot()), records, 0, envOk, connectOk, 0);
              db.Snapshot() == h.0 && resp == (if h.1.None? then Ok(Response(200, [])) else Raised(h.1.value))
  {
    if inputUrl == "" {
      return Ok(Response(500, Ids(records)));
    }
    ghost var t0 := db.Snapshot();
    var attempts := 0;
    var k := 0;
    while k < |records|
      invariant 0 <= k <= |records|
      invariant HandleFrom(db.Snapshot(), records, k, envOk, connectOk, attempts)
                == HandleFrom(t0, records, 0, envOk, connectOk, 0)
    {
      var exc, made := IngestRecord(db, records, k, envOk, connectOk, attempts);
      if exc.Some? {
        return Raised(exc.value);
      }
      attempts := attempts + made;
      k := k + 1;
    }
    resp := Ok(Response(200, []));
  }

  // ---------------------------------------------------------------------------
  // Properties

  /** A required key that is absent, or holds False or 0, is reported; text and
      null are not, so an empty string or a null passes the validation. */
  lemma ValidationChecksOnlyFalse(o: Object)
    ensures forall x :: x in RequiredKeys && x !in o ==> x in NotIncluded(o)
    ensures (forall x :: x in RequiredKeys ==> x in o && (o[x].Str? || o[x].Null?)) ==> NotIncluded(o) == []
  {
    MissingMembers(o, RequiredKeys);
    NotIncludedEmpty(o);
  }

  /** The connection loop makes at most four attempts, stops at the first one
      that succeeds, and connects exactly when one of its attempts succeeds. */
  lemma {:induction false} ConnectFacts(connectOk: nat -> bool, from: nat, left: nat)
    ensures var (ok, n) := Connect(connectOk, from, left);
            n <= left
            && (ok <==> exists i :: from <= i < from + left && connectOk(i))
            && (ok ==> n >= 1 && connectOk(from + n - 1))
            && (forall i :: from <= i < from + n && !(ok && i == from + n - 1) ==> !connectOk(i))
            && (!ok ==> n == left)
    decreases left
  {
    if left > 0 && !connectOk(from) {
      ConnectFacts(connectOk, from + 1, left - 1);
    }
  }

  /** `insert_model_value` keeps the tables consistent and touches only the
      price table, adding at most one row; when it succeeds, a row with the
      message's key exists afterwards. */
  lemma StoreValueKeepsConsistent(t: Tables, o: Object, modelId: nat, manufacturerId: nat)
    requires Consistent(t)
    ensures var (t', ok) := StoreValue(t, o, modelId, manufacturerId);
            Consistent(t') && t'.manufacturers == t.manufacturers && t'.models == t.models
            && |t.values| <= |t'.values| <= |t.values| + 1
            && (ok ==> FindValue(t'.values, KeyOf(o, modelId)).Some?)
  {
    var price := FipeValue(Field(o, "fipe_value"));
    var key := KeyOf(o, modelId);
    if price.Ok? {
      match FindValue(t.values, key)
      case Some(id) =>
        UpdateChangesOnlyPrice(t, key, price.value);
        FindValueUnique(t, key);
        var t' := WithUpdatedValue(t, id, price.value);
        FindValueFirst(t'.values, key);
        assert t'.values[id - 1].key == key;
      case None =>
        match PyInt(Field(o, "vehicle_type"))
        case Raised(_) =>
        case Ok(vt) =>
          var d := ValueDraft(key, PyStr(Field(o, "model")) + " " + PyStr(Field(o, "model_year_code")),
                              PyStr(Field(o, "model_code")), manufacturerId, PyStr(Field(o, "mesReferenciaAno")),
                              price.value, PyStr(Field(o, "fuel_type")), Int(vt));
          InsertKeepsConsistent(t, d);
    }
  }

  /** `insert_model_value` succeeds exactly when the price parses and either a
      row with the key exists or the vehicle type converts to an integer: the
      vehicle type is checked only on insert. A failure changes nothing. */
  lemma StoreValueSucceeds(t: Tables, o: Object, modelId: nat, manufacturerId: nat)
    ensures var (t', ok) := StoreValue(t, o, modelId, manufacturerId);
            (ok <==> FipeValue(Field(o, "fipe_value")).Ok?
                     && (FindValue(t.values, KeyOf(o, modelId)).Some? || PyInt(Field(o, "vehicle_type")).Ok?))
            && (!ok ==> t' == t)
  {
  }

  /** The catalog stage keeps the tables consistent, leaves the price rows
      alone, removes no manufacturer or model row, and ends with a manufacturer
      row and a model row that carry the message's values. */
  lemma CatalogRowsFound(t: Tables, o: Object)
    requires Consistent(t)
    ensures var (t2, manufacturerId, modelId) := CatalogRows(t, o);
            Consistent(t2) && t2.values == t.values && t.manufacturers <= t2.manufacturers && t.models <= t2.models
            && 1 <= manufacturerId <= |t2.manufacturers|
            && ManufacturerIs(t2.manufacturers[manufacturerId - 1], Field(o, "manufacturer"),
                              Field(o, "manufacturer_code"), Field(o, "vehicle_type"))
            && 1 <= modelId <= |t2.models|
            && ModelIs(t2.models[modelId - 1], PyStr(Field(o, "model")), PyStr(Field(o, "model_code")), manufacturerId)
  {
    var (t1, manufacturerId) := WithManufacturer(t, Field(o, "manufacturer"), Field(o, "manufacturer_code"),
                                                 Field(o, "vehicle_type"));
    ManufacturerFoundOrCreated(t, Field(o, "manufacturer"), Field(o, "manufacturer_code"), Field(o, "vehicle_type"));
    ModelFoundOrCreated(t1, PyStr(Field(o, "model")), PyStr(Field(o, "model_code")), manufacturerId);
  }

  /** `process_message` keeps the tables consistent, removes no manufacturer or
      model row, and adds at most one price row. */
  lemma ProcessKeepsConsistent(t: Tables, body: Option<Object>)
    requires Consistent(t)
    ensures var (t', _) := Process(t, body);
            Consistent(t') && t.manufacturers <= t'.manufacturers && t.models <= t'.models
            && |t.values| <= |t'.values| <= |t.values| + 1
  {
    if body.Some? && NotIncluded(body.value) == [] {
      var (t2, manufacturerId, modelId) := CatalogRows(t, body.value);
      CatalogRowsFound(t, body.value);
      StoreValueKeepsConsistent(t2, body.value, modelId, manufacturerId);
    }
  }

  /** A stored price row: the row `k` that holds the price under the message's key. */
  lemma StoredPriceRow(t: Tables, o: Object, modelId: nat, manufacturerId: nat) returns (k: nat)
    requires Consistent(t)
    requires StoreValue(t, o, modelId, manufacturerId).1
    ensures var t' := StoreValue(t, o, modelId, manufacturerId).0;
            FipeValue(Field(o, "fipe_value")).Ok? && k < |t'.values|
            && t'.values[k].fipeValue == FipeValue(Field(o, "fipe_value")).value && t'.values[k].key == KeyOf(o, modelId)
  {
    var price := FipeValue(Field(o, "fipe_value")).value;
    var key := KeyOf(o, modelId);
    match FindValue(t.values, key)
    case Some(id) =>
      UpdateChangesOnlyPrice(t, key, price);
      FindValueUnique(t, key);
      k := id - 1;
    case None =>
      k := |t.values|;
  }

  /** After a processed message the price table holds the message's price under
      its fipe code, model year and reference table, for a model row with the
      message's model name and code. */
  lemma ProcessStoresPrice(t: Tables, o: Object)
    requires Consistent(t)
    requires Process(t, Some(o)).1
    ensures var t' := Process(t, Some(o)).0;
            FipeValue(Field(o, "fipe_value")).Ok?
            && exists k :: 0 <= k < |t'.values|
                 && t'.values[k].fipeValue == FipeValue(Field(o, "fipe_value")).value
                 && t'.values[k].key.fipeCode == PyStr(Field(o, "fipe_code"))
                 && t'.values[k].key.manufactureYear == PyStr(Field(o, "model_year_code"))
                 && t'.values[k].key.referenceMonthCode == PyStr(Field(o, "codigoTabelaReferencia"))
                 && 1 <= t'.values[k].key.modelId <= |t'.models|
                 && t'.models[t'.values[k].key.modelId - 1].name == PyStr(Field(o, "model"))
                 && t'.models[t'.values[k].key.modelId - 1].code == PyStr(Field(o, "model_code"))
  {
    var (t2, manufacturerId, modelId) := CatalogRows(t, o);
    CatalogRowsFound(t, o);
    var k := StoredPriceRow(t2, o, modelId, manufacturerId);
    StoreValueKeepsConsistent(t2, o, modelId, manufacturerId);
    var t' := StoreValue(t2, o, modelId, manufacturerId).0;
    assert t'.models == t2.models && t'.values[k].key.modelId == modelId;
  }

  /** A message whose price does not parse is not processed, but the
      manufacturer and model rows created for it stay: they were committed
      before the price was read. */
  lemma BadPriceKeepsCatalogRows(t: Tables, o: Object)
    requires Consistent(t)
    requires NotIncluded(o) == [] && FipeValue(Field(o, "fipe_value")).Raised?
    ensures var (t', ok) := Process(t, Some(o));
            !ok && t'.values == t.values
            && (exists k :: 0 <= k < |t'.manufacturers|
                  && ManufacturerIs(t'.manufacturers[k], Field(o, "manufacturer"), Field(o, "manufacturer_code"),
                                    Field(o, "vehicle_type")))
            && (exists k :: 0 <= k < |t'.models|
                  && t'.models[k].name == PyStr(Field(o, "model")) && t'.models[k].code == PyStr(Field(o, "model_code")))
  {
    var (t2, manufacturerId, modelId) := CatalogRows(t, o);
    CatalogRowsFound(t, o);
    assert StoreValue(t2, o, modelId, manufacturerId) == (t2, false);
    assert t2.models[modelId - 1].name == PyStr(Field(o, "model"));
  }

  /** Processing a message again after it was processed adds no row: its
      manufacturer and model are found and its price row is updated in place. */
  lemma RedeliveryAddsNoRow(t: Tables, o: Object)
    requires Consistent(t)
    requires Process(t, Some(o)).1
    ensures var t1 := Process(t, Some(o)).0;
            var (t2, ok) := Process(t1, Some(o));
            ok && t2.manufacturers == t1.manufacturers && t2.models == t1.models && |t2.values| == |t1.values|
  {
    var name, code, vehicleType := Field(o, "manufacturer"), Field(o, "manufacturer_code"), Field(o, "vehicle_type");
    var (ta, manufacturerId) := WithManufacturer(t, name, code, vehicleType);
    ManufacturerFoundOrCreated(t, name, code, vehicleType);
    ManufacturerGetOrCreateIdempotent(t, name, code, vehicleType);
    var (tb, modelId) := WithModel(ta, PyStr(Field(o, "model")), PyStr(Field(o, "model_code")), manufacturerId);
    ModelFoundOrCreated(ta, PyStr(Field(o, "model")), PyStr(Field(o, "model_code")), manufacturerId);
    ModelGetOrCreateIdempotent(ta, PyStr(Field(o, "model")), PyStr(Field(o, "model_code")), manufacturerId);
    StoreValueKeepsConsistent(tb, o, modelId, manufacturerId);
    var t1 := StoreValue(tb, o, modelId, manufacturerId).0;
    assert t1 == Process(t, Some(o)).0;
    assert FindManufacturer(t1.manufacturers, name, code, vehicleType) == Some(manufacturerId);
    assert WithManufacturer(t1, name, code, vehicleType) == (t1, manufacturerId);
    assert FindModel(t1.models, PyStr(Field(o, "model")), PyStr(Field(o, "model_code")), manufacturerId) == Some(modelId);
    assert WithModel(t1, PyStr(Field(o, "model")), PyStr(Field(o, "model_code")), manufacturerId) == (t1, modelId);
    assert Process(t1, Some(o)) == StoreValue(t1, o, modelId, manufacturerId);
  }

  /** The processing stage of a record spelled out: `process_message` when
      connected, then the rest of the loop or NameError. */
  lemma ProcessAtUnfold(t: Tables, records: seq<Record>, k: nat, envOk: bool, connectOk: nat -> bool,
                        connected: bool, attempts: nat, out: (Tables, bool))
    requires k < |records|
    requires out == if connected then Process(t, records[k].body) else (t, false)
    ensures ProcessAt(t, records, k, envOk, connectOk, connected, attempts)
            == if out.1 then HandleFrom(out.0, records, k + 1, envOk, connectOk, attempts) else (out.0, Some(NameError))
  {
  }

  /** The processing stage of a record, with the outcome of `process_message`
      handed back rather than spelled out: a record that lets the loop go on had
      a valid JSON object body, and the loop goes on from the tables it left;
      from consistent tables a record leaves consistent tables behind and
      removes no manufacturer or model row. */
  lemma ProcessAtStep(t: Tables, records: seq<Record>, k: nat, envOk: bool, connectOk: nat -> bool,
                      connected: bool, attempts: nat)
    returns (t': Tables, ok: bool)
    requires k < |records|
    ensures ok ==> Passes(records[k])
    ensures ProcessAt(t, records, k, envOk, connectOk, connected, attempts)
            == if ok then HandleFrom(t', records, k + 1, envOk, connectOk, attempts) else (t', Some(NameError))
    ensures Consistent(t) ==> Consistent(t') && t.manufacturers <= t'.manufacturers && t.models <= t'.models
  {
    if !connected {
      t', ok := t, false;
    } else {
      t', ok := Process(t, records[k].body).0, Process(t, records[k].body).1;
      if Consistent(t) {
        ProcessKeepsConsistent(t, records[k].body);
      }
    }
  }

  /** With connection settings, the connection stage of a record hands the
      outcome of the connection loop to the processing stage. */
  lemma ConnectAtProcess(t: Tables, records: seq<Record>, k: nat, envOk: bool, connectOk: nat -> bool,
                         attempts: nat, c: (bool, nat))
    requires k < |records| && envOk && c == Connect(connectOk, attempts, MaxConnectAttempts)
    ensures ConnectAt(t, records, k, envOk, connectOk, attempts)
            == ProcessAt(t, records, k, envOk, connectOk, c.0, attempts + c.1)
  {
  }

  /** A record whose processing stage lets the loop go on: the loop goes on from
      the tables it left, with the attempts of its connection loop counted. */
  lemma HandleGoesOn(t: Tables, records: seq<Record>, k: nat, envOk: bool, connectOk: nat -> bool,
                     attempts: nat, connected: bool, made: nat, t': Tables)
    requires k < |records| && envOk && (connected, made) == Connect(connectOk, attempts, MaxConnectAttempts)
    requires ProcessAt(t, records, k, envOk, connectOk, connected, attempts + made)
             == HandleFrom(t', records, k + 1, envOk, connectOk, attempts + made)
    ensures HandleFrom(t, records, k, envOk, connectOk, attempts)
            == HandleFrom(t', records, k + 1, envOk, connectOk, attempts + made)
  {
    ConnectAtProcess(t, records, k, envOk, connectOk, attempts, (connected, made));
  }

  /** A record whose processing stage raises: the loop stops there. */
  lemma HandleStops(t: Tables, records: seq<Record>, k: nat, envOk: bool, connectOk: nat -> bool,
                    attempts: nat, connected: bool, made: nat, t': Tables)
    requires k < |records| && envOk && (connected, made) == Connect(connectOk, attempts, MaxConnectAttempts)
    requires ProcessAt(t, records, k, envOk, connectOk, connected, attempts + made) == (t', Some(NameError))
    ensures HandleFrom(t, records, k, envOk, connectOk, attempts) == (t', Some(NameError))
  {
    ConnectAtProcess(t, records, k, envOk, connectOk, attempts, (connected, made));
  }

  /** One whole record of the loop with connection settings: the tables it
      leaves and whether the loop goes on; a record that lets it go on passed
      the validation. */
  lemma ConnectAtStep(t: Tables, records: seq<Record>, k: nat, envOk: bool, connectOk: nat -> bool, attempts: nat,
                      c: (bool, nat))
    returns (t': Tables, ok: bool)
    requires k < |records| && envOk && c == Connect(connectOk, attempts, MaxConnectAttempts)
    ensures ok ==> Passes(records[k])
    ensures ConnectAt(t, records, k, envOk, connectOk, attempts)
            == if ok then HandleFrom(t', records, k + 1, envOk, connectOk, attempts + c.1) else (t', Some(NameError))
  {
    ConnectAtProcess(t, records, k, envOk, connectOk, attempts, c);
    t', ok := ProcessAtStep(t, records, k, envOk, connectOk, c.0, attempts + c.1);
  }

  /** One whole record of the loop with connection settings, from consistent
      tables: the tables it leaves are consistent and keep every manufacturer
      and model row. */
  lemma ConnectAtStepConsistent(t: Tables, records: seq<Record>, k: nat, envOk: bool, connectOk: nat -> bool,
                                attempts: nat, c: (bool, nat))
    returns (t': Tables, ok: bool)
    requires k < |records| && envOk && c == Connect(connectOk, attempts, MaxConnectAttempts)
    requires Consistent(t)
    ensures ConnectAt(t, records, k, envOk, connectOk, attempts)
            == if ok then HandleFrom(t', records, k + 1, envOk, connectOk, attempts + c.1) else (t', Some(NameError))
    ensures Consistent(t') && t.manufacturers <= t'.manufacturers && t.models <= t'.models
  {
    ConnectAtProcess(t, records, k, envOk, connectOk, attempts, c);
    t', ok := ProcessAtStep(t, records, k, envOk, connectOk, c.0, attempts + c.1);
  }

  /** The record loop ends without exception only when every record from `k` on
      had a JSON object body that passed the validation. */
  lemma {:induction false} HandleOutcome(t: Tables, records: seq<Record>, k: nat, envOk: bool, connectOk: nat -> bool,
                                         attempts: nat)
    ensures HandleFrom(t, records, k, envOk, connectOk, attempts).1.None? ==>
              forall i :: k <= i < |records| ==> Passes(records[i])
    decreases |records| - k
  {
    if k < |records| && !envOk {
      assert HandleFrom(t, records, k, envOk, connectOk, attempts) == (t, Some(ValueError));
    } else if k < |records| {
      var c := Connect(connectOk, attempts, MaxConnectAttempts);
      var t', ok := ConnectAtStep(t, records, k, envOk, connectOk, attempts, c);
      if ok {
        HandleOutcome(t', records, k + 1, envOk, connectOk, attempts + c.1);
        if HandleFrom(t, records, k, envOk, connectOk, attempts).1.None? {
          assert HandleFrom(t', records, k + 1, envOk, connectOk, attempts + c.1).1.None?;
          forall i | k <= i < |records|
            ensures Passes(records[i])
          {
            if i > k {
              assert k + 1 <= i < |records|;
            }
          }
        }
      }
    }
  }

  /** The exception that ends the record loop is ValueError without connection
      settings and NameError with them. */
  lemma {:induction false} HandleRaises(t: Tables, records: seq<Record>, k: nat, envOk: bool, connectOk: nat -> bool,
                                        attempts: nat)
    ensures var r := HandleFrom(t, records, k, envOk, connectOk, attempts);
            r.1.Some? ==> r.1.value == (if envOk then NameError else ValueError)
    decreases |records| - k
  {
    if k < |records| && envOk {
      var c := Connect(connectOk, attempts, MaxConnectAttempts);
      var t', ok := ConnectAtStep(t, records, k, envOk, connectOk, attempts, c);
      if ok {
        HandleRaises(t', records, k + 1, envOk, connectOk, attempts + c.1);
      }
    }
  }

  /** The record loop keeps the tables consistent and removes no manufacturer or
      model row, whether it ends normally or raises. */
  lemma {:induction false} HandleKeepsConsistent(t: Tables, records: seq<Record>, k: nat, envOk: bool,
                                                 connectOk: nat -> bool, attempts: nat)
    requires Consistent(t)
    ensures var r := HandleFrom(t, records, k, envOk, connectOk, attempts);
            Consistent(r.0) && t.manufacturers <= r.0.manufacturers && t.models <= r.0.models
    decreases |records| - k
  {
    if k < |records| && envOk {
      var c := Connect(connectOk, attempts, MaxConnectAttempts);
      var t', ok := ConnectAtStepConsistent(t, records, k, envOk, connectOk, attempts, c);
      if ok {
        HandleKeepsConsistent(t', records, k + 1, envOk, connectOk, attempts + c.1);
      }
    }
  }
}

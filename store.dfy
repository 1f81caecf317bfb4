/** The three PostgreSQL tables the ingestors write (`fipe_vehicle_manufacturer`,
    `fipe_vehicle_model`, `fipe_vehicle_model_value`) and the get-or-create and
    upsert steps both ingestors run against them. Ids are serial: the row at
    position `k` of a table has id `k + 1`, and no step deletes a row. */
module Store {
  import opened Wrappers
  import opened Json

  datatype ManufacturerRow = ManufacturerRow(id: nat, name: Value, code: Value, vehicleType: Value)

  datatype ModelRow = ModelRow(id: nat, name: string, code: string, manufacturerId: nat)

  /** The columns the value lookup filters on. */
  datatype ValueKey = ValueKey(modelId: nat, fipeCode: string, manufactureYear: string, referenceMonthCode: string)

  /** A price row; `writes` counts the updates that set `write_date`. */
  datatype ValueRow = ValueRow(
    id: nat,
    key: ValueKey,
    name: string,
    code: string,
    manufacturerId: nat,
    referenceMonth: string,
    fipeValue: real,
    fuelType: string,
    vehicleType: Value,
    active: bool,
    writes: nat)

  /** The columns of a price row that the caller supplies on insert. */
  datatype ValueDraft = ValueDraft(
    key: ValueKey,
    name: string,
    code: string,
    manufacturerId: nat,
    referenceMonth: string,
    fipeValue: real,
    fuelType: string,
    vehicleType: Value)

  datatype Tables = Tables(manufacturers: seq<ManufacturerRow>, models: seq<ModelRow>, values: seq<ValueRow>)

  const Empty: Tables := Tables([], [], [])

  // ---------------------------------------------------------------------------
  // Lookups: `SELECT id ... WHERE ...` followed by `fetchone()`

  predicate ManufacturerIs(row: ManufacturerRow, name: Value, code: Value, vehicleType: Value) {
    row.name == name && row.code == code && row.vehicleType == vehicleType
  }

  /** The id of the first manufacturer row with this name, code and vehicle type. */
  function FindManufacturer(rows: seq<ManufacturerRow>, name: Value, code: Value, vehicleType: Value): Option<nat> {
    if rows == [] then None
    else if ManufacturerIs(rows[0], name, code, vehicleType) then Some(rows[0].id)
    else FindManufacturer(rows[1..], name, code, vehicleType)
  }

  /** The lookup finds nothing exactly when no row matches, and otherwise the id
      of the first matching row. */
  lemma {:induction false} FindManufacturerFirst(rows: seq<ManufacturerRow>, name: Value, code: Value, vehicleType: Value)
    ensures var r := FindManufacturer(rows, name, code, vehicleType);
            (r.None? <==> forall k :: 0 <= k < |rows| ==> !ManufacturerIs(rows[k], name, code, vehicleType))
            && (r.Some? ==> exists k :: 0 <= k < |rows| && ManufacturerIs(rows[k], name, code, vehicleType)
                                        && rows[k].id == r.value
                                        && forall j :: 0 <= j < k ==> !ManufacturerIs(rows[j], name, code, vehicleType))
  {
    if rows != [] && !ManufacturerIs(rows[0], name, code, vehicleType) {
      FindManufacturerFirst(rows[1..], name, code, vehicleType);
      assert forall k :: 1 <= k < |rows| ==> rows[k] == rows[1..][k - 1];
      var r := FindManufacturer(rows, name, code, vehicleType);
      if r.Some? {
        var k :| 0 <= k < |rows[1..]| && ManufacturerIs(rows[1..][k], name, code, vehicleType) && rows[1..][k].id == r.value
                 && forall j :: 0 <= j < k ==> !ManufacturerIs(rows[1..][j], name, code, vehicleType);
        assert ManufacturerIs(rows[k + 1], name, code, vehicleType) && rows[k + 1].id == r.value;
      }
    } else if rows != [] {
      assert ManufacturerIs(rows[0], name, code, vehicleType);
    }
  }

  predicate ModelIs(row: ModelRow, name: string, code: string, manufacturerId: nat) {
    row.name == name && row.code == code && row.manufacturerId == manufacturerId
  }

  /** The id of the first model row with this name, code and manufacturer. */
  function FindModel(rows: seq<ModelRow>, name: string, code: string, manufacturerId: nat): Option<nat> {
    if rows == [] then None
    else if ModelIs(rows[0], name, code, manufacturerId) then Some(rows[0].id)
    else FindModel(rows[1..], name, code, manufacturerId)
  }

  lemma {:induction false} FindModelFirst(rows: seq<ModelRow>, name: string, code: string, manufacturerId: nat)
    ensures var r := FindModel(rows, name, code, manufacturerId);
            (r.None? <==> forall k :: 0 <= k < |rows| ==> !ModelIs(rows[k], name, code, manufacturerId))
            && (r.Some? ==> exists k :: 0 <= k < |rows| && ModelIs(rows[k], name, code, manufacturerId)
                                        && rows[k].id == r.value
                                        && forall j :: 0 <= j < k ==> !ModelIs(rows[j], name, code, manufacturerId))
  {
    if rows != [] && !ModelIs(rows[0], name, code, manufacturerId) {
      FindModelFirst(rows[1..], name, code, manufacturerId);
      assert forall k :: 1 <= k < |rows| ==> rows[k] == rows[1..][k - 1];
      var r := FindModel(rows, name, code, manufacturerId);
      if r.Some? {
        var k :| 0 <= k < |rows[1..]| && ModelIs(rows[1..][k], name, code, manufacturerId) && rows[1..][k].id == r.value
                 && forall j :: 0 <= j < k ==> !ModelIs(rows[1..][j], name, code, manufacturerId);
        assert ModelIs(rows[k + 1], name, code, manufacturerId) && rows[k + 1].id == r.value;
      }
    } else if rows != [] {
      assert ModelIs(rows[0], name, code, manufacturerId);
    }
  }

  /** The id of the first price row with this key. */
  function FindValue(rows: seq<ValueRow>, key: ValueKey): Option<nat> {
    if rows == [] then None
    else if rows[0].key == key then Some(rows[0].id)
    else FindValue(rows[1..], key)
  }

  lemma {:induction false} FindValueFirst(rows: seq<ValueRow>, key: ValueKey)
    ensures var r := FindValue(rows, key);
            (r.None? <==> forall k :: 0 <= k < |rows| ==> rows[k].key != key)
            && (r.Some? ==> exists k :: 0 <= k < |rows| && rows[k].key == key && rows[k].id == r.value
                                        && forall j :: 0 <= j < k ==> rows[j].key != key)
  {
    if rows != [] && rows[0].key != key {
      FindValueFirst(rows[1..], key);
      assert forall k :: 1 <= k < |rows| ==> rows[k] == rows[1..][k - 1];
      var r := FindValue(rows, key);
      if r.Some? {
        var k :| 0 <= k < |rows[1..]| && rows[1..][k].key == key && rows[1..][k].id == r.value
                 && forall j :: 0 <= j < k ==> rows[1..][j].key != key;
        assert rows[k + 1].key == key && rows[k + 1].id == r.value;
      }
    }
  }

  // ---------------------------------------------------------------------------
  // The tables' invariant

  /** Serial ids, and no two rows of a table with the same lookup key: the
      get-or-create and upsert steps only insert a key they did not find. */
  ghost predicate Consistent(t: Tables) {
    (forall k :: 0 <= k < |t.manufacturers| ==> t.manufacturers[k].id == k + 1)
    && (forall k :: 0 <= k < |t.models| ==> t.models[k].id == k + 1)
    && (forall k :: 0 <= k < |t.values| ==> t.values[k].id == k + 1)
    && (forall j, k :: 0 <= j < k < |t.manufacturers| ==>
          !ManufacturerIs(t.manufacturers[k], t.manufacturers[j].name, t.manufacturers[j].code, t.manufacturers[j].vehicleType))
    && (forall j, k :: 0 <= j < k < |t.models| ==>
          !ModelIs(t.models[k], t.models[j].name, t.models[j].code, t.models[j].manufacturerId))
    && (forall j, k :: 0 <= j < k < |t.values| ==> t.values[j].key != t.values[k].key)
  }

  // ---------------------------------------------------------------------------
  // The steps, as functions of the tables

  /** `get_or_create_manufacturer`: the id of the matching row, or of a new row. */
  function WithManufacturer(t: Tables, name: Value, code: Value, vehicleType: Value): (Tables, nat) {
    match FindManufacturer(t.manufacturers, name, code, vehicleType)
    case Some(id) => (t, id)
    case None =>
      var id := |t.manufacturers| + 1;
      (t.(manufacturers := t.manufacturers + [ManufacturerRow(id, name, code, vehicleType)]), id)
  }

  /** `get_or_create_model` */
  function WithModel(t: Tables, name: string, code: string, manufacturerId: nat): (Tables, nat) {
    match FindModel(t.models, name, code, manufacturerId)
    case Some(id) => (t, id)
    case None =>
      var id := |t.models| + 1;
      (t.(models := t.models + [ModelRow(id, name, code, manufacturerId)]), id)
  }

  /** `UPDATE ... SET fipe_value = %s, write_date = NOW() WHERE id = %s` */
  function WithUpdatedValue(t: Tables, id: nat, fipeValue: real): Tables {
    if 1 <= id <= |t.values| then
      t.(values := t.values[id - 1 := t.values[id - 1].(fipeValue := fipeValue, writes := t.values[id - 1].writes + 1)])
    else t
  }

  /** `INSERT INTO public.fipe_vehicle_model_value ...`, active and never written. */
  function WithInsertedValue(t: Tables, d: ValueDraft): Tables {
    var row := ValueRow(|t.values| + 1, d.key, d.name, d.code, d.manufacturerId, d.referenceMonth,
                        d.fipeValue, d.fuelType, d.vehicleType, true, 0);
    t.(values := t.values + [row])
  }

  // ---------------------------------------------------------------------------
  // Properties

  /** After get-or-create the returned id names a row with exactly that name, code
      and vehicle type; the other tables are untouched, at most one row is added,
      and the tables stay consistent. */
  lemma ManufacturerFoundOrCreated(t: Tables, name: Value, code: Value, vehicleType: Value)
    requires Consistent(t)
    ensures var (t', id) := WithManufacturer(t, name, code, vehicleType);
            Consistent(t') && 1 <= id <= |t'.manufacturers|
            && ManufacturerIs(t'.manufacturers[id - 1], name, code, vehicleType)
            && t'.models == t.models && t'.values == t.values
            && t.manufacturers <= t'.manufacturers && |t'.manufacturers| <= |t.manufacturers| + 1
  {
    FindManufacturerFirst(t.manufacturers, name, code, vehicleType);
  }

  /** Get-or-create is idempotent: asking again returns the same id and changes
      nothing. */
  lemma ManufacturerGetOrCreateIdempotent(t: Tables, name: Value, code: Value, vehicleType: Value)
    requires Consistent(t)
    ensures var (t', id) := WithManufacturer(t, name, code, vehicleType);
            WithManufacturer(t', name, code, vehicleType) == (t', id)
  {
    var (t', id) := WithManufacturer(t, name, code, vehicleType);
    ManufacturerFoundOrCreated(t, name, code, vehicleType);
    FindManufacturerFirst(t'.manufacturers, name, code, vehicleType);
    var r := FindManufacturer(t'.manufacturers, name, code, vehicleType);
    var k :| 0 <= k < |t'.manufacturers| && ManufacturerIs(t'.manufacturers[k], name, code, vehicleType)
             && t'.manufacturers[k].id == r.value;
    assert k == id - 1;
  }

  /** The same for models. */
  lemma ModelFoundOrCreated(t: Tables, name: string, code: string, manufacturerId: nat)
    requires Consistent(t)
    ensures var (t', id) := WithModel(t, name, code, manufacturerId);
            Consistent(t') && 1 <= id <= |t'.models| && ModelIs(t'.models[id - 1], name, code, manufacturerId)
            && t'.manufacturers == t.manufacturers && t'.values == t.values
            && t.models <= t'.models && |t'.models| <= |t.models| + 1
  {
    FindModelFirst(t.models, name, code, manufacturerId);
  }

  lemma ModelGetOrCreateIdempotent(t: Tables, name: string, code: string, manufacturerId: nat)
    requires Consistent(t)
    ensures var (t', id) := WithModel(t, name, code, manufacturerId);
            WithModel(t', name, code, manufacturerId) == (t', id)
  {
    var (t', id) := WithModel(t, name, code, manufacturerId);
    ModelFoundOrCreated(t, name, code, manufacturerId);
    FindModelFirst(t'.models, name, code, manufacturerId);
    var r := FindModel(t'.models, name, code, manufacturerId);
    var k :| 0 <= k < |t'.models| && ModelIs(t'.models[k], name, code, manufacturerId) && t'.models[k].id == r.value;
    assert k == id - 1;
  }

  /** In consistent tables a found price row is the only row with its key. */
  lemma FindValueUnique(t: Tables, key: ValueKey)
    requires Consistent(t)
    requires FindValue(t.values, key).Some?
    ensures var id := FindValue(t.values, key).value;
            1 <= id <= |t.values| && t.values[id - 1].key == key
            && forall k :: 0 <= k < |t.values| && k != id - 1 ==> t.values[k].key != key
  {
    FindValueFirst(t.values, key);
  }

  /** Updating a found row changes its price and its write count and nothing else;
      the tables stay consistent. */
  lemma UpdateChangesOnlyPrice(t: Tables, key: ValueKey, fipeValue: real)
    requires Consistent(t)
    requires FindValue(t.values, key).Some?
    ensures var id := FindValue(t.values, key).value;
            var t' := WithUpdatedValue(t, id, fipeValue);
            1 <= id <= |t.values| && Consistent(t')
            && t'.manufacturers == t.manufacturers && t'.models == t.models && |t'.values| == |t.values|
            && (forall k :: 0 <= k < |t.values| && k != id - 1 ==> t'.values[k] == t.values[k])
            && t'.values[id - 1] == t.values[id - 1].(fipeValue := fipeValue, writes := t.values[id - 1].writes + 1)
  {
    FindValueUnique(t, key);
  }

  /** Inserting a key that was not found adds one active row with a fresh id and
      keeps the tables consistent. */
  lemma InsertKeepsConsistent(t: Tables, d: ValueDraft)
    requires Consistent(t)
    requires FindValue(t.values, d.key).None?
    ensures var t' := WithInsertedValue(t, d);
            Consistent(t') && FindValue(t'.values, d.key) == Some(|t'.values|)
            && t'.values[|t.values|].fipeValue == d.fipeValue && t'.values[|t.values|].active
  {
    var t' := WithInsertedValue(t, d);
    FindValueFirst(t.values, d.key);
    FindValueFirst(t'.values, d.key);
    var r := FindValue(t'.values, d.key);
    var k :| 0 <= k < |t'.values| && t'.values[k].key == d.key && t'.values[k].id == r.value;
  }

  // ---------------------------------------------------------------------------
  // The database the connection writes to

  class Database {
    var manufacturers: seq<ManufacturerRow>
    var models: seq<ModelRow>
    var values: seq<ValueRow>

    function Snapshot(): Tables
      reads this
    {
      Tables(manufacturers, models, values)
    }

    constructor (t: Tables)
      ensures Snapshot() == t
    {
      manufacturers, models, values := t.manufacturers, t.models, t.values;
    }

    /** `get_or_create_manufacturer(conn, manufacturer, manufacturer_code, vehicle_type)` */
    method GetOrCreateManufacturer(name: Value, code: Value, vehicleType: Value) returns (id: nat)
      modifies this
      ensures (Snapshot(), id) == WithManufacturer(old(Snapshot()), name, code, vehicleType)
    {
      var found := FindManufacturer(manufacturers, name, code, vehicleType);
      if found.Some? {
        return found.value;
      }
      id := |manufacturers| + 1;
      manufacturers := manufacturers + [ManufacturerRow(id, name, code, vehicleType)];
    }

    /** `get_or_create_model(conn, model, model_code, manufacturer_id)` */
    method GetOrCreateModel(name: string, code: string, manufacturerId: nat) returns (id: nat)
      modifies this
      ensures (Snapshot(), id) == WithModel(old(Snapshot()), name, code, manufacturerId)
    {
      var found := FindModel(models, name, code, manufacturerId);
      if found.Some? {
        return found.value;
      }
      id := |models| + 1;
      models := models + [ModelRow(id, name, code, manufacturerId)];
    }

    /** The `UPDATE` of a found price row. */
    method UpdateValue(id: nat, fipeValue: real)
      modifies this
      ensures Snapshot() == WithUpdatedValue(old(Snapshot()), id, fipeValue)
    {
      if 1 <= id <= |values| {
        values := values[id - 1 := values[id - 1].(fipeValue := fipeValue, writes := values[id - 1].writes + 1)];
      }
    }

    /** The `INSERT` of a new price row. */
    method InsertValue(d: ValueDraft)
      modifies this
      ensures Snapshot() == WithInsertedValue(old(Snapshot()), d)
    {
      values := values + [ValueRow(|values| + 1, d.key, d.name, d.code, d.manufacturerId, d.referenceMonth,
                                   d.fipeValue, d.fuelType, d.vehicleType, true, 0)];
    }
  }
}

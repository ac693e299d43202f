/** The repository's write path and its entity getters (`repository.js`):
    rows are shallow objects, tables map primary-key values to rows, and the
    sync table is a log of (entity name, entity id) entries. */
module Repository {
  import opened Wrappers

  /** A column value as SQLite and JavaScript see it. */
  datatype Value = Null | Int(i: int) | Str(s: string) | Bool(b: bool)

  /** A row, or an entity's own enumerable fields (`Object.assign({}, entity)`). */
  type Row = map<string, Value>

  /** A table: its rows by primary-key value. */
  type Table = map<Value, Row>

  datatype SyncEntry = SyncEntry(entityName: string, entityId: Value)

  datatype Db = Db(tables: map<string, Table>, syncLog: seq<SyncEntry>)

  /** Which step of `updateEntity` throws, if any: the entity's
      `beforeSaving` hook (before the transaction), the row replacement, or
      the sync entry. */
  datatype Fault = NoFault | HookThrows(message: string) | ReplaceThrows(message: string) | SyncThrows(message: string)

  const OptionsTable := "options"
  const JsonContentField := "jsonContent"
  const IsSyncedField := "isSynced"

  /** JavaScript truthiness of a column value. */
  predicate Truthy(v: Value) {
    match v
    case Null => false
    case Int(i) => i != 0
    case Str(s) => s != ""
    case Bool(b) => b
  }

  /** `row[name]`; a missing field reads as `undefined`, here `Null`. */
  function Field(row: Row, name: string): (v: Value)
    ensures name !in row ==> v == Null
  {
    if name in row then row[name] else Null
  }

  /** The shallow clone written to the database: the entity without `jsonContent`. */
  function Persisted(entity: Row): (clone: Row)
    ensures clone.Keys == entity.Keys - {JsonContentField}
    ensures forall f :: f in clone ==> clone[f] == entity[f]
  {
    map f | f in entity.Keys - {JsonContentField} :: entity[f]
  }

  /** Every table is synced except `options` rows whose `isSynced` is falsy. */
  predicate Synced(tableName: string, entity: Row) {
    tableName != OptionsTable || Truthy(Field(entity, IsSyncedField))
  }

  function TableOf(db: Db, tableName: string): Table {
    if tableName in db.tables then db.tables[tableName] else map[]
  }

  /** `sql.replace(tableName, row)`: insert, or overwrite the row with the same key. */
  function Replace(db: Db, tableName: string, key: Value, row: Row): (r: Db)
    ensures r.syncLog == db.syncLog
    ensures tableName in r.tables && key in r.tables[tableName] && r.tables[tableName][key] == row
  {
    db.(tables := db.tables[tableName := TableOf(db, tableName)[key := row]])
  }

  /** The prepared entity after its `beforeSaving` hook. */
  function Prepared(beforeSaving: Option<Row -> Row>, fields: Row): Row {
    if beforeSaving.Some? then beforeSaving.value(fields) else fields
  }

  /** The body of `sql.transactional` in `updateEntity`, on a prepared entity:
      replace the row, then append the sync entry. */
  function TransactionBody(db: Db, tableName: string, primaryKeyName: string, entity: Row, fault: Fault): Result<Db, string> {
    var clone := Persisted(entity);
    if fault.ReplaceThrows? then Failure(fault.message)
    else
      var written := Replace(db, tableName, Field(clone, primaryKeyName), clone);
      var primaryKey := Field(entity, primaryKeyName);
      if !Synced(tableName, entity) then Success(written)
      else if fault.SyncThrows? then Failure(fault.message)
      else Success(written.(syncLog := written.syncLog + [SyncEntry(tableName, primaryKey)]))
  }

  /** `sql.transactional`: the body's state when it completes, the old state
      when it throws (the error is passed on). */
  function Transactional(db: Db, body: Result<Db, string>): (Db, Result<(), string>) {
    match body
    case Success(after) => (after, Success(()))
    case Failure(e) => (db, Failure(e))
  }

  /** `updateEntity` on the database, once the hook has produced `entity`;
      a hook fault was raised before the transaction and plays no part here. */
  function Save(db: Db, tableName: string, primaryKeyName: string, entity: Row, fault: Fault): (Db, Result<(), string>) {
    Transactional(db, TransactionBody(db, tableName, primaryKeyName, entity, fault))
  }

  /** The write is atomic: it either leaves the database as it was and
      reports the error, or upserts the clone under its key, leaves every
      other row alone, and appends exactly one sync entry when the row is
      synced and none otherwise. */
  lemma SaveSpec(db: Db, tableName: string, primaryKeyName: string, entity: Row, fault: Fault)
    ensures var (after, outcome) := Save(db, tableName, primaryKeyName, entity, fault);
      var clone := Persisted(entity);
      var key := Field(clone, primaryKeyName);
      && (outcome.Failure? <==> fault.ReplaceThrows? || (fault.SyncThrows? && Synced(tableName, entity)))
      && (outcome.Failure? ==> after == db && outcome.error == fault.message)
      && (outcome.Success? ==>
            && TableOf(after, tableName)[key] == clone
            && (forall k :: k != key ==> (k in TableOf(after, tableName) <==> k in TableOf(db, tableName)))
            && (forall k :: k != key && k in TableOf(db, tableName) ==> TableOf(after, tableName)[k] == TableOf(db, tableName)[k])
            && (forall t :: t != tableName ==> TableOf(after, t) == TableOf(db, t))
            && after.syncLog == db.syncLog
                 + (if Synced(tableName, entity) then [SyncEntry(tableName, Field(entity, primaryKeyName))] else []))
  {
  }

  /** `updateEntity` on values, giving the database, the outcome and the
      entity's fields afterwards: the hook runs first, outside the
      transaction; when it throws, nothing is written and the error is
      passed on. */
  function UpdateEntityOn(db: Db, tableName: string, primaryKeyName: string, beforeSaving: Option<Row -> Row>,
                          fields: Row, fault: Fault): (Db, Result<(), string>, Row)
  {
    if beforeSaving.Some? && fault.HookThrows? then (db, Failure(fault.message), fields)
    else
      var entity := Prepared(beforeSaving, fields);
      var (after, outcome) := Save(db, tableName, primaryKeyName, entity, fault);
      (after, outcome, entity)
  }

  /** `updateEntity` fails exactly when the hook, the replacement or the
      sync entry of a synced row throws, and then leaves the database as it
      was; a throwing hook leaves no change on the entity in this model.
      Otherwise the entity holds the hook's result and the database moves as
      `SaveSpec` says for it. */
  lemma UpdateEntitySpec(db: Db, tableName: string, primaryKeyName: string, beforeSaving: Option<Row -> Row>,
                         fields: Row, fault: Fault)
    ensures var (after, outcome, entity) := UpdateEntityOn(db, tableName, primaryKeyName, beforeSaving, fields, fault);
      && (outcome.Failure? <==>
            || (beforeSaving.Some? && fault.HookThrows?)
            || fault.ReplaceThrows?
            || (fault.SyncThrows? && Synced(tableName, Prepared(beforeSaving, fields))))
      && (outcome.Failure? ==> after == db && outcome.error == fault.message)
      && (beforeSaving.Some? && fault.HookThrows? ==> entity == fields)
      && (!(beforeSaving.Some? && fault.HookThrows?) ==>
            && entity == Prepared(beforeSaving, fields)
            && (outcome.Success? ==>
                  && TableOf(after, tableName)[Field(Persisted(entity), primaryKeyName)] == Persisted(entity)
                  && (forall t :: t != tableName ==> TableOf(after, t) == TableOf(db, t))
                  && after.syncLog == db.syncLog
                       + (if Synced(tableName, entity) then [SyncEntry(tableName, Field(entity, primaryKeyName))] else [])))
  {
    if !(beforeSaving.Some? && fault.HookThrows?) {
      SaveSpec(db, tableName, primaryKeyName, Prepared(beforeSaving, fields), fault);
    }
  }

  // ---------------------------------------------------------------------
  // Reading

  /** `getEntities(query)`: the rows the query yields, each passed through
      the entity constructor, in row order. */
  function GetEntities<E>(rows: seq<Row>, construct: Row -> E): (entities: seq<E>)
    ensures |entities| == |rows|
    ensures forall i :: 0 <= i < |rows| ==> entities[i] == construct(rows[i])
  {
    if rows == [] then [] else [construct(rows[0])] + GetEntities(rows[1..], construct)
  }

  /** `getEntity(query)`: `null` exactly when the query yields no row,
      otherwise the first row, constructed. */
  function GetEntity<E>(rows: seq<Row>, construct: Row -> E): (entity: Option<E>)
    ensures entity.None? <==> rows == []
    ensures entity.Some? ==> entity.value == construct(rows[0])
  {
    if rows == [] then None else Some(construct(rows[0]))
  }

  /** The primary-key getters. */
  datatype Getter = NoteGetter | BranchGetter | ImageGetter | AttributeGetter | LabelGetter | RelationGetter | OptionGetter

  function GetterTable(g: Getter): string {
    match g
    case NoteGetter => "notes"
    case BranchGetter => "branches"
    case ImageGetter => "images"
    case AttributeGetter => "attributes"
    case LabelGetter => "labels"
    case RelationGetter => "relations"
    case OptionGetter => OptionsTable
  }

  function GetterKey(g: Getter): string {
    match g
    case NoteGetter => "noteId"
    case BranchGetter => "branchId"
    case ImageGetter => "imageId"
    case AttributeGetter => "attributeId"
    case LabelGetter => "labelId"
    case RelationGetter => "relationId"
    case OptionGetter => "name"
  }

  /** `SELECT * FROM <table> WHERE <primary key> = ?`: SQL `=` never holds
      for NULL, so a null id selects nothing. */
  function SelectByKey(db: Db, tableName: string, id: Value): seq<Row> {
    if id.Null? || id !in TableOf(db, tableName) then [] else [TableOf(db, tableName)[id]]
  }

  /** `getNote(noteId)`, `getBranch(branchId)`, …, `getOption(name)`. */
  function GetByKey<E>(db: Db, g: Getter, id: Value, construct: Row -> E): (entity: Option<E>)
    ensures entity.Some? <==> !id.Null? && id in TableOf(db, GetterTable(g))
    ensures entity.Some? ==> entity.value == construct(TableOf(db, GetterTable(g))[id])
  {
    GetEntity(SelectByKey(db, GetterTable(g), id), construct)
  }

  lemma GetterTablesDistinct(g: Getter, h: Getter)
    requires g != h
    ensures GetterTable(g) != GetterTable(h)
  {
  }

  /** After a committed `updateEntity` through a getter's table and key, the
      getter returns the written clone under the entity's key. */
  lemma ReadYourWrite<E>(db: Db, g: Getter, entity: Row, fault: Fault, construct: Row -> E)
    requires Save(db, GetterTable(g), GetterKey(g), entity, fault).1.Success?
    requires !Field(entity, GetterKey(g)).Null?
    ensures GetByKey(Save(db, GetterTable(g), GetterKey(g), entity, fault).0, g, Field(entity, GetterKey(g)), construct)
         == Some(construct(Persisted(entity)))
  {
    var clone := Persisted(entity);
    assert Field(clone, GetterKey(g)) == Field(entity, GetterKey(g));
    var written := Replace(db, GetterTable(g), Field(clone, GetterKey(g)), clone);
    assert TableOf(Save(db, GetterTable(g), GetterKey(g), entity, fault).0, GetterTable(g)) == TableOf(written, GetterTable(g));
  }

  /** A committed `updateEntity` leaves what every getter reads under every
      other key as it was. */
  lemma WriteLeavesOtherKeys<E>(db: Db, g: Getter, entity: Row, fault: Fault, construct: Row -> E, h: Getter, id: Value)
    requires (h, id) != (g, Field(entity, GetterKey(g)))
    ensures GetByKey(Save(db, GetterTable(g), GetterKey(g), entity, fault).0, h, id, construct) == GetByKey(db, h, id, construct)
  {
    var after := Save(db, GetterTable(g), GetterKey(g), entity, fault).0;
    WriteLeavesOtherRows(db, GetterTable(g), GetterKey(g), entity, fault, GetterTable(h), id);
    SameRowSameRead(db, after, h, id, construct);
  }

  /** What a getter reads depends only on its table's row under the id. */
  lemma SameRowSameRead<E>(db: Db, after: Db, h: Getter, id: Value, construct: Row -> E)
    requires id in TableOf(after, GetterTable(h)) <==> id in TableOf(db, GetterTable(h))
    requires id in TableOf(db, GetterTable(h)) ==> TableOf(after, GetterTable(h))[id] == TableOf(db, GetterTable(h))[id]
    ensures GetByKey(after, h, id, construct) == GetByKey(db, h, id, construct)
  {
  }

  /** `updateEntity` on one table and key leaves the row of every other
      table or key as it was. */
  lemma WriteLeavesOtherRows(db: Db, tableName: string, primaryKeyName: string, entity: Row, fault: Fault, t: string, id: Value)
    requires primaryKeyName != JsonContentField
    requires (t, id) != (tableName, Field(entity, primaryKeyName))
    ensures var after := Save(db, tableName, primaryKeyName, entity, fault).0;
      && (id in TableOf(after, t) <==> id in TableOf(db, t))
      && (id in TableOf(db, t) ==> TableOf(after, t)[id] == TableOf(db, t)[id])
  {
    SaveSpec(db, tableName, primaryKeyName, entity, fault);
    var clone := Persisted(entity);
    assert Field(clone, primaryKeyName) == Field(entity, primaryKeyName);
  }

  // ---------------------------------------------------------------------
  // Many writes

  /** One `updateEntity` call: the entity's table, key name, hook and fields, and its fault. */
  datatype Update = Update(tableName: string, primaryKeyName: string, beforeSaving: Option<Row -> Row>, fields: Row, fault: Fault)

  /** One `updateEntity` call on the database. */
  function SaveUpdate(db: Db, u: Update): (Db, Result<(), string>) {
    var (after, outcome, _) := UpdateEntityOn(db, u.tableName, u.primaryKeyName, u.beforeSaving, u.fields, u.fault);
    (after, outcome)
  }

  /** Successive `updateEntity` calls; a failed one leaves the database as it was. */
  function SaveAll(db: Db, updates: seq<Update>): Db
    decreases |updates|
  {
    if updates == [] then db else SaveAll(SaveUpdate(db, updates[0]).0, updates[1..])
  }

  /** The sync entry one update should leave: one when it commits a synced
      row, none otherwise. */
  function EntryOf(u: Update): seq<SyncEntry> {
    var entity := Prepared(u.beforeSaving, u.fields);
    var committed := !(u.beforeSaving.Some? && u.fault.HookThrows?) && !u.fault.ReplaceThrows?
                     && !(u.fault.SyncThrows? && Synced(u.tableName, entity));
    if committed && Synced(u.tableName, entity) then [SyncEntry(u.tableName, Field(entity, u.primaryKeyName))] else []
  }

  /** The entries of a sequence of updates, in call order. */
  function SyncEntries(updates: seq<Update>): seq<SyncEntry>
    decreases |updates|
  {
    if updates == [] then [] else EntryOf(updates[0]) + SyncEntries(updates[1..])
  }

  lemma SaveUpdateSyncLog(db: Db, u: Update)
    ensures SaveUpdate(db, u).0.syncLog == db.syncLog + EntryOf(u)
  {
    UpdateEntitySpec(db, u.tableName, u.primaryKeyName, u.beforeSaving, u.fields, u.fault);
  }

  /** The sync table records exactly the committed writes of synced rows, in order. */
  lemma {:induction false} SaveAllSyncLog(db: Db, updates: seq<Update>)
    ensures SaveAll(db, updates).syncLog == db.syncLog + SyncEntries(updates)
    decreases |updates|
  {
    if updates != [] {
      var next := SaveUpdate(db, updates[0]).0;
      SaveUpdateSyncLog(db, updates[0]);
      SaveAllSyncLog(next, updates[1..]);
      assert db.syncLog + EntryOf(updates[0]) + SyncEntries(updates[1..])
          == db.syncLog + (EntryOf(updates[0]) + SyncEntries(updates[1..]));
    }
  }

  // ---------------------------------------------------------------------
  // The mutable repository

  /** An entity object: its constructor's table and primary-key name, its
      optional `beforeSaving` hook (as the change it makes to the fields)
      and its fields. */
  class Entity {
    const tableName: string
    const primaryKeyName: string
    const beforeSaving: Option<Row -> Row>
    var fields: Row

    constructor (tableName: string, primaryKeyName: string, beforeSaving: Option<Row -> Row>, fields: Row)
      ensures this.tableName == tableName && this.primaryKeyName == primaryKeyName
      ensures this.beforeSaving == beforeSaving && this.fields == fields
    {
      this.tableName := tableName;
      this.primaryKeyName := primaryKeyName;
      this.beforeSaving := beforeSaving;
      this.fields := fields;
    }
  }

  /** The database tables and the sync table. */
  class Repo {
    var tables: map<string, Table>
    var syncLog: seq<SyncEntry>

    function State(): Db
      reads this
    {
      Db(tables, syncLog)
    }

    constructor (db: Db)
      ensures State() == db
    {
      tables, syncLog := db.tables, db.syncLog;
    }

    /** `updateEntity(entity)`: the hook runs first and its changes stay on
        the entity; the entity keeps its `jsonContent`; the database, the
        outcome and the entity move as `UpdateEntityOn` says. */
    method UpdateEntity(entity: Entity, fault: Fault) returns (outcome: Result<(), string>)
      modifies this, entity
      ensures (State(), outcome, entity.fields)
           == UpdateEntityOn(old(State()), entity.tableName, entity.primaryKeyName, entity.beforeSaving, old(entity.fields), fault)
    {
      if entity.beforeSaving.Some? {
        if fault.HookThrows? {
          return Failure(fault.message);
        }
        entity.fields := entity.beforeSaving.value(entity.fields);
      }
      var clone := Persisted(entity.fields);
      var savedTables, savedLog := tables, syncLog;
      if fault.ReplaceThrows? {
        return Failure(fault.message);
      }
      var key := Field(clone, entity.primaryKeyName);
      tables := tables[entity.tableName := TableOf(State(), entity.tableName)[key := clone]];
      var primaryKey := Field(entity.fields, entity.primaryKeyName);
      if entity.tableName != OptionsTable || Truthy(Field(entity.fields, IsSyncedField)) {
        if fault.SyncThrows? {
          tables, syncLog := savedTables, savedLog;
          return Failure(fault.message);
        }
        syncLog := syncLog + [SyncEntry(entity.tableName, primaryKey)];
      }
      outcome := Success(());
    }
  }
}

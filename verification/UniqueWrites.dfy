/** Direct writes (`write.rs`), which look UNIQUE up before they insert or update,
    and rows found by their ids. */
module UniqueWrites {
  import opened Values

  /** The id an insert's check passes for its own row, so as to spare no stored
      row. A stored row can have it all the same. */
  const NO_ROW: int := -0x8000_0000_0000_0000

  /** The unique indexes beside the primary key, each by its columns (None: a
      name the schema does not resolve), and what a table checks of a row by
      itself: its types, its NOT NULLs. */
  datatype Schema = Schema(width: nat, pk: Option<nat>, indexes: seq<Option<seq<nat>>>, admits: Row -> bool)

  predicate InWidth(columns: seq<nat>, width: nat) {
    forall i :: 0 <= i < |columns| ==> columns[i] < width
  }

  datatype Store = Store(rows: map<int, Row>, nextId: int)

  ghost predicate ValidSchema(sch: Schema) {
    && (sch.pk.Some? ==> sch.pk.value < sch.width)
    && (forall i :: 0 <= i < |sch.indexes| && sch.indexes[i].Some? ==>
                      sch.indexes[i].value != [] && InWidth(sch.indexes[i].value, sch.width))
  }

  /** A row is stored under its INTEGER primary key, or without one under an id
      handed out from 1 up. */
  ghost predicate ValidStore(sch: Schema, s: Store) {
    && s.nextId >= 1
    && (forall id :: id in s.rows ==> |s.rows[id]| == sch.width && sch.admits(s.rows[id]))
    && (sch.pk.Some? ==> forall id :: id in s.rows ==> Get(s.rows[id], sch.pk.value) == Integer(id))
    && (sch.pk.None? ==> forall id :: id in s.rows ==> 1 <= id < s.nextId)
  }

  // ------------------------------------------------------------- uniqueness

  function KeyOf(row: Row, columns: seq<nat>): seq<Value> {
    seq(|columns|, i requires 0 <= i < |columns| => Get(row, columns[i]))
  }

  /** NULLs never collide. */
  predicate Collides(a: Row, b: Row, columns: seq<nat>) {
    Null !in KeyOf(b, columns) && KeyOf(a, columns) == KeyOf(b, columns)
  }

  ghost predicate Unique(sch: Schema, rows: map<int, Row>) {
    forall i, a, b :: 0 <= i < |sch.indexes| && sch.indexes[i].Some? && a in rows && b in rows && a != b ==>
                        !Collides(rows[a], rows[b], sch.indexes[i].value)
  }

  predicate Touches(columns: seq<nat>, changed: seq<nat>) {
    exists i :: 0 <= i < |columns| && columns[i] in changed
  }

  /** No row but `rowId` holds the row's key in the index. */
  ghost predicate IndexAccepts(rows: map<int, Row>, rowId: int, row: Row, columns: seq<nat>) {
    forall id :: id in rows && id != rowId ==> !Collides(rows[id], row, columns)
  }

  /** check_unique: only the indexes over a changed column are looked up. */
  ghost predicate CheckAccepts(sch: Schema, rows: map<int, Row>, rowId: int, row: Row, changed: seq<nat>) {
    forall i :: 0 <= i < |sch.indexes| && sch.indexes[i].Some? && Touches(sch.indexes[i].value, changed) ==>
                  IndexAccepts(rows, rowId, row, sch.indexes[i].value)
  }

  function AllColumns(n: nat): (r: seq<nat>)
    ensures |r| == n && forall i :: 0 <= i < n ==> r[i] == i
  {
    seq(n, i requires 0 <= i < n => i)
  }

  lemma {:induction false} AllAreTouched(sch: Schema, i: nat)
    requires ValidSchema(sch) && i < |sch.indexes| && sch.indexes[i].Some?
    ensures Touches(sch.indexes[i].value, AllColumns(sch.width))
  {
    var columns := sch.indexes[i].value;
    assert columns[0] in columns && AllColumns(sch.width)[columns[0]] == columns[0];
  }

  /** An accepted new row keeps UNIQUE, unless the table has the row NO_ROW. */
  lemma {:induction false} InsertKeepsUnique(sch: Schema, rows: map<int, Row>, id: int, row: Row)
    requires ValidSchema(sch) && Unique(sch, rows) && id !in rows && NO_ROW !in rows
    requires CheckAccepts(sch, rows, NO_ROW, row, AllColumns(sch.width))
    ensures Unique(sch, rows[id := row])
  {
    var all := rows[id := row];
    forall i, a, b | 0 <= i < |sch.indexes| && sch.indexes[i].Some? && a in all && b in all && a != b
      ensures !Collides(all[a], all[b], sch.indexes[i].value)
    {
      AllAreTouched(sch, i);
      assert IndexAccepts(rows, NO_ROW, row, sch.indexes[i].value);
    }
  }

  /** The rows no index key of which can collide. */
  ghost predicate NoKeys(sch: Schema, row: Row) {
    forall i :: 0 <= i < |sch.indexes| && sch.indexes[i].Some? ==> Null in KeyOf(row, sch.indexes[i].value)
  }

  ghost predicate NoConflict(sch: Schema, rows: map<int, Row>, row: Row) {
    forall i, id :: 0 <= i < |sch.indexes| && sch.indexes[i].Some? && id in rows ==>
                      !Collides(rows[id], row, sch.indexes[i].value)
  }

  /** The check before an insert is exact on a table if and only if no row is
      NO_ROW, an id a BIGINT primary key can hold, or that row has no key: else
      it lets a copy of that row's keys through. */
  lemma {:induction false} InsertCheckIsExact(sch: Schema, rows: map<int, Row>)
    requires ValidSchema(sch) && Unique(sch, rows)
    ensures (forall row :: CheckAccepts(sch, rows, NO_ROW, row, AllColumns(sch.width)) <==> NoConflict(sch, rows, row))
            <==> NO_ROW !in rows || NoKeys(sch, rows[NO_ROW])
  {
    forall i: nat | i < |sch.indexes| && sch.indexes[i].Some? {
      AllAreTouched(sch, i);
    }
    if NO_ROW in rows && !NoKeys(sch, rows[NO_ROW]) {
      var row := rows[NO_ROW];
      assert CheckAccepts(sch, rows, NO_ROW, row, AllColumns(sch.width));
      var i :| 0 <= i < |sch.indexes| && sch.indexes[i].Some? && Null !in KeyOf(row, sch.indexes[i].value);
      assert Collides(rows[NO_ROW], row, sch.indexes[i].value);
    } else {
      forall row ensures CheckAccepts(sch, rows, NO_ROW, row, AllColumns(sch.width)) <==> NoConflict(sch, rows, row) {
        NoConflictIsChecked(sch, rows, row);
      }
    }
  }

  lemma {:induction false} NoConflictIsChecked(sch: Schema, rows: map<int, Row>, row: Row)
    requires ValidSchema(sch) && (NO_ROW in rows ==> NoKeys(sch, rows[NO_ROW]))
    ensures CheckAccepts(sch, rows, NO_ROW, row, AllColumns(sch.width)) <==> NoConflict(sch, rows, row)
  {
    if CheckAccepts(sch, rows, NO_ROW, row, AllColumns(sch.width)) {
      forall i, id | 0 <= i < |sch.indexes| && sch.indexes[i].Some? && id in rows
        ensures !Collides(rows[id], row, sch.indexes[i].value)
      {
        AllAreTouched(sch, i);
        assert IndexAccepts(rows, NO_ROW, row, sch.indexes[i].value);
      }
    }
  }

  // ------------------------------------------------------------- updates

  /** Sets the columns one after another. */
  function SetColumns(row: Row, columns: seq<nat>, values: seq<Value>): (r: Row)
    requires |columns| == |values| && InWidth(columns, |row|)
    ensures |r| == |row|
    ensures forall c :: 0 <= c < |row| && c !in columns ==> r[c] == row[c]
    decreases |columns|
  {
    if columns == [] then row
    else
      SetColumns(row[columns[0] := values[0]], columns[1..], values[1..])
  }

  /** An index over none of the changed columns keeps the row's key. */
  lemma {:induction false} UntouchedKey(row: Row, columns: seq<nat>, values: seq<Value>, index: seq<nat>)
    requires |columns| == |values| && InWidth(columns, |row|)
    requires InWidth(index, |row|) && !Touches(index, columns)
    ensures KeyOf(SetColumns(row, columns, values), index) == KeyOf(row, index)
  {
    forall i | 0 <= i < |index|
      ensures Get(SetColumns(row, columns, values), index[i]) == Get(row, index[i])
    {
      assert index[i] in index;
    }
  }

  /** An accepted update keeps UNIQUE, though only the indexes it touches were
      looked up; the row may move to another id. */
  lemma {:induction false} UpdateKeepsUnique(sch: Schema, rows: map<int, Row>, id: int, newId: int, columns: seq<nat>, values: seq<Value>)
    requires ValidSchema(sch) && Unique(sch, rows) && id in rows && |rows[id]| == sch.width
    requires |columns| == |values| && InWidth(columns, sch.width)
    requires newId == id || newId !in rows
    requires CheckAccepts(sch, rows, id, SetColumns(rows[id], columns, values), columns)
    ensures Unique(sch, (rows - {id})[newId := SetColumns(rows[id], columns, values)])
  {
    var row := SetColumns(rows[id], columns, values);
    var all := (rows - {id})[newId := row];
    forall i, a, b | 0 <= i < |sch.indexes| && sch.indexes[i].Some? && a in all && b in all && a != b
      ensures !Collides(all[a], all[b], sch.indexes[i].value)
    {
      var index := sch.indexes[i].value;
      if Touches(index, columns) {
        assert IndexAccepts(rows, id, row, index);
      } else {
        UntouchedKey(rows[id], columns, values, index);
        assert a != newId ==> a in rows && a != id;
        assert b != newId ==> b in rows && b != id;
        assert a == newId ==> !Collides(rows[id], rows[b], index);
        assert b == newId ==> !Collides(rows[a], rows[id], index);
      }
    }
  }

  // ------------------------------------------------------------- batches

  /** The rows of a batch hold distinct keys, and none the table's: by one scan of
      a single-column index, and by check_unique of each row for a composite
      one. */
  ghost predicate BatchIndexAccepts(sch: Schema, rows: map<int, Row>, batch: seq<Row>, columns: seq<nat>) {
    && (forall j, k :: 0 <= j < k < |batch| ==> !Collides(batch[j], batch[k], columns))
    && ((exists k :: 0 <= k < |batch| && Null !in KeyOf(batch[k], columns)) ==>
          if |columns| == 1
          then forall k, id :: 0 <= k < |batch| && id in rows ==> !Collides(rows[id], batch[k], columns)
          else forall k :: 0 <= k < |batch| ==> CheckAccepts(sch, rows, NO_ROW, batch[k], columns))
  }

  ghost predicate BatchAccepts(sch: Schema, rows: map<int, Row>, batch: seq<Row>) {
    forall i :: 0 <= i < |sch.indexes| && sch.indexes[i].Some? ==>
                  BatchIndexAccepts(sch, rows, batch, sch.indexes[i].value)
  }

  /** The table with the first k rows of a batch, under the ids they get. */
  function Grown(rows: map<int, Row>, ids: seq<int>, batch: seq<Row>, k: nat): map<int, Row>
    requires |ids| == |batch| && k <= |batch|
  {
    if k == 0 then rows else Grown(rows, ids, batch, k - 1)[ids[k - 1] := batch[k - 1]]
  }

  /** Row by row, each checked against the table grown so far. */
  ghost predicate OneByOneAccepts(sch: Schema, rows: map<int, Row>, ids: seq<int>, batch: seq<Row>)
    requires |ids| == |batch|
  {
    forall k :: 0 <= k < |batch| ==>
                  CheckAccepts(sch, Grown(rows, ids, batch, k), NO_ROW, batch[k], AllColumns(sch.width))
  }

  ghost predicate FreshIds(rows: map<int, Row>, ids: seq<int>) {
    (forall j, k :: 0 <= j < k < |ids| ==> ids[j] != ids[k]) && (forall k :: 0 <= k < |ids| ==> ids[k] !in rows)
  }

  lemma {:induction false} GrownHolds(rows: map<int, Row>, ids: seq<int>, batch: seq<Row>, k: nat)
    requires |ids| == |batch| && k <= |batch| && FreshIds(rows, ids)
    ensures forall id :: id in Grown(rows, ids, batch, k) <==> id in rows || id in ids[..k]
    ensures forall id :: id in rows ==> Grown(rows, ids, batch, k)[id] == rows[id]
    ensures forall j :: 0 <= j < k ==> Grown(rows, ids, batch, k)[ids[j]] == batch[j]
  {
    if k > 0 {
      GrownHolds(rows, ids, batch, k - 1);
      assert ids[..k] == ids[..k - 1] + [ids[k - 1]];
    }
  }

  /** What both see of a batch: no key meets another, of the batch or of the
      table, unless the other row is NO_ROW. */
  ghost predicate SeenFits(sch: Schema, rows: map<int, Row>, ids: seq<int>, batch: seq<Row>)
    requires |ids| == |batch|
  {
    forall i :: 0 <= i < |sch.indexes| && sch.indexes[i].Some? ==>
                  SeenFitsIndex(rows, ids, batch, sch.indexes[i].value)
  }

  ghost predicate SeenFitsIndex(rows: map<int, Row>, ids: seq<int>, batch: seq<Row>, columns: seq<nat>)
    requires |ids| == |batch|
  {
    && (forall j, k :: 0 <= j < k < |batch| && ids[j] != NO_ROW ==> !Collides(batch[j], batch[k], columns))
    && (forall k, id :: 0 <= k < |batch| && id in rows && id != NO_ROW ==> !Collides(rows[id], batch[k], columns))
  }

  /** What only the batch's check sees: a key of NO_ROW's in a single-column
      index, or of a row the batch itself puts under NO_ROW. */
  ghost predicate Hidden(sch: Schema, rows: map<int, Row>, ids: seq<int>, batch: seq<Row>)
    requires |ids| == |batch|
  {
    exists i, k :: 0 <= i < |sch.indexes| && sch.indexes[i].Some? && 0 <= k < |batch| &&
                   HiddenKey(rows, ids, batch, sch.indexes[i].value, k)
  }

  ghost predicate HiddenKey(rows: map<int, Row>, ids: seq<int>, batch: seq<Row>, columns: seq<nat>, k: nat)
    requires |ids| == |batch| && k < |batch|
  {
    || (|columns| == 1 && NO_ROW in rows && Collides(rows[NO_ROW], batch[k], columns))
    || (exists j :: 0 <= j < k && ids[j] == NO_ROW && Collides(batch[j], batch[k], columns))
  }

  lemma {:induction false} BatchCheckMeans(sch: Schema, rows: map<int, Row>, ids: seq<int>, batch: seq<Row>)
    requires ValidSchema(sch) && |ids| == |batch|
    ensures BatchAccepts(sch, rows, batch) <==> SeenFits(sch, rows, ids, batch) && !Hidden(sch, rows, ids, batch)
  {
    if BatchAccepts(sch, rows, batch) {
      forall i | 0 <= i < |sch.indexes| && sch.indexes[i].Some?
        ensures SeenFitsIndex(rows, ids, batch, sch.indexes[i].value)
        ensures forall k :: 0 <= k < |batch| ==> !HiddenKey(rows, ids, batch, sch.indexes[i].value, k)
      {
        BatchIndexFits(sch, rows, batch, i);
      }
    }
    if SeenFits(sch, rows, ids, batch) && !Hidden(sch, rows, ids, batch) {
      forall i | 0 <= i < |sch.indexes| && sch.indexes[i].Some?
        ensures BatchIndexAccepts(sch, rows, batch, sch.indexes[i].value)
      {
        SeenIndexAccepts(sch, rows, ids, batch, i);
      }
    }
  }

  lemma {:induction false} SeenIndexAccepts(sch: Schema, rows: map<int, Row>, ids: seq<int>, batch: seq<Row>, i: nat)
    requires |ids| == |batch| && i < |sch.indexes| && sch.indexes[i].Some?
    requires SeenFits(sch, rows, ids, batch) && !Hidden(sch, rows, ids, batch)
    ensures BatchIndexAccepts(sch, rows, batch, sch.indexes[i].value)
  {
    var columns := sch.indexes[i].value;
    assert SeenFitsIndex(rows, ids, batch, columns);
    forall k: nat | k < |batch|
      ensures forall j :: 0 <= j < k ==> !Collides(batch[j], batch[k], columns)
      ensures |columns| == 1 && NO_ROW in rows ==> !Collides(rows[NO_ROW], batch[k], columns)
      ensures CheckAccepts(sch, rows, NO_ROW, batch[k], columns)
    {
      assert !HiddenKey(rows, ids, batch, columns, k);
      forall j | 0 <= j < |sch.indexes| && sch.indexes[j].Some?
        ensures IndexAccepts(rows, NO_ROW, batch[k], sch.indexes[j].value)
      {
        assert SeenFitsIndex(rows, ids, batch, sch.indexes[j].value);
      }
    }
  }

  /** What the batch's check says of one index: everything in it but, for a
      composite one, the row NO_ROW. */
  lemma {:induction false} BatchIndexFits(sch: Schema, rows: map<int, Row>, batch: seq<Row>, i: nat)
    requires ValidSchema(sch) && i < |sch.indexes| && sch.indexes[i].Some?
    requires BatchIndexAccepts(sch, rows, batch, sch.indexes[i].value)
    ensures var columns := sch.indexes[i].value;
            && (forall j, k :: 0 <= j < k < |batch| ==> !Collides(batch[j], batch[k], columns))
            && (forall k, id :: 0 <= k < |batch| && id in rows && (id != NO_ROW || |columns| == 1) ==>
                                  !Collides(rows[id], batch[k], columns))
  {
    var columns := sch.indexes[i].value;
    assert Touches(columns, columns) by { assert columns[0] in columns; }
    forall k, id | 0 <= k < |batch| && id in rows && (id != NO_ROW || |columns| == 1)
      ensures !Collides(rows[id], batch[k], columns)
    {
      if Null !in KeyOf(batch[k], columns) && |columns| != 1 {
        assert CheckAccepts(sch, rows, NO_ROW, batch[k], columns);
        assert IndexAccepts(rows, NO_ROW, batch[k], columns);
      }
    }
  }

  lemma {:induction false} OneByOneMeans(sch: Schema, rows: map<int, Row>, ids: seq<int>, batch: seq<Row>)
    requires ValidSchema(sch) && |ids| == |batch| && FreshIds(rows, ids)
    ensures OneByOneAccepts(sch, rows, ids, batch) <==> SeenFits(sch, rows, ids, batch)
  {
    forall i: nat | i < |sch.indexes| && sch.indexes[i].Some? {
      AllAreTouched(sch, i);
    }
    if SeenFits(sch, rows, ids, batch) {
      forall k, i | 0 <= k < |batch| && 0 <= i < |sch.indexes| && sch.indexes[i].Some?
        ensures IndexAccepts(Grown(rows, ids, batch, k), NO_ROW, batch[k], sch.indexes[i].value)
      {
        assert SeenFitsIndex(rows, ids, batch, sch.indexes[i].value);
        GrownAccepts(rows, ids, batch, k, sch.indexes[i].value);
      }
    }
    if OneByOneAccepts(sch, rows, ids, batch) {
      forall i | 0 <= i < |sch.indexes| && sch.indexes[i].Some?
        ensures SeenFitsIndex(rows, ids, batch, sch.indexes[i].value)
      {
        forall k | 0 <= k < |batch|
          ensures IndexAccepts(Grown(rows, ids, batch, k), NO_ROW, batch[k], sch.indexes[i].value)
        {
          assert CheckAccepts(sch, Grown(rows, ids, batch, k), NO_ROW, batch[k], AllColumns(sch.width));
        }
        GrownFits(rows, ids, batch, sch.indexes[i].value);
      }
    }
  }

  lemma {:induction false} GrownAccepts(rows: map<int, Row>, ids: seq<int>, batch: seq<Row>, k: nat, columns: seq<nat>)
    requires |ids| == |batch| && FreshIds(rows, ids) && k < |batch| && SeenFitsIndex(rows, ids, batch, columns)
    ensures IndexAccepts(Grown(rows, ids, batch, k), NO_ROW, batch[k], columns)
  {
    GrownHolds(rows, ids, batch, k);
    var grown := Grown(rows, ids, batch, k);
    forall id | id in grown && id != NO_ROW ensures !Collides(grown[id], batch[k], columns) {
      if id !in rows {
        var j :| 0 <= j < k && ids[j] == id;
        assert grown[ids[j]] == batch[j];
      }
    }
  }

  lemma {:induction false} GrownFits(rows: map<int, Row>, ids: seq<int>, batch: seq<Row>, columns: seq<nat>)
    requires |ids| == |batch| && FreshIds(rows, ids)
    requires forall k :: 0 <= k < |batch| ==> IndexAccepts(Grown(rows, ids, batch, k), NO_ROW, batch[k], columns)
    ensures SeenFitsIndex(rows, ids, batch, columns)
  {
    forall j, k | 0 <= j < k < |batch| && ids[j] != NO_ROW ensures !Collides(batch[j], batch[k], columns) {
      GrownHolds(rows, ids, batch, k);
      assert ids[..k][j] == ids[j] && ids[j] in ids;
    }
    forall k, id | 0 <= k < |batch| && id in rows && id != NO_ROW ensures !Collides(rows[id], batch[k], columns) {
      GrownHolds(rows, ids, batch, k);
    }
  }

  /** The batch's check accepts exactly the batches whose rows would be accepted
      one by one, but for keys hidden from the single-row check under NO_ROW. */
  lemma {:induction false} BatchIsOneByOne(sch: Schema, rows: map<int, Row>, ids: seq<int>, batch: seq<Row>)
    requires ValidSchema(sch) && |ids| == |batch| && FreshIds(rows, ids)
    ensures BatchAccepts(sch, rows, batch) <==>
            OneByOneAccepts(sch, rows, ids, batch) && !Hidden(sch, rows, ids, batch)
    ensures NO_ROW !in rows && NO_ROW !in ids ==> !Hidden(sch, rows, ids, batch)
  {
    BatchCheckMeans(sch, rows, ids, batch);
    OneByOneMeans(sch, rows, ids, batch);
    if NO_ROW !in rows && NO_ROW !in ids {
      forall i, k | 0 <= i < |sch.indexes| && sch.indexes[i].Some? && 0 <= k < |batch|
        ensures !HiddenKey(rows, ids, batch, sch.indexes[i].value, k)
      {
        assert forall j :: 0 <= j < k ==> ids[j] in ids;
      }
    }
  }

  // ------------------------------------------------------------- writes

  function InsertOne(sch: Schema, s: Store, row: Row): Option<Store> {
    if |row| != sch.width || !sch.admits(row) then None
    else if sch.pk.None? then Some(Store(s.rows[s.nextId := row], s.nextId + 1))
    else
      match Get(row, sch.pk.value)
      case Integer(id) => if id in s.rows then None else Some(s.(rows := s.rows[id := row]))
      case _ => None
  }

  /** Row after row, up to the first the table refuses. */
  function InsertAll(sch: Schema, s: Store, batch: seq<Row>): (Store, bool)
    decreases |batch|
  {
    if batch == [] then (s, true)
    else
      var one := InsertOne(sch, s, batch[0]);
      if one.None? then (s, false) else InsertAll(sch, one.value, batch[1..])
  }

  /** The check before an insert. */
  ghost predicate InsertPasses(sch: Schema, rows: map<int, Row>, batch: seq<Row>) {
    if sch.indexes == [] then true
    else if |batch| > 1 then BatchAccepts(sch, rows, batch)
    else batch != [] && CheckAccepts(sch, rows, NO_ROW, batch[0], AllColumns(sch.width))
  }

  /** `insert`: what the table holds after, and whether every row went in. */
  ghost function InsertRows(sch: Schema, s: Store, batch: seq<Row>): (Store, bool) {
    if InsertPasses(sch, s.rows, batch) then InsertAll(sch, s, batch) else (s, false)
  }

  ghost predicate ValidSet(sch: Schema, columns: seq<nat>, values: seq<Value>) {
    |columns| == |values| && InWidth(columns, sch.width)
  }

  /** `update`: the count of rows set, None for an error. A changed primary key
      moves the row to its new id. */
  ghost function UpdateRow(sch: Schema, s: Store, id: int, columns: seq<nat>, values: seq<Value>): (Store, Option<nat>)
    requires ValidStore(sch, s)
  {
    if !ValidSet(sch, columns, values) then (s, None)
    else if id !in s.rows then (s, Some(0))
    else
      var row := SetColumns(s.rows[id], columns, values);
      if sch.indexes != [] && !CheckAccepts(sch, s.rows, id, row, columns) then (s, None)
      else if sch.pk.Some? && sch.pk.value in columns then
        var moved := InsertOne(sch, s.(rows := s.rows - {id}), row);
        if moved.Some? then (moved.value, Some(1)) else (s, None)
      else if sch.admits(row) then (s.(rows := s.rows[id := row]), Some(1))
      else (s, None)
  }

  function DeleteRow(s: Store, id: int): (Store, nat) {
    if id in s.rows then (s.(rows := s.rows - {id}), 1) else (s, 0)
  }

  datatype Write =
    | Insert(batch: seq<Row>)
    | Update(id: int, columns: seq<nat>, values: seq<Value>)
    | Delete(id: int)

  ghost function Written(sch: Schema, s: Store, w: Write): Store
    requires ValidStore(sch, s)
  {
    match w
    case Insert(batch) => InsertRows(sch, s, batch).0
    case Update(id, columns, values) => UpdateRow(sch, s, id, columns, values).0
    case Delete(id) => DeleteRow(s, id).0
  }

  // ---------------------------------------------------------- what inserts keep

  lemma {:induction false} InsertOneKeeps(sch: Schema, s: Store, row: Row)
    requires ValidStore(sch, s) && InsertOne(sch, s, row).Some?
    ensures var t := InsertOne(sch, s, row).value;
            ValidStore(sch, t) && exists id :: id !in s.rows && t.rows == s.rows[id := row]
  {
    var t := InsertOne(sch, s, row).value;
    var id := if sch.pk.None? then s.nextId else Get(row, sch.pk.value).i;
    assert id !in s.rows && t.rows == s.rows[id := row];
  }

  /** How many rows of a batch go in. */
  function TakenOf(sch: Schema, s: Store, batch: seq<Row>): (n: nat)
    ensures n <= |batch|
    decreases |batch|
  {
    if batch == [] || InsertOne(sch, s, batch[0]).None? then 0
    else 1 + TakenOf(sch, InsertOne(sch, s, batch[0]).value, batch[1..])
  }

  /** No key of the rows meets another, of theirs or of the table. */
  ghost predicate Fit(sch: Schema, rows: map<int, Row>, more: seq<Row>) {
    && (forall k :: 0 <= k < |more| ==> NoConflict(sch, rows, more[k]))
    && (forall j, k :: 0 <= j < k < |more| ==> Apart(sch, more[j], more[k]))
  }

  ghost predicate Apart(sch: Schema, a: Row, b: Row) {
    forall i :: 0 <= i < |sch.indexes| && sch.indexes[i].Some? ==> !Collides(a, b, sch.indexes[i].value)
  }

  lemma {:induction false} OneMoreUnique(sch: Schema, rows: map<int, Row>, id: int, row: Row)
    requires Unique(sch, rows) && id !in rows
    ensures Unique(sch, rows[id := row]) <==> NoConflict(sch, rows, row)
  {
    var all := rows[id := row];
    if Unique(sch, all) {
      forall i, other | 0 <= i < |sch.indexes| && sch.indexes[i].Some? && other in rows
        ensures !Collides(rows[other], row, sch.indexes[i].value)
      {
        assert all[other] == rows[other] && all[id] == row;
      }
    }
  }

  lemma {:induction false} FitNext(sch: Schema, rows: map<int, Row>, id: int, more: seq<Row>)
    requires more != [] && id !in rows
    ensures Fit(sch, rows, more) <==>
            NoConflict(sch, rows, more[0]) && Fit(sch, rows[id := more[0]], more[1..])
  {
    var all, rest := rows[id := more[0]], more[1..];
    assert forall k :: 0 <= k < |rest| ==> rest[k] == more[k + 1];
    forall k | 0 <= k < |rest|
      ensures NoConflict(sch, all, rest[k]) <==> NoConflict(sch, rows, rest[k]) && Apart(sch, more[0], rest[k])
    {
      OneMoreConflict(sch, rows, id, more[0], rest[k]);
    }
    if NoConflict(sch, rows, more[0]) && Fit(sch, all, rest) {
      forall k | 0 <= k < |more| ensures NoConflict(sch, rows, more[k]) {
        assert k > 0 ==> more[k] == rest[k - 1];
      }
      forall j, k | 0 <= j < k < |more| ensures Apart(sch, more[j], more[k]) {
        assert more[k] == rest[k - 1] && (j > 0 ==> more[j] == rest[j - 1]);
      }
    }
  }

  lemma {:induction false} OneMoreConflict(sch: Schema, rows: map<int, Row>, id: int, first: Row, row: Row)
    requires id !in rows
    ensures NoConflict(sch, rows[id := first], row) <==> NoConflict(sch, rows, row) && Apart(sch, first, row)
  {
    var all := rows[id := first];
    assert forall other :: other in rows ==> all[other] == rows[other];
    assert all[id] == first;
  }

  lemma {:induction false} InsertAllGrows(sch: Schema, s: Store, batch: seq<Row>)
    requires ValidStore(sch, s)
    ensures var t := InsertAll(sch, s, batch).0;
            ValidStore(sch, t) && forall id :: id in s.rows ==> id in t.rows && t.rows[id] == s.rows[id]
    decreases |batch|
  {
    if batch != [] && InsertOne(sch, s, batch[0]).Some? {
      InsertOneKeeps(sch, s, batch[0]);
      InsertAllGrows(sch, InsertOne(sch, s, batch[0]).value, batch[1..]);
    }
  }

  /** The rows that go in leave UNIQUE holding exactly when they fit. */
  lemma {:induction false} InsertAllUnique(sch: Schema, s: Store, batch: seq<Row>)
    requires ValidStore(sch, s) && Unique(sch, s.rows)
    ensures Unique(sch, InsertAll(sch, s, batch).0.rows) <==> Fit(sch, s.rows, batch[..TakenOf(sch, s, batch)])
    decreases |batch|
  {
    if batch != [] && InsertOne(sch, s, batch[0]).Some? {
      var t := InsertOne(sch, s, batch[0]).value;
      var taken := batch[..TakenOf(sch, s, batch)];
      InsertOneKeeps(sch, s, batch[0]);
      var id :| id !in s.rows && t.rows == s.rows[id := batch[0]];
      OneMoreUnique(sch, s.rows, id, batch[0]);
      assert taken[0] == batch[0] && taken[1..] == batch[1..][..TakenOf(sch, t, batch[1..])];
      FitNext(sch, s.rows, id, taken);
      if Unique(sch, t.rows) {
        InsertAllUnique(sch, t, batch[1..]);
      } else {
        InsertAllGrows(sch, t, batch[1..]);
      }
    }
  }

  /** The row has a key of the row NO_ROW. */
  ghost predicate MeetsNoRow(sch: Schema, rows: map<int, Row>, row: Row) {
    NO_ROW in rows && !Apart(sch, rows[NO_ROW], row)
  }

  lemma {:induction false} PassedFits(sch: Schema, rows: map<int, Row>, batch: seq<Row>, n: nat)
    requires ValidSchema(sch) && InsertPasses(sch, rows, batch) && n <= |batch|
    ensures Fit(sch, rows, batch[..n]) <==> forall k :: 0 <= k < n ==> !MeetsNoRow(sch, rows, batch[k])
  {
    forall k | 0 <= k < n ensures NoConflict(sch, rows, batch[k]) <==> !MeetsNoRow(sch, rows, batch[k]) {
      PassedConflict(sch, rows, batch, k);
    }
    forall j, k | 0 <= j < k < n ensures Apart(sch, batch[j], batch[k]) {
      forall i | 0 <= i < |sch.indexes| && sch.indexes[i].Some?
        ensures !Collides(batch[j], batch[k], sch.indexes[i].value)
      {
        assert BatchIndexAccepts(sch, rows, batch, sch.indexes[i].value);
      }
    }
    assert forall k :: 0 <= k < n ==> batch[..n][k] == batch[k];
  }

  lemma {:induction false} PassedConflict(sch: Schema, rows: map<int, Row>, batch: seq<Row>, k: nat)
    requires ValidSchema(sch) && InsertPasses(sch, rows, batch) && k < |batch|
    ensures NoConflict(sch, rows, batch[k]) <==> !MeetsNoRow(sch, rows, batch[k])
  {
    forall i, id | 0 <= i < |sch.indexes| && sch.indexes[i].Some? && id in rows && id != NO_ROW
      ensures !Collides(rows[id], batch[k], sch.indexes[i].value)
    {
      if |batch| > 1 {
        assert BatchIndexAccepts(sch, rows, batch, sch.indexes[i].value);
        BatchIndexFits(sch, rows, batch, i);
      } else {
        AllAreTouched(sch, i);
        assert IndexAccepts(rows, NO_ROW, batch[0], sch.indexes[i].value);
      }
    }
  }

  // --------------------------------------------------------------- every run

  /** An insert that passes its check although a row that goes in has a key of
      the row NO_ROW. */
  ghost predicate Slips(sch: Schema, s: Store, w: Write) {
    && w.Insert? && InsertPasses(sch, s.rows, w.batch)
    && exists k :: 0 <= k < TakenOf(sch, s, w.batch) && MeetsNoRow(sch, s.rows, w.batch[k])
  }

  lemma {:induction false} UpdateRowKeeps(sch: Schema, s: Store, id: int, columns: seq<nat>, values: seq<Value>)
    requires ValidSchema(sch) && ValidStore(sch, s)
    ensures var t := UpdateRow(sch, s, id, columns, values).0;
            ValidStore(sch, t) && (Unique(sch, s.rows) ==> Unique(sch, t.rows))
  {
    if ValidSet(sch, columns, values) && id in s.rows {
      var row := SetColumns(s.rows[id], columns, values);
      if sch.indexes == [] || CheckAccepts(sch, s.rows, id, row, columns) {
        if sch.pk.Some? && sch.pk.value in columns {
          var bare := s.(rows := s.rows - {id});
          if InsertOne(sch, bare, row).Some? {
            var newId := Get(row, sch.pk.value).i;
            if Unique(sch, s.rows) {
              UpdateKeepsUnique(sch, s.rows, id, newId, columns, values);
            }
          }
        } else if sch.admits(row) {
          assert (s.rows - {id})[id := row] == s.rows[id := row];
          if Unique(sch, s.rows) {
            UpdateKeepsUnique(sch, s.rows, id, id, columns, values);
          }
        }
      }
    }
  }

  lemma {:induction false} WriteIsValid(sch: Schema, s: Store, w: Write)
    requires ValidSchema(sch) && ValidStore(sch, s)
    ensures ValidStore(sch, Written(sch, s, w))
  {
    match w {
      case Insert(batch) => InsertAllGrows(sch, s, batch);
      case Update(id, columns, values) => UpdateRowKeeps(sch, s, id, columns, values);
      case Delete(id) =>
    }
  }

  /** One write keeps UNIQUE exactly when it does not slip. */
  lemma {:induction false} WriteKeepsUnique(sch: Schema, s: Store, w: Write)
    requires ValidSchema(sch) && ValidStore(sch, s) && Unique(sch, s.rows)
    ensures Unique(sch, Written(sch, s, w).rows) <==> !Slips(sch, s, w)
  {
    match w {
      case Insert(batch) =>
        if InsertPasses(sch, s.rows, batch) {
          InsertAllUnique(sch, s, batch);
          PassedFits(sch, s.rows, batch, TakenOf(sch, s, batch));
        }
      case Update(id, columns, values) => UpdateRowKeeps(sch, s, id, columns, values);
      case Delete(id) =>
    }
  }

  /** The table after a run of writes, failing ones among them. */
  ghost function After(sch: Schema, s: Store, writes: seq<Write>): (t: Store)
    requires ValidSchema(sch) && ValidStore(sch, s)
    ensures ValidStore(sch, t)
    decreases |writes|
  {
    if writes == [] then s
    else
      var t := After(sch, s, writes[..|writes| - 1]);
      WriteIsValid(sch, t, writes[|writes| - 1]);
      Written(sch, t, writes[|writes| - 1])
  }

  ghost predicate UniqueAfter(sch: Schema, s: Store, writes: seq<Write>, n: nat)
    requires ValidSchema(sch) && ValidStore(sch, s) && n <= |writes|
  {
    Unique(sch, After(sch, s, writes[..n]).rows)
  }

  ghost predicate SlipsAt(sch: Schema, s: Store, writes: seq<Write>, n: nat)
    requires ValidSchema(sch) && ValidStore(sch, s) && n < |writes|
  {
    Slips(sch, After(sch, s, writes[..n]), writes[n])
  }

  lemma {:induction false} OneMoreWrite(sch: Schema, s: Store, writes: seq<Write>, n: nat)
    requires ValidSchema(sch) && ValidStore(sch, s) && n < |writes| && UniqueAfter(sch, s, writes, n)
    ensures UniqueAfter(sch, s, writes, n + 1) <==> !SlipsAt(sch, s, writes, n)
  {
    assert writes[..n + 1][..n] == writes[..n];
    WriteKeepsUnique(sch, After(sch, s, writes[..n]), writes[n]);
  }

  lemma {:induction false} NoSlipsKeepUnique(sch: Schema, s: Store, writes: seq<Write>, n: nat)
    requires ValidSchema(sch) && ValidStore(sch, s) && Unique(sch, s.rows) && n <= |writes|
    requires forall k :: 0 <= k < n ==> !SlipsAt(sch, s, writes, k)
    ensures UniqueAfter(sch, s, writes, n)
  {
    if n > 0 {
      NoSlipsKeepUnique(sch, s, writes, n - 1);
      OneMoreWrite(sch, s, writes, n - 1);
    } else {
      assert writes[..0] == [];
    }
  }

  /** UNIQUE holds all through a run of direct inserts, updates and deletes,
      failing ones among them, if and only if none of its inserts slips. */
  lemma {:induction false} EveryRunKeepsUnique(sch: Schema, s: Store, writes: seq<Write>)
    requires ValidSchema(sch) && ValidStore(sch, s) && Unique(sch, s.rows)
    ensures (forall n :: 0 <= n <= |writes| ==> UniqueAfter(sch, s, writes, n)) <==>
            (forall n :: 0 <= n < |writes| ==> !SlipsAt(sch, s, writes, n))
  {
    if forall n :: 0 <= n < |writes| ==> !SlipsAt(sch, s, writes, n) {
      forall n: nat | n <= |writes| {
        NoSlipsKeepUnique(sch, s, writes, n);
      }
    } else {
      var n :| 0 <= n < |writes| && SlipsAt(sch, s, writes, n);
      if UniqueAfter(sch, s, writes, n) {
        OneMoreWrite(sch, s, writes, n);
      }
    }
  }

  // ------------------------------------------------------- no row under NO_ROW

  /** The primary key an insert names is not NO_ROW. */
  ghost predicate KeysAllowed(sch: Schema, batch: seq<Row>) {
    sch.pk.Some? ==> forall k :: 0 <= k < |batch| ==> Get(batch[k], sch.pk.value) != Integer(NO_ROW)
  }

  /** The write never names INT64_MIN as a primary key. */
  ghost predicate Allowed(sch: Schema, w: Write) {
    match w
    case Insert(batch) => KeysAllowed(sch, batch)
    case Update(_, columns, values) =>
      sch.pk.Some? ==> forall i :: 0 <= i < |columns| && i < |values| && columns[i] == sch.pk.value ==>
                                     values[i] != Integer(NO_ROW)
    case Delete(_) => true
  }

  lemma {:induction false} InsertAllSpares(sch: Schema, s: Store, batch: seq<Row>)
    requires ValidStore(sch, s) && NO_ROW !in s.rows && KeysAllowed(sch, batch)
    ensures NO_ROW !in InsertAll(sch, s, batch).0.rows
    decreases |batch|
  {
    if batch != [] && InsertOne(sch, s, batch[0]).Some? {
      InsertOneKeeps(sch, s, batch[0]);
      InsertAllSpares(sch, InsertOne(sch, s, batch[0]).value, batch[1..]);
    }
  }

  /** A set column holds one of the values set. */
  lemma {:induction false} SetValue(row: Row, columns: seq<nat>, values: seq<Value>, c: nat)
    requires |columns| == |values| && InWidth(columns, |row|) && c in columns
    ensures exists i :: 0 <= i < |columns| && columns[i] == c && SetColumns(row, columns, values)[c] == values[i]
    decreases |columns|
  {
    assert columns == [columns[0]] + columns[1..];
    if c in columns[1..] {
      SetValue(row[columns[0] := values[0]], columns[1..], values[1..], c);
      var i :| 0 <= i < |columns[1..]| && columns[1..][i] == c &&
               SetColumns(row[columns[0] := values[0]], columns[1..], values[1..])[c] == values[1..][i];
      assert columns[i + 1] == c && values[i + 1] == values[1..][i];
    }
  }

  lemma {:induction false} AllowedSpares(sch: Schema, s: Store, w: Write)
    requires ValidSchema(sch) && ValidStore(sch, s) && NO_ROW !in s.rows && Allowed(sch, w)
    ensures NO_ROW !in Written(sch, s, w).rows
  {
    match w {
      case Insert(batch) => InsertAllSpares(sch, s, batch);
      case Update(id, columns, values) =>
        if ValidSet(sch, columns, values) && id in s.rows && sch.pk.Some? && sch.pk.value in columns {
          SetValue(s.rows[id], columns, values, sch.pk.value);
        }
      case Delete(id) =>
    }
  }

  /** Writes that never name INT64_MIN as a primary key never slip. */
  lemma {:induction false} AllowedRunsKeepUnique(sch: Schema, s: Store, writes: seq<Write>)
    requires ValidSchema(sch) && ValidStore(sch, s) && Unique(sch, s.rows) && NO_ROW !in s.rows
    requires forall k :: 0 <= k < |writes| ==> Allowed(sch, writes[k])
    ensures var t := After(sch, s, writes); Unique(sch, t.rows) && NO_ROW !in t.rows
    decreases |writes|
  {
    if writes != [] {
      var n := |writes| - 1;
      AllowedRunsKeepUnique(sch, s, writes[..n]);
      var t := After(sch, s, writes[..n]);
      AllowedSpares(sch, t, writes[n]);
      WriteKeepsUnique(sch, t, writes[n]);
    }
  }

  /** A run that slips: a row under INT64_MIN, then one with its key. */
  lemma {:induction false} SlippingRun()
    ensures var sch := Schema(2, Some(0), [Some([1])], _ => true);
            var empty := Store(map[], 1);
            var writes := [Insert([[Integer(NO_ROW), Integer(7)]]), Insert([[Integer(1), Integer(7)]])];
            && ValidSchema(sch) && ValidStore(sch, empty) && Unique(sch, empty.rows)
            && !Unique(sch, After(sch, empty, writes).rows)
  {
    var sch := Schema(2, Some(0), [Some([1])], _ => true);
    var empty := Store(map[], 1);
    var first, second: Row := [Integer(NO_ROW), Integer(7)], [Integer(1), Integer(7)];
    var writes := [Insert([first]), Insert([second])];
    FirstGoesIn(sch, empty, first, NO_ROW);
    var s := empty.(rows := empty.rows[NO_ROW := first]);
    assert writes[..1] == [Insert([first])] && writes[..1][..0] == [] && writes[..0] == [];
    assert After(sch, empty, writes[..1]) == s;
    assert KeyOf(first, [1]) == [Integer(7)] && KeyOf(second, [1]) == [Integer(7)];
    assert IndexAccepts(s.rows, NO_ROW, second, [1]);
    FirstGoesIn(sch, s, second, 1);
    var t := s.(rows := s.rows[1 := second]);
    assert After(sch, empty, writes) == t;
    assert Collides(t.rows[NO_ROW], t.rows[1], sch.indexes[0].value);
  }

  lemma {:induction false} FirstGoesIn(sch: Schema, s: Store, row: Row, id: int)
    requires sch == Schema(2, Some(0), [Some([1])], sch.admits) && sch.admits(row)
    requires |row| == 2 && row[0] == Integer(id) && id !in s.rows && IndexAccepts(s.rows, NO_ROW, row, [1])
    requires ValidStore(sch, s)
    ensures Written(sch, s, Insert([row])) == s.(rows := s.rows[id := row])
  {
    OneRow(sch, s, [row]);
    assert forall i :: 0 <= i < |sch.indexes| ==> sch.indexes[i].value == [1];
    assert CheckAccepts(sch, s.rows, NO_ROW, row, AllColumns(2));
  }

  /** A move rehomes the row, or leaves the table as it was. */
  lemma {:induction false} MoveRehomesOrRestores(sch: Schema, s: Store, id: int, columns: seq<nat>, values: seq<Value>)
    requires ValidSchema(sch) && ValidStore(sch, s) && ValidSet(sch, columns, values)
    requires sch.pk.Some? && sch.pk.value in columns && id in s.rows
    ensures var (t, n) := UpdateRow(sch, s, id, columns, values);
            var row := SetColumns(s.rows[id], columns, values);
            if n == Some(1)
            then Get(row, sch.pk.value).Integer? &&
                 var newId := Get(row, sch.pk.value).i;
                 t.rows.Keys == s.rows.Keys - {id} + {newId} && t.rows[newId] == row &&
                 (newId == id || newId !in s.rows) &&
                 forall other :: other in s.rows && other != id ==> t.rows[other] == s.rows[other]
            else n == None && t == s
  {
  }

  // ------------------------------------------------------- what writes store

  /** Two rows hold one key: the same value, not NULL, in each column. */
  predicate OneKey(a: Row, b: Row, columns: seq<nat>) {
    forall i :: 0 <= i < |columns| ==> Get(a, columns[i]) == Get(b, columns[i]) && Get(b, columns[i]) != Null
  }

  lemma {:induction false} CollidesIsOneKey(a: Row, b: Row, columns: seq<nat>)
    ensures Collides(a, b, columns) <==> OneKey(a, b, columns)
  {
    var k, l := KeyOf(a, columns), KeyOf(b, columns);
    assert forall i :: 0 <= i < |columns| ==> k[i] == Get(a, columns[i]) && l[i] == Get(b, columns[i]);
    if OneKey(a, b, columns) {
      assert k == l;
    }
    if Collides(a, b, columns) {
      assert forall i :: 0 <= i < |columns| ==> l[i] in l;
    }
  }

  /** The row with the columns set: in each the value given last for it, and what
      it held before in any other. */
  ghost predicate IsSet(before: Row, row: Row, columns: seq<nat>, values: seq<Value>)
    requires |columns| == |values|
  {
    && |row| == |before|
    && (forall k :: 0 <= k < |columns| && columns[k] < |row| && (forall j :: k < j < |columns| ==> columns[j] != columns[k]) ==>
                      row[columns[k]] == values[k])
    && (forall c :: 0 <= c < |row| && c !in columns ==> row[c] == before[c])
  }

  lemma {:induction false} SetColumnsSets(row: Row, columns: seq<nat>, values: seq<Value>)
    requires |columns| == |values| && InWidth(columns, |row|)
    ensures IsSet(row, SetColumns(row, columns, values), columns, values)
    decreases |columns|
  {
    if columns != [] {
      var first := row[columns[0] := values[0]];
      SetColumnsSets(first, columns[1..], values[1..]);
      assert forall k :: 0 <= k < |columns[1..]| ==> columns[1..][k] == columns[k + 1] && values[1..][k] == values[k + 1];
      forall k | 0 <= k < |columns| && (forall j :: k < j < |columns| ==> columns[j] != columns[k])
        ensures SetColumns(row, columns, values)[columns[k]] == values[k]
      {
        if k > 0 {
          assert forall j :: k - 1 < j < |columns[1..]| ==> columns[1..][j] != columns[1..][k - 1];
        } else {
          assert columns[0] !in columns[1..];
        }
      }
    }
  }

  /** Only one row is the row set. */
  lemma {:induction false} SetIsOne(before: Row, a: Row, b: Row, columns: seq<nat>, values: seq<Value>)
    requires |columns| == |values| && IsSet(before, a, columns, values) && IsSet(before, b, columns, values)
    ensures a == b
  {
    forall c: nat | c < |before| ensures a[c] == b[c] {
      if c in columns {
        var k := LastFor(columns, c);
        assert a[columns[k]] == values[k] && b[columns[k]] == values[k];
      }
    }
  }

  lemma {:induction false} LastFor(columns: seq<nat>, c: nat) returns (k: nat)
    requires c in columns
    ensures k < |columns| && columns[k] == c && forall j :: k < j < |columns| ==> columns[j] != c
    decreases |columns|
  {
    var n := |columns| - 1;
    if columns[n] == c {
      k := n;
    } else {
      assert columns == columns[..n] + [columns[n]];
      k := LastFor(columns[..n], c);
      assert forall j :: k < j < n ==> columns[j] == columns[..n][j];
    }
  }

  /** Where a row is stored once it is set: under its primary key, if that is
      set. */
  function HomeOf(sch: Schema, id: int, columns: seq<nat>, row: Row): Option<int> {
    if sch.pk.None? || sch.pk.value !in columns then Some(id)
    else if Get(row, sch.pk.value).Integer? then Some(Get(row, sch.pk.value).i) else None
  }

  /** The row may replace row `id`: its types are admitted, it has a home free of
      any other row, and no other row has its key in an index over a column set. */
  ghost predicate MayReplace(sch: Schema, rows: map<int, Row>, id: int, columns: seq<nat>, row: Row) {
    && sch.admits(row)
    && HomeOf(sch, id, columns, row).Some?
    && (HomeOf(sch, id, columns, row).value == id || HomeOf(sch, id, columns, row).value !in rows)
    && (forall i, other :: 0 <= i < |sch.indexes| && sch.indexes[i].Some? && other in rows && other != id &&
                           (exists c :: c in sch.indexes[i].value && c in columns) ==>
                             !OneKey(rows[other], row, sch.indexes[i].value))
  }

  /** An update: it answers 1 exactly when the row exists and may be replaced by
      the row set, and then that row is stored, under its home, with every other
      row as it was; 0 exactly when there is no such row; and short of 1 nothing
      changes. */
  lemma {:induction false} UpdateStores(sch: Schema, s: Store, id: int, columns: seq<nat>, values: seq<Value>, row: Row)
    requires ValidSchema(sch) && ValidStore(sch, s) && ValidSet(sch, columns, values)
    requires id in s.rows ==> IsSet(s.rows[id], row, columns, values)
    ensures var (t, n) := UpdateRow(sch, s, id, columns, values);
            && (n == Some(0) <==> id !in s.rows)
            && (n == Some(1) <==> id in s.rows && MayReplace(sch, s.rows, id, columns, row))
            && (n.Some? ==> n.value <= 1)
            && (n != Some(1) ==> t == s)
            && (n == Some(1) ==>
                  var home := HomeOf(sch, id, columns, row).value;
                  && t.rows.Keys == s.rows.Keys - {id} + {home} && t.rows[home] == row && t.nextId == s.nextId
                  && forall other :: other in s.rows && other != id ==> other in t.rows && t.rows[other] == s.rows[other])
  {
    if id in s.rows {
      SetColumnsSets(s.rows[id], columns, values);
      SetIsOne(s.rows[id], row, SetColumns(s.rows[id], columns, values), columns, values);
      ReplaceIsChecked(sch, s.rows, id, columns, row);
    }
  }

  lemma {:induction false} ReplaceIsChecked(sch: Schema, rows: map<int, Row>, id: int, columns: seq<nat>, row: Row)
    requires ValidSchema(sch)
    ensures CheckAccepts(sch, rows, id, row, columns) <==>
            forall i, other :: 0 <= i < |sch.indexes| && sch.indexes[i].Some? && other in rows && other != id &&
                               (exists c :: c in sch.indexes[i].value && c in columns) ==>
                                 !OneKey(rows[other], row, sch.indexes[i].value)
  {
    forall i, other | 0 <= i < |sch.indexes| && sch.indexes[i].Some? && other in rows
      ensures Collides(rows[other], row, sch.indexes[i].value) <==> OneKey(rows[other], row, sch.indexes[i].value)
    {
      CollidesIsOneKey(rows[other], row, sch.indexes[i].value);
    }
    forall i | 0 <= i < |sch.indexes| && sch.indexes[i].Some?
      ensures Touches(sch.indexes[i].value, columns) <==> exists c :: c in sch.indexes[i].value && c in columns
    {
      var index := sch.indexes[i].value;
      if c :| c in index && c in columns {
        var k :| 0 <= k < |index| && index[k] == c;
      }
      if Touches(index, columns) {
        var k :| 0 <= k < |index| && index[k] in columns;
        assert index[k] in index;
      }
    }
  }

  /** A delete: the row is gone, the others stay, and the count says which. */
  lemma {:induction false} DeleteRemoves(s: Store, id: int)
    ensures var (t, n) := DeleteRow(s, id);
            && n == (if id in s.rows then 1 else 0)
            && t.rows.Keys == s.rows.Keys - {id} && t.nextId == s.nextId
            && forall other :: other in t.rows ==> t.rows[other] == s.rows[other]
  {
  }

  /** The ids a batch's rows get: their primary keys, or the next ones. */
  ghost predicate IdsOf(sch: Schema, s: Store, batch: seq<Row>, ids: seq<int>) {
    && |ids| == |batch|
    && forall k :: 0 <= k < |batch| ==>
         if sch.pk.Some? then Get(batch[k], sch.pk.value) == Integer(ids[k]) else ids[k] == s.nextId + k
  }

  /** The rows of the batch stored, and nothing else. */
  ghost predicate Adds(before: map<int, Row>, after: map<int, Row>, ids: seq<int>, batch: seq<Row>) {
    && |ids| == |batch| && FreshIds(before, ids)
    && (forall id :: id in after <==> id in before || id in ids)
    && (forall id :: id in before ==> after[id] == before[id])
    && (forall k :: 0 <= k < |ids| ==> after[ids[k]] == batch[k])
  }

  lemma {:induction false} FreshOneMore(before: map<int, Row>, id: int, row: Row, ids: seq<int>)
    requires id !in before && FreshIds(before[id := row], ids)
    ensures FreshIds(before, [id] + ids)
  {
    var all := [id] + ids;
    forall k | 0 <= k < |all| ensures all[k] !in before && (k > 0 ==> all[k] != id) {
      if k > 0 {
        assert all[k] == ids[k - 1];
      }
    }
    forall j, k | 0 <= j < k < |all| ensures all[j] != all[k] {
      if j > 0 {
        assert all[j] == ids[j - 1] && all[k] == ids[k - 1];
      }
    }
  }

  lemma {:induction false} AddsOneMore(before: map<int, Row>, id: int, row: Row, after: map<int, Row>, ids: seq<int>, batch: seq<Row>)
    requires id !in before && Adds(before[id := row], after, ids, batch)
    ensures Adds(before, after, [id] + ids, [row] + batch)
  {
    var all, rows, mid := [id] + ids, [row] + batch, before[id := row];
    FreshOneMore(before, id, row, ids);
    forall x ensures x in after <==> x in before || x in all {
      assert x in all <==> x == id || x in ids;
    }
    forall x | x in before ensures after[x] == before[x] {
      assert mid[x] == before[x];
    }
    forall k | 0 <= k < |all| ensures after[all[k]] == rows[k] {
      if k > 0 {
        assert all[k] == ids[k - 1] && rows[k] == batch[k - 1];
      } else {
        assert mid[id] == row;
      }
    }
  }

  lemma {:induction false} IdsOneMore(sch: Schema, s: Store, t: Store, row: Row, id: int, batch: seq<Row>, ids: seq<int>)
    requires if sch.pk.Some? then Get(row, sch.pk.value) == Integer(id) else id == s.nextId && t.nextId == s.nextId + 1
    requires IdsOf(sch, t, batch, ids)
    ensures IdsOf(sch, s, [row] + batch, [id] + ids)
  {
    var all, rows := [id] + ids, [row] + batch;
    assert forall k :: 0 < k < |all| ==> all[k] == ids[k - 1] && rows[k] == batch[k - 1];
  }

  /** The rows that go in are stored, each under its id, and nothing else changes;
      all of them do exactly when each has the table's types and a free id of its
      own. */
  lemma {:induction false} InsertAllStores(sch: Schema, s: Store, batch: seq<Row>) returns (ids: seq<int>)
    requires ValidStore(sch, s)
    ensures var (t, ok) := InsertAll(sch, s, batch);
            var n := TakenOf(sch, s, batch);
            && IdsOf(sch, s, batch[..n], ids) && Adds(s.rows, t.rows, ids, batch[..n])
            && t.nextId == s.nextId + (if sch.pk.None? then n else 0)
            && (ok <==> n == |batch|)
    decreases |batch|
  {
    ids := [];
    if batch != [] && InsertOne(sch, s, batch[0]).Some? {
      var t := InsertOne(sch, s, batch[0]).value;
      InsertOneKeeps(sch, s, batch[0]);
      var id := if sch.pk.None? then s.nextId else Get(batch[0], sch.pk.value).i;
      var n := TakenOf(sch, t, batch[1..]);
      var rest := InsertAllStores(sch, t, batch[1..]);
      IdsOneMore(sch, s, t, batch[0], id, batch[1..][..n], rest);
      AddsOneMore(s.rows, id, batch[0], InsertAll(sch, s, batch).0.rows, rest, batch[1..][..n]);
      ids := [id] + rest;
      assert [batch[0]] + batch[1..][..n] == batch[..n + 1];
    } else {
      assert batch[..0] == [];
    }
  }

  /** They stop at the first row the table does not take. */
  lemma {:induction false} InsertAllStops(sch: Schema, s: Store, batch: seq<Row>)
    ensures var n := TakenOf(sch, s, batch);
            n < |batch| ==> !GoesIn(sch, InsertAll(sch, s, batch).0, batch[n])
    decreases |batch|
  {
    if batch != [] && InsertOne(sch, s, batch[0]).Some? {
      var t := InsertOne(sch, s, batch[0]).value;
      InsertAllStops(sch, t, batch[1..]);
      var n := TakenOf(sch, t, batch[1..]);
      assert n < |batch[1..]| ==> batch[1..][n] == batch[n + 1];
    }
  }

  /** The table takes a row: its types, and for a primary key an id of its own. */
  predicate GoesIn(sch: Schema, s: Store, row: Row) {
    && |row| == sch.width && sch.admits(row)
    && (sch.pk.Some? ==> Get(row, sch.pk.value).Integer? && Get(row, sch.pk.value).i !in s.rows)
  }

  /** An insert: a batch the check refuses changes nothing; of any other, the rows
      up to the first the table does not take are stored, each under its id, and
      nothing else changes. It succeeds exactly when that is all of them. */
  lemma {:induction false} InsertStores(sch: Schema, s: Store, batch: seq<Row>) returns (ids: seq<int>, n: nat)
    requires ValidStore(sch, s)
    ensures var (t, ok) := InsertRows(sch, s, batch);
            && n <= |batch| && IdsOf(sch, s, batch[..n], ids) && Adds(s.rows, t.rows, ids, batch[..n])
            && (ok <==> InsertPasses(sch, s.rows, batch) && n == |batch|)
            && (if InsertPasses(sch, s.rows, batch) then n < |batch| ==> !GoesIn(sch, t, batch[n]) else n == 0 && t == s)
  {
    if InsertPasses(sch, s.rows, batch) {
      n := TakenOf(sch, s, batch);
      ids := InsertAllStores(sch, s, batch);
      InsertAllStops(sch, s, batch);
    } else {
      n, ids := 0, [];
      assert batch[..0] == [];
    }
  }

  // ------------------------------------------------------------- the table

  method AnyOf<T>(ids: set<T>) returns (id: T)
    requires ids != {}
    ensures id in ids
  {
    id :| id in ids;
  }

  class Table {
    const sch: Schema
    var rows: map<int, Row>
    var nextId: int

    constructor (sch: Schema)
      ensures this.sch == sch && Now() == Store(map[], 1)
    {
      this.sch := sch;
      rows, nextId := map[], 1;
    }

    function Now(): Store
      reads this
    {
      Store(rows, nextId)
    }

    method InsertDiscard(row: Row) returns (ok: bool)
      modifies this
      ensures var t := InsertOne(sch, old(Now()), row); ok == t.Some? && Now() == if ok then t.value else old(Now())
    {
      var t := InsertOne(sch, Now(), row);
      ok := t.Some?;
      if ok {
        rows, nextId := t.value.rows, t.value.nextId;
      }
    }

    method InsertBatch(batch: seq<Row>) returns (ok: bool)
      modifies this
      ensures (Now(), ok) == InsertAll(sch, old(Now()), batch)
    {
      for k := 0 to |batch|
        invariant InsertAll(sch, Now(), batch[k..]) == InsertAll(sch, old(Now()), batch)
      {
        assert batch[k..][0] == batch[k] && batch[k..][1..] == batch[k + 1..];
        var one := InsertDiscard(batch[k]);
        if !one {
          return false;
        }
      }
      ok := true;
    }

    /** The ids of the rows that hold one of the keys. */
    method ScanKeys(columns: seq<nat>, keys: set<seq<Value>>) returns (found: seq<int>)
      ensures forall id :: id in found <==> id in rows && KeyOf(rows[id], columns) in keys
    {
      found := [];
      var left := rows.Keys;
      while left != {}
        invariant left <= rows.Keys
        invariant forall id :: id in found <==> id in rows && id !in left && KeyOf(rows[id], columns) in keys
        decreases left
      {
        var id := AnyOf(left);
        left := left - {id};
        if KeyOf(rows[id], columns) in keys {
          found := found + [id];
        }
      }
    }

    /** Looks the row up in each index it touches and accepts it when every hit is
        `rowId` itself. */
    method CheckUnique(rowId: int, row: Row, changed: seq<nat>) returns (ok: bool)
      ensures ok <==> CheckAccepts(sch, rows, rowId, row, changed)
    {
      for i := 0 to |sch.indexes|
        invariant forall j :: 0 <= j < i && sch.indexes[j].Some? && Touches(sch.indexes[j].value, changed) ==>
                                IndexAccepts(rows, rowId, row, sch.indexes[j].value)
      {
        if sch.indexes[i].None? || !Touches(sch.indexes[i].value, changed) {
          continue;
        }
        var columns := sch.indexes[i].value;
        var key := KeyOf(row, columns);
        if Null in key {
          continue;
        }
        var found := ScanKeys(columns, {key});
        for n := 0 to |found|
          invariant forall m :: 0 <= m < n ==> found[m] == rowId
        {
          var other := found[n];
          if other != rowId {
            assert other in rows && Collides(rows[other], row, columns);
            assert !IndexAccepts(rows, rowId, row, columns);
            return false;
          }
        }
        forall id | id in rows && id != rowId ensures !Collides(rows[id], row, columns) {
          assert id !in found;
        }
      }
      ok := true;
    }

    /** Two of the batch's rows share a key of the index; else its keys. */
    method BatchKeys(batch: seq<Row>, columns: seq<nat>) returns (ok: bool, seen: set<seq<Value>>)
      ensures ok <==> forall j, k :: 0 <= j < k < |batch| ==> !Collides(batch[j], batch[k], columns)
      ensures ok ==> forall key :: key in seen <==>
                                   Null !in key && exists k :: 0 <= k < |batch| && KeyOf(batch[k], columns) == key
    {
      seen := {};
      for k := 0 to |batch|
        invariant forall i, j :: 0 <= i < j < k ==> !Collides(batch[i], batch[j], columns)
        invariant forall key :: key in seen <==>
                                Null !in key && exists j :: 0 <= j < k && KeyOf(batch[j], columns) == key
      {
        var key := KeyOf(batch[k], columns);
        if Null !in key {
          if key in seen {
            var j :| 0 <= j < k && KeyOf(batch[j], columns) == key;
            assert Collides(batch[j], batch[k], columns);
            return false, seen;
          }
          seen := seen + {key};
        }
      }
      ok := true;
    }

    method CheckUniqueBatch(batch: seq<Row>) returns (ok: bool)
      ensures ok <==> BatchAccepts(sch, rows, batch)
    {
      for i := 0 to |sch.indexes|
        invariant forall j :: 0 <= j < i && sch.indexes[j].Some? ==>
                                BatchIndexAccepts(sch, rows, batch, sch.indexes[j].value)
      {
        if sch.indexes[i].None? {
          continue;
        }
        var columns := sch.indexes[i].value;
        var distinct, seen := BatchKeys(batch, columns);
        if !distinct {
          assert !BatchIndexAccepts(sch, rows, batch, columns);
          return false;
        }
        if seen == {} {
          forall k | 0 <= k < |batch| ensures Null in KeyOf(batch[k], columns) {
            assert KeyOf(batch[k], columns) !in seen;
          }
          continue;
        }
        var some :| some in seen;
        assert exists k :: 0 <= k < |batch| && Null !in KeyOf(batch[k], columns);
        if |columns| != 1 {
          var each := CheckEach(batch, columns);
          if !each {
            assert !BatchIndexAccepts(sch, rows, batch, columns);
            return false;
          }
        } else {
          var found := ScanKeys(columns, seen);
          if found != [] {
            var id := found[0];
            assert id in found;
            var k :| 0 <= k < |batch| && KeyOf(batch[k], columns) == KeyOf(rows[id], columns);
            assert Collides(rows[id], batch[k], columns);
            assert !BatchIndexAccepts(sch, rows, batch, columns);
            return false;
          }
          forall k, id | 0 <= k < |batch| && id in rows ensures !Collides(rows[id], batch[k], columns) {
            assert id !in found;
          }
        }
      }
      ok := true;
    }

    method CheckEach(batch: seq<Row>, columns: seq<nat>) returns (ok: bool)
      ensures ok <==> forall k :: 0 <= k < |batch| ==> CheckAccepts(sch, rows, NO_ROW, batch[k], columns)
    {
      for k := 0 to |batch|
        invariant forall j :: 0 <= j < k ==> CheckAccepts(sch, rows, NO_ROW, batch[j], columns)
      {
        var one := CheckUnique(NO_ROW, batch[k], columns);
        if !one {
          return false;
        }
      }
      ok := true;
    }

    method Insert(batch: seq<Row>) returns (ok: bool)
      modifies this
      ensures (Now(), ok) == InsertRows(sch, old(Now()), batch)
    {
      if sch.indexes != [] && |batch| > 1 {
        ok := CheckUniqueBatch(batch);
        if ok {
          ok := InsertBatch(batch);
        }
      } else if sch.indexes != [] {
        if |batch| == 0 {
          return false;
        }
        ok := CheckUnique(NO_ROW, batch[0], AllColumns(sch.width));
        if ok {
          OneRow(sch, Now(), batch);
          ok := InsertDiscard(batch[0]);
        }
      } else if |batch| == 1 {
        OneRow(sch, Now(), batch);
        ok := InsertDiscard(batch[0]);
      } else {
        ok := InsertBatch(batch);
      }
    }

    method UpdateById(id: int, columns: seq<nat>, values: seq<Value>) returns (n: Option<nat>)
      requires ValidStore(sch, Now()) && ValidSet(sch, columns, values)
      modifies this
      ensures n == if id !in old(rows) then Some(0)
                   else if sch.admits(SetColumns(old(rows)[id], columns, values)) then Some(1) else None
      ensures Now() == if n == Some(1)
                       then Store(old(rows)[id := SetColumns(old(rows)[id], columns, values)], old(nextId))
                       else old(Now())
    {
      if id !in rows {
        return Some(0);
      }
      var row := SetColumns(rows[id], columns, values);
      if !sch.admits(row) {
        return None;
      }
      rows := rows[id := row];
      return Some(1);
    }

    /** Sets columns of row `id`, counted as 0 rows where there is none. */
    method Update(id: int, columns: seq<nat>, values: seq<Value>) returns (n: Option<nat>)
      requires ValidSchema(sch) && ValidStore(sch, Now())
      modifies this
      ensures (Now(), n) == UpdateRow(sch, old(Now()), id, columns, values)
    {
      if |columns| != |values| || !InWidth(columns, sch.width) {
        return None;
      }
      if id !in rows {
        return Some(0);
      }
      var row := SetColumns(rows[id], columns, values);
      if sch.indexes != [] {
        var ok := CheckUnique(id, row, columns);
        if !ok {
          return None;
        }
      }
      if sch.pk.None? || sch.pk.value !in columns {
        n := UpdateById(id, columns, values);
        return;
      }
      // A move
      ghost var before := Now();
      var was := rows[id];
      rows := rows - {id};
      var moved := InsertDiscard(row);
      if !moved {
        var back := InsertDiscard(was);
        assert back;
        assert rows == before.rows;
        return None;
      }
      return Some(1);
    }

    method Delete(id: int) returns (n: nat)
      modifies this
      ensures (Now(), n) == DeleteRow(old(Now()), id)
    {
      if id !in rows {
        return 0;
      }
      rows := rows - {id};
      return 1;
    }
  }

  lemma {:induction false} OneRow(sch: Schema, s: Store, batch: seq<Row>)
    requires |batch| == 1
    ensures var t := InsertOne(sch, s, batch[0]);
            InsertAll(sch, s, batch) == (if t.Some? then t.value else s, t.Some?)
  {
    if InsertOne(sch, s, batch[0]).Some? {
      assert batch[1..] == [];
    }
  }
}

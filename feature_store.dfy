/** A fake of the Hopsworks feature store with only what the pipeline
    declares of it: feature groups identified by name and version, with a
    primary key, written by keyed upsert; feature views over a select-all
    query of one group, fetched or created by name and version. */
module Store {
  import opened Wrappers
  import opened Frames

  datatype Ident = Ident(name: string, version: nat)

  /** The values of a row's primary-key columns, in key order. */
  type Key = seq<Cell>

  /** A feature group. Its schema is fixed by the first insert (None before);
      its rows are stored by primary key. */
  datatype Group = Group(primaryKey: seq<string>, schema: Option<seq<string>>, rows: map<Key, Row>)

  /** `group.select_all()`. */
  datatype Query = SelectAll(group: Ident)

  datatype View = View(query: Query, labels: seq<string>)

  // ---- Keys and keyed upsert ----

  predicate HasKey(row: Row, pk: seq<string>) {
    forall i :: 0 <= i < |pk| ==> pk[i] in row
  }

  predicate AllHaveKey(batch: seq<Row>, pk: seq<string>) {
    forall j :: 0 <= j < |batch| ==> HasKey(batch[j], pk)
  }

  function KeyOf(row: Row, pk: seq<string>): (k: Key)
    requires HasKey(row, pk)
    ensures |k| == |pk| && forall i :: 0 <= i < |pk| ==> k[i] == row[pk[i]]
  {
    seq(|pk|, i requires 0 <= i < |pk| => row[pk[i]])
  }

  /** The keys a batch writes. */
  function BatchKeys(batch: seq<Row>, pk: seq<string>): set<Key>
    requires AllHaveKey(batch, pk)
  {
    set j | 0 <= j < |batch| :: KeyOf(batch[j], pk)
  }

  /** The rows of a batch by key, a later row replacing an earlier one with
      the same key. */
  function Latest(batch: seq<Row>, pk: seq<string>): map<Key, Row>
    requires AllHaveKey(batch, pk)
  {
    if batch == [] then map[]
    else map[KeyOf(batch[0], pk) := batch[0]] + Latest(batch[1..], pk)
  }

  /** `insert(features=batch, overwrite=False, operation="upsert")` on the
      stored rows: each row in turn is stored under its key, replacing the
      row stored there, if any. */
  function Upsert(stored: map<Key, Row>, batch: seq<Row>, pk: seq<string>): (r: map<Key, Row>)
    requires AllHaveKey(batch, pk)
    ensures stored.Keys <= r.Keys
    ensures forall j :: 0 <= j < |batch| ==> KeyOf(batch[j], pk) in r
    decreases |batch|
  {
    if batch == [] then stored
    else
      var rest := batch[1..];
      assert forall j :: 1 <= j < |batch| ==> batch[j] == rest[j - 1];
      Upsert(stored[KeyOf(batch[0], pk) := batch[0]], rest, pk)
  }

  /** Upserting a batch overrides the stored rows with the batch's latest row
      per key, and keeps every other stored row. */
  lemma {:induction false} UpsertOverrides(stored: map<Key, Row>, batch: seq<Row>, pk: seq<string>)
    requires AllHaveKey(batch, pk)
    ensures Upsert(stored, batch, pk) == stored + Latest(batch, pk)
    decreases |batch|
  {
    if batch != [] {
      var k, rest := KeyOf(batch[0], pk), batch[1..];
      assert AllHaveKey(rest, pk) by {
        forall j | 0 <= j < |rest| ensures HasKey(rest[j], pk) { assert rest[j] == batch[j + 1]; }
      }
      UpsertOverrides(stored[k := batch[0]], rest, pk);
      assert stored[k := batch[0]] + Latest(rest, pk) == stored + (map[k := batch[0]] + Latest(rest, pk));
    }
  }

  lemma {:induction false} LatestKeys(batch: seq<Row>, pk: seq<string>)
    requires AllHaveKey(batch, pk)
    ensures Latest(batch, pk).Keys == BatchKeys(batch, pk)
  {
    if batch != [] {
      var rest := batch[1..];
      assert AllHaveKey(rest, pk) by {
        forall j | 0 <= j < |rest| ensures HasKey(rest[j], pk) { assert rest[j] == batch[j + 1]; }
      }
      LatestKeys(rest, pk);
      forall k | k in BatchKeys(batch, pk) ensures k in Latest(batch, pk) {
        var j :| 0 <= j < |batch| && k == KeyOf(batch[j], pk);
        if j > 0 { assert batch[j] == rest[j - 1]; }
      }
      forall k | k in BatchKeys(rest, pk) ensures k in BatchKeys(batch, pk) {
        var j :| 0 <= j < |rest| && k == KeyOf(rest[j], pk);
        assert rest[j] == batch[j + 1];
      }
    }
  }

  /** Every row Latest keeps comes from the batch and is stored under its own key. */
  lemma {:induction false} LatestFromBatch(batch: seq<Row>, pk: seq<string>)
    requires AllHaveKey(batch, pk)
    ensures forall k :: k in Latest(batch, pk) ==>
              Latest(batch, pk)[k] in batch && HasKey(Latest(batch, pk)[k], pk)
              && KeyOf(Latest(batch, pk)[k], pk) == k
  {
    if batch != [] {
      var rest := batch[1..];
      assert AllHaveKey(rest, pk) by {
        forall j | 0 <= j < |rest| ensures HasKey(rest[j], pk) { assert rest[j] == batch[j + 1]; }
      }
      LatestFromBatch(rest, pk);
      forall k | k in Latest(rest, pk) ensures Latest(rest, pk)[k] in batch {
        var j :| 0 <= j < |rest| && rest[j] == Latest(rest, pk)[k];
        assert batch[j + 1] == rest[j];
      }
    }
  }

  /** Last write wins: a row no later row of the batch shares a key with is
      the one stored under its key. */
  lemma {:induction false} LatestLastWins(batch: seq<Row>, pk: seq<string>, i: nat)
    requires AllHaveKey(batch, pk) && i < |batch|
    requires forall j :: i < j < |batch| ==> KeyOf(batch[j], pk) != KeyOf(batch[i], pk)
    ensures KeyOf(batch[i], pk) in Latest(batch, pk)
    ensures Latest(batch, pk)[KeyOf(batch[i], pk)] == batch[i]
  {
    var rest := batch[1..];
    assert AllHaveKey(rest, pk) by {
      forall j | 0 <= j < |rest| ensures HasKey(rest[j], pk) { assert rest[j] == batch[j + 1]; }
    }
    LatestKeys(rest, pk);
    if i == 0 {
      forall j | 0 <= j < |rest| ensures KeyOf(rest[j], pk) != KeyOf(batch[0], pk) {
        assert rest[j] == batch[j + 1];
      }
    } else {
      forall j | i - 1 < j < |rest| ensures KeyOf(rest[j], pk) != KeyOf(rest[i - 1], pk) {
        assert rest[j] == batch[j + 1];
      }
      LatestLastWins(rest, pk, i - 1);
    }
  }

  /** Upserting the same batch twice stores what upserting it once does. */
  lemma UpsertIdempotent(stored: map<Key, Row>, batch: seq<Row>, pk: seq<string>)
    requires AllHaveKey(batch, pk)
    ensures Upsert(Upsert(stored, batch, pk), batch, pk) == Upsert(stored, batch, pk)
  {
    var latest := Latest(batch, pk);
    UpsertOverrides(stored, batch, pk);
    UpsertOverrides(stored + latest, batch, pk);
    assert (stored + latest) + latest == stored + latest;
  }

  /** Rows under keys the batch does not write are untouched, and no row
      appears under such a key. */
  lemma UpsertElsewhere(stored: map<Key, Row>, batch: seq<Row>, pk: seq<string>, k: Key)
    requires AllHaveKey(batch, pk) && k !in BatchKeys(batch, pk)
    ensures k in Upsert(stored, batch, pk) <==> k in stored
    ensures k in stored ==> Upsert(stored, batch, pk)[k] == stored[k]
  {
    UpsertOverrides(stored, batch, pk);
    LatestKeys(batch, pk);
  }

  /** After an upsert, every key of the batch holds the batch's last row with
      that key; the stored keys are the old ones plus the batch's. */
  lemma UpsertStoresBatch(stored: map<Key, Row>, batch: seq<Row>, pk: seq<string>, i: nat)
    requires AllHaveKey(batch, pk) && i < |batch|
    requires forall j :: i < j < |batch| ==> KeyOf(batch[j], pk) != KeyOf(batch[i], pk)
    ensures Upsert(stored, batch, pk).Keys == stored.Keys + BatchKeys(batch, pk)
    ensures Upsert(stored, batch, pk)[KeyOf(batch[i], pk)] == batch[i]
  {
    UpsertOverrides(stored, batch, pk);
    LatestKeys(batch, pk);
    LatestLastWins(batch, pk, i);
  }

  // ---- Groups ----

  /** The group's invariant: its schema lists distinct columns, every stored
      row has exactly those columns and is stored under its own key. */
  predicate WellFormed(g: Group) {
    match g.schema
    case None => g.rows == map[]
    case Some(columns) =>
      && Distinct(columns)
      && forall k :: k in g.rows ==>
           g.rows[k].Keys == Names(columns) && HasKey(g.rows[k], g.primaryKey)
           && KeyOf(g.rows[k], g.primaryKey) == k
  }

  /** The columns a read of the group returns. */
  function Features(g: Group): seq<string> {
    if g.schema.Some? then g.schema.value else []
  }

  /** An insert succeeds when the table holds every primary-key column and,
      once the schema is fixed, has the schema's columns. */
  predicate CanInsert(g: Group, columns: seq<string>) {
    && (forall i :: 0 <= i < |g.primaryKey| ==> g.primaryKey[i] in columns)
    && (g.schema.Some? ==> Names(g.schema.value) == Names(columns))
  }

  lemma ConformingRowsHaveKey(rows: seq<Row>, columns: seq<string>, pk: seq<string>)
    requires Conforms(rows, columns)
    requires forall i :: 0 <= i < |pk| ==> pk[i] in columns
    ensures AllHaveKey(rows, pk)
  {
  }

  /** The group after a successful upsert of a table's rows. */
  function Inserted(g: Group, columns: seq<string>, rows: seq<Row>): (r: Group)
    requires CanInsert(g, columns) && Conforms(rows, columns)
    ensures r.primaryKey == g.primaryKey
    ensures r.schema.Some? && (g.schema.Some? ==> r.schema == g.schema)
    ensures AllHaveKey(rows, g.primaryKey) && r.rows == g.rows + Latest(rows, g.primaryKey)
  {
    ConformingRowsHaveKey(rows, columns, g.primaryKey);
    UpsertOverrides(g.rows, rows, g.primaryKey);
    Group(g.primaryKey, if g.schema.Some? then g.schema else Some(columns),
          Upsert(g.rows, rows, g.primaryKey))
  }

  lemma InsertedWellFormed(g: Group, columns: seq<string>, rows: seq<Row>)
    requires WellFormed(g) && Distinct(columns) && CanInsert(g, columns) && Conforms(rows, columns)
    ensures WellFormed(Inserted(g, columns, rows))
  {
    ConformingRowsHaveKey(rows, columns, g.primaryKey);
    UpsertOverrides(g.rows, rows, g.primaryKey);
    LatestFromBatch(rows, g.primaryKey);
    var schema := if g.schema.Some? then g.schema.value else columns;
    forall r | r in rows ensures r.Keys == Names(schema) {
      var j :| 0 <= j < |rows| && rows[j] == r;
    }
  }

  /** Inserting the same table twice leaves the group as inserting it once:
      the second insert is allowed and changes nothing. */
  lemma InsertIdempotent(g: Group, columns: seq<string>, rows: seq<Row>)
    requires CanInsert(g, columns) && Conforms(rows, columns)
    ensures CanInsert(Inserted(g, columns, rows), columns)
    ensures Inserted(Inserted(g, columns, rows), columns, rows) == Inserted(g, columns, rows)
  {
    ConformingRowsHaveKey(rows, columns, g.primaryKey);
    UpsertIdempotent(g.rows, rows, g.primaryKey);
  }

  /** `get_or_create_feature_group`: the group stored under `id`, or a new
      empty one with primary key `pk`. */
  function GroupOrNew(groups: map<Ident, Group>, id: Ident, pk: seq<string>): (r: Group)
    ensures id in groups ==> r == groups[id]
    ensures id !in groups ==> WellFormed(r) && r.primaryKey == pk && r.rows == map[] && r.schema.None?
  {
    if id in groups then groups[id] else Group(pk, None, map[])
  }

  /** The groups after `get_or_create_feature_group(id, primary_key=pk)`
      followed by an upsert of a table: the group exists afterwards, and holds
      the table's rows when the insert is allowed. */
  function Pushed(groups: map<Ident, Group>, id: Ident, pk: seq<string>,
                  columns: seq<string>, rows: seq<Row>): (r: map<Ident, Group>)
    requires Conforms(rows, columns)
    ensures r.Keys == groups.Keys + {id}
    ensures forall other :: other in groups && other != id ==> r[other] == groups[other]
    ensures CanInsert(GroupOrNew(groups, id, pk), columns) ==>
              && r[id].primaryKey == GroupOrNew(groups, id, pk).primaryKey
              && AllHaveKey(rows, r[id].primaryKey)
              && r[id].rows == GroupOrNew(groups, id, pk).rows + Latest(rows, r[id].primaryKey)
    ensures !CanInsert(GroupOrNew(groups, id, pk), columns) ==> r[id] == GroupOrNew(groups, id, pk)
  {
    var g := GroupOrNew(groups, id, pk);
    groups[id := if CanInsert(g, columns) then Inserted(g, columns, rows) else g]
  }

  /** Pushing the same table twice leaves the store as pushing it once, and
      never touches another group. */
  lemma PushIdempotent(groups: map<Ident, Group>, id: Ident, pk: seq<string>,
                       columns: seq<string>, rows: seq<Row>)
    requires Conforms(rows, columns)
    ensures Pushed(Pushed(groups, id, pk, columns, rows), id, pk, columns, rows)
            == Pushed(groups, id, pk, columns, rows)
    ensures forall other :: other != id ==>
              (other in Pushed(groups, id, pk, columns, rows) <==> other in groups)
    ensures forall other :: other != id && other in groups ==>
              Pushed(groups, id, pk, columns, rows)[other] == groups[other]
  {
    var g := GroupOrNew(groups, id, pk);
    if CanInsert(g, columns) {
      InsertIdempotent(g, columns, rows);
    }
  }

  /** After an allowed push, a row of the table that no later row shares a
      key with is stored in the group under its key; keys the table does not
      write keep what they held. */
  lemma PushStoresByKey(groups: map<Ident, Group>, id: Ident, pk: seq<string>,
                        columns: seq<string>, rows: seq<Row>, i: nat)
    requires Conforms(rows, columns) && CanInsert(GroupOrNew(groups, id, pk), columns)
    requires i < |rows| && HasKey(rows[i], GroupOrNew(groups, id, pk).primaryKey)
    requires forall j :: i < j < |rows| && HasKey(rows[j], GroupOrNew(groups, id, pk).primaryKey) ==>
               KeyOf(rows[j], GroupOrNew(groups, id, pk).primaryKey) != KeyOf(rows[i], GroupOrNew(groups, id, pk).primaryKey)
    ensures var key := GroupOrNew(groups, id, pk).primaryKey;
            && KeyOf(rows[i], key) in Pushed(groups, id, pk, columns, rows)[id].rows
            && Pushed(groups, id, pk, columns, rows)[id].rows[KeyOf(rows[i], key)] == rows[i]
  {
    var g := GroupOrNew(groups, id, pk);
    ConformingRowsHaveKey(rows, columns, g.primaryKey);
    UpsertStoresBatch(g.rows, rows, g.primaryKey, i);
  }

  /** A push leaves every stored row whose key the table does not write as it was. */
  lemma PushKeepsOtherKeys(groups: map<Ident, Group>, id: Ident, pk: seq<string>,
                           columns: seq<string>, rows: seq<Row>, k: Key)
    requires Conforms(rows, columns) && CanInsert(GroupOrNew(groups, id, pk), columns)
    requires forall j :: 0 <= j < |rows| && HasKey(rows[j], GroupOrNew(groups, id, pk).primaryKey) ==>
               KeyOf(rows[j], GroupOrNew(groups, id, pk).primaryKey) != k
    ensures k in Pushed(groups, id, pk, columns, rows)[id].rows <==> k in GroupOrNew(groups, id, pk).rows
    ensures k in GroupOrNew(groups, id, pk).rows ==>
              Pushed(groups, id, pk, columns, rows)[id].rows[k] == GroupOrNew(groups, id, pk).rows[k]
  {
    var g := GroupOrNew(groups, id, pk);
    ConformingRowsHaveKey(rows, columns, g.primaryKey);
    UpsertElsewhere(g.rows, rows, g.primaryKey, k);
  }

  // ---- Pushing a table again with one column redrawn ----

  /** Two rows with the same columns that agree everywhere except, perhaps, in `column`. */
  predicate SameOffColumn(a: Row, b: Row, column: string) {
    a.Keys == b.Keys && forall c :: c in a && c != column ==> a[c] == b[c]
  }

  /** `after` is `before` with `column` of every row possibly redrawn. */
  predicate Redrawn(before: seq<Row>, after: seq<Row>, column: string) {
    |before| == |after| && forall i :: 0 <= i < |before| ==> SameOffColumn(before[i], after[i], column)
  }

  /** Redrawing a non-key column changes no key, so the batch's latest rows
      per key sit under the same keys and differ at most in that column. */
  lemma {:induction false} LatestRedrawn(before: seq<Row>, after: seq<Row>, pk: seq<string>, column: string)
    requires AllHaveKey(before, pk) && Redrawn(before, after, column) && column !in pk
    ensures AllHaveKey(after, pk)
    ensures Latest(after, pk).Keys == Latest(before, pk).Keys
    ensures forall k :: k in Latest(before, pk) ==>
              SameOffColumn(Latest(before, pk)[k], Latest(after, pk)[k], column)
  {
    if before != [] {
      assert forall j :: 0 <= j < |after| ==> KeyOf(after[j], pk) == KeyOf(before[j], pk);
      var b, a := before[1..], after[1..];
      assert AllHaveKey(b, pk) && Redrawn(b, a, column) by {
        forall j | 0 <= j < |b| ensures HasKey(b[j], pk) && SameOffColumn(b[j], a[j], column) {
          assert b[j] == before[j + 1] && a[j] == after[j + 1];
        }
      }
      LatestRedrawn(b, a, pk, column);
    }
  }

  /** Upserting a table and then the same table with a non-key column redrawn
      stores the same keys as the first upsert alone, and under each key a row
      that differs from the first upsert's at most in that column. */
  lemma UpsertRedrawn(stored: map<Key, Row>, before: seq<Row>, after: seq<Row>, pk: seq<string>, column: string)
    requires AllHaveKey(before, pk) && Redrawn(before, after, column) && column !in pk
    ensures AllHaveKey(after, pk)
    ensures Upsert(Upsert(stored, before, pk), after, pk).Keys == Upsert(stored, before, pk).Keys
    ensures forall k :: k in Upsert(stored, before, pk) ==>
              SameOffColumn(Upsert(stored, before, pk)[k], Upsert(Upsert(stored, before, pk), after, pk)[k], column)
  {
    LatestRedrawn(before, after, pk, column);
    UpsertOverrides(stored, before, pk);
    UpsertOverrides(Upsert(stored, before, pk), after, pk);
    forall k | k in Upsert(stored, before, pk)
      ensures SameOffColumn(Upsert(stored, before, pk)[k], Upsert(Upsert(stored, before, pk), after, pk)[k], column)
    {
      if k in Latest(before, pk) {
        assert Upsert(stored, before, pk)[k] == Latest(before, pk)[k];
      }
    }
  }

  /** Pushing a table and then the same table with a non-key column redrawn:
      the second push is allowed, changes no other group, keeps the pushed
      group's keys, and changes its rows at most in that column. */
  lemma PushRedrawn(groups: map<Ident, Group>, id: Ident, pk: seq<string>, columns: seq<string>,
                    before: seq<Row>, after: seq<Row>, column: string)
    requires Conforms(before, columns) && Conforms(after, columns)
    requires CanInsert(GroupOrNew(groups, id, pk), columns)
    requires Redrawn(before, after, column) && column !in GroupOrNew(groups, id, pk).primaryKey
    ensures var once := Pushed(groups, id, pk, columns, before);
            var twice := Pushed(once, id, pk, columns, after);
            && CanInsert(GroupOrNew(once, id, pk), columns)
            && twice.Keys == once.Keys
            && (forall other :: other in once && other != id ==> twice[other] == once[other])
            && twice[id].rows.Keys == once[id].rows.Keys
            && forall k :: k in once[id].rows ==> SameOffColumn(once[id].rows[k], twice[id].rows[k], column)
  {
    var g := GroupOrNew(groups, id, pk);
    ConformingRowsHaveKey(before, columns, g.primaryKey);
    ConformingRowsHaveKey(after, columns, g.primaryKey);
    UpsertOverrides(g.rows, before, g.primaryKey);
    UpsertOverrides(Upsert(g.rows, before, g.primaryKey), after, g.primaryKey);
    UpsertRedrawn(g.rows, before, after, g.primaryKey, column);
  }

  // ---- Reading a group back ----

  /** `keys` lists the keys of `m` once each, and `s` the rows under them in that order. */
  ghost predicate Lists(s: seq<Row>, keys: seq<Key>, m: map<Key, Row>) {
    && |keys| == |s| && Distinct(keys)
    && (forall k :: k in m <==> k in keys)
    && forall i :: 0 <= i < |s| ==> keys[i] in m && s[i] == m[keys[i]]
  }

  /** `s` holds the rows of `m`, each once, in some order. */
  ghost predicate Enumerates(s: seq<Row>, m: map<Key, Row>) {
    exists keys :: Lists(s, keys, m)
  }

  /** The stored rows in an order the store chooses. */
  method Enumerate(m: map<Key, Row>) returns (s: seq<Row>, ghost keys: seq<Key>)
    ensures Lists(s, keys, m)
  {
    s, keys := [], [];
    var rest := m.Keys;
    while rest != {}
      invariant |keys| == |s| && Distinct(keys)
      invariant rest <= m.Keys
      invariant forall k :: k in m ==> (k in rest <==> k !in keys)
      invariant forall k :: k in keys ==> k in m
      invariant forall i :: 0 <= i < |s| ==> keys[i] in m && s[i] == m[keys[i]]
      decreases rest
    {
      var k :| k in rest;
      s, keys := s + [m[k]], keys + [k];
      rest := rest - {k};
    }
  }

  /** The batch data of a view reading group `g`: a table with the group's
      columns holding each stored row once. */
  ghost predicate IsBatchOf(t: Table, g: Group)
    reads t
  {
    t.Valid() && t.columns == Features(g) && Enumerates(t.rows, g.rows)
  }

  /** Whether the view `id` exists and its group can be read. */
  predicate Readable(views: map<Ident, View>, groups: map<Ident, Group>, id: Ident) {
    id in views && views[id].query.group in groups
  }

  class FeatureStore {
    var groups: map<Ident, Group>
    var views: map<Ident, View>

    ghost predicate Valid()
      reads this
    {
      forall id :: id in groups ==> WellFormed(groups[id])
    }

    /** An empty store. */
    constructor ()
      ensures Valid() && groups == map[] && views == map[]
    {
      groups, views := map[], map[];
    }

    /** `fs.get_or_create_feature_group(name, version, primary_key=pk)`. */
    method GetOrCreateFeatureGroup(id: Ident, pk: seq<string>)
      requires Valid()
      modifies this
      ensures Valid() && views == old(views)
      ensures groups == old(groups)[id := GroupOrNew(old(groups), id, pk)]
    {
      groups := groups[id := GroupOrNew(groups, id, pk)];
    }

    /** `group.insert(features=t, overwrite=False, operation="upsert")`; false where it raises. */
    method Insert(id: Ident, t: Table) returns (ok: bool)
      requires Valid() && t.Valid()
      modifies this
      ensures Valid() && views == old(views)
      ensures ok <==> id in old(groups) && CanInsert(old(groups)[id], t.columns)
      ensures groups == if ok then old(groups)[id := Inserted(old(groups)[id], t.columns, t.rows)]
                        else old(groups)
    {
      ok := id in groups && CanInsert(groups[id], t.columns);
      if ok {
        InsertedWellFormed(groups[id], t.columns, t.rows);
        groups := groups[id := Inserted(groups[id], t.columns, t.rows)];
      }
    }

    /** `fs.get_feature_view(name, version)`; None where it raises. */
    method GetFeatureView(id: Ident) returns (v: Option<View>)
      ensures v.Some? <==> id in views
      ensures v.Some? ==> v.value == views[id]
    {
      v := if id in views then Some(views[id]) else None;
    }

    /** `fs.get_feature_group(name, version).select_all()`; None where it raises. */
    method SelectAllOf(id: Ident) returns (q: Option<Query>)
      ensures q.Some? <==> id in groups
      ensures q.Some? ==> q.value == SelectAll(id)
    {
      q := if id in groups then Some(SelectAll(id)) else None;
    }

    /** `fs.create_feature_view(name, version, labels, query)`; None where it
        raises because the view already exists. */
    method CreateFeatureView(id: Ident, query: Query, labels: seq<string>) returns (v: Option<View>)
      modifies this
      ensures groups == old(groups)
      ensures v.Some? <==> id !in old(views)
      ensures v.Some? ==> v.value == View(query, labels) && views == old(views)[id := v.value]
      ensures v.None? ==> views == old(views)
    {
      if id in views {
        v := None;
      } else {
        v := Some(View(query, labels));
        views := views[id := v.value];
      }
    }

    /** `view.get_batch_data()`: every row of the view's group; None where
        the group cannot be read. */
    method GetBatchData(v: View) returns (r: Option<Table>)
      requires Valid()
      ensures r.Some? <==> v.query.group in groups
      ensures r.Some? ==> fresh(r.value) && IsBatchOf(r.value, groups[v.query.group])
    {
      if v.query.group !in groups {
        return None;
      }
      var g := groups[v.query.group];
      var s, keys := Enumerate(g.rows);
      var t := new Table(Features(g), s);
      r := Some(t);
    }
  }
}

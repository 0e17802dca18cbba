/** Rotating the master secret over every encrypted column of the database. */
module Rotation {
  import opened Cipher

  datatype Row = Row(pk: string, cells: seq<Cell>)

  type Table = seq<Row>

  /** Columns holding ciphertexts, table by table. */
  const COLUMNS: seq<nat> := [2, 2, 1]

  ghost predicate DistinctKeys(t: Table) {
    forall i, j :: 0 <= i < j < |t| ==> t[i].pk != t[j].pk
  }

  /** A database in the layout of the script's table list. */
  ghost predicate WellFormed(db: seq<Table>) {
    && |db| == |COLUMNS|
    && forall n :: 0 <= n < |db| ==> DistinctKeys(db[n]) && Columns(db[n], COLUMNS[n])
  }

  ghost predicate Columns(t: Table, n: nat) {
    forall i :: 0 <= i < |t| ==> |t[i].cells| == n
  }

  // ---- One column value -----------------------------------------------------------------

  predicate Blank(c: Cell) {
    c == Null || c == Empty
  }

  /** Written under the old key: the rotation rewrites it. */
  predicate Old(c: Cell, oldKey: Key) {
    !Blank(c) && Decrypt(c, oldKey).Ok?
  }

  predicate Readable(c: Cell, oldKey: Key, newKey: Key) {
    Blank(c) || Decrypt(c, oldKey).Ok? || Decrypt(c, newKey).Ok?
  }

  /** What the rotation may make of a value. */
  ghost predicate Rotated(c: Cell, d: Cell, oldKey: Key, newKey: Key) {
    && Readable(c, oldKey, newKey)
    && if Old(c, oldKey) then exists nonce: int :: Seals(d, Decrypt(c, oldKey).value, newKey, nonce) else d == c
  }

  predicate Seals(d: Cell, plain: string, key: Key, nonce: int) {
    d == Encrypt(plain, key, nonce)
  }

  /** `_re_encrypt`, on what `row[i + 1] or ""` leaves. */
  method ReEncryptCell(c: Cell, oldKey: Key, newKey: Key) returns (r: Result<(Cell, bool)>)
    requires c != Null
    ensures r.Ok? <==> Readable(c, oldKey, newKey)
    ensures r.Ok? ==> (r.value.1 <==> Old(c, oldKey)) && Rotated(c, r.value.0, oldKey, newKey)
  {
    if c == Empty {
      return Ok((c, false));
    }
    var plain := Decrypt(c, oldKey);
    if plain.Failed? {
      if Decrypt(c, newKey).Ok? {
        return Ok((c, false));
      }
      return Failed;
    }
    var nonce: int := *;
    var d := Encrypt(plain.value, newKey, nonce);
    assert Seals(d, plain.value, newKey, nonce);
    return Ok((d, true));
  }

  // ---- One row ------------------------------------------------------------------------------

  ghost predicate RowReadable(cells: seq<Cell>, oldKey: Key, newKey: Key) {
    forall i :: 0 <= i < |cells| ==> Readable(cells[i], oldKey, newKey)
  }

  predicate RowTouched(row: Row, oldKey: Key) {
    exists i :: 0 <= i < |row.cells| && Old(row.cells[i], oldKey)
  }

  ghost predicate RowRotated(a: Row, b: Row, oldKey: Key, newKey: Key) {
    && a.pk == b.pk && |a.cells| == |b.cells|
    && forall i :: 0 <= i < |a.cells| ==> Rotated(a.cells[i], b.cells[i], oldKey, newKey)
  }

  function Overlaid(cells: seq<Cell>, updates: map<nat, Cell>): (r: seq<Cell>)
    ensures |r| == |cells|
    ensures forall i :: 0 <= i < |cells| ==> r[i] == if i in updates then updates[i] else cells[i]
  {
    seq(|cells|, i requires 0 <= i < |cells| => if i in updates then updates[i] else cells[i])
  }

  /** The columns of one row that change, with their new values. */
  method RowUpdates(cells: seq<Cell>, oldKey: Key, newKey: Key) returns (r: Result<map<nat, Cell>>)
    ensures r.Ok? <==> RowReadable(cells, oldKey, newKey)
    ensures r.Ok? ==> forall i: nat :: i in r.value <==> i < |cells| && Old(cells[i], oldKey)
    ensures r.Ok? ==> forall i: nat :: i in r.value ==> Rotated(cells[i], r.value[i], oldKey, newKey)
  {
    hide Rotated;
    var updates: map<nat, Cell> := map[];
    for i := 0 to |cells|
      invariant RowReadable(cells[..i], oldKey, newKey)
      invariant forall k: nat :: k in updates <==> k < i && Old(cells[k], oldKey)
      invariant forall k: nat :: k in updates ==> Rotated(cells[k], updates[k], oldKey, newKey)
    {
      if !Blank(cells[i]) {
        var changed := ReEncryptCell(cells[i], oldKey, newKey);
        if changed.Failed? {
          return Failed;
        }
        if changed.value.1 {
          updates := updates[i := changed.value.0];
        }
      }
    }
    assert cells[..|cells|] == cells;
    return Ok(updates);
  }

  lemma OverlaidRotates(row: Row, updates: map<nat, Cell>, oldKey: Key, newKey: Key)
    requires RowReadable(row.cells, oldKey, newKey)
    requires forall i: nat :: i in updates <==> i < |row.cells| && Old(row.cells[i], oldKey)
    requires forall i: nat :: i in updates ==> Rotated(row.cells[i], updates[i], oldKey, newKey)
    ensures RowRotated(row, row.(cells := Overlaid(row.cells, updates)), oldKey, newKey)
    ensures updates != map[] <==> RowTouched(row, oldKey)
  {
    if RowTouched(row, oldKey) {
      var i :| 0 <= i < |row.cells| && Old(row.cells[i], oldKey);
      assert i in updates;
    }
    if updates != map[] {
      var i :| i in updates;
      assert Old(row.cells[i], oldKey);
    }
  }

  // ---- One table -------------------------------------------------------------------------------

  /** `UPDATE ... WHERE pk = ...`. */
  function UpdateWhere(t: Table, pk: string, updates: map<nat, Cell>): (r: Table)
    ensures |r| == |t|
    ensures forall i :: 0 <= i < |t| ==>
      r[i] == if t[i].pk == pk then t[i].(cells := Overlaid(t[i].cells, updates)) else t[i]
  {
    seq(|t|, i requires 0 <= i < |t| =>
      if t[i].pk == pk then t[i].(cells := Overlaid(t[i].cells, updates)) else t[i])
  }

  ghost predicate TableReadable(t: Table, oldKey: Key, newKey: Key) {
    forall i :: 0 <= i < |t| ==> RowReadable(t[i].cells, oldKey, newKey)
  }

  ghost predicate TableRotated(a: Table, b: Table, oldKey: Key, newKey: Key) {
    && |a| == |b|
    && forall i :: 0 <= i < |a| ==> RowRotated(a[i], b[i], oldKey, newKey)
  }

  /** Number of rows with something to rewrite. */
  function TouchedRows(t: Table, oldKey: Key): nat {
    if t == [] then 0 else TouchedRows(t[..|t| - 1], oldKey) + if RowTouched(t[|t| - 1], oldKey) then 1 else 0
  }

  ghost predicate DbReadable(db: seq<Table>, oldKey: Key, newKey: Key) {
    forall n :: 0 <= n < |db| ==> TableReadable(db[n], oldKey, newKey)
  }

  ghost predicate DbRotated(a: seq<Table>, b: seq<Table>, oldKey: Key, newKey: Key) {
    && |a| == |b|
    && forall n :: 0 <= n < |a| ==> TableRotated(a[n], b[n], oldKey, newKey)
  }

  function Touched(db: seq<Table>, oldKey: Key): seq<nat> {
    seq(|db|, n requires 0 <= n < |db| => TouchedRows(db[n], oldKey))
  }

  /** The positions of rows with something to rewrite. */
  ghost function TouchedAt(t: Table, oldKey: Key): set<nat> {
    set i: nat | i < |t| && RowTouched(t[i], oldKey)
  }

  lemma {:induction false} RowsAreCounted(t: Table, oldKey: Key)
    ensures TouchedRows(t, oldKey) == |TouchedAt(t, oldKey)|
  {
    hide RowTouched;
    if t == [] {
      assert TouchedAt(t, oldKey) == {};
    } else {
      var n := |t| - 1;
      RowsAreCounted(t[..n], oldKey);
      var before := TouchedAt(t[..n], oldKey);
      assert n !in before;
      if RowTouched(t[n], oldKey) {
        assert TouchedAt(t, oldKey) == before + {n};
      } else {
        assert TouchedAt(t, oldKey) == before;
      }
    }
  }

  function Sum(ns: seq<nat>): nat {
    if ns == [] then 0 else Sum(ns[..|ns| - 1]) + ns[|ns| - 1]
  }

  /** While the rows are walked: those before `i` are done, the others as they were. */
  ghost predicate Halfway(rows: Table, t: Table, i: nat, oldKey: Key, newKey: Key) {
    && |t| == |rows| && i <= |rows|
    && (forall k :: 0 <= k < i ==> RowRotated(rows[k], t[k], oldKey, newKey))
    && (forall k :: i <= k < |rows| ==> t[k] == rows[k])
  }

  lemma HalfwayStep(rows: Table, t: Table, i: nat, updates: map<nat, Cell>, oldKey: Key, newKey: Key)
    requires DistinctKeys(rows) && Halfway(rows, t, i, oldKey, newKey) && i < |rows|
    requires RowRotated(rows[i], rows[i].(cells := Overlaid(rows[i].cells, updates)), oldKey, newKey)
    ensures Halfway(rows, UpdateWhere(t, rows[i].pk, updates), i + 1, oldKey, newKey)
  {
    hide Rotated;
    var u := UpdateWhere(t, rows[i].pk, updates);
    forall k | 0 <= k < |rows| && k != i ensures u[k] == t[k] {
      assert t[k].pk == rows[k].pk;
    }
  }

  /** A row with nothing to rewrite is already rotated. */
  lemma UntouchedRow(row: Row, oldKey: Key, newKey: Key)
    requires RowReadable(row.cells, oldKey, newKey) && !RowTouched(row, oldKey)
    ensures RowRotated(row, row, oldKey, newKey)
  {
  }

  // ---- The script ----------------------------------------------------------------------------

  class Database {
    var tables: seq<Table>

    constructor (initial: seq<Table>)
      ensures tables == initial
    {
      tables := initial;
    }

    /** The inner loops of `_rotate`: one table, inside the open transaction. */
    method RotateTable(n: nat, oldKey: Key, newKey: Key, commit: bool) returns (r: Result<nat>, log: seq<string>)
      requires n < |tables| && DistinctKeys(tables[n])
      modifies this
      ensures |tables| == |old(tables)| && forall m :: 0 <= m < |tables| && m != n ==> tables[m] == old(tables)[m]
      ensures r.Ok? <==> TableReadable(old(tables)[n], oldKey, newKey)
      ensures r.Ok? ==> r.value == TouchedRows(old(tables)[n], oldKey)
      ensures r.Ok? && commit ==> TableRotated(old(tables)[n], tables[n], oldKey, newKey)
      ensures !commit ==> tables == old(tables)
      ensures r.Ok? ==> |log| == if commit then 0 else r.value
    {
      hide RowReadable, RowRotated, RowTouched;
      var rows := tables[n];
      var touched := 0;
      log := [];
      for i := 0 to |rows|
        invariant |tables| == |old(tables)| && forall m :: 0 <= m < |tables| && m != n ==> tables[m] == old(tables)[m]
        invariant TableReadable(rows[..i], oldKey, newKey) && touched == TouchedRows(rows[..i], oldKey)
        invariant commit ==> Halfway(rows, tables[n], i, oldKey, newKey)
        invariant !commit ==> tables == old(tables)
        invariant |log| == if commit then 0 else touched
      {
        var row := rows[i];
        assert rows[..i + 1][..i] == rows[..i] && rows[..i + 1][i] == row;
        var updates := RowUpdates(row.cells, oldKey, newKey);
        if updates.Failed? {
          return Failed, log;
        }
        OverlaidRotates(row, updates.value, oldKey, newKey);
        if updates.value != map[] {
          touched := touched + 1;
          if commit {
            HalfwayStep(rows, tables[n], i, updates.value, oldKey, newKey);
            tables := tables[n := UpdateWhere(tables[n], row.pk, updates.value)];
          } else {
            log := log + [row.pk];
          }
        } else {
          UntouchedRow(row, oldKey, newKey);
        }
      }
      assert rows[..|rows|] == rows;
      return Ok(touched), log;
    }

    /** `_rotate`: all tables in one transaction, rolled back on failure and in a dry run.
        The counts do not depend on whether it commits. */
    method Rotate(oldKey: Key, newKey: Key, commit: bool) returns (r: Result<seq<nat>>, log: seq<string>)
      requires WellFormed(tables)
      modifies this
      ensures r.Ok? <==> DbReadable(old(tables), oldKey, newKey)
      ensures r.Ok? ==> r.value == Touched(old(tables), oldKey)
      ensures r.Ok? ==> |r.value| == 3 && forall n :: 0 <= n < 3 ==> r.value[n] == |TouchedAt(old(tables)[n], oldKey)|
      ensures r.Ok? && commit ==> DbRotated(old(tables), tables, oldKey, newKey)
      ensures r.Failed? || !commit ==> tables == old(tables)
      ensures r.Ok? ==> |log| == if commit then 0 else Sum(r.value)
    {
      hide TableReadable, TableRotated, TouchedRows, TouchedAt;
      var saved := tables;
      var touched: seq<nat> := [];
      log := [];
      for n := 0 to |COLUMNS|
        invariant |tables| == |saved| && |touched| == n
        invariant forall m :: 0 <= m < n ==> TableReadable(saved[m], oldKey, newKey)
        invariant forall m :: 0 <= m < n ==> touched[m] == TouchedRows(saved[m], oldKey)
        invariant commit ==> forall m :: 0 <= m < n ==> TableRotated(saved[m], tables[m], oldKey, newKey)
        invariant forall m :: n <= m < |saved| ==> tables[m] == saved[m]
        invariant !commit ==> tables == saved
        invariant |log| == if commit then 0 else Sum(touched)
      {
        var count, lines := RotateTable(n, oldKey, newKey, commit);
        if count.Failed? {
          tables := saved;
          return Failed, log;
        }
        assert (touched + [count.value])[..n] == touched;
        touched := touched + [count.value];
        log := log + lines;
      }
      if !commit {
        tables := saved;
      }
      assert touched == Touched(saved, oldKey);
      forall n | 0 <= n < |saved| ensures touched[n] == |TouchedAt(saved[n], oldKey)| {
        RowsAreCounted(saved[n], oldKey);
      }
      return Ok(touched), log;
    }
  }

  // ---- What a committed rotation means --------------------------------------------------------

  ghost predicate CellAt(db: seq<Table>, n: nat, i: nat, k: nat) {
    n < |db| && i < |db[n]| && k < |db[n][i].cells|
  }

  /** The same cells, rotated one by one. */
  lemma CellRotated(a: seq<Table>, b: seq<Table>, oldKey: Key, newKey: Key, n: nat, i: nat, k: nat)
    requires DbRotated(a, b, oldKey, newKey) && CellAt(a, n, i, k)
    ensures CellAt(b, n, i, k) && Rotated(a[n][i].cells[k], b[n][i].cells[k], oldKey, newKey)
  {
    assert TableRotated(a[n], b[n], oldKey, newKey);
    assert RowRotated(a[n][i], b[n][i], oldKey, newKey);
  }

  /** Every non-empty column now opens under the new key alone, to what it opened to
      under either key before; an application configured with both keys reads the same
      from every column before and after. */
  lemma RotationKeepsPlaintext(a: seq<Table>, b: seq<Table>, oldKey: Key, newKey: Key, n: nat, i: nat, k: nat)
    requires DbRotated(a, b, oldKey, newKey) && CellAt(a, n, i, k)
    ensures CellAt(b, n, i, k)
    ensures var c, d := a[n][i].cells[k], b[n][i].cells[k];
            && (Blank(c) ==> d == c)
            && (!Blank(c) ==> DecryptAny(c, [newKey, oldKey]).Ok? && Decrypt(d, newKey) == DecryptAny(c, [newKey, oldKey]))
            && DecryptAny(d, [newKey, oldKey]) == DecryptAny(c, [newKey, oldKey])
  {
    CellRotated(a, b, oldKey, newKey, n, i, k);
    var c, d := a[n][i].cells[k], b[n][i].cells[k];
    assert [newKey, oldKey][0] == newKey && [newKey, oldKey][1..] == [oldKey] && [oldKey][1..] == [];
  }

  /** Some column is written under the old key and not empty inside. */
  ghost predicate HoldsSecret(db: seq<Table>, oldKey: Key) {
    exists n: nat, i: nat, k: nat :: CellAt(db, n, i, k)
      && Old(db[n][i].cells[k], oldKey) && Decrypt(db[n][i].cells[k], oldKey).value != ""
  }

  lemma {:induction false} NoneTouched(t: Table, oldKey: Key)
    ensures TouchedRows(t, oldKey) == 0 <==> forall i :: 0 <= i < |t| ==> !RowTouched(t[i], oldKey)
  {
    hide RowTouched;
    if t != [] {
      NoneTouched(t[..|t| - 1], oldKey);
      forall i | 0 <= i < |t| - 1 ensures t[..|t| - 1][i] == t[i] {
      }
    }
  }

  lemma AllZero(db: seq<Table>, oldKey: Key)
    ensures (forall n :: 0 <= n < |db| ==> Touched(db, oldKey)[n] == 0)
      <==> forall n: nat, i: nat, k: nat :: CellAt(db, n, i, k) ==> !Old(db[n][i].cells[k], oldKey)
  {
    forall n | 0 <= n < |db|
      ensures Touched(db, oldKey)[n] == 0
        <==> forall i: nat, k: nat :: CellAt(db, n, i, k) ==> !Old(db[n][i].cells[k], oldKey)
    {
      NoneTouched(db[n], oldKey);
    }
  }

  /** A second run touches no row, exactly when the two keys differ or nothing was
      encrypted under the old one. */
  lemma SecondRunTouchesNothing(a: seq<Table>, b: seq<Table>, oldKey: Key, newKey: Key)
    requires DbRotated(a, b, oldKey, newKey)
    ensures (forall n :: 0 <= n < |b| ==> Touched(b, oldKey)[n] == 0) <==> oldKey != newKey || !HoldsSecret(a, oldKey)
  {
    hide DbRotated;
    AllZero(b, oldKey);
    forall n: nat, i: nat, k: nat
      ensures CellAt(b, n, i, k) <==> CellAt(a, n, i, k)
      ensures CellAt(b, n, i, k) ==> (Old(b[n][i].cells[k], oldKey) <==>
        oldKey == newKey && Old(a[n][i].cells[k], oldKey) && Decrypt(a[n][i].cells[k], oldKey).value != "")
    {
      SameCells(a, b, oldKey, newKey, n, i, k);
      if CellAt(a, n, i, k) {
        CellRotated(a, b, oldKey, newKey, n, i, k);
      }
    }
  }

  lemma SameCells(a: seq<Table>, b: seq<Table>, oldKey: Key, newKey: Key, n: nat, i: nat, k: nat)
    requires DbRotated(a, b, oldKey, newKey)
    ensures CellAt(b, n, i, k) <==> CellAt(a, n, i, k)
  {
    if n < |a| {
      assert TableRotated(a[n], b[n], oldKey, newKey);
      assert i < |a[n]| ==> RowRotated(a[n][i], b[n][i], oldKey, newKey);
    }
  }

  /** What was rotated is readable by the next rotation away from the new key. */
  lemma RotatedIsReadable(a: seq<Table>, b: seq<Table>, oldKey: Key, newKey: Key, next: Key)
    requires DbRotated(a, b, oldKey, newKey)
    ensures DbReadable(b, newKey, next)
  {
    hide DbRotated;
    forall n: nat, i: nat, k: nat | CellAt(b, n, i, k) ensures Readable(b[n][i].cells[k], newKey, next) {
      SameCells(a, b, oldKey, newKey, n, i, k);
      CellRotated(a, b, oldKey, newKey, n, i, k);
    }
    forall n: nat, i: nat, k: nat | n < |b| && i < |b[n]| && k < |b[n][i].cells|
      ensures Readable(b[n][i].cells[k], newKey, next)
    {
      assert CellAt(b, n, i, k);
    }
  }

  /** A chain of committed rotations, each from the key the last one went to. */
  ghost predicate Chain(dbs: seq<seq<Table>>, keys: seq<Key>) {
    && |dbs| == |keys| >= 2
    && forall j :: 0 <= j < |dbs| - 1 ==> DbRotated(dbs[j], dbs[j + 1], keys[j], keys[j + 1])
  }

  /** After any number of rotations the latest key alone reads what the first database
      held. */
  lemma {:induction false} ChainKeepsPlaintext(dbs: seq<seq<Table>>, keys: seq<Key>, n: nat, i: nat, k: nat)
    requires Chain(dbs, keys) && CellAt(dbs[0], n, i, k) && !Blank(dbs[0][n][i].cells[k])
    ensures var last := dbs[|dbs| - 1];
            && CellAt(last, n, i, k)
            && DecryptAny(dbs[0][n][i].cells[k], [keys[1], keys[0]]).Ok?
            && Decrypt(last[n][i].cells[k], keys[|keys| - 1])
               == DecryptAny(dbs[0][n][i].cells[k], [keys[1], keys[0]])
    decreases |dbs|
  {
    hide DbRotated, DecryptAny;
    RotationKeepsPlaintext(dbs[0], dbs[1], keys[0], keys[1], n, i, k);
    if |dbs| > 2 {
      ChainRest(dbs, keys);
      var second := dbs[1][n][i].cells[k];
      if second == Empty {
        EmptyStays(dbs[1..], keys[1..], n, i, k);
      } else {
        ChainKeepsPlaintext(dbs[1..], keys[1..], n, i, k);
        OpensAny(second, keys[2], keys[1]);
      }
    }
  }

  lemma ChainRest(dbs: seq<seq<Table>>, keys: seq<Key>)
    requires Chain(dbs, keys) && |dbs| > 2
    ensures Chain(dbs[1..], keys[1..])
  {
    hide DbRotated;
    forall j | 0 <= j < |dbs| - 2 ensures DbRotated(dbs[1..][j], dbs[1..][j + 1], keys[1..][j], keys[1..][j + 1]) {
      assert DbRotated(dbs[j + 1], dbs[j + 1 + 1], keys[j + 1], keys[j + 1 + 1]);
    }
  }

  lemma OpensAny(c: Cell, first: Key, second: Key)
    requires Decrypt(c, second).Ok?
    ensures DecryptAny(c, [first, second]) == Decrypt(c, second)
  {
    assert [first, second][1..] == [second];
  }

  lemma {:induction false} EmptyStays(dbs: seq<seq<Table>>, keys: seq<Key>, n: nat, i: nat, k: nat)
    requires |dbs| >= 1 && |keys| == |dbs| && (|dbs| >= 2 ==> Chain(dbs, keys))
    requires CellAt(dbs[0], n, i, k) && dbs[0][n][i].cells[k] == Empty
    ensures CellAt(dbs[|dbs| - 1], n, i, k) && dbs[|dbs| - 1][n][i].cells[k] == Empty
    decreases |dbs|
  {
    hide DbRotated;
    if |dbs| >= 2 {
      RotationKeepsPlaintext(dbs[0], dbs[1], keys[0], keys[1], n, i, k);
      if |dbs| > 2 {
        ChainRest(dbs, keys);
      }
      EmptyStays(dbs[1..], keys[1..], n, i, k);
    }
  }
}

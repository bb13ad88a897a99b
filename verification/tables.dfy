/** Local SQLite tables keyed by a text primary key, as sequences of rows in
    insertion (rowid) order.  Every function takes the row's key as a
    function `key`, so the same definitions serve items, sales, stock
    movements and the sync queue.
 */
module Tables {
  import opened Common

  /** Primary keys are uuid texts. */
  type Id = string

  /** The set of keys present in `rows`. */
  function Keys<T>(rows: seq<T>, key: T -> Id): set<Id> {
    set i | 0 <= i < |rows| :: key(rows[i])
  }

  /** The PRIMARY KEY constraint: no two rows share a key. */
  predicate UniqueKeys<T>(rows: seq<T>, key: T -> Id) {
    forall i, j :: 0 <= i < j < |rows| ==> key(rows[i]) != key(rows[j])
  }

  lemma KeysAppend<T>(rows: seq<T>, row: T, key: T -> Id)
    ensures Keys(rows + [row], key) == Keys(rows, key) + {key(row)}
  {
    var r := rows + [row];
    assert key(r[|rows|]) == key(row);
    forall k | k in Keys(rows, key) ensures k in Keys(r, key) {
      var i :| 0 <= i < |rows| && key(rows[i]) == k;
      assert r[i] == rows[i];
    }
  }

  lemma KeysCons<T>(row: T, rows: seq<T>, key: T -> Id)
    ensures Keys([row] + rows, key) == {key(row)} + Keys(rows, key)
  {
    var r := [row] + rows;
    assert key(r[0]) == key(row);
    forall k | k in Keys(rows, key) ensures k in Keys(r, key) {
      var i :| 0 <= i < |rows| && key(rows[i]) == k;
      assert r[i + 1] == rows[i];
    }
    forall k | k in Keys(r, key) ensures k in {key(row)} + Keys(rows, key) {
      var i :| 0 <= i < |r| && key(r[i]) == k;
      if i > 0 {
        assert r[i] == rows[i - 1];
      }
    }
  }

  lemma UniqueKeysTail<T>(rows: seq<T>, key: T -> Id)
    requires |rows| > 0 && UniqueKeys(rows, key)
    ensures UniqueKeys(rows[1..], key)
    ensures key(rows[0]) !in Keys(rows[1..], key)
  {
    forall i, j | 0 <= i < j < |rows[1..]| ensures key(rows[1..][i]) != key(rows[1..][j]) {
      assert rows[1..][i] == rows[i + 1] && rows[1..][j] == rows[j + 1];
    }
    forall i | 0 <= i < |rows[1..]| ensures key(rows[1..][i]) != key(rows[0]) {
      assert rows[1..][i] == rows[i + 1];
    }
  }

  lemma UniqueKeysCons<T>(row: T, rows: seq<T>, key: T -> Id)
    requires UniqueKeys(rows, key) && key(row) !in Keys(rows, key)
    ensures UniqueKeys([row] + rows, key)
  {
    var r := [row] + rows;
    forall i, j | 0 <= i < j < |r| ensures key(r[i]) != key(r[j]) {
      assert r[j] == rows[j - 1];
      if i == 0 {
        assert key(rows[j - 1]) in Keys(rows, key);
      } else {
        assert r[i] == rows[i - 1];
      }
    }
  }

  lemma UniqueKeysAppend<T>(rows: seq<T>, row: T, key: T -> Id)
    requires UniqueKeys(rows, key) && key(row) !in Keys(rows, key)
    ensures UniqueKeys(rows + [row], key)
  {
    var r := rows + [row];
    forall i, j | 0 <= i < j < |r| ensures key(r[i]) != key(r[j]) {
      if j == |rows| {
        assert r[i] == rows[i];
        assert key(rows[i]) in Keys(rows, key);
      }
    }
  }

  /** `SELECT ... WHERE id = k`: the first row with key `k`, if any. */
  function Find<T>(rows: seq<T>, key: T -> Id, k: Id): (r: Option<T>)
    ensures r.None? <==> k !in Keys(rows, key)
    ensures r.Some? ==> r.value in rows && key(r.value) == k
  {
    if |rows| == 0 then None
    else
      KeysCons(rows[0], rows[1..], key);
      assert rows == [rows[0]] + rows[1..];
      if key(rows[0]) == k then Some(rows[0]) else Find(rows[1..], key, k)
  }

  lemma FindAppendAbsent<T>(rows: seq<T>, row: T, key: T -> Id)
    requires key(row) !in Keys(rows, key)
    ensures Find(rows + [row], key, key(row)) == Some(row)
  {
    if |rows| > 0 {
      assert (rows + [row])[1..] == rows[1..] + [row];
      KeysCons(rows[0], rows[1..], key);
      assert rows == [rows[0]] + rows[1..];
      FindAppendAbsent(rows[1..], row, key);
    }
  }

  lemma FindAppendOther<T>(rows: seq<T>, row: T, key: T -> Id, k: Id)
    requires k != key(row)
    ensures Find(rows + [row], key, k) == Find(rows, key, k)
  {
    if |rows| > 0 {
      assert (rows + [row])[1..] == rows[1..] + [row];
      FindAppendOther(rows[1..], row, key, k);
    }
  }

  /** Appending a row with a fresh key makes that key read back the row
      and leaves every other key's lookup as it was. */
  lemma FindAfterAppend<T>(rows: seq<T>, row: T, key: T -> Id)
    requires key(row) !in Keys(rows, key)
    ensures forall k :: Find(rows + [row], key, k) == if k == key(row) then Some(row) else Find(rows, key, k)
  {
    FindAppendAbsent(rows, row, key);
    forall k | k != key(row) ensures Find(rows + [row], key, k) == Find(rows, key, k) {
      FindAppendOther(rows, row, key, k);
    }
  }

  /** A plain `INSERT`: appends the row, or fails with SQLite's UNIQUE
      constraint error when the key is taken (the table is then unchanged). */
  function Insert<T>(rows: seq<T>, key: T -> Id, row: T, table: string): (r: Result<seq<T>>)
    ensures r.Ok? <==> key(row) !in Keys(rows, key)
    ensures r.Ok? ==> r.value == rows + [row]
    ensures r.Ok? ==> forall k :: Find(r.value, key, k) == if k == key(row) then Some(row) else Find(rows, key, k)
  {
    if key(row) in Keys(rows, key) then Err("UNIQUE constraint failed: " + table + ".id")
    else
      FindAfterAppend(rows, row, key);
      Ok(rows + [row])
  }

  /** A successful insert keeps the PRIMARY KEY constraint. */
  lemma InsertKeepsUnique<T>(rows: seq<T>, key: T -> Id, row: T, table: string)
    requires UniqueKeys(rows, key)
    ensures Insert(rows, key, row, table).Ok? ==> UniqueKeys(Insert(rows, key, row, table).value, key)
  {
    if key(row) !in Keys(rows, key) {
      UniqueKeysAppend(rows, row, key);
    }
  }

  /** Every row whose key is not `k`, in their original order. */
  function RemoveKey<T>(rows: seq<T>, key: T -> Id, k: Id): (r: seq<T>)
    ensures Keys(r, key) == Keys(rows, key) - {k}
    ensures |r| <= |rows|
  {
    if |rows| == 0 then []
    else
      var tail := RemoveKey(rows[1..], key, k);
      KeysCons(rows[0], rows[1..], key);
      KeysCons(rows[0], tail, key);
      assert rows == [rows[0]] + rows[1..];
      if key(rows[0]) == k then tail else [rows[0]] + tail
  }

  lemma {:induction false} RemoveKeyFind<T>(rows: seq<T>, key: T -> Id, k: Id, k': Id)
    requires k' != k
    ensures Find(RemoveKey(rows, key, k), key, k') == Find(rows, key, k')
  {
    if |rows| > 0 {
      RemoveKeyFind(rows[1..], key, k, k');
      var tail := RemoveKey(rows[1..], key, k);
      if key(rows[0]) != k {
        assert ([rows[0]] + tail)[1..] == tail;
      }
    }
  }

  lemma {:induction false} RemoveKeyUnique<T>(rows: seq<T>, key: T -> Id, k: Id)
    requires UniqueKeys(rows, key)
    ensures UniqueKeys(RemoveKey(rows, key, k), key)
  {
    if |rows| > 0 {
      UniqueKeysTail(rows, key);
      RemoveKeyUnique(rows[1..], key, k);
      var tail := RemoveKey(rows[1..], key, k);
      if key(rows[0]) != k {
        UniqueKeysCons(rows[0], tail, key);
      }
    }
  }

  /** `INSERT OR REPLACE`: any row with the new row's key is deleted and the
      new row is appended with a fresh rowid. */
  function Upsert<T>(rows: seq<T>, key: T -> Id, row: T): (r: seq<T>)
    ensures Keys(r, key) == Keys(rows, key) + {key(row)}
  {
    KeysAppend(RemoveKey(rows, key, key(row)), row, key);
    RemoveKey(rows, key, key(row)) + [row]
  }

  /** After an upsert the key reads back the new row, every other key reads
      what it read before, and the PRIMARY KEY constraint still holds. */
  lemma UpsertFind<T>(rows: seq<T>, key: T -> Id, row: T, k: Id)
    ensures Find(Upsert(rows, key, row), key, k) == if k == key(row) then Some(row) else Find(rows, key, k)
    ensures UniqueKeys(rows, key) ==> UniqueKeys(Upsert(rows, key, row), key)
  {
    var rest := RemoveKey(rows, key, key(row));
    if k == key(row) {
      FindAppendAbsent(rest, row, key);
    } else {
      FindAppendOther(rest, row, key, k);
      RemoveKeyFind(rows, key, key(row), k);
    }
    if UniqueKeys(rows, key) {
      RemoveKeyUnique(rows, key, key(row));
      UniqueKeysAppend(rest, row, key);
    }
  }

  /** Inserts `row` unless a row with its key is already present. */
  function InsertIfAbsent<T>(rows: seq<T>, key: T -> Id, row: T): (r: seq<T>)
    ensures Keys(r, key) == Keys(rows, key) + {key(row)}
  {
    KeysAppend(rows, row, key);
    if key(row) in Keys(rows, key) then rows else rows + [row]
  }

  /** `InsertIfAbsent` applied to `incoming` one row at a time, in order. */
  function InsertAllIfAbsent<T>(rows: seq<T>, key: T -> Id, incoming: seq<T>): seq<T>
    decreases |incoming|
  {
    if |incoming| == 0 then rows
    else InsertAllIfAbsent(InsertIfAbsent(rows, key, incoming[0]), key, incoming[1..])
  }

  /** Insert-if-absent never alters or reorders the rows already present
      and adds only incoming rows. */
  lemma {:induction false} InsertAllIfAbsentPrefix<T>(rows: seq<T>, key: T -> Id, incoming: seq<T>)
    ensures var r := InsertAllIfAbsent(rows, key, incoming);
            && |rows| <= |r| && r[..|rows|] == rows
            && (forall i :: |rows| <= i < |r| ==> r[i] in incoming)
    decreases |incoming|
  {
    if |incoming| > 0 {
      var x := incoming[0];
      var r1 := InsertIfAbsent(rows, key, x);
      var r := InsertAllIfAbsent(r1, key, incoming[1..]);
      InsertAllIfAbsentPrefix(r1, key, incoming[1..]);
      assert r1[..|rows|] == rows;
      assert r[..|rows|] == r[..|r1|][..|rows|];
      forall i | |rows| <= i < |r| ensures r[i] in incoming {
        if i >= |r1| {
          assert r[i] in incoming[1..];
        } else {
          assert r[i] == r1[i] == x;
        }
      }
    } else {
      assert rows[..|rows|] == rows;
    }
  }

  /** It ends with the union of the keys and keeps the PRIMARY KEY
      constraint. */
  lemma {:induction false} InsertAllIfAbsentKeys<T>(rows: seq<T>, key: T -> Id, incoming: seq<T>)
    ensures Keys(InsertAllIfAbsent(rows, key, incoming), key) == Keys(rows, key) + Keys(incoming, key)
    ensures UniqueKeys(rows, key) ==> UniqueKeys(InsertAllIfAbsent(rows, key, incoming), key)
    decreases |incoming|
  {
    if |incoming| > 0 {
      var x := incoming[0];
      InsertAllIfAbsentKeys(InsertIfAbsent(rows, key, x), key, incoming[1..]);
      KeysCons(x, incoming[1..], key);
      assert incoming == [x] + incoming[1..];
      if UniqueKeys(rows, key) && key(x) !in Keys(rows, key) {
        UniqueKeysAppend(rows, x, key);
      }
    }
  }

  /** A key already present reads back its local row; a new key reads back
      the first incoming row carrying it. */
  lemma {:induction false} InsertAllIfAbsentFind<T>(rows: seq<T>, key: T -> Id, incoming: seq<T>, k: Id)
    ensures Find(InsertAllIfAbsent(rows, key, incoming), key, k)
            == if k in Keys(rows, key) then Find(rows, key, k) else Find(incoming, key, k)
    decreases |incoming|
  {
    if |incoming| > 0 {
      var x := incoming[0];
      var r1 := InsertIfAbsent(rows, key, x);
      InsertAllIfAbsentFind(r1, key, incoming[1..], k);
      KeysCons(x, incoming[1..], key);
      assert incoming == [x] + incoming[1..];
      if key(x) !in Keys(rows, key) {
        if k == key(x) {
          FindAppendAbsent(rows, x, key);
        } else {
          FindAppendOther(rows, x, key, k);
        }
      }
    }
  }

  /** Re-delivering rows that are already merged changes nothing, so
      merging the same batch twice equals merging it once. */
  lemma {:induction false} InsertAllIfAbsentPresent<T>(rows: seq<T>, key: T -> Id, incoming: seq<T>)
    requires Keys(incoming, key) <= Keys(rows, key)
    ensures InsertAllIfAbsent(rows, key, incoming) == rows
    decreases |incoming|
  {
    if |incoming| > 0 {
      KeysCons(incoming[0], incoming[1..], key);
      assert incoming == [incoming[0]] + incoming[1..];
      InsertAllIfAbsentPresent(rows, key, incoming[1..]);
    }
  }

  lemma InsertAllIfAbsentIdempotent<T>(rows: seq<T>, key: T -> Id, incoming: seq<T>)
    ensures InsertAllIfAbsent(InsertAllIfAbsent(rows, key, incoming), key, incoming)
            == InsertAllIfAbsent(rows, key, incoming)
  {
    InsertAllIfAbsentKeys(rows, key, incoming);
    InsertAllIfAbsentPresent(InsertAllIfAbsent(rows, key, incoming), key, incoming);
  }

  /** `Upsert` applied to `incoming` one row at a time, first to last. */
  function UpsertAll<T>(rows: seq<T>, key: T -> Id, incoming: seq<T>): seq<T>
    decreases |incoming|
  {
    if |incoming| == 0 then rows
    else Upsert(UpsertAll(rows, key, incoming[..|incoming| - 1]), key, incoming[|incoming| - 1])
  }

  /** The last row of `rows` with key `k`. */
  function FindLast<T>(rows: seq<T>, key: T -> Id, k: Id): (r: Option<T>)
    ensures r.None? <==> k !in Keys(rows, key)
    ensures r.Some? ==> r.value in rows && key(r.value) == k
  {
    if |rows| == 0 then None
    else
      var init := rows[..|rows| - 1];
      assert rows == init + [rows[|rows| - 1]];
      KeysAppend(init, rows[|rows| - 1], key);
      if key(rows[|rows| - 1]) == k then Some(rows[|rows| - 1]) else FindLast(init, key, k)
  }

  /** Overwrite merge: a key that arrives reads back the last incoming row
      carrying it, whatever was stored before; any other key reads what it
      read before; the keys are the union and stay unique. */
  lemma {:induction false} UpsertAllFind<T>(rows: seq<T>, key: T -> Id, incoming: seq<T>, k: Id)
    ensures Find(UpsertAll(rows, key, incoming), key, k)
            == if k in Keys(incoming, key) then FindLast(incoming, key, k) else Find(rows, key, k)
    ensures Keys(UpsertAll(rows, key, incoming), key) == Keys(rows, key) + Keys(incoming, key)
    ensures UniqueKeys(rows, key) ==> UniqueKeys(UpsertAll(rows, key, incoming), key)
    decreases |incoming|
  {
    if |incoming| > 0 {
      var init := incoming[..|incoming| - 1];
      var x := incoming[|incoming| - 1];
      assert incoming == init + [x];
      KeysAppend(init, x, key);
      UpsertAllFind(rows, key, init, k);
      UpsertFind(UpsertAll(rows, key, init), key, x, k);
    }
  }
}

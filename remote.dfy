/**
 * The remote table store the two context providers talk to, reduced to what they
 * rely on: each table answers `select`, `select ... eq ... single`, `insert`,
 * `upsert`, `update ... eq('id')` and `delete ... eq('id')`, and any call may fail
 * with an error code. Which calls fail is fixed in advance by `faultAt`: the n-th
 * call a table receives (counting from 0) fails with `faultAt(n)` when that is
 * `Some(code)`. A failed call changes no row. Every call is recorded in `log`.
 */
module Remote {
  import opened Wrappers
  import opened Seqs
  import opened Keyed

  /** The two codes that mean "the table does not exist" (PostgREST's and Postgres's). */
  predicate IsMissingTable(code: string)
  {
    code == "PGRST205" || code == "42P01"
  }

  /** The code `.single()` answers with when the filter does not select exactly one row. */
  const NotExactlyOneRow := "PGRST116"

  /** One call received by a table, as its log records it. */
  datatype Call<T, K, P> =
    | Selected
    | SelectedWhere(filter: seq<(string, string)>)
    | Inserted(row: T)
    | Upserted(row: T)
    | Updated(key: K, patch: P)
    | Deleted(key: K)

  /** A row passes `.eq(c1, v1).eq(c2, v2)...` when every named column holds its value. */
  predicate MatchesFilter<T>(row: T, column: (T, string) -> Option<string>, filter: seq<(string, string)>)
  {
    forall i :: 0 <= i < |filter| ==> column(row, filter[i].0) == Some(filter[i].1)
  }

  function Matching<T>(rows: seq<T>, column: (T, string) -> Option<string>, filter: seq<(string, string)>): seq<T>
  {
    Filter(rows, x => MatchesFilter(x, column, filter))
  }

  /** The log entries of inserting `rows` one after the other. */
  function Inserts<T, K, P>(rows: seq<T>): (calls: seq<Call<T, K, P>>)
    ensures |calls| == |rows|
    ensures forall i :: 0 <= i < |rows| ==> calls[i] == Inserted(rows[i])
  {
    seq(|rows|, i requires 0 <= i < |rows| => Inserted(rows[i]))
  }

  /** The log entries of upserting `rows` one after the other. */
  function Upserts<T, K, P>(rows: seq<T>): (calls: seq<Call<T, K, P>>)
    ensures |calls| == |rows|
    ensures forall i :: 0 <= i < |rows| ==> calls[i] == Upserted(rows[i])
  {
    seq(|rows|, i requires 0 <= i < |rows| => Upserted(rows[i]))
  }

  /**
   * The rows a table gains when `batch` is inserted one row per call, the first
   * call being the table's call number `start`: those whose call met no fault.
   */
  function Accepted<T>(batch: seq<T>, start: nat, faultAt: nat -> Option<string>): seq<T>
  {
    if batch == [] then []
    else
      Accepted(batch[..|batch| - 1], start, faultAt)
      + (if faultAt(start + |batch| - 1).None? then [batch[|batch| - 1]] else [])
  }

  /** When none of the calls fails, every row of the batch is accepted, in order. */
  lemma {:induction false} AcceptedAll<T>(batch: seq<T>, start: nat, faultAt: nat -> Option<string>)
    requires forall n :: start <= n < start + |batch| ==> faultAt(n).None?
    ensures Accepted(batch, start, faultAt) == batch
  {
    if batch != [] {
      var init := batch[..|batch| - 1];
      AcceptedAll(init, start, faultAt);
      assert faultAt(start + |batch| - 1).None?;
      assert init + [batch[|batch| - 1]] == batch;
    }
  }

  /** Only rows of the batch are accepted, never more of them than were sent. */
  lemma {:induction false} AcceptedWithin<T>(batch: seq<T>, start: nat, faultAt: nat -> Option<string>)
    ensures |Accepted(batch, start, faultAt)| <= |batch|
    ensures forall i :: 0 <= i < |Accepted(batch, start, faultAt)| ==> Accepted(batch, start, faultAt)[i] in batch
  {
    if batch != [] {
      var init := batch[..|batch| - 1];
      AcceptedWithin(init, start, faultAt);
      forall x | x in init ensures x in batch {
        var i :| 0 <= i < |init| && init[i] == x;
        assert batch[i] == x;
      }
    }
  }

  /** `upsert(row)`: replace the rows with the same key, or append the row when there is none. */
  function UpsertInto<T, K(==)>(rows: seq<T>, key: T -> K, row: T): seq<T>
  {
    if FindByKey(rows, key, key(row)).Some? then MapWhere(rows, x => key(x) == key(row), x => row)
    else rows + [row]
  }

  /** After an upsert the row is present and no other row has been touched. */
  lemma UpsertIntoSpec<T, K>(rows: seq<T>, key: T -> K, row: T)
    ensures row in UpsertInto(rows, key, row)
    ensures forall i :: 0 <= i < |rows| && key(rows[i]) != key(row) ==> rows[i] in UpsertInto(rows, key, row)
    ensures FindByKey(rows, key, key(row)).None? ==> UpsertInto(rows, key, row) == rows + [row]
    ensures FindByKey(rows, key, key(row)).Some? ==> |UpsertInto(rows, key, row)| == |rows|
  {
    var r := UpsertInto(rows, key, row);
    FindByKeySpec(rows, key, key(row));
    if FindByKey(rows, key, key(row)).Some? {
      var i :| 0 <= i < |rows| && key(rows[i]) == key(row);
      assert r[i] == row;
      forall j | 0 <= j < |rows| && key(rows[j]) != key(row) ensures rows[j] in r {
        assert r[j] == rows[j];
      }
    } else {
      assert r[|rows|] == row;
      forall j | 0 <= j < |rows| ensures rows[j] in r {
        assert r[j] == rows[j];
      }
    }
  }

  /** The rows after upserting `batch` one row per call, the first being call number `start`. */
  function UpsertAll<T, K(==)>(rows: seq<T>, batch: seq<T>, start: nat, faultAt: nat -> Option<string>, key: T -> K): seq<T>
  {
    if batch == [] then rows
    else
      var before := UpsertAll(rows, batch[..|batch| - 1], start, faultAt, key);
      if faultAt(start + |batch| - 1).None? then UpsertInto(before, key, batch[|batch| - 1]) else before
  }

  /** One remote table of the store. */
  class Table<T(==), K(==), P(==)> {
    const name: string
    const key: T -> K
    const merge: (T, P) -> T
    const column: (T, string) -> Option<string>
    const faultAt: nat -> Option<string>
    var rows: seq<T>
    var log: seq<Call<T, K, P>>

    constructor (name: string, key: T -> K, merge: (T, P) -> T, column: (T, string) -> Option<string>,
                 faultAt: nat -> Option<string>, rows: seq<T>)
      ensures this.name == name && this.key == key && this.merge == merge && this.column == column
      ensures this.faultAt == faultAt && this.rows == rows && log == []
    {
      this.name := name;
      this.key := key;
      this.merge := merge;
      this.column := column;
      this.faultAt := faultAt;
      this.rows := rows;
      log := [];
    }

    /** The fault the next call will meet. */
    function NextFault(): Option<string>
      reads this
    {
      faultAt(|log|)
    }

    /** `select('*')`: all rows, or the error. */
    method Select() returns (res: Result<seq<T>>)
      modifies this
      ensures log == old(log) + [Selected] && rows == old(rows)
      ensures res == if old(NextFault()).Some? then Err(old(NextFault()).value) else Ok(rows)
    {
      var fault := NextFault();
      log := log + [Selected];
      if fault.Some? {
        res := Err(fault.value);
      } else {
        res := Ok(rows);
      }
    }

    /** `select('*').eq(..)...single()`: the one matching row, or an error. */
    method SelectSingle(filter: seq<(string, string)>) returns (res: Result<T>)
      modifies this
      ensures log == old(log) + [SelectedWhere(filter)] && rows == old(rows)
      ensures var found := Matching(rows, column, filter);
        res == if old(NextFault()).Some? then Err(old(NextFault()).value)
               else if |found| == 1 then Ok(found[0])
               else Err(NotExactlyOneRow)
    {
      var fault := NextFault();
      log := log + [SelectedWhere(filter)];
      var found := Matching(rows, column, filter);
      if fault.Some? {
        res := Err(fault.value);
      } else if |found| == 1 {
        res := Ok(found[0]);
      } else {
        res := Err(NotExactlyOneRow);
      }
    }

    /** `insert(row)`. */
    method Insert(row: T)
      modifies this
      ensures log == old(log) + [Inserted(row)]
      ensures rows == if old(NextFault()).None? then old(rows) + [row] else old(rows)
    {
      var fault := NextFault();
      log := log + [Inserted(row)];
      if fault.None? {
        rows := rows + [row];
      }
    }

    /** `upsert(row)`. */
    method Upsert(row: T)
      modifies this
      ensures log == old(log) + [Upserted(row)]
      ensures rows == if old(NextFault()).None? then UpsertInto(old(rows), key, row) else old(rows)
    {
      var fault := NextFault();
      log := log + [Upserted(row)];
      if fault.None? {
        rows := UpsertInto(rows, key, row);
      }
    }

    /** `update(patch).eq('id', k)`. */
    method Update(k: K, patch: P)
      modifies this
      ensures log == old(log) + [Updated(k, patch)]
      ensures rows == if old(NextFault()).None? then UpdateByKey(old(rows), key, k, merge, patch) else old(rows)
    {
      var fault := NextFault();
      log := log + [Updated(k, patch)];
      if fault.None? {
        rows := UpdateByKey(rows, key, k, merge, patch);
      }
    }

    /** `delete().eq('id', k)`. */
    method Delete(k: K)
      modifies this
      ensures log == old(log) + [Deleted(k)]
      ensures rows == if old(NextFault()).None? then RemoveByKey(old(rows), key, k) else old(rows)
    {
      var fault := NextFault();
      log := log + [Deleted(k)];
      if fault.None? {
        rows := RemoveByKey(rows, key, k);
      }
    }
  }
}

/**
 * The load step both context providers run against a table: select everything;
 * when the select succeeds with no rows, insert the seed rows one after the other
 * (a failed insert is ignored) and select again.
 */
module Sync {
  import opened Wrappers
  import opened Remote

  /** What one load of a table found: an error, the rows, or an empty table that was seeded. */
  datatype Load<T> = Failed(code: string) | Found(rows: seq<T>) | Seeded(reload: Result<seq<T>>)

  /**
   * The load of a table that holds `rows` and whose next call is call number `n`:
   * call n is the select; on an empty table calls n+1 .. n+|seeds| insert the seeds
   * and call n+|seeds|+1 selects again.
   */
  function Expected<T>(rows: seq<T>, seeds: seq<T>, n: nat, faultAt: nat -> Option<string>): Load<T>
  {
    if faultAt(n).Some? then Failed(faultAt(n).value)
    else if rows != [] then Found(rows)
    else
      var reloadAt := n + 1 + |seeds|;
      Seeded(if faultAt(reloadAt).Some? then Err(faultAt(reloadAt).value) else Ok(Accepted(seeds, n + 1, faultAt)))
  }

  /**
   * What a load does to the table: one select; and, when it seeded, one insert per
   * seed in order and a second select, the table keeping the accepted seeds.
   */
  ghost predicate LoadedTable<T, K, P>(
    rows0: seq<T>, log0: seq<Call<T, K, P>>, rows: seq<T>, log: seq<Call<T, K, P>>,
    seeds: seq<T>, faultAt: nat -> Option<string>)
  {
    if Expected(rows0, seeds, |log0|, faultAt).Seeded? then
      && log == log0 + [Selected] + Inserts(seeds) + [Selected]
      && rows == Accepted(seeds, |log0| + 1, faultAt)
    else
      log == log0 + [Selected] && rows == rows0
  }

  /** Select, and seed and reselect the table when it is empty. */
  method LoadWithSeed<T(==), K(==), P(==)>(t: Table<T, K, P>, seeds: seq<T>) returns (load: Load<T>)
    modifies t
    ensures load == Expected(old(t.rows), seeds, old(|t.log|), t.faultAt)
    ensures LoadedTable(old(t.rows), old(t.log), t.rows, t.log, seeds, t.faultAt)
  {
    var first := t.Select();
    if first.Err? {
      return Failed(first.code);
    }
    if first.value != [] {
      return Found(first.value);
    }
    ghost var start := |t.log|;
    ghost var head := t.log;
    var i := 0;
    while i < |seeds|
      invariant 0 <= i <= |seeds|
      invariant |t.log| == start + i
      invariant t.log == head + Inserts(seeds[..i])
      invariant t.rows == Accepted(seeds[..i], start, t.faultAt)
    {
      t.Insert(seeds[i]);
      assert seeds[..i + 1][..i] == seeds[..i];
      assert Inserts<T, K, P>(seeds[..i + 1]) == Inserts<T, K, P>(seeds[..i]) + [Inserted(seeds[i])];
      i := i + 1;
    }
    assert seeds[..|seeds|] == seeds;
    var again := t.Select();
    load := Seeded(again);
  }

  /**
   * Seeding on first deployment: an empty table whose calls all succeed ends up
   * holding exactly the seeds, and the next load finds them and inserts nothing.
   */
  lemma SeedingIsIdempotent<T>(seeds: seq<T>, n: nat, faultAt: nat -> Option<string>)
    requires forall m :: n <= m <= n + |seeds| + 2 ==> faultAt(m).None?
    ensures Expected([], seeds, n, faultAt) == Seeded(Ok(seeds))
    ensures seeds != [] ==> Expected(seeds, seeds, n + |seeds| + 2, faultAt) == Found(seeds)
  {
    AcceptedAll(seeds, n + 1, faultAt);
    assert faultAt(n + 1 + |seeds|).None?;
  }

  /**
   * A load over a table that already holds rows adds one select to the log and no
   * insert, and leaves the rows as they were, whatever the seeds and the faults.
   */
  lemma NoSeedWhenRowsExist<T, K, P>(
    rows0: seq<T>, log0: seq<Call<T, K, P>>, rows: seq<T>, log: seq<Call<T, K, P>>,
    seeds: seq<T>, faultAt: nat -> Option<string>)
    requires rows0 != []
    requires LoadedTable(rows0, log0, rows, log, seeds, faultAt)
    ensures rows == rows0
    ensures |log| == |log0| + 1 && log[..|log0|] == log0 && log[|log0|] == Selected
    ensures forall i :: |log0| <= i < |log| ==> !log[i].Inserted?
  {
  }

  /**
   * A load that seeds logs the first select, then one insert per seed row in the
   * seeds' order, then the second select.
   */
  lemma SeededLoadInserts<T, K, P>(
    rows0: seq<T>, log0: seq<Call<T, K, P>>, rows: seq<T>, log: seq<Call<T, K, P>>,
    seeds: seq<T>, faultAt: nat -> Option<string>)
    requires Expected(rows0, seeds, |log0|, faultAt).Seeded?
    requires LoadedTable(rows0, log0, rows, log, seeds, faultAt)
    ensures rows0 == [] && faultAt(|log0|).None?
    ensures |log| == |log0| + |seeds| + 2 && log[..|log0|] == log0
    ensures log[|log0|] == Selected && log[|log| - 1] == Selected
    ensures forall i :: 0 <= i < |seeds| ==> log[|log0| + 1 + i] == Inserted(seeds[i])
  {
    var tail := [Selected] + Inserts<T, K, P>(seeds) + [Selected];
    assert log == log0 + tail;
    forall i | 0 <= i < |seeds| ensures log[|log0| + 1 + i] == Inserted(seeds[i]) {
      assert tail[1 + i] == Inserts<T, K, P>(seeds)[i];
    }
  }
}

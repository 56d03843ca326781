/**
 * The array operations the source builds its caches and views from:
 * `find`, `filter` and `map` with a conditional, as pure functions on sequences.
 */
module Seqs {
  import opened Wrappers

  /** Index of the first element satisfying `p` (what `findIndex` computes). */
  function IndexOf<T>(s: seq<T>, p: T -> bool): (r: Option<nat>)
    ensures r.Some? ==> r.value < |s| && p(s[r.value])
    ensures r.Some? ==> forall j :: 0 <= j < r.value ==> !p(s[j])
    ensures r.None? <==> forall j :: 0 <= j < |s| ==> !p(s[j])
  {
    if s == [] then None
    else if p(s[0]) then Some(0)
    else match IndexOf(s[1..], p)
      case None => None
      case Some(i) => Some(i + 1)
  }

  /** `Array.prototype.find`: the first element satisfying `p`, if any. */
  function Find<T>(s: seq<T>, p: T -> bool): (r: Option<T>)
  {
    match IndexOf(s, p)
    case None => None
    case Some(i) => Some(s[i])
  }

  /** `Array.prototype.filter`: the elements satisfying `keep`, in their order. */
  function Filter<T>(s: seq<T>, keep: T -> bool): (r: seq<T>)
    ensures |r| <= |s|
    ensures forall i :: 0 <= i < |r| ==> r[i] in s && keep(r[i])
    ensures forall i :: 0 <= i < |s| && keep(s[i]) ==> s[i] in r
  {
    if s == [] then []
    else (if keep(s[0]) then [s[0]] else []) + Filter(s[1..], keep)
  }

  /** `s.map(x => hit(x) ? f(x) : x)`: rewrite the elements `hit` selects, keep the others. */
  function MapWhere<T>(s: seq<T>, hit: T -> bool, f: T -> T): (r: seq<T>)
  {
    seq(|s|, i requires 0 <= i < |s| => if hit(s[i]) then f(s[i]) else s[i])
  }

  /** `find` returns an element satisfying `p`, the first one, and nothing only when none does. */
  lemma FindSpec<T>(s: seq<T>, p: T -> bool)
    ensures Find(s, p).Some? ==> Find(s, p).value in s && p(Find(s, p).value)
    ensures Find(s, p).None? <==> forall x :: x in s ==> !p(x)
    ensures Find(s, p).Some? ==>
      exists i :: 0 <= i < |s| && s[i] == Find(s, p).value && forall j :: 0 <= j < i ==> !p(s[j])
  {
    if Find(s, p).None? {
      forall x | x in s ensures !p(x) {
        var k :| 0 <= k < |s| && s[k] == x;
      }
    } else {
      var i := IndexOf(s, p).value;
      assert s[i] == Find(s, p).value;
    }
  }

  /** An element put in front is the one `find` returns when it satisfies `p`. */
  lemma FindFront<T>(x: T, s: seq<T>, p: T -> bool)
    requires p(x)
    ensures Find([x] + s, p) == Some(x)
  {
    assert ([x] + s)[0] == x;
  }

  /** Filtering distributes over concatenation, so the kept elements stay in their order. */
  lemma {:induction false} FilterAppend<T>(a: seq<T>, b: seq<T>, keep: T -> bool)
    ensures Filter(a + b, keep) == Filter(a, keep) + Filter(b, keep)
  {
    if a == [] {
      assert a + b == b;
    } else {
      assert (a + b)[0] == a[0];
      assert (a + b)[1..] == a[1..] + b;
      FilterAppend(a[1..], b, keep);
    }
  }

  /** A filter that keeps every element is the identity. */
  lemma {:induction false} FilterKeepsAll<T>(s: seq<T>, keep: T -> bool)
    requires forall i :: 0 <= i < |s| ==> keep(s[i])
    ensures Filter(s, keep) == s
  {
    if s != [] {
      FilterKeepsAll(s[1..], keep);
    }
  }

  /** When nothing is selected, `MapWhere` changes nothing. */
  lemma MapWhereNoHit<T>(s: seq<T>, hit: T -> bool, f: T -> T)
    requires forall x :: x in s ==> !hit(x)
    ensures MapWhere(s, hit, f) == s
  {
    var r := MapWhere(s, hit, f);
    forall i | 0 <= i < |s| ensures r[i] == s[i] {
      assert s[i] in s;
    }
  }
}

/**
 * The same operations on rows identified by a key (the `id` column): what
 * `find(r => r.id === id)`, `filter(r => r.id !== id)` and
 * `map(r => r.id === id ? {...r, ...p} : r)` compute, for caches and tables alike.
 */
module Keyed {
  import opened Wrappers
  import opened Seqs

  function FindByKey<T, K(==)>(rows: seq<T>, key: T -> K, k: K): Option<T>
  {
    Find(rows, x => key(x) == k)
  }

  function RemoveByKey<T, K(==)>(rows: seq<T>, key: T -> K, k: K): seq<T>
  {
    Filter(rows, x => key(x) != k)
  }

  function UpdateByKey<T, K(==), P>(rows: seq<T>, key: T -> K, k: K, merge: (T, P) -> T, p: P): seq<T>
  {
    MapWhere(rows, x => key(x) == k, x => merge(x, p))
  }

  /** Lookup by key returns a row with that key, the first one, and nothing only when none has it. */
  lemma FindByKeySpec<T, K>(rows: seq<T>, key: T -> K, k: K)
    ensures FindByKey(rows, key, k).Some? ==>
      exists i :: 0 <= i < |rows| && rows[i] == FindByKey(rows, key, k).value && key(rows[i]) == k &&
        forall j :: 0 <= j < i ==> key(rows[j]) != k
    ensures FindByKey(rows, key, k).None? <==> forall i :: 0 <= i < |rows| ==> key(rows[i]) != k
  {
    FindSpec(rows, x => key(x) == k);
    if FindByKey(rows, key, k).None? {
      forall i | 0 <= i < |rows| ensures key(rows[i]) != k {
        assert rows[i] in rows;
      }
    }
  }

  /** A row put in front is what lookup by its own key returns. */
  lemma FindByKeyFront<T, K>(x: T, rows: seq<T>, key: T -> K)
    ensures FindByKey([x] + rows, key, key(x)) == Some(x)
  {
    FindFront(x, rows, y => key(y) == key(x));
  }

  /**
   * Removal by key: afterwards no row has the key and lookup finds nothing; every
   * row with another key is kept; removal commutes with concatenation (order is
   * kept); and it changes nothing when no row has the key.
   */
  lemma RemoveByKeySpec<T, K>(rows: seq<T>, key: T -> K, k: K)
    ensures forall i :: 0 <= i < |RemoveByKey(rows, key, k)| ==> key(RemoveByKey(rows, key, k)[i]) != k
    ensures FindByKey(RemoveByKey(rows, key, k), key, k).None?
    ensures forall i :: 0 <= i < |rows| && key(rows[i]) != k ==> rows[i] in RemoveByKey(rows, key, k)
    ensures (forall i :: 0 <= i < |rows| ==> key(rows[i]) != k) ==> RemoveByKey(rows, key, k) == rows
  {
    var r := RemoveByKey(rows, key, k);
    FindByKeySpec(r, key, k);
    if forall i :: 0 <= i < |rows| ==> key(rows[i]) != k {
      FilterKeepsAll(rows, x => key(x) != k);
    }
  }

  /** Removal by key keeps the surviving rows in their order. */
  lemma RemoveByKeyAppend<T, K>(a: seq<T>, b: seq<T>, key: T -> K, k: K)
    ensures RemoveByKey(a + b, key, k) == RemoveByKey(a, key, k) + RemoveByKey(b, key, k)
  {
    FilterAppend(a, b, x => key(x) != k);
  }

  /**
   * Update by key keeps length and order, merges the patch into every row with the
   * key, leaves every other row as it was, and is a no-op when no row has the key.
   */
  lemma UpdateByKeySpec<T, K, P>(rows: seq<T>, key: T -> K, k: K, merge: (T, P) -> T, p: P)
    ensures |UpdateByKey(rows, key, k, merge, p)| == |rows|
    ensures forall i :: 0 <= i < |rows| ==>
      UpdateByKey(rows, key, k, merge, p)[i] == if key(rows[i]) == k then merge(rows[i], p) else rows[i]
    ensures (forall i :: 0 <= i < |rows| ==> key(rows[i]) != k) ==> UpdateByKey(rows, key, k, merge, p) == rows
  {
    if forall i :: 0 <= i < |rows| ==> key(rows[i]) != k {
      forall x | x in rows ensures key(x) != k {
        var i :| 0 <= i < |rows| && rows[i] == x;
      }
      MapWhereNoHit(rows, x => key(x) == k, x => merge(x, p));
    }
  }
}

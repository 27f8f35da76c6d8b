/**
 * Positional operations on the ordered record lists of the store:
 * the `findIndex` scan, the first-match replacement done by `splice`,
 * and the last-write-wins lookup tables the join builds in plain objects.
 * Each is generic in the row type and in the key a row is looked up by.
 */
module Rows {
  import opened Wrappers

  /** `rows.findIndex(r => key(r) === k)`: the first index whose key is `k`, or -1. */
  method FindIndex<T, K(==)>(rows: seq<T>, key: T -> K, k: K) returns (index: int)
    ensures -1 <= index < |rows|
    ensures index == -1 <==> forall i :: 0 <= i < |rows| ==> key(rows[i]) != k
    ensures 0 <= index ==> key(rows[index]) == k
    ensures forall j :: 0 <= j < index ==> key(rows[j]) != k
  {
    index := 0;
    while index < |rows|
      invariant 0 <= index <= |rows|
      invariant forall j :: 0 <= j < index ==> key(rows[j]) != k
    {
      if key(rows[index]) == k {
        return;
      }
      index := index + 1;
    }
    index := -1;
  }

  /** True when `i` is the first position of `rows` whose key is `k`. */
  ghost predicate FirstMatch<T, K>(rows: seq<T>, key: T -> K, k: K, i: int)
  {
    && 0 <= i < |rows|
    && key(rows[i]) == k
    && forall j :: 0 <= j < i ==> key(rows[j]) != k
  }

  /**
   * The list after an update by key: the first row whose key equals the key
   * of `upd` is replaced by `upd`; without such a row the list is unchanged.
   */
  function ReplaceFirst<T, K(==)>(rows: seq<T>, key: T -> K, upd: T): (r: seq<T>)
    ensures |r| == |rows|
  {
    if rows == [] then []
    else if key(rows[0]) == key(upd) then [upd] + rows[1..]
    else [rows[0]] + ReplaceFirst(rows[1..], key, upd)
  }

  /** At the first match, the update is a replacement at that one position. */
  lemma {:induction false} ReplaceFirstAt<T, K>(rows: seq<T>, key: T -> K, upd: T, i: int)
    requires FirstMatch(rows, key, key(upd), i)
    ensures ReplaceFirst(rows, key, upd) == rows[i := upd]
  {
    if i > 0 {
      ReplaceFirstAt(rows[1..], key, upd, i - 1);
      assert [rows[0]] + rows[1..][i - 1 := upd] == rows[i := upd];
    }
  }

  /** With no row carrying the key of `upd`, the update leaves the list as it was. */
  lemma {:induction false} ReplaceFirstMissing<T, K>(rows: seq<T>, key: T -> K, upd: T)
    requires forall i :: 0 <= i < |rows| ==> key(rows[i]) != key(upd)
    ensures ReplaceFirst(rows, key, upd) == rows
  {
    if rows != [] {
      ReplaceFirstMissing(rows[1..], key, upd);
      assert [rows[0]] + rows[1..] == rows;
    }
  }

  /**
   * Two updates with the same key issued back to back: the second overwrites the
   * first, whatever their payloads, so only the second is seen.
   */
  lemma {:induction false} ReplaceFirstOverwrites<T, K>(rows: seq<T>, key: T -> K, u1: T, u2: T)
    requires key(u1) == key(u2)
    ensures ReplaceFirst(ReplaceFirst(rows, key, u1), key, u2) == ReplaceFirst(rows, key, u2)
  {
    if rows != [] && key(rows[0]) != key(u1) {
      ReplaceFirstOverwrites(rows[1..], key, u1, u2);
      assert ([rows[0]] + ReplaceFirst(rows[1..], key, u1))[1..] == ReplaceFirst(rows[1..], key, u1);
    } else if rows != [] {
      assert ([u1] + rows[1..])[1..] == rows[1..];
    }
  }

  /** Applying the same update twice has the effect of applying it once. */
  lemma ReplaceFirstIdempotent<T, K>(rows: seq<T>, key: T -> K, upd: T)
    ensures ReplaceFirst(ReplaceFirst(rows, key, upd), key, upd) == ReplaceFirst(rows, key, upd)
  {
    ReplaceFirstOverwrites(rows, key, upd, upd);
  }

  /** The last index whose key is `k`, or -1: the row a plain-object table keeps for `k`. */
  function LastIndex<T, K(==)>(rows: seq<T>, key: T -> K, k: K): (i: int)
    ensures -1 <= i < |rows|
    ensures i == -1 <==> forall j :: 0 <= j < |rows| ==> key(rows[j]) != k
    ensures 0 <= i ==> key(rows[i]) == k
    ensures forall j :: i < j < |rows| ==> key(rows[j]) != k
  {
    if rows == [] then -1
    else if key(rows[|rows| - 1]) == k then |rows| - 1
    else LastIndex(rows[..|rows| - 1], key, k)
  }

  /**
   * What `table[k]` reads after `rows.forEach(r => table[key(r)] = value(r))`:
   * the value of the last row keyed `k`, and `None` (undefined) when there is none.
   */
  function LastValue<T, K(==), V>(rows: seq<T>, key: T -> K, value: T -> Option<V>, k: K): (r: Option<V>)
    ensures (forall j :: 0 <= j < |rows| ==> key(rows[j]) != k) ==> r == None
    ensures forall i :: 0 <= i < |rows| && key(rows[i]) == k && (forall j :: i < j < |rows| ==> key(rows[j]) != k)
                        ==> r == value(rows[i])
  {
    var i := LastIndex(rows, key, k);
    if i < 0 then None else value(rows[i])
  }

  /** Appending a row changes what its own key reads, and nothing else. */
  lemma LastValueAppend<T, K, V>(rows: seq<T>, key: T -> K, value: T -> Option<V>, row: T, k: K)
    ensures LastValue(rows + [row], key, value, k) == if key(row) == k then value(row) else LastValue(rows, key, value, k)
  {
    assert (rows + [row])[..|rows|] == rows;
  }

  /** Reading a plain-object table: an absent key reads as `undefined`. */
  function Lookup<K, V>(table: map<K, Option<V>>, k: K): (r: Option<V>)
    ensures k !in table ==> r == None
    ensures r.Some? ==> k in table && table[k] == r
  {
    if k in table then table[k] else None
  }

  /** Fills a lookup table row by row, a later row overwriting an earlier one with the same key. */
  method BuildTable<T, K(==), V>(rows: seq<T>, key: T -> K, value: T -> Option<V>) returns (table: map<K, Option<V>>)
    ensures forall k :: k in table <==> exists i :: 0 <= i < |rows| && key(rows[i]) == k
    ensures forall k :: Lookup(table, k) == LastValue(rows, key, value, k)
  {
    table := map[];
    var n := 0;
    while n < |rows|
      invariant 0 <= n <= |rows|
      invariant forall k :: k in table <==> exists i :: 0 <= i < n && key(rows[i]) == k
      invariant forall k :: Lookup(table, k) == LastValue(rows[..n], key, value, k)
    {
      var row := rows[n];
      table := table[key(row) := value(row)];
      assert rows[..n + 1] == rows[..n] + [row];
      forall k ensures Lookup(table, k) == LastValue(rows[..n + 1], key, value, k) {
        LastValueAppend(rows[..n], key, value, row, k);
      }
      n := n + 1;
    }
    assert rows[..n] == rows;
  }
}

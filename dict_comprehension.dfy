/**
 * Python's dict comprehension `{key(x): val(x) for x in items}`. It inserts the
 * items into an empty dict from left to right, so where two items share a key
 * the later one's value is the one kept (last write wins).
 */
module DictComprehension {

  /**
   * The comprehension's evaluation: `acc` after inserting each of `items` in
   * order. No key of `acc` is lost, and the final item's value is always the one
   * stored under its key.
   */
  function InsertAll<T, K, V>(acc: map<K, V>, items: seq<T>, key: T -> K, val: T -> V): (r: map<K, V>)
    ensures acc.Keys <= r.Keys
    ensures items != [] ==> key(items[|items| - 1]) in r && r[key(items[|items| - 1])] == val(items[|items| - 1])
    decreases |items|
  {
    if items == [] then acc
    else InsertAll(acc[key(items[0]) := val(items[0])], items[1..], key, val)
  }

  /** The keys the items produce. */
  function KeysOf<T, K>(items: seq<T>, key: T -> K): set<K>
  {
    set i | 0 <= i < |items| :: key(items[i])
  }

  /** No item after position `i` has the key of the item at `i`. */
  ghost predicate LastWithKey<T, K>(items: seq<T>, key: T -> K, i: int)
    requires 0 <= i < |items|
  {
    forall j :: i < j < |items| ==> key(items[j]) != key(items[i])
  }

  /**
   * `{key(x): val(x) for x in items}`. Its keys are exactly the items' keys; each
   * entry is the value of the last item with that key; there are at most as many
   * entries as items.
   */
  function DictFrom<T, K, V>(items: seq<T>, key: T -> K, val: T -> V): (m: map<K, V>)
    ensures m.Keys == KeysOf(items, key)
    ensures |m| <= |items|
    ensures forall i :: 0 <= i < |items| && LastWithKey(items, key, i) ==> m[key(items[i])] == val(items[i])
    ensures forall k :: k in m ==> exists i :: 0 <= i < |items| && key(items[i]) == k && m[k] == val(items[i])
  {
    InsertAllKeys(map[], items, key, val);
    KeysOfSize(items, key);
    InsertAllLastWins(map[], items, key, val);
    InsertAllOrigin(map[], items, key, val);
    InsertAll(map[], items, key, val)
  }

  lemma KeysOfCons<T, K>(items: seq<T>, key: T -> K)
    requires items != []
    ensures KeysOf(items, key) == {key(items[0])} + KeysOf(items[1..], key)
  {
    var rest := items[1..];
    forall k | k in KeysOf(items, key) ensures k in {key(items[0])} + KeysOf(rest, key) {
      var i :| 0 <= i < |items| && key(items[i]) == k;
      if i > 0 {
        assert key(rest[i - 1]) == k;
      }
    }
    forall k | k in KeysOf(rest, key) ensures k in KeysOf(items, key) {
      var i :| 0 <= i < |rest| && key(rest[i]) == k;
      assert key(items[i + 1]) == k;
    }
  }

  /** Inserting the items adds exactly their keys. */
  lemma {:induction false} InsertAllKeys<T, K, V>(acc: map<K, V>, items: seq<T>, key: T -> K, val: T -> V)
    ensures InsertAll(acc, items, key, val).Keys == acc.Keys + KeysOf(items, key)
    decreases |items|
  {
    if items != [] {
      InsertAllKeys(acc[key(items[0]) := val(items[0])], items[1..], key, val);
      KeysOfCons(items, key);
    }
  }

  /** A key none of the items has keeps its entry. */
  lemma {:induction false} InsertAllUntouched<T, K, V>(acc: map<K, V>, items: seq<T>, key: T -> K, val: T -> V, k: K)
    requires k in acc && k !in KeysOf(items, key)
    ensures InsertAll(acc, items, key, val)[k] == acc[k]
    decreases |items|
  {
    if items != [] {
      KeysOfCons(items, key);
      InsertAllUntouched(acc[key(items[0]) := val(items[0])], items[1..], key, val, k);
    }
  }

  /** The last item with a key decides that key's value. */
  lemma {:induction false} InsertAllLastWins<T, K, V>(acc: map<K, V>, items: seq<T>, key: T -> K, val: T -> V)
    ensures forall i :: 0 <= i < |items| && LastWithKey(items, key, i) ==>
      key(items[i]) in InsertAll(acc, items, key, val) && InsertAll(acc, items, key, val)[key(items[i])] == val(items[i])
    decreases |items|
  {
    if items != [] {
      var acc' := acc[key(items[0]) := val(items[0])];
      var rest := items[1..];
      InsertAllLastWins(acc', rest, key, val);
      forall i | 0 <= i < |items| && LastWithKey(items, key, i)
        ensures key(items[i]) in InsertAll(acc, items, key, val)
        ensures InsertAll(acc, items, key, val)[key(items[i])] == val(items[i])
      {
        if i == 0 {
          InsertAllUntouched(acc', rest, key, val, key(items[0]));
        } else {
          assert items[i] == rest[i - 1];
          assert LastWithKey(rest, key, i - 1) by {
            forall j | i - 1 < j < |rest| ensures key(rest[j]) != key(rest[i - 1]) {
              assert rest[j] == items[j + 1];
            }
          }
        }
      }
    }
  }

  /** Every entry the items produce carries the value of an item with that key. */
  lemma {:induction false} InsertAllOrigin<T, K, V>(acc: map<K, V>, items: seq<T>, key: T -> K, val: T -> V)
    ensures forall k :: k in InsertAll(acc, items, key, val) ==>
      (exists i :: 0 <= i < |items| && key(items[i]) == k && InsertAll(acc, items, key, val)[k] == val(items[i]))
      || (k in acc && InsertAll(acc, items, key, val)[k] == acc[k])
    decreases |items|
  {
    if items != [] {
      var acc' := acc[key(items[0]) := val(items[0])];
      var rest := items[1..];
      var m := InsertAll(acc, items, key, val);
      assert m == InsertAll(acc', rest, key, val);
      InsertAllOrigin(acc', rest, key, val);
      forall k | k in m
        ensures (exists i :: 0 <= i < |items| && key(items[i]) == k && m[k] == val(items[i]))
          || (k in acc && m[k] == acc[k])
      {
        if j :| 0 <= j < |rest| && key(rest[j]) == k && m[k] == val(rest[j]) {
          assert items[j + 1] == rest[j];
        } else if k == key(items[0]) {
          assert m[k] == val(items[0]);
        }
      }
    }
  }

  /** There are no more distinct keys than items. */
  lemma {:induction false} KeysOfSize<T, K>(items: seq<T>, key: T -> K)
    ensures |KeysOf(items, key)| <= |items|
    decreases |items|
  {
    if items != [] {
      KeysOfCons(items, key);
      KeysOfSize(items[1..], key);
    }
  }
}

/** Grouping rows by a key, as `groupby` does: keys ascending, each group in table order. */
module Grouping {
  import opened Sorting

  function RowsOf<T>(table: seq<T>, key: T -> int, k: int): seq<T> {
    if table == [] then []
    else
      var row := table[|table| - 1];
      RowsOf(table[..|table| - 1], key, k) + if key(row) == k then [row] else []
  }

  /** Inserts a key in its place, once. */
  function InsertKey(keys: seq<int>, k: int): seq<int> {
    if keys == [] then [k]
    else
      var last := keys[|keys| - 1];
      if last < k then keys + [k] else if last == k then keys else InsertKey(keys[..|keys| - 1], k) + [last]
  }

  lemma {:induction false} InsertKeepsOrder(keys: seq<int>, k: int)
    requires StrictlyAscending(keys)
    ensures StrictlyAscending(InsertKey(keys, k))
    ensures forall x :: x in InsertKey(keys, k) <==> x in keys || x == k
  {
    if keys != [] {
      var front, last := keys[..|keys| - 1], keys[|keys| - 1];
      assert keys == front + [last];
      if last > k {
        InsertKeepsOrder(front, k);
        var inner := InsertKey(front, k);
        forall i | 0 <= i < |inner| ensures inner[i] < last { assert inner[i] in inner; }
      }
    }
  }

  /** The keys that occur, each once, in order. */
  function KeysOf<T>(table: seq<T>, key: T -> int): seq<int> {
    if table == [] then [] else InsertKey(KeysOf(table[..|table| - 1], key), key(table[|table| - 1]))
  }

  lemma {:induction false} KeysExactly<T>(table: seq<T>, key: T -> int)
    ensures StrictlyAscending(KeysOf(table, key))
    ensures forall k :: k in KeysOf(table, key) <==> exists row :: row in table && key(row) == k
  {
    if table != [] {
      var front, last := table[..|table| - 1], table[|table| - 1];
      KeysExactly(front, key);
      InsertKeepsOrder(KeysOf(front, key), key(last));
      assert forall row :: row in table <==> row in front || row == last;
    }
  }

  lemma {:induction false} RowsExactly<T>(table: seq<T>, key: T -> int, k: int)
    ensures forall row :: row in RowsOf(table, key, k) <==> row in table && key(row) == k
    ensures RowsOf(table, key, k) == [] <==> forall row :: row in table ==> key(row) != k
  {
    if table != [] {
      var front, last := table[..|table| - 1], table[|table| - 1];
      RowsExactly(front, key, k);
      assert forall row :: row in table <==> row in front || row == last;
    }
  }

  /** The groups of these keys, one after the other. */
  function InKeyOrder<T>(table: seq<T>, key: T -> int, keys: seq<int>): seq<T> {
    if keys == [] then []
    else InKeyOrder(table, key, keys[..|keys| - 1]) + RowsOf(table, key, keys[|keys| - 1])
  }

  lemma {:induction false} OtherGroupsUnchanged<T>(table: seq<T>, key: T -> int, keys: seq<int>)
    requires table != [] && forall k :: k in keys ==> k != key(table[|table| - 1])
    ensures InKeyOrder(table, key, keys) == InKeyOrder(table[..|table| - 1], key, keys)
  {
    if keys != [] {
      var front := keys[..|keys| - 1];
      assert keys[|keys| - 1] in keys && forall k :: k in front ==> k in keys;
      OtherGroupsUnchanged(table, key, front);
    }
  }

  /** Laid end to end in key order, the groups of a table sorted by key are the table again. */
  lemma {:induction false} GroupsAreLossless<T>(table: seq<T>, key: T -> int)
    requires Sorted(table, key)
    ensures InKeyOrder(table, key, KeysOf(table, key)) == table
  {
    if table != [] {
      var front := table[..|table| - 1];
      GroupsAreLossless(front, key);
      KeysExactly(front, key);
      KeysUpToLast(table, key, KeysOf(front, key));
      LastRow(table, key, KeysOf(front, key));
      assert front + [table[|table| - 1]] == table;
    }
  }

  lemma KeysUpToLast<T>(table: seq<T>, key: T -> int, keys: seq<int>)
    requires table != [] && Sorted(table, key) && keys == KeysOf(table[..|table| - 1], key)
    ensures forall k :: k in keys ==> k <= key(table[|table| - 1])
    ensures var k := key(table[|table| - 1]); k !in keys ==> RowsOf(table[..|table| - 1], key, k) == []
  {
    var front := table[..|table| - 1];
    KeysExactly(front, key);
    RowsExactly(front, key, key(table[|table| - 1]));
    forall k | k in keys ensures k <= key(table[|table| - 1]) {
      var row :| row in front && key(row) == k;
      var i :| 0 <= i < |front| && front[i] == row;
      assert key(table[i]) <= key(table[|table| - 1]);
    }
  }

  lemma LastRow<T>(table: seq<T>, key: T -> int, keys: seq<int>)
    requires table != [] && StrictlyAscending(keys) && forall k :: k in keys ==> k <= key(table[|table| - 1])
    requires var k := key(table[|table| - 1]); k !in keys ==> RowsOf(table[..|table| - 1], key, k) == []
    ensures InKeyOrder(table, key, InsertKey(keys, key(table[|table| - 1])))
         == InKeyOrder(table[..|table| - 1], key, keys) + [table[|table| - 1]]
  {
    var k := key(table[|table| - 1]);
    InsertAtEnd(keys, k);
    if k in keys {
      var others := SplitLast(keys);
      GrownGroup(table, key, others, k);
    } else {
      NewGroup(table, key, keys, k);
    }
  }

  lemma InsertAtEnd(keys: seq<int>, k: int)
    requires StrictlyAscending(keys) && forall x :: x in keys ==> x <= k
    ensures k in keys ==> keys[|keys| - 1] == k && InsertKey(keys, k) == keys
    ensures k !in keys ==> InsertKey(keys, k) == keys + [k]
  {
    if keys != [] { assert keys[|keys| - 1] in keys; }
  }

  lemma SplitLast(keys: seq<int>) returns (others: seq<int>)
    requires keys != [] && StrictlyAscending(keys)
    ensures keys == others + [keys[|keys| - 1]] && keys[|keys| - 1] !in others
  {
    others := keys[..|keys| - 1];
  }

  lemma LastKey<T>(table: seq<T>, key: T -> int, others: seq<int>, k: int)
    ensures InKeyOrder(table, key, others + [k]) == InKeyOrder(table, key, others) + RowsOf(table, key, k)
  {
    assert (others + [k])[..|others|] == others;
  }

  lemma LastRowOf<T>(table: seq<T>, key: T -> int)
    requires table != []
    ensures var last := table[|table| - 1];
      RowsOf(table, key, key(last)) == RowsOf(table[..|table| - 1], key, key(last)) + [last]
  {
  }

  /** A last row whose key is the last of the keys extends the last group. */
  lemma GrownGroup<T>(table: seq<T>, key: T -> int, others: seq<int>, k: int)
    requires table != [] && k == key(table[|table| - 1]) && k !in others
    ensures InKeyOrder(table, key, others + [k])
         == InKeyOrder(table[..|table| - 1], key, others + [k]) + [table[|table| - 1]]
  {
    OtherGroupsUnchanged(table, key, others);
    LastKey(table, key, others, k);
    LastKey(table[..|table| - 1], key, others, k);
    LastRowOf(table, key);
    Associate(InKeyOrder(table, key, others), RowsOf(table[..|table| - 1], key, k), [table[|table| - 1]]);
  }

  lemma Associate<T>(a: seq<T>, b: seq<T>, c: seq<T>)
    ensures a + (b + c) == (a + b) + c
  {
  }

  /** A last row with a new key makes a group of its own. */
  lemma NewGroup<T>(table: seq<T>, key: T -> int, keys: seq<int>, k: int)
    requires table != [] && k == key(table[|table| - 1]) && k !in keys
    requires RowsOf(table[..|table| - 1], key, k) == []
    ensures InKeyOrder(table, key, keys + [k]) == InKeyOrder(table[..|table| - 1], key, keys) + [table[|table| - 1]]
  {
    OtherGroupsUnchanged(table, key, keys);
    LastKey(table, key, keys, k);
    LastRowOf(table, key);
  }
}

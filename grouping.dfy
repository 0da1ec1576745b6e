/** Grouping a sequence of (key, value) pairs into an insertion-ordered
    dictionary of lists, as the `data[key].append(value)` loops of
    utils/stats.py do. A Python dict iterates in insertion order, so the
    dictionary is its key order plus its table. */
module Grouping {

  datatype Groups<K, V> = Groups(keys: seq<K>, table: map<K, seq<V>>)

  /** One `append` into the dictionary, creating the list on first sight. */
  function Add<K(==), V>(g: Groups<K, V>, item: (K, V)): Groups<K, V> {
    if item.0 in g.table then Groups(g.keys, g.table[item.0 := g.table[item.0] + [item.1]])
    else Groups(g.keys + [item.0], g.table[item.0 := [item.1]])
  }

  /** The dictionary after appending every item in order. */
  function GroupBy<K(==), V>(items: seq<(K, V)>): Groups<K, V> {
    if items == [] then Groups([], map[])
    else Add(GroupBy(items[..|items| - 1]), items[|items| - 1])
  }

  // ------------------------------------------------ reference definitions

  /** The values of the items whose key is k, in input order. */
  function ValuesOf<K(==), V>(items: seq<(K, V)>, k: K): seq<V> {
    if items == [] then []
    else
      var last := items[|items| - 1];
      ValuesOf(items[..|items| - 1], k) + (if last.0 == k then [last.1] else [])
  }

  predicate HasKey<K(==), V>(items: seq<(K, V)>, k: K) {
    exists i | 0 <= i < |items| :: items[i].0 == k
  }

  /** The position of the first item with key k. */
  function FirstIndex<K(==), V>(items: seq<(K, V)>, k: K): (r: nat)
    requires HasKey(items, k)
    ensures r < |items| && items[r].0 == k
    ensures forall i | 0 <= i < r :: items[i].0 != k
  {
    if items[0].0 == k then 0
    else
      assert HasKey(items[1..], k) by {
        var i :| 0 <= i < |items| && items[i].0 == k;
        assert items[1..][i - 1].0 == k;
      }
      1 + FirstIndex(items[1..], k)
  }

  predicate Distinct<K(==)>(s: seq<K>) {
    forall i, j | 0 <= i < j < |s| :: s[i] != s[j]
  }

  /** The total length of the lists, key by key. */
  function TotalSize<K(==), V>(keys: seq<K>, table: map<K, seq<V>>): nat
    requires forall k | k in keys :: k in table
  {
    if keys == [] then 0
    else TotalSize(keys[..|keys| - 1], table) + |table[keys[|keys| - 1]]|
  }

  /** g lists each key present in items exactly once, its table has exactly
      those keys, and each list holds that key's values in input order. */
  ghost predicate Grouped<K, V>(items: seq<(K, V)>, g: Groups<K, V>) {
    Distinct(g.keys)
    && (forall k | k in g.table :: k in g.keys && HasKey(items, k))
    && (forall k | k in g.keys :: k in g.table)
    && (forall i | 0 <= i < |items| :: items[i].0 in g.table)
    && (forall k | k in g.table :: g.table[k] == ValuesOf(items, k) && g.table[k] != [])
  }

  /** The keys occur in items and are listed in the order of their first
      occurrence. */
  ghost predicate FirstSeen<K, V>(items: seq<(K, V)>, keys: seq<K>) {
    (forall i | 0 <= i < |keys| :: HasKey(items, keys[i]))
    && forall i, j | 0 <= i < j < |keys| :: FirstIndex(items, keys[i]) < FirstIndex(items, keys[j])
  }

  // --------------------------------------------------------------- lemmas

  /** The dictionary groups its input. */
  lemma {:induction false} GroupByContents<K, V>(items: seq<(K, V)>)
    ensures Grouped(items, GroupBy(items))
  {
    if items != [] {
      var p := items[..|items| - 1];
      GroupByContents(p);
      GroupedAdd(items, GroupBy(p));
    }
  }

  /** Appending one item to a grouping of the prefix groups the whole. */
  lemma GroupedAdd<K, V>(items: seq<(K, V)>, g: Groups<K, V>)
    requires items != [] && Grouped(items[..|items| - 1], g)
    ensures Grouped(items, Add(g, items[|items| - 1]))
  {
    var n := |items| - 1;
    var p, x := items[..n], items[n];
    var h := Add(g, x);
    assert Distinct(h.keys);
    forall k | k in h.table
      ensures k in h.keys && HasKey(items, k)
    {
      if k != x.0 {
        var i :| 0 <= i < |p| && p[i].0 == k;
        assert items[i].0 == k;
      } else {
        assert items[n].0 == k;
      }
    }
    forall i | 0 <= i < |items|
      ensures items[i].0 in h.table
    {
      if i < n {
        assert items[i] == p[i];
      }
    }
    GroupedAddValues(items, g);
  }

  lemma GroupedAddValues<K, V>(items: seq<(K, V)>, g: Groups<K, V>)
    requires items != [] && Grouped(items[..|items| - 1], g)
    ensures var h := Add(g, items[|items| - 1]);
      forall k | k in h.table :: h.table[k] == ValuesOf(items, k) && h.table[k] != []
  {
    var n := |items| - 1;
    var p, x := items[..n], items[n];
    var h := Add(g, x);
    forall k | k in h.table
      ensures h.table[k] == ValuesOf(items, k) && h.table[k] != []
    {
      assert ValuesOf(items, k) == ValuesOf(p, k) + (if x.0 == k then [x.1] else []);
      if k == x.0 && x.0 !in g.table {
        ValuesOfAbsent(p, k);
      }
    }
  }

  lemma {:induction false} ValuesOfAbsent<K, V>(items: seq<(K, V)>, k: K)
    requires !HasKey(items, k)
    ensures ValuesOf(items, k) == []
  {
    if items != [] {
      var p := items[..|items| - 1];
      assert forall i | 0 <= i < |p| :: p[i] == items[i];
      ValuesOfAbsent(p, k);
    }
  }

  lemma {:induction false} FirstIndexOfPrefix<K, V>(items: seq<(K, V)>, n: nat, k: K)
    requires n <= |items| && HasKey(items[..n], k)
    ensures HasKey(items, k) && FirstIndex(items, k) == FirstIndex(items[..n], k)
  {
    var i :| 0 <= i < n && items[..n][i].0 == k;
    assert items[i].0 == k;
    var b := FirstIndex(items[..n], k);
    assert items[b].0 == k;
  }

  /** The key order is first-seen order: a key listed earlier first appears
      earlier in the input. */
  lemma {:induction false} GroupByFirstSeen<K, V>(items: seq<(K, V)>)
    ensures FirstSeen(items, GroupBy(items).keys)
  {
    if items != [] {
      var p := items[..|items| - 1];
      GroupByFirstSeen(p);
      GroupByContents(p);
      FirstSeenAdd(items, GroupBy(p));
    }
  }

  /** Appending one item keeps the key order first-seen. */
  lemma FirstSeenAdd<K, V>(items: seq<(K, V)>, g: Groups<K, V>)
    requires items != []
    requires FirstSeen(items[..|items| - 1], g.keys) && Grouped(items[..|items| - 1], g)
    ensures FirstSeen(items, Add(g, items[|items| - 1]).keys)
  {
    var n := |items| - 1;
    var p, x := items[..n], items[n];
    forall i | 0 <= i < |g.keys|
      ensures HasKey(items, g.keys[i]) && FirstIndex(items, g.keys[i]) == FirstIndex(p, g.keys[i]) < n
    {
      FirstIndexOfPrefix(items, n, g.keys[i]);
    }
    if x.0 !in g.table {
      FirstIndexOfNew(items, g);
    }
  }

  /** A key first seen in the last item has that item as its first index. */
  lemma FirstIndexOfNew<K, V>(items: seq<(K, V)>, g: Groups<K, V>)
    requires items != [] && Grouped(items[..|items| - 1], g) && items[|items| - 1].0 !in g.table
    ensures HasKey(items, items[|items| - 1].0) && FirstIndex(items, items[|items| - 1].0) == |items| - 1
  {
    var n := |items| - 1;
    var p, k := items[..n], items[n].0;
    assert HasKey(items, k) by { assert items[n].0 == k; }
    forall i | 0 <= i < n ensures items[i].0 != k {
      assert items[i] == p[i];
      assert p[i].0 in g.table;
    }
  }

  lemma {:induction false} TotalSizeSame<K, V>(keys: seq<K>, t: map<K, seq<V>>, u: map<K, seq<V>>)
    requires forall k | k in keys :: k in t && k in u && |t[k]| == |u[k]|
    ensures TotalSize(keys, t) == TotalSize(keys, u)
  {
    if keys != [] {
      TotalSizeSame(keys[..|keys| - 1], t, u);
    }
  }

  lemma {:induction false} TotalSizeGrow<K, V>(keys: seq<K>, t: map<K, seq<V>>, k: K, v: V)
    requires Distinct(keys) && k in keys
    requires forall key | key in keys :: key in t
    ensures TotalSize(keys, t[k := t[k] + [v]]) == TotalSize(keys, t) + 1
  {
    var u := t[k := t[k] + [v]];
    var n := |keys| - 1;
    if keys[n] == k {
      assert k !in keys[..n];
      TotalSizeSame(keys[..n], t, u);
    } else {
      assert k in keys[..n];
      TotalSizeGrow(keys[..n], t, k, v);
    }
  }

  /** The list sizes add up to the number of items. */
  lemma {:induction false} GroupBySizes<K, V>(items: seq<(K, V)>)
    ensures var g := GroupBy(items);
      (forall k | k in g.keys :: k in g.table) && TotalSize(g.keys, g.table) == |items|
  {
    GroupByContents(items);
    if items != [] {
      var p, x := items[..|items| - 1], items[|items| - 1];
      GroupBySizes(p);
      GroupByContents(p);
      var g := GroupBy(p);
      if x.0 in g.table {
        TotalSizeGrow(g.keys, g.table, x.0, x.1);
      } else {
        var u := g.table[x.0 := [x.1]];
        TotalSizeSame(g.keys, g.table, u);
        assert (g.keys + [x.0])[..|g.keys|] == g.keys;
      }
    }
  }

  // --------------------------------------------------------------- method

  /** The grouping loop itself: `data[key].append(value)` for each item. */
  method GroupInOrder<K(==), V>(items: seq<(K, V)>) returns (keys: seq<K>, table: map<K, seq<V>>)
    ensures Groups(keys, table) == GroupBy(items)
  {
    keys, table := [], map[];
    for i := 0 to |items|
      invariant Groups(keys, table) == GroupBy(items[..i])
    {
      assert items[..i + 1][..i] == items[..i];
      var (k, v) := items[i];
      if k in table {
        table := table[k := table[k] + [v]];
      } else {
        keys := keys + [k];
        table := table[k := [v]];
      }
    }
    assert items[..|items|] == items;
  }
}

/**
 * Python's `OrderedDict[str, V]` as a value: the keys in insertion order (the front is
 * the oldest entry) and the map from key to value. The three in-memory stores of the
 * backend (filing cache, vector store, keyword index) each keep one of these.
 */
module OrderedMaps {

  predicate Distinct(s: seq<string>) {
    forall i, j | 0 <= i < j < |s| :: s[i] != s[j]
  }

  /** A sequence without repeats holds each of its keys once. */
  lemma {:induction false} OnceEach(s: seq<string>, k: string)
    requires Distinct(s)
    ensures multiset(s)[k] == if k in s then 1 else 0
  {
    if s != [] {
      var init := s[..|s| - 1];
      OnceEach(init, k);
      assert s == init + [s[|s| - 1]];
      assert s[|s| - 1] !in init;
    }
  }

  /** `s` with every occurrence of `k` removed, the rest in order. */
  function Without(s: seq<string>, k: string): (r: seq<string>)
    ensures forall x :: x in r <==> x in s && x != k
    ensures |r| <= |s|
    ensures k !in s ==> r == s
  {
    if s == [] then []
    else (if s[0] == k then [] else [s[0]]) + Without(s[1..], k)
  }

  lemma {:induction false} WithoutDistinct(s: seq<string>, k: string)
    ensures Distinct(s) ==> Distinct(Without(s, k))
    ensures Distinct(s) ==> |Without(s, k)| == if k in s then |s| - 1 else |s|
  {
    if s != [] && Distinct(s) {
      WithoutDistinct(s[1..], k);
      var rest := Without(s[1..], k);
      if s[0] != k {
        assert s[0] !in rest;
        assert Without(s, k) == [s[0]] + rest;
      }
    }
  }

  lemma {:induction false} WithoutConcat(a: seq<string>, b: seq<string>, k: string)
    ensures Without(a + b, k) == Without(a, k) + Without(b, k)
  {
    if a != [] {
      var ab := a + b;
      WithoutConcat(a[1..], b, k);
      assert ab[0] == a[0] && ab[1..] == a[1..] + b;
    } else {
      assert a + b == b;
    }
  }

  /** Appending the removed key changes nothing: `Without(s + [k], k) == Without(s, k)`. */
  lemma WithoutSnoc(s: seq<string>, k: string)
    ensures Without(s + [k], k) == Without(s, k)
  {
    WithoutConcat(s, [k], k);
    assert Without([k], k) == [];
  }

  lemma {:induction false} WithoutFirst(s: seq<string>)
    requires Distinct(s) && s != []
    ensures Without(s, s[0]) == s[1..]
  {
    assert s[0] !in s[1..];
  }

  datatype OrderedMap<V> = OrderedMap(keys: seq<string>, values: map<string, V>) {

    ghost predicate Valid() {
      Distinct(keys) && forall k :: k in values <==> k in keys
    }

    function Size(): nat { |keys| }

    /** `next(iter(d))`: the oldest key. */
    function Oldest(): string
      requires keys != []
    {
      keys[0]
    }

    /** `del d[k]` when `k` is present; no change otherwise. */
    function Delete(k: string): (r: OrderedMap<V>)
      ensures r.keys == Without(keys, k)
      ensures r.values == values - {k}
      ensures Valid() ==> r.Valid()
    {
      WithoutDistinct(keys, k);
      OrderedMap(Without(keys, k), values - {k})
    }

    /** `d[k] = v`: a new key goes last, an existing key keeps its place. */
    function Set(k: string, v: V): (r: OrderedMap<V>)
      ensures r.keys == if k in values then keys else keys + [k]
      ensures r.values == values[k := v]
      ensures Valid() ==> r.Valid()
    {
      if k in values then OrderedMap(keys, values[k := v])
      else OrderedMap(keys + [k], values[k := v])
    }

    /** `d.move_to_end(k)` */
    function MoveToEnd(k: string): (r: OrderedMap<V>)
      requires k in values
      ensures r.keys == Without(keys, k) + [k]
      ensures r.values == values
      ensures Valid() ==> r.Valid()
    {
      WithoutDistinct(keys, k);
      OrderedMap(Without(keys, k) + [k], values)
    }

    /**
     * The insert every store performs: at capacity `cap` the oldest entry goes first,
     * then `d[k] = v; d.move_to_end(k)`.
     */
    function Insert(cap: nat, k: string, v: V): (r: OrderedMap<V>)
      requires Valid() && 1 <= cap && |keys| <= cap
      ensures r.Valid() && |r.keys| <= cap
      ensures r.keys == InsertOrder(keys, cap, k)
      ensures r.values == (if |keys| >= cap then values - {keys[0]} else values)[k := v]
    {
      InsertOrderFacts(keys, cap, k);
      var kept := if |keys| >= cap then (WithoutFirst(keys); Delete(Oldest())) else this;
      WithoutSnoc(kept.keys, k);
      kept.Set(k, v).MoveToEnd(k)
    }
  }

  function Empty<V>(): (r: OrderedMap<V>)
    ensures r.Valid() && r.keys == []
  {
    OrderedMap([], map[])
  }

  /**
   * The key order after `if len(d) >= cap: del d[next(iter(d))]` followed by
   * `d[k] = v; d.move_to_end(k)`: the pattern every store's insert follows.
   */
  function InsertOrder(keys: seq<string>, cap: nat, k: string): seq<string> {
    var kept := if |keys| >= cap && keys != [] then keys[1..] else keys;
    Without(kept, k) + [k]
  }

  /**
   * Inserting at capacity first drops exactly the oldest key; afterwards the new key is
   * the most recent, every other surviving key keeps its relative order, and the size is
   * at most the capacity.
   */
  lemma {:induction false} InsertOrderFacts(keys: seq<string>, cap: nat, k: string)
    requires Distinct(keys) && |keys| <= cap && cap >= 1
    ensures var r := InsertOrder(keys, cap, k);
      && Distinct(r) && |r| <= cap && r[|r| - 1] == k
      && (forall x :: x in r <==> x == k || (x in keys && (|keys| < cap || x != keys[0])))
      && (|keys| < cap && k in keys ==> |r| == |keys|)
  {
    var kept := if |keys| >= cap && keys != [] then keys[1..] else keys;
    assert Distinct(kept);
    WithoutDistinct(kept, k);
    var w := Without(kept, k);
    assert k !in w;
    var r := w + [k];
    forall i, j | 0 <= i < j < |r| ensures r[i] != r[j] {
      if j == |r| - 1 { assert r[i] in w; }
    }
    if |keys| >= cap && keys != [] {
      forall x | x in kept ensures x != keys[0] {
        var i :| 0 <= i < |kept| && kept[i] == x;
        assert keys[i + 1] == x;
      }
      forall x | x in keys && x != keys[0] ensures x in kept {
        var i :| 0 <= i < |keys| && keys[i] == x;
        assert kept[i - 1] == x;
      }
    }
  }

  /**
   * Re-inserting a key that is already present, when the map is full, still drops the
   * oldest key first: when that is a different key, the map shrinks by one.
   */
  lemma InsertPresentAtCapacity(keys: seq<string>, cap: nat, k: string)
    requires Distinct(keys) && |keys| == cap && cap >= 1
    requires k in keys && k != keys[0]
    ensures var r := InsertOrder(keys, cap, k);
      keys[0] !in r && |r| == cap - 1 && r[|r| - 1] == k
  {
    InsertOrderFacts(keys, cap, k);
    var kept := keys[1..];
    assert k in kept;
    WithoutDistinct(kept, k);
  }

  /** At capacity, inserting after deleting the oldest key is the same as inserting. */
  lemma InsertAfterDelete<V>(m: OrderedMap<V>, cap: nat, k: string, v: V)
    requires m.Valid() && |m.keys| == cap && cap >= 1
    ensures m.Delete(m.keys[0]).Valid() && |m.Delete(m.keys[0]).keys| < cap
    ensures m.Delete(m.keys[0]).Insert(cap, k, v) == m.Insert(cap, k, v)
  {
    WithoutFirst(m.keys);
  }
}

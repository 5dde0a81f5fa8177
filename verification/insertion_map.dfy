/** String-keyed dictionaries with JavaScript iteration order: a `Map` and a plain
    object with non-numeric keys both enumerate keys in first-insertion order;
    overwriting an existing key keeps its place, deleting a key removes it. */
module InsertionMap {

  import Common

  /** `order` lists the keys in insertion order; `items` holds the values. */
  datatype IMap<V> = IMap(order: seq<string>, items: map<string, V>)

  /** The order lists every key exactly once. */
  predicate Valid<V>(m: IMap<V>) {
    && Common.Distinct(m.order)
    && (forall i :: 0 <= i < |m.order| ==> m.order[i] in m.items)
    && (forall k :: k in m.items ==> k in m.order)
  }

  function Empty<V>(): (m: IMap<V>)
    ensures Valid(m) && m.items == map[] && m.order == []
  {
    IMap([], map[])
  }

  /** `m.set(k, v)` / `{ ...m, [k]: v }`. */
  function Put<V>(m: IMap<V>, k: string, v: V): (m': IMap<V>)
    requires Valid(m)
    ensures Valid(m')
    ensures m'.items == m.items[k := v]
    ensures k in m.items ==> m'.order == m.order
    ensures k !in m.items ==> m'.order == m.order + [k]
  {
    if k in m.items then IMap(m.order, m.items[k := v])
    else
      var m' := IMap(m.order + [k], m.items[k := v]);
      assert forall i :: 0 <= i < |m.order| ==> m'.order[i] == m.order[i];
      m'
  }

  /** The test that keeps every key except `k`. */
  function Other(k: string): string -> bool {
    key => key != k
  }

  /** `m.delete(k)` / `const { [k]: _, ...rest } = m`. */
  function Remove<V>(m: IMap<V>, k: string): (m': IMap<V>)
    requires Valid(m)
    ensures Valid(m')
    ensures m'.items == m.items - {k}
    ensures Common.Subsequence(m'.order, m.order)
    ensures m'.order == Common.Filter(m.order, Other(k))
  {
    var m' := IMap(Common.Filter(m.order, Other(k)), m.items - {k});
    RemoveValid(m, k, m'.order);
    m'
  }

  /** Filtering a key out of a valid order gives a valid order for the map without it. */
  lemma RemoveValid<V>(m: IMap<V>, k: string, order: seq<string>)
    requires Valid(m)
    requires order == Common.Filter(m.order, Other(k))
    ensures Valid(IMap(order, m.items - {k}))
    ensures |order| == |m.items - {k}|
  {
    var m' := IMap(order, m.items - {k});
    FilterDistinct(m.order, order);
    assert Valid(m');
    OrderSize(m');
  }

  /** A subsequence of a duplicate-free sequence is duplicate-free. */
  lemma {:induction false} FilterDistinct(s: seq<string>, t: seq<string>)
    requires Common.Distinct(s)
    requires Common.Subsequence(t, s)
    ensures Common.Distinct(t)
    ensures forall i :: 0 <= i < |t| ==> t[i] in s
    decreases |s|
  {
    if t != [] {
      if t[0] == s[0] {
        FilterDistinct(s[1..], t[1..]);
        forall j | 0 < j < |t|
          ensures t[0] != t[j]
        {
          assert t[j] == t[1..][j - 1];
        }
      } else {
        FilterDistinct(s[1..], t);
      }
    }
  }

  /** `Array.from(m.values())` / `Object.values(m)`. */
  function Values<V>(m: IMap<V>): (vs: seq<V>)
    requires Valid(m)
    ensures |vs| == |m.order| == |m.items|
    ensures forall i :: 0 <= i < |vs| ==> vs[i] == m.items[m.order[i]]
  {
    OrderSize(m);
    seq(|m.order|, i requires 0 <= i < |m.order| => m.items[m.order[i]])
  }

  /** A valid order has exactly as many entries as there are keys. */
  lemma OrderSize<V>(m: IMap<V>)
    requires Valid(m)
    ensures |m.order| == |m.items|
  {
    DistinctCard(m.order);
    assert (set i | 0 <= i < |m.order| :: m.order[i]) == m.items.Keys;
  }

  /** A duplicate-free sequence has as many distinct elements as entries. */
  lemma {:induction false} DistinctCard(s: seq<string>)
    requires Common.Distinct(s)
    ensures |set i | 0 <= i < |s| :: s[i]| == |s|
  {
    if s != [] {
      var t := s[..|s| - 1];
      DistinctCard(t);
      var all := set i | 0 <= i < |s| :: s[i];
      var init := set i | 0 <= i < |t| :: t[i];
      assert all == init + {s[|s| - 1]};
      assert s[|s| - 1] !in init;
    }
  }

  /** Inserting a new key and deleting it again gives back the original map,
      order included. */
  lemma PutThenRemove<V>(m: IMap<V>, k: string, v: V)
    requires Valid(m) && k !in m.items
    ensures Remove(Put(m, k, v), k) == m
  {
    var m2 := Remove(Put(m, k, v), k);
    PutOrder(m, k, v);
    FilterFresh(m.order, k);
    MapPutRemove(m.items, k, v);
    assert m2.order == m.order && m2.items == m.items;
  }

  lemma MapPutRemove<V>(items: map<string, V>, k: string, v: V)
    requires k !in items
    ensures items[k := v] - {k} == items
  {
  }

  lemma PutOrder<V>(m: IMap<V>, k: string, v: V)
    requires Valid(m) && k !in m.items
    ensures Put(m, k, v).order == m.order + [k]
  {
  }

  /** Removing a key appended to an order that lacks it restores the order. */
  lemma FilterFresh(order: seq<string>, k: string)
    requires k !in order
    ensures Common.Filter(order + [k], Other(k)) == order
  {
    Common.FilterAppend(order, [k], Other(k));
    Common.FilterKeepsAll(order, Other(k));
    assert Common.Filter([k], Other(k)) == [];
  }
}

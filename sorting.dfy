/**
 * The three orderings both engines ask of `Array.prototype.sort` over the
 * keys of a fee table: targets ascending (`(a, b) => a - b`), targets
 * descending (`(a, b) => b - a`) and targets by falling fee
 * (`(a, b) => fees[b] - fees[a]`). The built-in sort is modelled by a
 * selection loop that takes the first remaining key in the wanted order.
 */
module Sorting {
  import opened Tables

  /** Targets ascending. */
  method KeysAscending(keys: set<int>) returns (ks: seq<int>)
    ensures Increasing(ks) && Lists(ks, keys) && |ks| == |keys|
  {
    ks := [];
    var rest := keys;
    while rest != {}
      invariant rest <= keys
      invariant |ks| + |rest| == |keys|
      invariant Increasing(ks)
      invariant forall i :: 0 <= i < |ks| ==> ks[i] in keys && ks[i] !in rest
      invariant forall k :: k in keys && k !in rest ==> k in ks
      invariant forall i, k :: 0 <= i < |ks| && k in rest ==> ks[i] < k
      decreases |rest|
    {
      ghost var least := Min(rest);
      var k :| k in rest && forall j :: j in rest ==> k <= j;
      ks := ks + [k];
      rest := rest - {k};
    }
  }

  /** Targets descending. */
  method KeysDescending(keys: set<int>) returns (ks: seq<int>)
    ensures Decreasing(ks) && Lists(ks, keys) && |ks| == |keys|
  {
    ks := [];
    var rest := keys;
    while rest != {}
      invariant rest <= keys
      invariant |ks| + |rest| == |keys|
      invariant Decreasing(ks)
      invariant forall i :: 0 <= i < |ks| ==> ks[i] in keys && ks[i] !in rest
      invariant forall k :: k in keys && k !in rest ==> k in ks
      invariant forall i, k :: 0 <= i < |ks| && k in rest ==> ks[i] > k
      decreases |rest|
    {
      ghost var greatest := Max(rest);
      var k :| k in rest && forall j :: j in rest ==> k >= j;
      ks := ks + [k];
      rest := rest - {k};
    }
  }

  /**
   * `a` comes no later than `b` when the table is sorted by falling fee.
   * Equal fees keep the order `Object.keys` gives integer keys (ascending),
   * since the built-in sort is stable.
   */
  ghost predicate Precedes(m: FeeTable, a: int, b: int)
    requires a in m && b in m
  {
    m[a] > m[b] || (m[a] == m[b] && a <= b)
  }

  /** The key of `s` that comes first by falling fee. */
  ghost function Top(m: FeeTable, s: set<int>): (t: int)
    requires s != {} && s <= m.Keys
    ensures t in s && forall j :: j in s ==> Precedes(m, t, j)
    decreases |s|
  {
    HasElement(s);
    var x :| x in s;
    if s == {x} then x
    else
      var y := Top(m, s - {x});
      assert forall z :: z in s ==> z == x || z in s - {x};
      if Precedes(m, x, y) then x else y
  }

  /** Targets by falling fee. */
  method KeysByFee(m: FeeTable) returns (ks: seq<int>)
    ensures Lists(ks, m.Keys) && |ks| == |m.Keys|
    ensures forall i, j :: 0 <= i < j < |ks| ==> Precedes(m, ks[i], ks[j])
  {
    ks := [];
    var rest := m.Keys;
    while rest != {}
      invariant rest <= m.Keys
      invariant |ks| + |rest| == |m.Keys|
      invariant forall i :: 0 <= i < |ks| ==> ks[i] in m && ks[i] !in rest
      invariant forall k :: k in m && k !in rest ==> k in ks
      invariant forall i, j :: 0 <= i < j < |ks| ==> ks[i] != ks[j]
      invariant forall i, j :: 0 <= i < j < |ks| ==> Precedes(m, ks[i], ks[j])
      invariant forall i, k :: 0 <= i < |ks| && k in rest ==> Precedes(m, ks[i], k)
      decreases |rest|
    {
      ghost var first := Top(m, rest);
      var k :| k in rest && forall j :: j in rest ==> m[j] < m[k] || (m[j] == m[k] && k <= j);
      ks := ks + [k];
      rest := rest - {k};
    }
  }

  /** Listed by falling fee, the fees never go up. */
  lemma FeesFalling(m: FeeTable, ks: seq<int>)
    requires forall i :: 0 <= i < |ks| ==> ks[i] in m
    requires forall i, j :: 0 <= i < j < |ks| ==> Precedes(m, ks[i], ks[j])
    ensures forall i, j :: 0 <= i < j < |ks| ==> m[ks[i]] >= m[ks[j]]
  {
  }
}

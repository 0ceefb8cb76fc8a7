/**
 * Fee tables shared by both fee engines.
 *
 * A fee table maps a confirmation target (a number of blocks) to a fee
 * rate (satoshis per byte). JavaScript numbers are modelled as exact reals;
 * the keys of a JavaScript object are modelled as the keys of a map.
 */
module Tables {

  type FeeTable = map<int, real>

  datatype Option<T> = None | Some(value: T)

  /** The nine confirmation targets that both entry points publish. */
  const DEFAULT_TARGETS: seq<int> := [2, 4, 6, 12, 24, 48, 144, 504, 1008]

  /** `Math.ceil`: the least integer that is not below `x`. */
  function Ceil(x: real): (c: int)
    ensures x <= c as real < x + 1.0
  {
    var f := x.Floor;
    if f as real == x then f else f + 1
  }

  /** `Math.round`: the nearest integer, a half rounded towards +infinity. */
  function Round(x: real): (n: int)
    ensures x - 0.5 < n as real <= x + 0.5
  {
    (x + 0.5).Floor
  }

  predicate Integral(x: real) {
    x.Floor as real == x
  }

  lemma CeilMonotone(x: real, y: real)
    requires x <= y
    ensures Ceil(x) <= Ceil(y)
  {
  }

  /** A non-empty set of targets has an element. */
  lemma HasElement(s: set<int>)
    requires s != {}
    ensures exists x :: x in s
  {
    if forall x :: x !in s {
      assert false;
    }
  }

  /** The least element of a finite non-empty set of targets. */
  ghost function Min(s: set<int>): (m: int)
    requires s != {}
    ensures m in s && forall x :: x in s ==> m <= x
    decreases |s|
  {
    HasElement(s);
    var x :| x in s;
    if s == {x} then x
    else
      var y := Min(s - {x});
      assert forall z :: z in s ==> z == x || z in s - {x};
      if x <= y then x else y
  }

  /** The greatest element of a finite non-empty set of targets. */
  ghost function Max(s: set<int>): (m: int)
    requires s != {}
    ensures m in s && forall x :: x in s ==> x <= m
    decreases |s|
  {
    HasElement(s);
    var x :| x in s;
    if s == {x} then x
    else
      var y := Max(s - {x});
      assert forall z :: z in s ==> z == x || z in s - {x};
      if x >= y then x else y
  }

  ghost predicate Increasing(s: seq<int>) {
    forall i, j :: 0 <= i < j < |s| ==> s[i] < s[j]
  }

  ghost predicate Decreasing(s: seq<int>) {
    forall i, j :: 0 <= i < j < |s| ==> s[i] > s[j]
  }

  /** `ks` lists every element of `keys` exactly once, in some order. */
  ghost predicate Lists(ks: seq<int>, keys: set<int>) {
    && (forall i, j :: 0 <= i < j < |ks| ==> ks[i] != ks[j])
    && (forall i :: 0 <= i < |ks| ==> ks[i] in keys)
    && (forall k :: k in keys ==> k in ks)
  }

  /** Read with its targets ascending, the table's fee rates never go up. */
  ghost predicate NonIncreasing(m: FeeTable) {
    forall k, k' :: k in m && k' in m && k < k' ==> m[k] >= m[k']
  }

  ghost predicate NonNegative(m: FeeTable) {
    forall k :: k in m ==> m[k] >= 0.0
  }

  /** The fee rates read off `m` along the key sequence `ks`. */
  ghost function Along(m: FeeTable, ks: seq<int>): (vs: seq<real>)
    requires forall i :: 0 <= i < |ks| ==> ks[i] in m
    ensures |vs| == |ks| && forall i :: 0 <= i < |ks| ==> vs[i] == m[ks[i]]
  {
    if ks == [] then [] else [m[ks[0]]] + Along(m, ks[1..])
  }

  /** The multiset of the table's fee rates, one occurrence per target. */
  ghost function Bag(m: FeeTable): multiset<real>
    decreases |m|
  {
    if forall k :: k !in m then multiset{}
    else
      var k := Min(m.Keys);
      assert (m - {k}).Keys == m.Keys - {k};
      multiset{m[k]} + Bag(m - {k})
  }

  lemma {:induction false} BagRemove(m: FeeTable, k: int)
    requires k in m
    ensures Bag(m) == multiset{m[k]} + Bag(m - {k})
    decreases |m|
  {
    var j := Min(m.Keys);
    if j != k {
      var rest := m - {j};
      assert rest.Keys == m.Keys - {j};
      BagRemove(rest, k);
      var n := m - {k};
      assert n.Keys == m.Keys - {k};
      assert j in n.Keys;
      assert Min(n.Keys) == j;
      assert n - {j} == rest - {k};
    }
  }

  /** Dropping the first key of a listing lists the remaining keys. */
  lemma ListsTail(ks: seq<int>, keys: set<int>)
    requires Lists(ks, keys) && ks != []
    ensures Lists(ks[1..], keys - {ks[0]})
  {
    var rest := ks[1..];
    forall k | k in keys - {ks[0]}
      ensures k in rest
    {
      var i :| 0 <= i < |ks| && ks[i] == k;
      assert rest[i - 1] == k;
    }
  }

  /** Any listing of a table's keys reads off exactly the table's fee rates. */
  lemma {:induction false} BagAlong(m: FeeTable, ks: seq<int>)
    requires Lists(ks, m.Keys)
    ensures Bag(m) == multiset(Along(m, ks))
    decreases |ks|
  {
    if ks == [] {
      assert forall k :: k !in m;
    } else {
      var k := ks[0];
      var n := m - {k};
      assert n.Keys == m.Keys - {k};
      BagRemove(m, k);
      ListsTail(ks, m.Keys);
      BagAlong(n, ks[1..]);
      assert Along(n, ks[1..]) == Along(m, ks[1..]);
    }
  }

  /** Every fee rate in the bag is the rate of some target of the table. */
  lemma {:induction false} BagMember(m: FeeTable, v: real)
    requires v in Bag(m)
    ensures exists k :: k in m && m[k] == v
    decreases |m|
  {
    var k := Min(m.Keys);
    var rest := m - {k};
    assert rest.Keys == m.Keys - {k};
    if v != m[k] {
      BagMember(rest, v);
      var j :| j in rest && rest[j] == v;
      assert j in m && m[j] == v;
    }
  }

  /**
   * `r` re-pairs the fee rates of `src` by rank: the same targets, the
   * same multiset of fee rates, and the rates never go up as the target
   * grows.
   */
  ghost predicate IsRankPairing(r: FeeTable, src: FeeTable) {
    r.Keys == src.Keys && NonIncreasing(r) && Bag(r) == Bag(src)
  }

  /** In a non-increasing table no fee rate exceeds the one at the least target. */
  lemma BagBelowFirst(m: FeeTable, v: real)
    requires NonIncreasing(m) && v in Bag(m)
    ensures m.Keys != {} && v <= m[Min(m.Keys)]
  {
    BagMember(m, v);
    var j :| j in m && m[j] == v;
    assert j in m.Keys;
  }

  /** Removing a target and putting its fee rate back gives the same table. */
  lemma RemoveThenPut(m: FeeTable, k: int)
    requires k in m
    ensures m == (m - {k})[k := m[k]]
  {
  }

  lemma BagCancel(x: multiset<real>, y: multiset<real>, v: real, whole: multiset<real>)
    requires whole == multiset{v} + x && whole == multiset{v} + y
    ensures x == y
  {
    forall w ensures x[w] == y[w] {
      assert (multiset{v} + x)[w] == (multiset{v} + y)[w];
    }
  }

  /**
   * Two non-increasing tables over the same targets with the same fee
   * rates agree at their least target, and the rest of their rates agree.
   */
  lemma FirstRatesAgree(a: FeeTable, b: FeeTable, k: int)
    requires a.Keys == b.Keys && NonIncreasing(a) && NonIncreasing(b)
    requires Bag(a) == Bag(b) && a.Keys != {} && k == Min(a.Keys)
    ensures a[k] == b[k] && Bag(a - {k}) == Bag(b - {k})
  {
    BagRemove(a, k);
    BagRemove(b, k);
    assert a[k] in Bag(b) && b[k] in Bag(a);
    BagBelowFirst(b, a[k]);
    BagBelowFirst(a, b[k]);
    assert a[k] == b[k];
    BagCancel(Bag(a - {k}), Bag(b - {k}), a[k], Bag(a));
  }

  /**
   * Two tables over the same targets with the same fee rates that are
   * both non-increasing are equal: a rank pairing is unique.
   */
  lemma {:induction false} RankPairingUnique(a: FeeTable, b: FeeTable)
    requires a.Keys == b.Keys && NonIncreasing(a) && NonIncreasing(b)
    requires Bag(a) == Bag(b)
    ensures a == b
    decreases |a|
  {
    if exists k :: k in a {
      var k := Min(a.Keys);
      FirstRatesAgree(a, b, k);
      var a', b' := a - {k}, b - {k};
      assert a'.Keys == a.Keys - {k} && b'.Keys == b.Keys - {k};
      RankPairingUnique(a', b');
      RemoveThenPut(a, k);
      RemoveThenPut(b, k);
    } else {
      assert forall k :: k !in b;
    }
  }

  /** The table that gives `ks[i]` the rate `vs[i]`, assigned in order. */
  ghost function Zip(ks: seq<int>, vs: seq<real>): FeeTable
    requires |ks| == |vs|
  {
    if ks == [] then map[]
    else Zip(ks[..|ks| - 1], vs[..|vs| - 1])[ks[|ks| - 1] := vs[|vs| - 1]]
  }

  /** Assigning one more rate extends the zipped table by that entry. */
  lemma ZipSnoc(ks: seq<int>, vs: seq<real>, n: nat)
    requires |ks| == |vs| && n < |ks|
    ensures Zip(ks[..n + 1], vs[..n + 1]) == Zip(ks[..n], vs[..n])[ks[n] := vs[n]]
  {
    assert ks[..n + 1][..n] == ks[..n];
    assert vs[..n + 1][..n] == vs[..n];
  }

  /** Over distinct keys, the zipped table holds exactly the keys, each with its rate. */
  lemma {:induction false} ZipLists(ks: seq<int>, vs: seq<real>)
    requires |ks| == |vs| && forall i, j :: 0 <= i < j < |ks| ==> ks[i] != ks[j]
    ensures forall i :: 0 <= i < |ks| ==> ks[i] in Zip(ks, vs) && Zip(ks, vs)[ks[i]] == vs[i]
    ensures forall k :: k in Zip(ks, vs) ==> exists i :: 0 <= i < |ks| && ks[i] == k
  {
    if ks != [] {
      var n := |ks| - 1;
      ZipLists(ks[..n], vs[..n]);
      var z := Zip(ks[..n], vs[..n]);
      assert Zip(ks, vs) == z[ks[n] := vs[n]];
      forall k | k in Zip(ks, vs) ensures exists i :: 0 <= i < |ks| && ks[i] == k {
        if k != ks[n] {
          var i :| 0 <= i < n && ks[..n][i] == k;
          assert ks[i] == k;
        }
      }
      forall i | 0 <= i < |ks| ensures ks[i] in Zip(ks, vs) && Zip(ks, vs)[ks[i]] == vs[i] {
        if i < n {
          assert ks[..n][i] == ks[i] && vs[..n][i] == vs[i];
        }
      }
    }
  }

  /**
   * The re-pairing loop of both engines: the targets listed ascending,
   * given position by position the rates of the targets listed by falling
   * fee, yield a rank pairing of the source table.
   */
  lemma PairingByPosition(src: FeeTable, blocks: seq<int>, order: seq<int>)
    requires Increasing(blocks) && Lists(blocks, src.Keys)
    requires Lists(order, src.Keys) && |blocks| == |order|
    requires forall i, j :: 0 <= i < j < |order| ==> src[order[i]] >= src[order[j]]
    ensures IsRankPairing(Zip(blocks, Along(src, order)), src)
  {
    var r := Zip(blocks, Along(src, order));
    ZipOfListings(src, blocks, order);
    ZipPairsByPosition(src, blocks, order);
    assert Lists(blocks, r.Keys);
    PairedNonIncreasing(src, blocks, order, r);
    PairedSameRates(src, blocks, order, r);
  }

  /** Zipping two listings of the keys keeps the keys. */
  lemma ZipOfListings(src: FeeTable, blocks: seq<int>, order: seq<int>)
    requires Lists(blocks, src.Keys) && Lists(order, src.Keys) && |blocks| == |order|
    ensures Zip(blocks, Along(src, order)).Keys == src.Keys
  {
    var vs := Along(src, order);
    ZipLists(blocks, vs);
    var r := Zip(blocks, vs);
    forall k | k in r ensures k in src {
      var i :| 0 <= i < |blocks| && blocks[i] == k;
    }
    forall k | k in src ensures k in r {
      var i :| 0 <= i < |blocks| && blocks[i] == k;
    }
  }

  /** Zipping two listings of the keys pairs them by position. */
  lemma ZipPairsByPosition(src: FeeTable, blocks: seq<int>, order: seq<int>)
    requires Lists(blocks, src.Keys) && Lists(order, src.Keys) && |blocks| == |order|
    ensures forall i :: 0 <= i < |blocks| ==>
      blocks[i] in Zip(blocks, Along(src, order)) && Zip(blocks, Along(src, order))[blocks[i]] == src[order[i]]
  {
    ZipLists(blocks, Along(src, order));
  }

  /** Pairing two listings position by position moves every rate, and only those. */
  lemma PairedSameRates(src: FeeTable, blocks: seq<int>, order: seq<int>, r: FeeTable)
    requires Lists(blocks, r.Keys) && Lists(order, src.Keys) && |blocks| == |order|
    requires forall i :: 0 <= i < |blocks| ==> r[blocks[i]] == src[order[i]]
    ensures Bag(r) == Bag(src)
  {
    BagAlong(r, blocks);
    BagAlong(src, order);
    assert Along(r, blocks) == Along(src, order);
  }

  lemma PairedNonIncreasing(src: FeeTable, blocks: seq<int>, order: seq<int>, r: FeeTable)
    requires Increasing(blocks) && Lists(blocks, r.Keys)
    requires (forall i :: 0 <= i < |order| ==> order[i] in src) && |blocks| == |order|
    requires forall i, j :: 0 <= i < j < |order| ==> src[order[i]] >= src[order[j]]
    requires forall i :: 0 <= i < |blocks| ==> r[blocks[i]] == src[order[i]]
    ensures NonIncreasing(r)
  {
    forall k, k' | k in r && k' in r && k < k'
      ensures r[k] >= r[k']
    {
      var i :| 0 <= i < |blocks| && blocks[i] == k;
      var j :| 0 <= j < |blocks| && blocks[j] == k';
      assert i < j;
    }
  }
}

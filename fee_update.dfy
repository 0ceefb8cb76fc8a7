/**
 * The fee updater behind the `api/fees/update` endpoint. On a call it
 * decides from the stored update time whether ten minutes have passed; if
 * so it converts the BitGo table to satoshis, re-pairs both provider
 * tables by rank, merges them, resolves the nine published targets
 * against the merged table and stores the results; otherwise it reports
 * how long to wait.
 */
module FeeUpdate {
  import opened Tables
  import opened Sorting

  // ---------------------------------------------------------------------
  // sortFees

  /** The table with every fee rate rounded up. */
  ghost function Ceiled(m: FeeTable): FeeTable {
    map k | k in m :: Ceil(m[k]) as real
  }

  /**
   * `sortFees`: the targets, ascending, paired position by position with
   * the fee rates, falling, each rounded up.
   */
  method SortFees(unsortedFees: FeeTable) returns (response: FeeTable)
    ensures IsRankPairing(response, Ceiled(unsortedFees))
  {
    var blocks := KeysAscending(unsortedFees.Keys);
    var fees := KeysByFee(unsortedFees);
    ghost var src := Ceiled(unsortedFees);
    ghost var rates := Along(src, fees);
    response := map[];
    var b := 0;
    while b < |blocks|
      invariant 0 <= b <= |blocks|
      invariant response == Zip(blocks[..b], rates[..b])
    {
      ZipSnoc(blocks, rates, b);
      response := response[blocks[b] := Ceil(unsortedFees[fees[b]]) as real];
      b := b + 1;
    }
    assert blocks[..b] == blocks && rates[..b] == rates;
    forall i, j | 0 <= i < j < |fees|
      ensures src[fees[i]] >= src[fees[j]]
    {
      CeilMonotone(unsortedFees[fees[j]], unsortedFees[fees[i]]);
    }
    PairingByPosition(src, blocks, fees);
  }

  // ---------------------------------------------------------------------
  // convertToSats

  /** `sats` holds the rates of `fees` (millisatoshis) in satoshis. */
  ghost predicate InSatoshis(sats: FeeTable, fees: FeeTable) {
    sats.Keys == fees.Keys && forall k :: k in sats ==> sats[k] * 1000.0 == fees[k]
  }

  /** `convertToSats`: every fee rate divided by 1000, the targets kept. */
  method ConvertToSats(fees: FeeTable) returns (response: FeeTable)
    ensures InSatoshis(response, fees)
  {
    response := map[];
    var keys := fees.Keys;
    while keys != {}
      invariant keys <= fees.Keys
      invariant forall k :: k in response ==> k in fees && k !in keys
      invariant forall k :: k in fees && k !in keys ==> k in response
      invariant forall k :: k in response ==> response[k] == fees[k] / 1000.0
      decreases |keys|
    {
      HasElement(keys);
      var k :| k in keys;
      response := response[k := fees[k] / 1000.0];
      keys := keys - {k};
    }
    forall k | k in response ensures k in fees {}
    forall k | k in fees ensures k in response {}
  }

  /** Converting to satoshis keeps the ranking that `sortFees` sorts by. */
  lemma SatoshisKeepRanking(sats: FeeTable, fees: FeeTable, a: int, b: int)
    requires InSatoshis(sats, fees) && a in fees && b in fees
    ensures sats[a] <= sats[b] <==> fees[a] <= fees[b]
  {
  }

  // ---------------------------------------------------------------------
  // getFees

  /** `{ ...bitGoFees, ...blockstreamFees }`: Blockstream wins on a shared target. */
  function MergeFees(bitGoFees: FeeTable, blockstreamFees: FeeTable): (rawFees: FeeTable)
    ensures rawFees.Keys == bitGoFees.Keys + blockstreamFees.Keys
    ensures forall k :: k in blockstreamFees ==> rawFees[k] == blockstreamFees[k]
    ensures forall k :: k in bitGoFees && k !in blockstreamFees ==> rawFees[k] == bitGoFees[k]
  {
    bitGoFees + blockstreamFees
  }

  /**
   * Both provider tables are rank-ordered before the merge, but the merged
   * table need not be: a BitGo-only target keeps its BitGo rate among
   * Blockstream rates.
   */
  lemma MergeMayBreakOrdering()
    ensures var bitGoFees, blockstreamFees := map[2 := 10.0, 1000 := 8.0], map[2 := 5.0, 500 := 4.0];
      && NonIncreasing(bitGoFees) && NonIncreasing(blockstreamFees)
      && !NonIncreasing(MergeFees(bitGoFees, blockstreamFees))
  {
    var merged := MergeFees(map[2 := 10.0, 1000 := 8.0], map[2 := 5.0, 500 := 4.0]);
    assert 500 in merged && 1000 in merged && merged[500] < merged[1000];
  }

  // ---------------------------------------------------------------------
  // feeFor

  /**
   * The table target that serves a requested target: the request is first
   * raised to the least table target, then the greatest table target not
   * above it is taken.
   */
  ghost function Tier(keys: set<int>, target: int): (k: int)
    requires keys != {}
    ensures k in keys
    ensures target < Min(keys) ==> k == Min(keys)
    ensures target >= Min(keys) ==> k <= target && forall j :: j in keys && j <= target ==> j <= k
  {
    var clamped := if target < Min(keys) then Min(keys) else target;
    var below := set j | j in keys && j <= clamped;
    assert Min(keys) in below;
    assert forall j :: j in keys && j <= clamped ==> j in below;
    Max(below)
  }

  /**
   * `r` is what `feeFor` answers for `targets` over `fees`: nothing for an
   * empty table, and otherwise one entry per requested target holding the
   * fee rate of its tier.
   */
  ghost predicate ResolvesTo(targets: seq<int>, fees: FeeTable, r: FeeTable) {
    if fees.Keys == {} then r == map[]
    else
      && (forall t :: t in r <==> t in targets)
      && (forall t :: t in r ==> r[t] == fees[Tier(fees.Keys, t)])
  }

  /** The last of the targets listed descending is the least target. */
  lemma LastIsLeast(ks: seq<int>, keys: set<int>)
    requires Decreasing(ks) && Lists(ks, keys) && ks != []
    ensures keys != {} && ks[|ks| - 1] == Min(keys)
  {
    var last := ks[|ks| - 1];
    assert last in keys;
    var i :| 0 <= i < |ks| && ks[i] == Min(keys);
  }

  /**
   * The first target of the descending list that is not above the
   * (raised) request is the request's tier.
   */
  lemma FirstNotAboveIsTier(ks: seq<int>, keys: set<int>, request: int, target: int, b: int)
    requires Decreasing(ks) && Lists(ks, keys) && 0 <= b < |ks| && keys != {}
    requires target == if request < Min(keys) then Min(keys) else request
    requires target >= ks[b] && forall i :: 0 <= i < b ==> target < ks[i]
    ensures ks[b] == Tier(keys, request)
  {
    var tier := Tier(keys, request);
    var j :| 0 <= j < |ks| && ks[j] == tier;
    assert tier <= target;
    assert ks[b] <= tier;
    assert j >= b;
  }

  /**
   * `feeFor`: resolves every requested target to the fee rate of its tier
   * in the table.
   */
  method FeeFor(unsortedTargets: seq<int>, fees: FeeTable) returns (response: FeeTable)
    ensures ResolvesTo(unsortedTargets, fees, response)
  {
    // `unsortedTargets.sort()` only changes the order in which the targets
    // are visited; each target's entry does not depend on it.
    var targets := unsortedTargets;
    var feesBlocks := KeysDescending(fees.Keys);
    // `parseInt` of the last key; NaN (here None) for an empty table.
    var minTarget := if |feesBlocks| == 0 then None else Some(feesBlocks[|feesBlocks| - 1]);
    if minTarget.Some? {
      LastIsLeast(feesBlocks, fees.Keys);
    }
    response := map[];
    var t := 0;
    while t < |targets|
      invariant 0 <= t <= |targets|
      invariant fees.Keys == {} ==> response == map[]
      invariant fees.Keys != {} ==> forall x :: x in response ==> x in targets
      invariant fees.Keys != {} ==> forall i :: 0 <= i < t ==> targets[i] in response
      invariant forall x :: x in response ==> fees.Keys != {} && response[x] == fees[Tier(fees.Keys, x)]
    {
      // A comparison with NaN is false, so an empty table leaves the target as it is.
      var target := if minTarget.Some? && targets[t] < minTarget.value then minTarget.value else targets[t];
      ghost var before := response;
      var b := 0;
      while b < |feesBlocks|
        invariant 0 <= b <= |feesBlocks|
        invariant forall i :: 0 <= i < b ==> target < feesBlocks[i]
        invariant response == before
      {
        if target >= feesBlocks[b] {
          assert feesBlocks[b] in fees.Keys;
          FirstNotAboveIsTier(feesBlocks, fees.Keys, targets[t], target, b);
          response := response[targets[t] := fees[feesBlocks[b]]];
          break;
        }
        b := b + 1;
      }
      t := t + 1;
    }
    if fees.Keys != {} {
      forall x | x in unsortedTargets ensures x in response {
        var i :| 0 <= i < |targets| && targets[i] == x;
      }
    }
  }

  /** A request below the least table target gets the least target's rate. */
  lemma BelowLeastGetsLeast(targets: seq<int>, fees: FeeTable, r: FeeTable, t: int)
    requires ResolvesTo(targets, fees, r) && fees.Keys != {} && t in targets && t < Min(fees.Keys)
    ensures t in r && r[t] == fees[Min(fees.Keys)]
  {
  }

  /**
   * A request at or above the least table target gets the rate of the
   * greatest table target not above it; every answer is a rate of the table.
   */
  lemma ResolvesToFloor(targets: seq<int>, fees: FeeTable, r: FeeTable, t: int)
    requires ResolvesTo(targets, fees, r) && fees.Keys != {} && t in targets
    ensures t in r && exists k :: k in fees && r[t] == fees[k]
    ensures t >= Min(fees.Keys) ==>
      exists k :: k in fees && k <= t && r[t] == fees[k] && forall j :: j in fees && j <= t ==> j <= k
  {
    var k := Tier(fees.Keys, t);
    assert k in fees && r[t] == fees[k];
  }

  lemma TierMonotone(keys: set<int>, t: int, t': int)
    requires keys != {} && t <= t'
    ensures Tier(keys, t) <= Tier(keys, t')
  {
  }

  /** Over a rank-ordered table the resolved rates are rank-ordered too. */
  lemma ResolutionKeepsOrdering(targets: seq<int>, fees: FeeTable, r: FeeTable)
    requires ResolvesTo(targets, fees, r) && NonIncreasing(fees)
    ensures NonIncreasing(r)
  {
    if fees.Keys != {} {
      forall t, t' | t in r && t' in r && t < t'
        ensures r[t] >= r[t']
      {
        TierMonotone(fees.Keys, t, t');
      }
    }
  }

  /** Resolving the same targets against a resolved table changes nothing. */
  lemma ResolutionIdempotent(targets: seq<int>, fees: FeeTable, r: FeeTable, r': FeeTable)
    requires ResolvesTo(targets, fees, r) && ResolvesTo(targets, r, r')
    ensures r' == r
  {
    if r.Keys != {} {
      forall t | t in r ensures Tier(r.Keys, t) == t {
        var tier := Tier(r.Keys, t);
        assert t <= tier;
      }
      forall t | t in r' ensures t in r {}
      forall t | t in r ensures t in r' && r'[t] == r[t] {}
    }
  }

  // ---------------------------------------------------------------------
  // the exported handler

  const TEN_MINUTES: int := 10 * 60 * 1000

  datatype Decision = Recompute | Wait(remaining: int)

  /** The stored update time; a missing one counts as ten minutes ago. */
  function KeyTime(stored: Option<int>, now: int): int {
    if stored.None? then now - TEN_MINUTES else stored.value
  }

  /** The handler's throttle: recompute, or wait for the rest of the ten minutes. */
  function Throttle(stored: Option<int>, now: int): Decision {
    var timeDiff := now - KeyTime(stored, now);
    if timeDiff >= TEN_MINUTES then Recompute else Wait(TEN_MINUTES - timeDiff)
  }

  /** With no stored time the handler always recomputes. */
  lemma ColdStartRecomputes(now: int)
    ensures Throttle(None, now) == Recompute
  {
  }

  /** With a stored time the handler recomputes exactly when ten minutes have passed. */
  lemma RecomputeAfterTenMinutes(stored: int, now: int)
    ensures Throttle(Some(stored), now) == Recompute <==> now - stored >= TEN_MINUTES
  {
  }

  /**
   * A reported wait is positive and, unless the stored time lies in the
   * future, at most ten minutes; it is exactly the time until a call
   * recomputes.
   */
  lemma WaitIsRemainingTime(stored: int, now: int)
    requires Throttle(Some(stored), now).Wait?
    ensures var ms := Throttle(Some(stored), now).remaining;
      && 0 < ms
      && (stored <= now ==> ms <= TEN_MINUTES)
      && Throttle(Some(stored), now + ms) == Recompute
      && Throttle(Some(stored), now + ms - 1).Wait?
  {
  }

  datatype Reply = Updated(fees: FeeTable) | WaitFor(remaining: int) | Failed

  /** The store behind the endpoint: `fees:time`, `fees` and `fees:raw`. */
  class FeeStore {
    var feesTime: Option<int>
    var fees: FeeTable
    var rawFees: FeeTable

    constructor ()
      ensures feesTime == None && fees == map[] && rawFees == map[]
    {
      feesTime, fees, rawFees := None, map[], map[];
    }

    /**
     * One call of the endpoint at time `now`. The provider replies are
     * inputs (None when a request fails); `savedAt` is the clock reading
     * taken after the fetch, which becomes the new update time.
     */
    method Handle(now: int, bitGo: Option<FeeTable>, blockstream: Option<FeeTable>, savedAt: int)
      returns (reply: Reply)
      modifies this
      ensures Throttle(old(feesTime), now).Wait? ==>
        reply == WaitFor(Throttle(old(feesTime), now).remaining)
      ensures Throttle(old(feesTime), now).Recompute? && (bitGo.None? || blockstream.None?) ==>
        reply == Failed
      ensures Throttle(old(feesTime), now).Recompute? && bitGo.Some? && blockstream.Some? ==>
        reply.Updated?
      ensures !reply.Updated? ==>
        feesTime == old(feesTime) && fees == old(fees) && rawFees == old(rawFees)
      ensures reply.Updated? ==>
        && Throttle(old(feesTime), now).Recompute? && bitGo.Some? && blockstream.Some?
        && reply.fees == fees && feesTime == Some(savedAt)
        && ResolvesTo(DEFAULT_TARGETS, rawFees, fees)
        && rawFees.Keys == bitGo.value.Keys + blockstream.value.Keys
        && exists sats, bitGoFees, blockstreamFees ::
             && InSatoshis(sats, bitGo.value)
             && IsRankPairing(bitGoFees, Ceiled(sats))
             && IsRankPairing(blockstreamFees, Ceiled(blockstream.value))
             && rawFees == MergeFees(bitGoFees, blockstreamFees)
    {
      var decision := Throttle(feesTime, now);
      if decision.Wait? {
        return WaitFor(decision.remaining);
      }
      if bitGo.None? {
        return Failed;
      }
      var bitGoSats := ConvertToSats(bitGo.value);
      var bitGoFees := SortFees(bitGoSats);
      if blockstream.None? {
        return Failed;
      }
      var blockstreamFees := SortFees(blockstream.value);
      var merged := MergeFees(bitGoFees, blockstreamFees);
      var resolved := FeeFor(DEFAULT_TARGETS, merged);
      fees := resolved;
      rawFees := merged;
      feesTime := Some(savedAt);
      reply := Updated(resolved);
    }
  }
}

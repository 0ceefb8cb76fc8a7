/**
 * The tweeting back end: it blends the BitGo and Bitcoin Core fee tables
 * target by target and re-pairs the blend by rank. It publishes the blend
 * when the last tweet is empty or an error, or when for some target the
 * old rate over the new rate falls outside [0.9, 1.1].
 */
module BackFees {
  import opened Tables
  import opened Sorting

  // ---------------------------------------------------------------------
  // minFeeFor

  /** JavaScript reads a fee as true when it is present and not zero. */
  predicate Truthy(m: FeeTable, t: int) {
    t in m && m[t] != 0.0
  }

  /** Neither provider has a usable fee for the target. */
  predicate Missing(bitGo: FeeTable, core: FeeTable, t: int) {
    !Truthy(bitGo, t) && !Truthy(core, t)
  }

  ghost predicate Covered(blocks: seq<int>, bitGo: FeeTable, core: FeeTable) {
    forall t :: t in blocks ==> !Missing(bitGo, core, t)
  }

  /**
   * The confidence-weighted blend of two positive fee rates: the closer
   * they are, the larger the weight `lvl` on the smaller one.
   */
  function Soft(a: real, b: real): real
    requires a > 0.0 && b > 0.0
  {
    var max := if a >= b then a else b;
    var min := if a >= b then b else a;
    Mean(max, min, min / max * 150.0)
  }

  /** `max` and `min` averaged with weights 1 and `lvl`. */
  function Mean(max: real, min: real, lvl: real): real
    requires lvl >= 0.0
  {
    (max + min * lvl) / (1.0 + lvl)
  }

  /** The fee `minFeeFor` stores for one target before the re-pairing. */
  function Combined(bitGo: FeeTable, core: FeeTable, t: int): real
    requires NonNegative(bitGo) && NonNegative(core) && !Missing(bitGo, core, t)
  {
    if Truthy(bitGo, t) && Truthy(core, t) then Round(Soft(bitGo[t], core[t])) as real
    else if Truthy(bitGo, t) then bitGo[t]
    else core[t]
  }

  /** `tempFees`: the combined fee of every requested target. */
  ghost function TempFees(blocks: seq<int>, bitGo: FeeTable, core: FeeTable): FeeTable
    requires NonNegative(bitGo) && NonNegative(core) && Covered(blocks, bitGo, core)
  {
    map t | t in blocks :: Combined(bitGo, core, t)
  }

  /** A weighted mean of `max` and `min` lies between them. */
  lemma MeanBetween(max: real, min: real, lvl: real)
    requires min <= max && lvl >= 0.0
    ensures min <= Mean(max, min, lvl) <= max
  {
    var d := 1.0 + lvl;
    var soft := Mean(max, min, lvl);
    assert soft * d == max + min * lvl;
    assert min * d == min + min * lvl;
    assert max * d == max + max * lvl;
    assert (soft - min) * d == soft * d - min * d;
    assert (max - soft) * d == max * d - soft * d;
    assert (max - min) * lvl >= 0.0;
    NonNegativeFactor(soft - min, d);
    NonNegativeFactor(max - soft, d);
  }

  lemma NonNegativeFactor(x: real, d: real)
    requires d > 0.0 && x * d >= 0.0
    ensures x >= 0.0
  {
  }

  /** The blend lies between the two rates. */
  lemma SoftWithin(a: real, b: real)
    requires a > 0.0 && b > 0.0
    ensures (if a <= b then a else b) <= Soft(a, b) <= (if a >= b then a else b)
  {
    if a >= b {
      assert b / a >= 0.0;
      MeanBetween(a, b, b / a * 150.0);
    } else {
      assert a / b >= 0.0;
      MeanBetween(b, a, a / b * 150.0);
    }
  }

  /** Two equal rates blend to that rate. */
  lemma SoftOfEqual(a: real)
    requires a > 0.0
    ensures Soft(a, a) == a
  {
    assert a / a == 1.0;
    assert Mean(a, a, 150.0) == a;
  }

  /** With whole-number rates the rounded blend stays between them too. */
  lemma RoundedBlendWithin(a: real, b: real)
    requires a > 0.0 && b > 0.0 && Integral(a) && Integral(b)
    ensures (if a <= b then a else b) <= Round(Soft(a, b)) as real <= (if a >= b then a else b)
  {
    SoftWithin(a, b);
    var n := Round(Soft(a, b));
    var lo, hi := if a <= b then a else b, if a >= b then a else b;
    assert lo.Floor as real == lo && hi.Floor as real == hi;
    assert lo.Floor - 1 < n by {
      assert lo - 0.5 < n as real;
    }
    assert n < hi.Floor + 1 by {
      assert n as real <= hi + 0.5;
    }
  }

  /** Two equal whole-number rates are stored unchanged. */
  lemma AgreementKept(bitGo: FeeTable, core: FeeTable, t: int)
    requires NonNegative(bitGo) && NonNegative(core)
    requires Truthy(bitGo, t) && Truthy(core, t) && bitGo[t] == core[t] && Integral(bitGo[t])
    ensures Combined(bitGo, core, t) == bitGo[t]
  {
    SoftOfEqual(bitGo[t]);
    assert Round(bitGo[t]) == bitGo[t].Floor;
  }

  /** When both rates are usable, the stored fee lies between them. */
  lemma BlendedWithin(bitGo: FeeTable, core: FeeTable, t: int)
    requires NonNegative(bitGo) && NonNegative(core)
    requires Truthy(bitGo, t) && Truthy(core, t) && Integral(bitGo[t]) && Integral(core[t])
    ensures var lo, hi := if bitGo[t] <= core[t] then bitGo[t] else core[t],
                          if bitGo[t] >= core[t] then bitGo[t] else core[t];
      lo <= Combined(bitGo, core, t) <= hi
  {
    RoundedBlendWithin(bitGo[t], core[t]);
  }

  /**
   * When only one rate is usable it is stored as it is; a rate of zero
   * counts as missing.
   */
  lemma OneSourceKept(bitGo: FeeTable, core: FeeTable, t: int)
    requires NonNegative(bitGo) && NonNegative(core) && !Missing(bitGo, core, t)
    ensures !Truthy(core, t) ==> Combined(bitGo, core, t) == bitGo[t]
    ensures !Truthy(bitGo, t) ==> Combined(bitGo, core, t) == core[t]
  {
  }

  /** The first requested target for which neither provider has a fee. */
  ghost predicate FirstMissing(blocks: seq<int>, bitGo: FeeTable, core: FeeTable, t: int) {
    exists i :: 0 <= i < |blocks| && blocks[i] == t && Missing(bitGo, core, t)
      && forall j :: 0 <= j < i ==> !Missing(bitGo, core, blocks[j])
  }

  /**
   * The answer of `minFeeFor`: the re-paired blend with both provider
   * tables, or the error for a target that neither provider covers.
   */
  datatype Blend = Fees(coiny: FeeTable, bitGo: FeeTable, core: FeeTable) | Error(target: int)

  /**
   * The first loop of `minFeeFor`: the combined fee of every target, or
   * the first target that neither provider covers.
   */
  method CombineTargets(blocks: seq<int>, bitGo: FeeTable, core: FeeTable) returns (res: Blend)
    requires NonNegative(bitGo) && NonNegative(core)
    ensures res.Error? <==> !Covered(blocks, bitGo, core)
    ensures res.Error? ==> FirstMissing(blocks, bitGo, core, res.target)
    ensures res.Fees? ==> res.coiny == TempFees(blocks, bitGo, core)
  {
    var tempFees: FeeTable := map[];
    var i := 0;
    while i < |blocks|
      invariant 0 <= i <= |blocks|
      invariant forall j :: 0 <= j < i ==> !Missing(bitGo, core, blocks[j])
      invariant forall j :: 0 <= j < i ==> blocks[j] in tempFees
      invariant forall t :: t in tempFees ==> exists j :: 0 <= j < i && blocks[j] == t
      invariant forall t :: t in tempFees ==> !Missing(bitGo, core, t) && tempFees[t] == Combined(bitGo, core, t)
    {
      var t := blocks[i];
      if Truthy(bitGo, t) && Truthy(core, t) {
        var soft := Soft(bitGo[t], core[t]);
        tempFees := tempFees[t := Round(soft) as real];
      } else if Truthy(bitGo, t) {
        tempFees := tempFees[t := bitGo[t]];
      } else if Truthy(core, t) {
        tempFees := tempFees[t := core[t]];
      } else {
        assert FirstMissing(blocks, bitGo, core, t);
        return Error(t);
      }
      i := i + 1;
    }
    assert Covered(blocks, bitGo, core) by {
      forall t | t in blocks ensures !Missing(bitGo, core, t) {
        var j :| 0 <= j < |blocks| && blocks[j] == t;
      }
    }
    ghost var wanted := TempFees(blocks, bitGo, core);
    forall t | t in tempFees ensures t in wanted {}
    forall t | t in wanted ensures t in tempFees {
      var j :| 0 <= j < |blocks| && blocks[j] == t;
    }
    return Fees(tempFees, bitGo, core);
  }

  /**
   * The second loop of `minFeeFor`: the targets ascending paired with the
   * combined fees falling.
   */
  method RankPair(tempFees: FeeTable) returns (coiny: FeeTable)
    ensures IsRankPairing(coiny, tempFees)
  {
    var feesSorted := KeysByFee(tempFees);
    var blocksSorted := KeysAscending(tempFees.Keys);
    ghost var rates := Along(tempFees, feesSorted);
    coiny := map[];
    var k := 0;
    while k < |feesSorted|
      invariant 0 <= k <= |feesSorted|
      invariant coiny == Zip(blocksSorted[..k], rates[..k])
    {
      ZipSnoc(blocksSorted, rates, k);
      coiny := coiny[blocksSorted[k] := tempFees[feesSorted[k]]];
      k := k + 1;
    }
    assert blocksSorted[..k] == blocksSorted && rates[..k] == rates;
    FeesFalling(tempFees, feesSorted);
    PairingByPosition(tempFees, blocksSorted, feesSorted);
  }

  /**
   * `minFeeFor` over the tables the two providers returned for `blocks`.
   * Provider rates are fee rates and so are not negative.
   */
  method MinFeeFor(blocks: seq<int>, bitGo: FeeTable, core: FeeTable) returns (res: Blend)
    requires NonNegative(bitGo) && NonNegative(core)
    ensures res.Error? <==> !Covered(blocks, bitGo, core)
    ensures res.Error? ==> FirstMissing(blocks, bitGo, core, res.target)
    ensures res.Fees? ==>
      && res.bitGo == bitGo && res.core == core
      && IsRankPairing(res.coiny, TempFees(blocks, bitGo, core))
  {
    res := CombineTargets(blocks, bitGo, core);
    if res.Fees? {
      var coiny := RankPair(res.coiny);
      res := Fees(coiny, bitGo, core);
    }
  }

  /** The worked example: targets 2, 6 and 144 blend to 10, 4 and 1. */
  lemma WorkedExample()
    ensures var bitGo, core := map[2 := 10.0, 6 := 5.0, 144 := 1.0], map[2 := 12.0, 6 := 4.0, 144 := 2.0];
      && Combined(bitGo, core, 2) == 10.0
      && Combined(bitGo, core, 6) == 4.0
      && Combined(bitGo, core, 144) == 1.0
  {
    assert Soft(10.0, 12.0) == 1262.0 / 126.0;
    assert Soft(5.0, 4.0) == 485.0 / 121.0;
    assert Soft(1.0, 2.0) == 77.0 / 76.0;
  }

  // ---------------------------------------------------------------------
  // buildJSON

  /** `req.filter((i) => defaults.indexOf(i) < 0)`: the requests that are not defaults. */
  function Extras(req: seq<int>): (e: seq<int>)
    ensures forall x :: x in e <==> x in req && x !in DEFAULT_TARGETS
    ensures forall x :: x !in DEFAULT_TARGETS ==> multiset(e)[x] == multiset(req)[x]
  {
    if req == [] then []
    else
      assert req == [req[0]] + req[1..];
      (if req[0] in DEFAULT_TARGETS then [] else [req[0]]) + Extras(req[1..])
  }

  /** An element of a sequence without repeats occurs in it once. */
  lemma {:induction false} OnceInDistinct(s: seq<int>, x: int)
    requires Increasing(s) && x in s
    ensures multiset(s)[x] == 1
  {
    assert s == [s[0]] + s[1..];
    if s[0] != x {
      OnceInDistinct(s[1..], x);
    } else {
      assert x !in s[1..];
    }
  }

  lemma DefaultsIncreasing()
    ensures Increasing(DEFAULT_TARGETS)
  {
  }

  /** A request that is not a default counts only among the extras. */
  lemma CountInBlocks(extras: seq<int>, x: int)
    requires forall y :: y in extras ==> y !in DEFAULT_TARGETS
    ensures multiset(DEFAULT_TARGETS + extras)[x] ==
      if x in DEFAULT_TARGETS then 1 else multiset(extras)[x]
  {
    assert multiset(DEFAULT_TARGETS + extras) == multiset(DEFAULT_TARGETS) + multiset(extras);
    if x in DEFAULT_TARGETS {
      DefaultsIncreasing();
      OnceInDistinct(DEFAULT_TARGETS, x);
      assert x !in extras;
    }
  }

  /**
   * The block list of `buildJSON`: the defaults, followed by the requested
   * targets that are not defaults when a request is given.
   */
  function BuildBlocks(req: Option<seq<int>>): (blocks: seq<int>)
    ensures |blocks| >= |DEFAULT_TARGETS| && blocks[..|DEFAULT_TARGETS|] == DEFAULT_TARGETS
    ensures forall d :: d in DEFAULT_TARGETS ==> multiset(blocks)[d] == 1
    ensures forall x :: x !in DEFAULT_TARGETS ==>
      multiset(blocks)[x] == if req.Some? then multiset(req.value)[x] else 0
    ensures req.Some? ==> blocks[|DEFAULT_TARGETS|..] == Extras(req.value)
  {
    var extras := if req.Some? then Extras(req.value) else [];
    var blocks := DEFAULT_TARGETS + extras;
    assert blocks[..|DEFAULT_TARGETS|] == DEFAULT_TARGETS;
    assert blocks[|DEFAULT_TARGETS|..] == extras;
    forall x ensures multiset(blocks)[x] == if x in DEFAULT_TARGETS then 1 else multiset(extras)[x] {
      CountInBlocks(extras, x);
    }
    blocks
  }

  /** `buildJSON`: `minFeeFor` over the block list. */
  method BuildJSON(req: Option<seq<int>>, bitGo: FeeTable, core: FeeTable) returns (res: Blend)
    requires NonNegative(bitGo) && NonNegative(core)
    ensures res.Error? <==> !Covered(BuildBlocks(req), bitGo, core)
    ensures res.Error? ==> FirstMissing(BuildBlocks(req), bitGo, core, res.target)
    ensures res.Fees? ==>
      && res.bitGo == bitGo && res.core == core
      && res.coiny.Keys >= set d | d in DEFAULT_TARGETS
      && IsRankPairing(res.coiny, TempFees(BuildBlocks(req), bitGo, core))
  {
    var blocks := BuildBlocks(req);
    res := MinFeeFor(blocks, bitGo, core);
    if res.Fees? {
      forall d | d in DEFAULT_TARGETS ensures d in res.coiny {
        assert d in blocks;
      }
    }
  }

  // ---------------------------------------------------------------------
  // checkDiff

  /**
   * `diff < 0.9 || diff > 1.1` with `diff = used / current[i]` in JavaScript
   * arithmetic: a missing fresh rate or 0 / 0 gives NaN, for which both
   * comparisons are false; a non-zero rate over 0 gives an infinity.
   */
  predicate Moved(used: real, current: FeeTable, i: int) {
    if i !in current then false
    else if current[i] == 0.0 then used != 0.0
    else used / current[i] < 0.9 || used / current[i] > 1.1
  }

  /** Some target of the last tweet moved out of the ten percent band. */
  ghost predicate Significant(used: FeeTable, current: FeeTable) {
    exists i :: i in used && Moved(used[i], current, i)
  }

  /**
   * What `checkDiff` answers: nothing after a failed blend; the fresh table
   * when the last tweet is empty or an error; otherwise the fresh table
   * exactly when some target moved.
   */
  ghost function ToPublish(used: FeeTable, usedError: bool, getFees: Blend): Option<FeeTable> {
    if getFees.Error? then None
    else if used.Keys == {} || usedError then Some(getFees.coiny)
    else if Significant(used, getFees.coiny) then Some(getFees.coiny)
    else None
  }

  /**
   * `checkDiff(used)` with the result of `buildJSON()` passed in;
   * `usedError` says whether `used` carries an error.
   */
  method CheckDiff(used: FeeTable, usedError: bool, getFees: Blend) returns (r: Option<FeeTable>)
    ensures r == ToPublish(used, usedError, getFees)
  {
    if getFees.Error? {
      return None;
    }
    var current := getFees.coiny;
    if |used| == 0 {
      return Some(current);
    }
    if usedError {
      return Some(current);
    }
    var keys := used.Keys;
    while keys != {}
      invariant keys <= used.Keys
      invariant forall i :: i in used && i !in keys ==> !Moved(used[i], current, i)
      decreases |keys|
    {
      HasElement(keys);
      var i :| i in keys;
      if Moved(used[i], current, i) {
        return Some(current);
      }
      keys := keys - {i};
    }
    return None;
  }

  /** Against a positive fresh rate, "moved" means outside [0.9, 1.1] times it. */
  lemma MovedOutsideBand(used: real, current: FeeTable, i: int)
    requires i in current && current[i] > 0.0
    ensures Moved(used, current, i) <==> used < 0.9 * current[i] || used > 1.1 * current[i]
  {
    var f := current[i];
    assert used / f < 0.9 <==> used < 0.9 * f;
    assert used / f > 1.1 <==> used > 1.1 * f;
  }

  /** Ratios of exactly 0.9 or 1.1 do not count as a move. */
  lemma BandEdgesDoNotMove(current: FeeTable, i: int)
    requires i in current && current[i] > 0.0
    ensures !Moved(0.9 * current[i], current, i) && !Moved(1.1 * current[i], current, i)
  {
    MovedOutsideBand(0.9 * current[i], current, i);
    MovedOutsideBand(1.1 * current[i], current, i);
  }

  /** A table never moved against itself. */
  lemma NothingMovesAgainstItself(t: FeeTable)
    ensures !Significant(t, t)
  {
    forall i | i in t ensures !Moved(t[i], t, i) {
      if t[i] != 0.0 {
        assert t[i] / t[i] == 1.0;
      }
    }
  }

  /** Once a non-empty table has been tweeted, the same blend is not tweeted again. */
  lemma NoRepeatTweet(t: FeeTable, bitGo: FeeTable, core: FeeTable)
    requires t.Keys != {}
    ensures ToPublish(t, false, Fees(t, bitGo, core)) == None
  {
    NothingMovesAgainstItself(t);
  }

  // ---------------------------------------------------------------------
  // makeTweet

  /** The module-level `lastTweetJson`. */
  class Tweeter {
    var lastTweetJson: FeeTable
    var lastTweetError: bool

    constructor ()
      ensures lastTweetJson == map[] && !lastTweetError
    {
      lastTweetJson, lastTweetError := map[], false;
    }

    /** The stored last tweet read at start-up replaces the empty one. */
    method Restore(saved: FeeTable, savedError: bool)
      modifies this
      ensures lastTweetJson == saved && lastTweetError == savedError
    {
      lastTweetJson, lastTweetError := saved, savedError;
    }

    /**
     * `makeTweet` with the blend passed in; `posted` says whether the
     * tweet was accepted. Only an accepted tweet replaces `lastTweetJson`.
     */
    method MakeTweet(getFees: Blend, posted: bool) returns (json: Option<FeeTable>)
      modifies this
      ensures json == ToPublish(old(lastTweetJson), old(lastTweetError), getFees)
      ensures json.Some? && posted ==> lastTweetJson == json.value && !lastTweetError
      ensures !(json.Some? && posted) ==>
        lastTweetJson == old(lastTweetJson) && lastTweetError == old(lastTweetError)
    {
      json := CheckDiff(lastTweetJson, lastTweetError, getFees);
      if json.Some? && posted {
        lastTweetJson, lastTweetError := json.value, false;
      }
    }
  }
}

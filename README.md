# Coiny fee engines in Dafny

Coiny publishes Bitcoin fee estimates. A fee table maps a confirmation
target, a number of blocks, to a fee rate in satoshis per byte. This
project models the two engines that build those tables and proves what they
guarantee.

- **The update endpoint** (`api/fees/update/index.js`). It first runs a
  ten-minute throttle. When an update is due, it converts the BitGo table
  from millisatoshis to satoshis. It then re-pairs the BitGo and Blockstream
  tables by rank: targets ascending get fee rates descending, each rounded
  up. It merges the two tables, with Blockstream winning on a shared target,
  and resolves the nine published targets against the merged table.
  Module `FeeUpdate`, class `FeeUpdate.FeeStore` for the stored values.
- **The tweeting back end** (`back/fees.js`). It blends the BitGo and
  Bitcoin Core fee of each target with a confidence-weighted average. It
  falls back to the one usable rate when only one exists. It fails when a
  target has neither. The blend is then re-paired by rank. The blend is
  tweeted when the last tweet is empty or an error. Otherwise it is
  tweeted when, for some target of the last tweet, the old rate divided
  by the new rate lies outside [0.9, 1.1]. Against a positive new rate
  that means the old rate is below 0.9 times or above 1.1 times the new
  one. The band is not a symmetric ten percent move: old 100 and new
  110.5 give 0.905, no tweet; old 100 and new 90.5 give 1.105, a tweet.
  Module `BackFees`, class `BackFees.Tweeter` for the remembered last
  tweet.

Both engines share module `Tables`. It holds the rounding functions and the
specification of the rank re-pairing, `IsRankPairing`. A re-paired table has
the same targets and the same multiset of fee rates as its source, and its
rates never go up as the target grows. `RankPairingUnique` shows that these
three facts pin the table down. Module `Sorting` models the three
`Array.prototype.sort` calls both engines make on table keys.

Modelling choices:

- JavaScript numbers are exact `real`s. `Math.ceil` and `Math.round` are
  written out.
- Object keys are the keys of a `map<int, real>`. The built-in sort is
  stable and `Object.keys` lists integer keys ascending, so targets with
  equal fees stay in ascending target order (`Sorting.Precedes`).
- Provider replies, the clock and the stored values are parameters. A
  failed provider request is `None`. Whether a tweet was accepted is a
  boolean parameter.
- JavaScript's `NaN` and infinities are modelled where the code depends on
  them. `feeFor` on an empty table answers nothing: its inner loop over
  the table's targets never runs. Its `minTarget` is then `NaN`, so the
  raise to the least target does nothing. In `checkDiff`, a target missing from the fresh table, or a
  ratio of 0 / 0, never triggers a tweet. A non-zero rate over a fresh
  rate of 0 always does.

Two behaviours of the code worth stating plainly:

- `feeFor` raises the target to the least table target. It then takes the
  **greatest table target not above it**. It does not take the nearest
  table target at or above the request.
- The merged table `{ ...bitGoFees, ...blockstreamFees }` is not always
  rank-ordered, even though both halves are. `FeeUpdate.MergeMayBreakOrdering`
  gives an instance. The published table is rank-ordered whenever the
  merged one is (`FeeUpdate.ResolutionKeepsOrdering`).

## Model

| member | source | states |
|---|---|---|
| Tables.Ceil | api/fees/update/index.js:26 | `Math.ceil`: the least integer not below the argument |
| Tables.Round | back/fees.js:29 | `Math.round`: lies within one half of the argument, a half going up |
| Tables.RankPairingUnique | back/fees.js:43-49 | two tables with the same targets, the same multiset of rates and non-increasing rates are equal, so the re-pairing has exactly one possible result |
| Tables.PairingByPosition | api/fees/update/index.js:20-27 | targets ascending paired position by position with the targets listed by falling fee give a rank pairing of the source table |
| Sorting.KeysAscending | api/fees/update/index.js:20 | `sort((a, b) => a - b)` on the keys: every key exactly once, strictly ascending |
| Sorting.KeysDescending | api/fees/update/index.js:62 | `sort((a, b) => b - a)` on the keys: every key exactly once, strictly descending |
| Sorting.KeysByFee | api/fees/update/index.js:21 | `sort((a, b) => fees[b] - fees[a])`: every key exactly once, fees falling, ties in ascending key order |
| FeeUpdate.SortFees | api/fees/update/index.js:19-29 | the result has exactly the input's targets, its rates never go up as the target grows, and its rates are the input's rates rounded up, as a multiset |
| FeeUpdate.ConvertToSats | api/fees/update/index.js:32-40 | the same targets, and each rate times 1000 gives back the input rate |
| FeeUpdate.SatoshisKeepRanking | api/fees/update/index.js:46-47 | converting to satoshis keeps the order of any two rates, so sorting after converting loses nothing |
| FeeUpdate.MergeFees | api/fees/update/index.js:50 | the merge has the targets of both tables; a Blockstream rate wins, and a BitGo rate survives only on a target Blockstream lacks |
| FeeUpdate.MergeMayBreakOrdering | api/fees/update/index.js:47-50 | two rank-ordered tables whose merge is not rank-ordered |
| FeeUpdate.Tier | api/fees/update/index.js:62-71 | the table target serving a request is a table target: the least one for a request below it, else the greatest one not above the request |
| FeeUpdate.FeeFor | api/fees/update/index.js:59-76 | over a non-empty table, exactly the requested targets get an entry, each the rate of its tier; an empty table gives an empty answer |
| FeeUpdate.BelowLeastGetsLeast | api/fees/update/index.js:63-67 | a request below the least table target gets the rate stored at the least target |
| FeeUpdate.ResolvesToFloor | api/fees/update/index.js:62-71 | every request gets a rate of the table; at or above the least target, the rate of the greatest table target not above the request |
| FeeUpdate.TierMonotone | api/fees/update/index.js:62-71 | a larger request is never served by a smaller table target |
| FeeUpdate.ResolutionKeepsOrdering | api/fees/update/index.js:59-76 | over a rank-ordered table, the resolved rates never go up as the target grows |
| FeeUpdate.ResolutionIdempotent | api/fees/update/index.js:59-76 | resolving the same targets again against a resolved table gives the same table |
| FeeUpdate.ColdStartRecomputes | api/fees/update/index.js:87-94 | with no stored update time the handler recomputes |
| FeeUpdate.RecomputeAfterTenMinutes | api/fees/update/index.js:84-94 | with a stored update time the handler recomputes exactly when at least ten minutes have passed |
| FeeUpdate.WaitIsRemainingTime | api/fees/update/index.js:91-115 | a reported wait is positive, at most ten minutes when the stored time is not in the future, and is exactly the time until a call would recompute |
| FeeUpdate.FeeStore.constructor | api/fees/update/index.js:82-88 | nothing is stored yet: no update time, empty tables |
| FeeUpdate.FeeStore.Handle | api/fees/update/index.js:79-118 | waiting reports the remaining time and stores nothing; a failed provider request stores nothing; when an update is due and both providers answer, it updates and stores the new time, the merged rank-paired tables and the nine resolved targets |
| BackFees.SoftWithin | back/fees.js:24-28 | the blended rate lies between the two provider rates |
| BackFees.SoftOfEqual | back/fees.js:25-28 | two equal rates blend to that rate |
| BackFees.RoundedBlendWithin | back/fees.js:24-29 | with whole-number rates the rounded blend still lies between them |
| BackFees.AgreementKept | back/fees.js:24-29 | when both providers give the same whole-number rate, it is stored unchanged |
| BackFees.BlendedWithin | back/fees.js:21-29 | when both rates of a target are usable whole numbers, the stored fee lies between them |
| BackFees.OneSourceKept | back/fees.js:30-35 | when only one provider has a usable rate it is stored as it is; a rate of 0 counts as missing |
| BackFees.WorkedExample | back/fees.js:24-35 | rates 10/12, 5/4 and 1/2 for targets 2, 6 and 144 are stored as 10, 4 and 1 |
| BackFees.CombineTargets | back/fees.js:20-41 | an error exactly when some target has no usable rate, naming the first such target; otherwise the combined fee of every requested target |
| BackFees.RankPair | back/fees.js:43-49 | the result is the rank pairing of the combined fees: same targets, same multiset of fees, never going up |
| BackFees.MinFeeFor | back/fees.js:16-52 | an error object with no table exactly when some target has no usable rate; otherwise the rank pairing of the combined fees together with both provider tables |
| BackFees.Extras | back/fees.js:57 | keeps exactly the requests that are not defaults, each as often as it was requested |
| BackFees.BuildBlocks | back/fees.js:56-57 | the block list starts with the nine defaults in order, holds each default once, and then lists the requested targets that are not defaults |
| BackFees.BuildJSON | back/fees.js:55-60 | the answer of `minFeeFor` over that block list: an error naming the first uncovered target exactly when one exists; otherwise the re-paired blend, covering every default target, with both provider tables passed through |
| BackFees.CheckDiff | back/fees.js:68-79 | nothing after a failed blend; the fresh table when the last tweet is empty or an error; otherwise the fresh table exactly when some target's ratio left [0.9, 1.1] |
| BackFees.MovedOutsideBand | back/fees.js:75-76 | against a positive fresh rate a target moved exactly when the old rate is below 0.9 or above 1.1 times the fresh one |
| BackFees.BandEdgesDoNotMove | back/fees.js:75-76 | ratios of exactly 0.9 and 1.1 do not trigger a tweet |
| BackFees.NothingMovesAgainstItself | back/fees.js:74-78 | no target of a table moved against the table itself |
| BackFees.NoRepeatTweet | back/fees.js:68-79 | after a non-empty table is tweeted, the same table is not tweeted again |
| BackFees.Tweeter.constructor | back/fees.js:63 | the last tweet starts empty |
| BackFees.Tweeter.Restore | back/fees.js:64-66 | the stored last tweet read at start-up replaces the empty one |
| BackFees.Tweeter.MakeTweet | back/fees.js:98-114 | answers what `checkDiff` answers for the last tweet; only an accepted tweet replaces the last tweet |

## Left out

- Redis set-up and every read and write. Stored values are parameters, and the store is the fields of `FeeUpdate.FeeStore` and `BackFees.Tweeter`.
- The HTTP requests to BitGo and Blockstream, and the `bitcoin-core.js`, `bitgo.js` and `price.js` modules. Their answers are input tables. These modules are not part of this model.
- `JSON.stringify` and `JSON.parse` of the merged table, and its storage as text. They are taken to give back the same table.
- The handler writes the table object to Redis and into its reply with string conversion. The model stores the table itself.
- The in-place `sort()` of the caller's target array in `feeFor`. Only the order of visits depends on it, not the answer.
- `buildText`, the tweet text with USD prices. It is display formatting with floating point.
- The Twitter `tw.post` call. Its outcome is the `posted` parameter of `BackFees.Tweeter.MakeTweet`.
- The wait message formatting with `Date`, `res.end`, logging, `async`/`await` and the `try`/`catch` plumbing.
- IEEE-754 rounding. Rates are exact reals.
- A last tweet read back as `null` when Redis holds none. `checkDiff` would then fail on `Object.keys(null)`. `BackFees.Tweeter.Restore` takes a table.
- The message text of `minFeeFor`'s error object, built from the two missing provider values. `BackFees.Blend.Error` carries the first target that neither provider covers instead.
- Keys of the last tweet other than targets. The model keeps only its fee rates and whether it carries a truthy `error`.
- BackFees.MinFeeFor: requires provider rates that are not negative. With a negative rate, `1 + lvl` could be 0 and the JavaScript blend would be an infinity or `NaN`.
- BackFees.BuildJSON: requires provider rates that are not negative, for the same reason.
- BackFees.CombineTargets: requires provider rates that are not negative, for the same reason.

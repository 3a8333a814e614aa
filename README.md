# convex-hull in Dafny

A model of the core of the `convex-hull` library: three planar hull engines and the input handling in front of them.

- **Geometric primitives** (`geometry.dfy`, module `Geometry`): the orientation test, the squared distance, the unnormalised line distance, identity membership (`isPointInHull`) and `indexOf`.
  - Points are objects whose coordinates never change, so `==` on `Point` is JavaScript's `===`.
  - The three helper copies (`algorithms/helper.ts`, `algorithms/helper.js`, `algorithm/helper.js`) compute the same formulas, and so does the private `orientation` of the legacy gift wrapper (`algorithm/gift-wrapping/index.js:21-34`). One definition stands for all of them.
- **Gift wrapping** (`giftwrapping.dfy`):
  - `findLeftMost`, `getInitialIterationPoint` and the counterclockwise test are pure functions.
  - The `forEach` of `getIterationPoint` and the `do…while` of `giftWrapping` are methods with loops, proved against the functions.
- **QuickHull** (`quickhull.dfy`):
  - `findSide` and the farthest-point `reduce` are functions.
  - The shared `Set` is a class `PointSet`, with the insertion order that `Array.from` returns.
  - `subHull` is a recursive method that mutates it. It is proved equal to the value-level run `SubHullRun`.
- **"Graham scan"** (`grahamscan.dfy`): despite its name, the engine walks the hull like a gift wrapper.
  - The three selection loops are methods, proved against index-based folds.
  - The `do…while` is a loop proved equal to `GrahamScanRun`.
  - `polarAngle` and `calcCos` are function parameters.
- **Copies of the engines.** Each engine exists as a TypeScript copy, a JavaScript copy under `algorithms/` that is equivalent in behaviour (it differs in types, in the QuickHull reduce seed object and in the Graham sentinels), and a legacy copy under `algorithm/`. One model covers the TypeScript and JavaScript copies of an engine. The legacy copy is a `Legacy…` method that runs the argument facade first and the engine on `points.values` afterwards. The Graham copies differ in their "nothing found yet" sentinels, and `GrahamScan.CopiesAgree` shows those never change the result.
- **Validation and normalisation:**
  - `checks.dfy` models the ordered guards of `checkArgumentCorrect` and the per-item and per-input mode classification.
  - `modecast.dfy` models `castToObjectMode` and `castPointFromIterableToObject`.
  - `points.dfy` models the `Points` wrapper.
  - `facade.dfy` models `algorithmArgumentFacade`.
  - `interface.dfy` holds the frozen mode constants and the error kinds as datatypes.
- **The cast as corrected.** `Points.FromItems`, `Facade.AlgorithmArgumentFacade` and the three `Legacy…` methods are built on the corrected branches of `ModeCast.CastToObjectMode`. As written, every input that passes validation ends in `ModeCastError(mode, undefined)`, so the legacy exports never reach their engine (see Findings).
- **Agreement across engines** (`agreement.dfy`): gift wrapping's and QuickHull's start points are the same object. The Graham scan starts on the same vertical line.

Raw JavaScript input is a datatype:
- `Input = Falsy | NotIterable | Items(items)`;
- each item is an object with numeric `x`/`y`, another object, an iterable of numbers, a scalar, or `null`/`undefined`.

Coordinates are exact integers. Angles and cosines are exact reals.

## Model

| member | source | states |
|---|---|---|
| Geometry.GetOrientation | src/algorithms/helper.ts:22-35 | getOrientation; characterised by OrientationBySign and the swap, rotation and translation lemmas below |
| Geometry.OrientationBySign | src/algorithms/helper.ts:22-35 | the orientation is CLOCKWISE iff the cross value is positive, COUNTERCLOCKWISE iff negative, COLLINEAR iff zero (same formula in algorithms/helper.js:20-33 and algorithm/helper.js:43-56) |
| Geometry.OrientationSwap | src/algorithms/helper.ts:24 | swapping q and r exchanges CLOCKWISE and COUNTERCLOCKWISE and keeps COLLINEAR |
| Geometry.CrossSwap | src/algorithms/helper.js:22 | swapping q and r negates the orientation value |
| Geometry.OrientationRotate | src/algorithms/helper.ts:24 | rotating (p, q, r) to (q, r, p) keeps the orientation |
| Geometry.CoincidentIsCollinear | src/algorithms/helper.ts:24-31 | if any two of the three points have equal coordinates the triplet is COLLINEAR |
| Geometry.OrientationTranslate | src/algorithms/helper.ts:24 | translating all three points by one vector keeps the orientation |
| Geometry.SquaredDistance | src/algorithms/helper.js:35-37 | getDistance/distance is never negative and is zero exactly when the coordinates coincide |
| Geometry.SquaredDistanceSymmetric | src/algorithm/helper.js:58-60 | distance(p, q) == distance(q, p) |
| Geometry.LineDistance | src/algorithm/helper.js:62-64 | lineDistance is never negative and equals the absolute value of the orientation value of (p1, p2, q) |
| Geometry.LineDistanceZeroIffCollinear | src/algorithm/helper.js:45-64 | lineDistance is zero exactly when (p1, p2, q) is COLLINEAR |
| Geometry.LineDistanceAtEnds | src/algorithms/quickhull.algorithm.ts:17-19 | the line distance of p1 and of p2 from their own line is zero |
| Geometry.IsPointInHull | src/algorithm/helper.js:9-11 | true iff some hull element is the very same point |
| Geometry.MembershipIsIdentity | src/algorithms/graham-scan.algorithm.ts:13-15 | in any hull that holds p but not q, p is found and q is not, even when q has p's coordinates |
| Geometry.IndexOf | src/algorithms/gift-wrapping.algorithm.ts:37 | indexOf by identity: -1 iff absent, otherwise the index of the first occurrence |
| Checks.DetectPointMode | src/util/checks.js:78-88 | OBJECT iff the item is an object with numeric x and y; ITERABLE iff it is an iterable of exactly two; null and undefined throw a TypeError (isIterable reads their iterator); ERROR otherwise |
| Checks.IterableIgnoresElements | src/util/checks.js:82 | the ITERABLE test looks at the length only, never at the elements |
| Checks.DetectPointsMode | src/util/checks.js:63-71 | a one-element mode set yields its element, any other size yields ERROR |
| Checks.SingletonSet | src/util/checks.js:65-66 | a one-element mode set is one of the three singleton sets |
| Checks.PointsModeOf | src/util/checks.js:40-46 | determinePointsMode as a value; characterised by PointsModeCharacterised, MixedShapesAreError and PointsModeOrderFree |
| Checks.DeterminePointsMode | src/util/checks.js:40-46 | the loop over the items computes the mode set and folds it with detectPointsMode |
| Checks.PointsModeCharacterised | src/util/checks.js:40-46 | the mode is OBJECT iff the input is non-empty and every item is an object point, ITERABLE iff non-empty and every item is a pair |
| Checks.MixedShapesAreError | src/util/checks.js:40-46 | an object item next to a pair item makes the mode ERROR |
| Checks.PointsModeOrderFree | src/util/checks.js:40-46 | the mode depends only on which items occur, not on their order or repetition |
| Checks.CheckArgumentCorrect | src/util/checks.js:14-32 | it passes iff the input is an iterable of at least three items that are all object points or all pairs |
| Checks.PassesWhenUniform | src/util/checks.js:14-32 | at least three uniform items pass every guard |
| Checks.GuardOrder | src/util/checks.js:14-25 | falsy input is EmptyArgumentError, non-iterable input is NotIterableArgumentError, fewer than three items (even an empty array, which is truthy) is ArgumentSizeError |
| Checks.NullishItemThrows | src/util/checks.js:27-31 | three or more items with a null or undefined one fail with the TypeError that isIterable(null) raises inside determinePointsMode (checks.js:78-88) |
| Checks.ModeGuard | src/util/checks.js:27-31 | three or more items of mixed or unknown shape are PointsModeCantBeDeterminedError |
| ModeCast.CastBranch | src/util/mode-cast.js:11-18 | the two comparisons and the throw of castToObjectMode, given the values the two constants evaluate to; characterised by AsWrittenAlwaysThrows and CorrectedBranches |
| ModeCast.AsWrittenAlwaysThrows | src/util/mode-cast.js:1-18 | as written, every mode, including OBJECT and ITERABLE, reaches the throw, because both constants are undefined |
| ModeCast.CorrectedBranches | src/util/mode-cast.js:11-18 | with the mode table bound, OBJECT copies, ITERABLE converts and ERROR throws ModeCastError(mode, "object") |
| ModeCast.CastPointFromIterableToObject | src/util/mode-cast.js:26-31 | a new point whose x and y are the first two elements of the pair |
| ModeCast.CastToObjectMode | src/util/mode-cast.js:11-18 | fails iff the mode is ERROR, with ModeCastError; otherwise the result normalises the items one by one, in order and with the same length, and in ITERABLE mode every value is a freshly allocated point, so no two coincide |
| PointsInterface.Points.constructor | src/interface/points.js:9-13 | mode and values are stored and size is the number of values |
| PointsInterface.Points.FromItems | src/interface/points.js:9-13 | mode is determinePointsMode of the items, values is their cast, size is the number of items; an ERROR mode fails with ModeCastError (with the corrected cast of ModeCast.CastToObjectMode; as written the cast always throws, see Findings) |
| Facade.AlgorithmArgumentFacade | src/algorithm/helper.js:18-23 | validation comes first: a failing check is the result and no Points object exists; otherwise the engine receives a Points of at least three normalised values (with the corrected cast of ModeCast.CastToObjectMode; as written the cast always throws, see Findings) |
| GiftWrapping.ReduceLeftMost | src/algorithms/gift-wrapping.algorithm.ts:12 | the reduce returns the seed or an element, of least x, replacing only on strictly smaller x, and the earliest of that x |
| GiftWrapping.FindLeftMost | src/algorithms/gift-wrapping.algorithm.ts:11-13 | an input point with no point of smaller x, and every point before its first occurrence has larger x |
| GiftWrapping.IsOrientationCounterclockwise | src/algorithms/gift-wrapping.algorithm.ts:24-26 | true iff the orientation value of (p, q, r) is negative |
| GiftWrapping.GetInitialIterationPoint | src/algorithms/gift-wrapping.algorithm.ts:36-38 | the cyclic successor of the first occurrence of currentPoint, and points[0] for the last or an absent point |
| GiftWrapping.Scan | src/algorithms/gift-wrapping.algorithm.ts:49-54 | the candidate after the forEach is the initial one or an input point |
| GiftWrapping.IterationPoint | src/algorithms/gift-wrapping.algorithm.ts:48-56 | getIterationPoint returns an input point |
| GiftWrapping.ScanKeepsWithoutTurn | src/algorithms/gift-wrapping.algorithm.ts:50-54 | with no strictly counterclockwise point, the candidate is never replaced |
| GiftWrapping.ScanChangesOnlyOnTurn | src/algorithms/gift-wrapping.algorithm.ts:50-53 | a changed candidate won by a strictly counterclockwise turn against the candidate held just before it |
| GiftWrapping.IterationWithoutTurn | src/algorithms/gift-wrapping/index.js:47-55 | without a counterclockwise finding, the result is the cyclic successor |
| GiftWrapping.GetIterationPoint | src/algorithms/gift-wrapping.algorithm.ts:48-56 | the forEach loop computes the scan from the cyclic successor, an input point |
| GiftWrapping.IsMarch | src/algorithms/gift-wrapping.algorithm.ts:77-90 | what the do…while pushes; GiftWrapping establishes it, and MarchUnique shows it determines the hull and the flag |
| GiftWrapping.GiftWrapping | src/algorithms/gift-wrapping.algorithm.ts:77-90 | the hull starts at the leftmost point, never contains it again, holds input points only, each element is the iteration point of the one before, and `closed` says the walk returned to the start |
| GiftWrapping.MarchStaysAway | src/algorithms/gift-wrapping.algorithm.ts:83-87 | no step inside the hull leads back to the leftmost point |
| GiftWrapping.MarchCannotOutrun | src/algorithms/gift-wrapping.algorithm.ts:83-87 | a march that is a prefix of another march is the whole of it |
| GiftWrapping.MarchUnique | src/algorithms/gift-wrapping.algorithm.ts:77-90 | the pushed hull and the closing flag are determined by the points and the iteration bound |
| GiftWrapping.LegacyGiftWrapping | src/algorithm/gift-wrapping/index.js:99-114 | the facade's error if validation fails; otherwise the march over the normalised `points.values` (with the corrected cast of ModeCast.CastToObjectMode; as written the cast always throws, see Findings) |
| QuickHull.FindSide | src/algorithms/quickhull.algorithm.ts:31-47 | findSide; characterised by FindSideSign and FindSideSwap |
| QuickHull.FindSideSign | src/algorithms/quickhull.algorithm.ts:31-47 | findSide is 1, -1 or 0 by the sign of the orientation value, and 0 exactly when the line distance is 0 |
| QuickHull.FindSideSwap | src/algorithms/quickhull.algorithm.ts:73-74 | findSide(p, q, r) == -findSide(p, r, q) |
| QuickHull.FarthestAmong | src/algorithms/quickhull.algorithm.ts:61-65 | the reduce of subHull; characterised by FarthestAmongSelects and FarthestNoneIffSideEmpty |
| QuickHull.FarthestAmongSelects | src/algorithms/quickhull.algorithm.ts:61-65 | the reduce picks nothing iff the running distance stays 0; a picked point is an input point on the requested side at positive distance, of maximum distance among those points, and earlier ones are strictly nearer |
| QuickHull.FarthestNoneIffSideEmpty | src/algorithms/quickhull/index.js:67-71 | nothing is picked iff no input point lies strictly on the requested side |
| QuickHull.AddedFacts | src/algorithms/quickhull.algorithm.ts:68-69 | Set.add makes the point a member and changes nothing else: earlier members keep their places, at most one slot is added, no duplicates appear |
| QuickHull.PointSet.constructor | src/algorithms/quickhull.algorithm.ts:99 | a new Set is empty |
| QuickHull.PointSet.Add | src/algorithms/quickhull.algorithm.ts:68-69 | add appends a new member and leaves an existing one in place |
| QuickHull.FarthestPickerFromInput | src/algorithms/quickhull.algorithm.ts:61-65 | every split point is an input point |
| QuickHull.FarthestSplitSides | src/algorithms/quickhull.algorithm.ts:73-74 | the recursive sides are findSide(q, p2, p1) and findSide(q, p1, p2), and q lies on the requested side at positive distance |
| QuickHull.SubHullRun | src/algorithms/quickhull.algorithm.ts:60-75 | subHull as a value; characterised by SubHullRunGrows, SubHullRunDistinct, SubHullRunStaysWithin and SubHullBase |
| QuickHull.SubHullRunGrows | src/algorithms/quickhull.algorithm.ts:60-75 | the set only grows, with existing members in place, and a completed call has added both endpoints |
| QuickHull.SubHullRunDistinct | src/algorithms/quickhull/index.js:66-81 | the set stays free of duplicates |
| QuickHull.SubHullRunStaysWithin | src/algorithms/quickhull.algorithm.ts:60-75 | the call adds only its endpoints and split points |
| QuickHull.SubHullBase | src/algorithms/quickhull.algorithm.ts:67-71 | with nothing on the side, exactly p1 and then p2 are added and the call ends |
| QuickHull.SubHull | src/algorithms/quickhull.algorithm.ts:60-75 | the recursive method leaves the shared set exactly as the value-level run does |
| QuickHull.MinXPoint | src/algorithms/quickhull.algorithm.ts:101 | some point for non-empty input, of least x, the earliest of that x |
| QuickHull.MaxXPoint | src/algorithms/quickhull.algorithm.ts:102 | some point for non-empty input, of greatest x, the earliest of that x |
| QuickHull.QuickHullRun | src/algorithms/quickhull.algorithm.ts:98-108 | quickhull as a value; characterised by QuickHullRunSound |
| QuickHull.QuickHullWithSound | src/algorithms/quickhull.algorithm.ts:98-108 | for any picker that returns input points, the result is duplicate-free, holds input points only, and a completed run holds both extreme points |
| QuickHull.QuickHullRunSound | src/algorithms/quickhull/index.js:104-114 | quickhull's result is duplicate-free and holds input points only, and it holds the min-x and max-x points when every call completed |
| QuickHull.QuickHull | src/algorithms/quickhull.algorithm.ts:98-108 | the method returns the value-level run, a duplicate-free array of input points |
| QuickHull.LegacyQuickHull | src/algorithm/quickhull/index.js:90-102 | the facade's error if validation fails; otherwise quickhull over the normalised `points.values` (with the corrected cast of ModeCast.CastToObjectMode; as written the cast always throws, see Findings) |
| GrahamScan.LexMinAmongSelects | src/algorithms/graham-scan.algorithm.ts:56-65 | the loop keeps an element with no earlier-scanned element below it in (x, y) order, and everything before its first occurrence is strictly above it |
| GrahamScan.FirstPoint | src/algorithms/graham-scan.algorithm.ts:56-65 | getFirstPoint as a value; characterised by FirstPointIsLowestLeftmost |
| GrahamScan.FirstPointIsLowestLeftmost | src/algorithms/graham-scan/index.js:54-63 | getFirstPoint is an input point of least x, lowest among those, and the earliest on full ties |
| GrahamScan.GetFirstPoint | src/algorithm/graham-scan/index.js:39-48 | the loop computes the lexicographic minimum |
| GrahamScan.ArgMinAmongSelects | src/algorithms/graham-scan.algorithm.ts:101-121 | a best-so-far loop with strict `<` keeps an eligible point of least key below the sentinel, the earliest of that key, or nothing with the sentinel as minimum |
| GrahamScan.ArgMinAmongPicks | src/algorithms/graham-scan.algorithm.ts:113-116 | a picked point is an eligible input point whose key is below the sentinel |
| GrahamScan.ArgMinNoneIffNothingBelow | src/algorithms/graham-scan.algorithm.ts:91 | the loop returns undefined iff no eligible point has a key below the sentinel |
| GrahamScan.ArgMinBoundIrrelevant | src/algorithms/graham-scan.algorithm.ts:76 | two sentinels above every eligible key choose the same point |
| GrahamScan.SecondPoint | src/algorithms/graham-scan.algorithm.ts:75-92 | getSecondPoint as a value; characterised by SecondPointSelects |
| GrahamScan.SecondPointSelects | src/algorithms/graham-scan.algorithm.ts:75-92 | the second point is never `first`, lies strictly right of it, has a non-negative angle below the sentinel, and is the earliest of least angle; it is undefined iff no such point exists |
| GrahamScan.GetSecondPoint | src/algorithm/graham-scan/index.js:57-74 | the loop, with its `continue` on `first`, computes the second point |
| GrahamScan.NextHullPoint | src/algorithms/graham-scan.algorithm.ts:101-121 | getNextHullPoint as a value; characterised by NextHullPointSelects, NextHullPointIsCandidate and NextHullPointExists |
| GrahamScan.NextHullPointSelects | src/algorithms/graham-scan.algorithm.ts:101-121 | the next point is new to the hull or is hull[0], its calcCos at the last two hull points is below the sentinel, least among such points, and the earliest of that value |
| GrahamScan.NextHullPointIsCandidate | src/algorithms/graham-scan/index.js:106 | a picked point is an input point not yet in the hull, or hull[0] |
| GrahamScan.NextHullPointExists | src/algorithm/graham-scan/index.js:89-97 | hull[0] is always eligible, so a cosine below the sentinel there guarantees a pick |
| GrahamScan.GetNextHullPoint | src/algorithm/graham-scan/index.js:82-102 | the loop computes the next hull point |
| GrahamScan.NextKeepsHullSoFar | src/algorithms/graham-scan.algorithm.ts:152-154 | a pushed point other than first is a new input point, so the hull stays duplicate-free and the unvisited points shrink |
| GrahamScan.StartIsHullSoFar | src/algorithms/graham-scan.algorithm.ts:147-150 | the first and second points are two distinct input points |
| GrahamScan.ScanFrom | src/algorithms/graham-scan.algorithm.ts:152-156 | the do-while as a value; characterised by ScanFromChain and ScanFromBoundIrrelevant |
| GrahamScan.ScanFromChain | src/algorithms/graham-scan.algorithm.ts:152-156 | each iteration appends exactly the point getNextHullPoint picks, the loop stops when that is first, and the closing copy is dropped; the only failure is the TypeError on an undefined point |
| GrahamScan.GrahamScanRun | src/algorithms/graham-scan.algorithm.ts:144-157 | grahamScan as a value; characterised by GrahamScanSound and CopiesAgree |
| GrahamScan.GrahamScanSound | src/algorithms/graham-scan.algorithm.ts:144-157 | result[0] is first, result[1] is the second point, each later point is the pick for the points before it, the pick for the whole result is first, no point repeats and all are input points; with no second point it fails |
| GrahamScan.ScanFromBoundIrrelevant | src/algorithms/graham-scan/index.js:99-119 | the loop's outcome does not depend on a cosine sentinel above every cosine |
| GrahamScan.CopiesAgree | src/algorithm/graham-scan/index.js:58-83 | with angles at most 180 and cosines at most 1, the MAX_VALUE, MAX_SAFE_INTEGER and 1000000/10000000 copies return the same result |
| GrahamScan.GrahamScan | src/algorithms/graham-scan.algorithm.ts:144-157 | the do-while method returns the scan's value-level result |
| GrahamScan.GrahamScanTs | src/algorithms/graham-scan.algorithm.ts:76-102 | the TypeScript copy is the scan with Number.MAX_VALUE for both sentinels |
| GrahamScan.GrahamScanJs | src/algorithms/graham-scan/index.js:74-100 | the JavaScript copy is the scan with Number.MAX_SAFE_INTEGER for both sentinels |
| GrahamScan.LegacyGrahamScan | src/algorithm/graham-scan/index.js:123-138 | the facade's error if validation fails; otherwise the scan over `points.values` with sentinels 1000000 and 10000000 (with the corrected cast of ModeCast.CastToObjectMode; as written the cast always throws, see Findings) |
| Agreement.LeftMostAgrees | src/algorithms/quickhull.algorithm.ts:101 | quickhull's min-x point and gift wrapping's findLeftMost (gift-wrapping.algorithm.ts:11-13) are the same object |
| Agreement.FirstPointIsLeftMost | src/algorithms/graham-scan.algorithm.ts:56-65 | the Graham start has the x of findLeftMost and is no higher |

## Left out

- **Floating point.** IEEE-754 rounding and overflow are not modelled: coordinates are exact integers, and angles and cosines are exact reals. NaN from `calcCos` on coincident points (0/0) is therefore absent.
- **`polarAngle` and `calcCos`.** `Math.atan2` and `Math.sqrt` are not modelled. They are function parameters, so every Graham property holds for any functions supplied. `GrahamScan.CopiesAgree` assumes their real ranges (at most 180 degrees, cosine at most 1).
- **Empty input to the unwrapped TypeScript and JavaScript engines.** Only the legacy copies validate. The model requires non-empty input:
  - `QuickHull.QuickHull` does not model `quickhull([])`. Both reduces return their seeds, `{x: Infinity, y: 0}` and `{x: -Infinity, y: 0}`. Each `subHull` reduce returns its `{distance: 0}` seed, so the base case adds both sentinels, and the result is `[{x: Infinity, y: 0}, {x: -Infinity, y: 0}]`;
  - `GrahamScan.GrahamScan` does not model `[undefined, undefined]` for an empty array;
  - `GiftWrapping.GiftWrapping` does not model `giftWrapping([])`. `findLeftMost` returns its undefined seed, `getInitialIterationPoint` reads `points[NaN]`, the `forEach` is empty, and `undefined !== undefined` ends the loop, so the result is `[undefined]`.
- **GiftWrapping.GiftWrapping, QuickHull.SubHull and QuickHull.QuickHull** carry an iteration or depth bound. The `do…while` of gift wrapping and the `subHull` recursion have no termination argument in the source. The model claims no termination: `closed`/`complete` report whether the bound was reached. The Graham loop needs no bound: each push is a new input point or the closing first point.
- **Convexity.** Geometric correctness of the hulls (convexity, no interior points) is not claimed. The source gives no such invariant, and the Graham engine is not a Graham scan.
- **Strings and non-numeric iterables** as items, and iterables that are not arrays (their iterator protocol), are represented only by their length and first two numbers. A one-shot iterator (a generator, say) is not modelled: `checkArgumentCorrect` walks the argument once for its length (checks.js:23) and again for the modes (checks.js:42), so such an input of three valid points is used up by the size guard and throws PointsModeCantBeDeterminedError, where the model, which reads `Items` as often as it likes, passes it.
- **Dispatchers.** `src/index.ts` and `src/index.js` (a name switch and TODO stubs) are not part of this model.
- **Examples.** The example scripts (console I/O) are not part of this model.
- **Error messages.** The error classes of `util/error.js` become the `Interface.Error` kinds.
- **Test harness.** The mocha file expects `detectPointMode(null)` to be ERROR. The code throws a TypeError from `isIterable(null)`, and the model follows the code (`Checks.DetectPointMode`).

## Findings

| source | as written | input that shows it | evidently intended | confidence | as-written member | corrected member |
|---|---|---|---|---|---|---|
| src/util/mode-cast.js:1 | `require('./interface')` binds the module object `{ POINTS_MODE }`, so `POINTS_MODE.OBJECT` and `POINTS_MODE.ITERABLE` are undefined and every mode reaches the ModeCastError throw | mode "object" for `[{x: 0, y: 0}, {x: 1, y: 0}, {x: 0, y: 1}]` | bind the frozen mode table (`require('./interface').POINTS_MODE`) so OBJECT copies and ITERABLE converts | not executed | ModeCast.AsWrittenAlwaysThrows | ModeCast.CastToObjectMode |

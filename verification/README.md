# Ring-flight game core, modelled in Dafny

The model covers the game logic of a small 3D flying game and its token-claim
server endpoint. The player steers an airplane through seven rings. Each ring
is classified as a success, a hit or a miss. A success scores ten points, and
when every ring has been consumed the round ends. The player can then claim
tokens for the score through an HTTP endpoint, which airdrops the whole part
of the score on a ledger.

Every floating-point quantity is a `real`, so the model is exact arithmetic,
not IEEE doubles. The exception is `score`, `ringsPassed` and `addScore`'s
points, which are `int`: the source only ever adds 1 or 10 to them, so only
integers are reachable. The modules follow the program's files:

- `Geometry` holds the vectors and the clamp, lerp and absolute value helpers
  the source takes from three.js and `Math`.
- `GameConfig` holds the layout constants, the seeded pseudo-random sample,
  the seven-ring layout generator and the ring dimensions
  (`client/src/lib/constants/gameConfig.ts`).
- `Sequences` holds `IndexOf`, the `Array.prototype.indexOf` of the registry.
- `EventBus` holds the listener registry: add, remove the first occurrence,
  and dispatch in registration order as a trace of listener calls
  (`client/src/lib/stores/useGameState.tsx`).
- `GameStore` holds the store record and its actions. An action that
  dispatches events returns the new record with the emitted events in order.
- `AirplaneMotion` holds the per-frame motion step
  (`client/src/components/game/AirplaneModel.tsx`).
- `RingCollision` holds the per-ring guard, classification, consumption and
  deferred completion (`client/src/components/game/RingModel.tsx`). It also
  holds the round invariant that ties the store's counters to the ring flags,
  proved over any sequence of frames, ring checks, timer firings, key presses,
  starts, pauses and restarts.
- `ClaimRoute` holds the `/api/claim-tokens` handler (`server/routes.ts`):
  - request validation, including the account-ID regular expression;
  - the amount in the token's smallest unit;
  - the balanced transfer pair;
  - the mapping from outcome to HTTP status and message.

`Math.sin`, the current time, the three.js inverse rotation, the token's
decimals and the ledger's outcome are parameters of the functions that use
them.

Three behaviours of the code are worth stating up front, because the model
keeps them as written:

- `ring_passed` is dispatched only by `addScoreForRing`
  (client/src/lib/stores/useGameState.tsx:177), which a ring calls only for a
  success (client/src/components/game/RingModel.tsx:112-115). A hit or a miss
  is counted but emits nothing (`RingCollision.EvaluateRing`).
- Any positive number is accepted as the claim's score (server/routes.ts:94),
  and only its whole part is airdropped (server/routes.ts:123). A score in
  (0, 1) is therefore accepted and airdrops nothing
  (`ClaimRoute.FractionalScoreAirdropsNothing`).
- The 1500 ms completion callback (client/src/components/game/RingModel.tsx:121)
  is never cancelled by `resetGame`. A callback scheduled in one round still
  ends the next round when it fires
  (`RingCollision.StaleCompletionEndsNextRound`).

## Model

| member | source | states |
|---|---|---|
| `Geometry.Clamp` | client/src/lib/stores/useGameState.tsx:122-126 | the result lies in [lo, hi], equals the input when it is in range, and is the nearer bound otherwise |
| `Geometry.Lerp` | client/src/components/game/AirplaneModel.tsx:227-231 | the distance to the target is scaled by exactly 1 − t |
| `GameConfig.SeededRandom` | client/src/lib/constants/gameConfig.ts:28-32 | the sample lies in [0, 1) and is the fractional part of 10000·sin(seed), so it is never negative despite the comment promising −1..1 |
| `GameConfig.RingAt` | client/src/lib/constants/gameConfig.ts:41-54 | ring i has x in [0, 15), y in [5, 13), z = −50 − 50i, pitch and bank in [0, π/6) and yaw 0 |
| `GameConfig.Layout` | client/src/lib/constants/gameConfig.ts:39-57 | n rings, the i-th being the ring generated for index i, in index order |
| `GameConfig.GenerateRingPositions` | client/src/lib/constants/gameConfig.ts:35-58 | exactly seven rings, every one within the layout bounds |
| `GameConfig.LayoutSpacing` | client/src/lib/constants/gameConfig.ts:41-45 | consecutive rings are exactly 50 apart in z and z strictly decreases |
| `GameConfig.LayoutDependsOnlyOnSamples` | client/src/lib/constants/gameConfig.ts:35-58 | the layout is determined by the seed and the sine values at the seeds it samples: two sines that agree there give the same layout |
| `GameConfig.RadiiOrdered` | client/src/components/game/RingModel.tsx:45-92 | inner radius 4.2, hit radius 5.2, success-area radius 3.45 and depth tolerance 0.75, with success area < inner < hit |
| `Sequences.IndexOf` | client/src/lib/stores/useGameState.tsx:200 | −1 exactly when the element is absent; otherwise an index holding it with no earlier occurrence |
| `EventBus.RemoveFirst` | client/src/lib/stores/useGameState.tsx:199-203 | deletes exactly the first occurrence, keeping the order of the rest, and leaves a list without the element unchanged |
| `EventBus.RemoveAfterAppend` | client/src/lib/stores/useGameState.tsx:185-205 | removing an element just appended undoes the append, or removes the earlier copy when there is one |
| `EventBus.AddEventListener` | client/src/lib/stores/useGameState.tsx:185-194 | the listener is appended to its event's list, which is created when absent; duplicates are kept and other events are untouched |
| `EventBus.RemoveEventListener` | client/src/lib/stores/useGameState.tsx:196-205 | only the first occurrence in that event's list is deleted; it is a no-op when the list or the listener is absent, and other events are untouched |
| `EventBus.AddRemoveRoundTrip` | client/src/lib/stores/useGameState.tsx:185-205 | adding a new listener and then removing it restores the event's list |
| `EventBus.DispatchTo` | client/src/lib/stores/useGameState.tsx:211-213 | one call per listener, in list order, each with the event's data |
| `EventBus.Dispatch` | client/src/lib/stores/useGameState.tsx:207-215 | exactly the event's listeners are called, in registration order, and an event without a list calls nobody |
| `EventBus.DeliverAppend` | client/src/lib/stores/useGameState.tsx:207-215 | the calls of earlier dispatches all precede the calls of later ones |
| `EventBus.DeliverPair` | client/src/lib/stores/useGameState.tsx:177-181 | two dispatches in a row call the first event's listeners, then the second's |
| `GameStore.InitialState` | client/src/lib/stores/useGameState.tsx:84-101 | the initial values: plane at (0, 5, 0), level, no offset, altitude 5, speed 15, zero distance, counters and score, no controls, not running |
| `GameStore.CreateStore` | client/src/lib/stores/useGameState.tsx:84-109 | a fresh round with an empty registry and, as its layout, exactly the seven well-placed rings generated from the load time |
| `GameStore.SetAltitude` | client/src/lib/stores/useGameState.tsx:120-134 | the altitude ends in [0, 20], equals the request when it is in range and the nearer bound otherwise, and nothing else changes |
| `GameStore.UpdateDistanceTraveled` | client/src/lib/stores/useGameState.tsx:136-139 | the distance grows by forwardSpeed·delta (never shrinking for non-negative speed and delta), and nothing else changes |
| `GameStore.SetControl` | client/src/lib/stores/useGameState.tsx:141-149 | the named flag takes the value, the other three flags and every other field are unchanged |
| `GameStore.IncrementRingsPassed` | client/src/lib/stores/useGameState.tsx:152-156 | the counter rises by exactly one and nothing else changes |
| `GameStore.AddScore` | client/src/lib/stores/useGameState.tsx:158-162 | the score rises by exactly the points and nothing else changes |
| `GameStore.AddScoreForRing` | client/src/lib/stores/useGameState.tsx:165-182 | the score rises by exactly 10 with nothing else changed, then `ring_passed {index, 10}` and `score_changed {old + 10, 10}` are dispatched in that order |
| `GameStore.AddScoreForRingCalls` | client/src/lib/stores/useGameState.tsx:165-215 | every `ring_passed` listener is called before every `score_changed` listener, each list in registration order with its payload |
| `GameStore.StartGame` | client/src/lib/stores/useGameState.tsx:218-221 | only the run flag changes, to true, and `game_started` is dispatched |
| `GameStore.PauseGame` | client/src/lib/stores/useGameState.tsx:223-226 | only the run flag changes, to false, and `game_ended` is dispatched |
| `GameStore.RegenerateRingLayout` | client/src/lib/stores/useGameState.tsx:260-263 | exactly the seven well-placed rings generated from the current time are installed, and nothing else changes |
| `GameStore.ResetGame` | client/src/lib/stores/useGameState.tsx:229-257 | every round field is back to its initial value and a new layout is installed; the registry is kept identical, and `game_ended` then `game_reset` are dispatched |
| `GameStore.ResetKeepsSubscribers` | client/src/lib/stores/useGameState.tsx:233-256 | every event keeps its listener list across a reset, so a `game_reset` listener registered before it hears it |
| `GameStore.ActionsKeepSane` | client/src/lib/stores/useGameState.tsx:120-263 | every store action keeps the altitude within [0, 20] and the forward speed at 15 |
| `AirplaneMotion.Frame` | client/src/components/game/AirplaneModel.tsx:170-236 | a stopped game is left unchanged; a running frame keeps altitude in [0, 20] and leaves worldOffset.z, yaw and every field other than distance, offset, altitude and rotation unchanged |
| `AirplaneMotion.FrameDistance` | client/src/components/game/AirplaneModel.tsx:181 | a running frame advances the distance by 15·dt, never backwards for dt ≥ 0 |
| `AirplaneMotion.FrameVertical` | client/src/components/game/AirplaneModel.tsx:191-212 | up alone climbs 5·dt, lowers the world by 5·dt and pitches to 0.2; down alone mirrors it; both or neither leave the vertical axis alone with a level target |
| `AirplaneMotion.FrameHorizontal` | client/src/components/game/AirplaneModel.tsx:214-224 | left scrolls the world by +20·dt with bank 0.3; right by −20·dt with bank −0.3; both cancel out and bank −0.3 because right is applied last |
| `AirplaneMotion.FrameSmoothing` | client/src/components/game/AirplaneModel.tsx:226-231 | pitch and bank each close exactly 10% of their distance to the target |
| `AirplaneMotion.FrameAltitudeOffsetCoupling` | client/src/components/game/AirplaneModel.tsx:195-236 | altitude + worldOffset.y is kept exactly when the unclamped altitude stays in [0, 20] |
| `AirplaneMotion.RunFramesInvariant` | client/src/components/game/AirplaneModel.tsx:170-236 | over any run of frames: altitude stays in [0, 20], speed stays 15, pitch and bank stay in [−0.3, 0.3], the run flag is untouched, and the distance grows by 15 × the elapsed time |
| `RingCollision.Classify` | client/src/components/game/RingModel.tsx:87-98 | the ring stays pending exactly when the depth gap exceeds 0.75 |
| `RingCollision.ClassifyByRadius` | client/src/components/game/RingModel.tsx:87-98 | within the depth window the verdict is total and exclusive: success below radius 4.2, hit in [4.2, 5.2), miss from 5.2 |
| `RingCollision.UntiltedLocal` | client/src/components/game/RingModel.tsx:58-84 | for an untilted ring the airplane's ring coordinates are its offset from the scrolled ring position |
| `RingCollision.EvaluateRing` | client/src/components/game/RingModel.tsx:66-132 | a passed ring, a ring before distance 10 or a pending verdict changes nothing; otherwise the ring is consumed with its verdict, the counter rises by one, only a success scores 10 and emits both events, and a completion is scheduled when the count reaches 7 |
| `RingCollision.RingFrame` | client/src/components/game/RingModel.tsx:54-133 | with the ring scrolled by the world and the airplane located in the ring's frame, the ring is consumed exactly when it was unconsumed, the grace distance has been flown and the depth gap is at most 0.75, and the score changes exactly when that pass is a success |
| `RingCollision.RingFrameUntilted` | client/src/components/game/RingModel.tsx:58-90 | an untilted ring i of a well-placed layout is consumed exactly when the travelled distance is within 0.75 of 50 + 50i (and at least 10) |
| `RingCollision.FireCompletion` | client/src/components/game/RingModel.tsx:121-131 | the game stops, all four controls are released, nothing else changes, and `game_ended` is dispatched twice |
| `RingCollision.ResetRound` | client/src/components/game/RingModel.tsx:27-42 | a restart resets the store, clears every ring flag and leaves scheduled completions in place |
| `RingCollision.CountSuccess` | client/src/components/game/RingModel.tsx:100-115 | clean passes never outnumber consumed rings |
| `RingCollision.CountAfterPass` | client/src/components/game/RingModel.tsx:100-115 | consuming an unconsumed ring adds one pass, and one success when it was a success |
| `RingCollision.CountPassedFull` | client/src/components/game/RingModel.tsx:117-119 | the consumed count equals the number of rings exactly when every ring is consumed |
| `RingCollision.AllUnpassedCounts` | client/src/components/game/RingModel.tsx:27-31 | a round whose ring flags are all cleared counts no pass and no success |
| `RingCollision.StartRound` | client/src/lib/stores/useGameState.tsx:84-109 | the round at load time satisfies the round invariant, with every ring unconsumed and nothing scheduled |
| `RingCollision.RoundBounds` | client/src/components/game/RingModel.tsx:100-119 | under the round invariant at most 7 rings are counted and the score is a multiple of 10, at most 70 |
| `RingCollision.EvaluateRingKeepsInv` | client/src/components/game/RingModel.tsx:100-115 | a ring check keeps the counter equal to the consumed rings and the score equal to 10 per success |
| `RingCollision.CompletionOnLastRing` | client/src/components/game/RingModel.tsx:117-121 | a completion is scheduled by exactly the classification that consumes the last unconsumed ring |
| `RingCollision.ApplyKeepsInv` | client/src/components/game/RingModel.tsx:27-132 | every single action keeps the round invariant |
| `RingCollision.RunKeepsInv` | client/src/components/game/RingModel.tsx:100-132 | any sequence of actions keeps the round invariant: counter = consumed rings ≤ 7 and score = 10 × successes ≤ 70 |
| `RingCollision.ApplyProgresses` | client/src/components/game/RingModel.tsx:66-104 | an action other than a restart keeps every consumed ring's verdict and never lowers the counter or the score |
| `RingCollision.RunProgresses` | client/src/components/game/RingModel.tsx:66-104 | within a round a consumed ring is never classified again, and counter and score never decrease |
| `RingCollision.StaleCompletionEndsNextRound` | client/src/components/game/RingModel.tsx:119-131 | a completion scheduled before a restart and fired after the next start stops the new round |
| `ClaimRoute.AccountIdMatcherCorrect` | server/routes.ts:91 | the matcher accepts exactly three non-empty ASCII-digit runs joined by two dots |
| `ClaimRoute.Validate` | server/routes.ts:88-96 | the account ID is rejected exactly when it is falsy, not a string or malformed, whatever the score; the score is rejected exactly when the ID passed and the score is missing, null, not a number or not positive |
| `ClaimRoute.ValidateAcceptsExactly` | server/routes.ts:88-96 | a request is accepted exactly when its ID is a string of the right shape and its score a positive number |
| `ClaimRoute.AmountToTransfer` | server/routes.ts:123-124 | the amount is a non-negative multiple of 10^decimals, the largest one not above score·10^decimals, and it is zero exactly when the score is below one |
| `ClaimRoute.FractionalScoreAirdropsNothing` | server/routes.ts:94-124 | a score in (0, 1) passes validation yet airdrops nothing |
| `ClaimRoute.AirdropTransfers` | server/routes.ts:131-133 | two transfers: the treasury is debited exactly what the recipient is credited, so they net to zero |
| `ClaimRoute.Includes` | server/routes.ts:163 | true exactly when the pattern occurs somewhere in the string |
| `ClaimRoute.HandleClaim` | server/routes.ts:88-166 | the status is 200, 400 or 500. It is 200 exactly for a valid, configured request whose receipt is Success, reporting floor(score) and the transaction ID. Invalid input gives 400 before anything else. Missing treasury settings give 500, and any other receipt status gives 500. A thrown error gives 400 exactly when its message contains "Invalid account ID", and 500 otherwise |

## Left out

- The three.js inverse of "rotate by the ring's Euler angles, then move to its position" is the parameter `InverseRotation`. Only the untilted case is characterised (`RingCollision.UntiltedLocal`), because Euler rotation matrices would need trigonometry and floating-point linear algebra.
- `Math.sin` in `seededRandom` is a parameter `sine`. Only the fractional-part step is modelled, and the [0, 1) range is proved from it.
- `Date.now()` (the layout seed in `resetGame` and `regenerateRingLayout`) is a parameter. The module-load layout is `CreateStore`'s `loadTime`.
- The 1500 ms `setTimeout` of the completion callback is a counter of scheduled callbacks plus an explicit firing action. Wall-clock time is not modelled.
- `useGame().end()` (the phase store) and `playSuccess()` (audio) are left out. Neither store is among the files modelled, and neither writes the game-state store.
- Each frame is assumed to see the store as committed by the previous frame. React's re-render timing and stale closures are not modelled.
- Listener callbacks are not executed. A listener is an identity, and dispatch yields the ordered list of calls. Callbacks that modify the registry while it is being dispatched are not modelled.
- `setControl` with a key other than the four control names is not modelled. The source's callers only pass the four names.
- `setAirplanePosition` is not modelled because no frame or ring reads a position it writes. `setAirplaneRotation` and `setWorldOffset` are plain field updates used inside `Frame`.
- Keyboard wiring, the propeller spin, the hover bob and every rendering component are input plumbing or rendering: Terrain, Sky, Lighting, FollowCamera, Environment, GameCanvas, Confetti, App and the user interface.
- IEEE-754 rounding, NaN and infinities are not modelled. Every number is an exact real, so the net-zero sideways move when left and right are both held is exact only in the model.
- `fetchTokenDecimalsFromServer` and the ledger SDK client are left out because they make network calls. Building, signing, executing and reading the receipt are also left out. The token's decimals are a `nat` parameter. What the ledger did is the `LedgerOutcome` input: a receipt status with a transaction ID, or an error message.
- `ClaimRoute.AmountToTransfer` does not model the loss of precision of `floor(score) * 10 ** decimals` in doubles above 2^53.
- The `HEDERA_NETWORK` choice only selects an SDK client and does not change any response, so it is not modelled.
- A JSON body that is not an object, and JSON numbers out of double range, are not modelled. A field is one of the `Json` cases.

# NARA v4 operations: a Dafny model

The scripts under `scripts/` plan, price, journal and check the operations of the NARA v4 protocol.
This project models the parts of them that carry real obligations and proves those obligations for
every input, every run and every point at which a machine may stop.

| module | what it models |
|---|---|
| `Journal`, `Deployment` | the receipt journal (append-only log, then checkpoint), and the two deployment scripts that send transactions through it against an arbitrary provider |
| `Retirement` | the two-rename retirement of an executed packet, with rollback, over a rename that may fail before or after taking effect |
| `Publication`, `ArtifactNames` | packet first, batch staged, one rename to publish; and the quarantine that clears leftovers |
| `CanonicalJson` | the text two documents are compared by |
| `FeeCurve` | the piecewise marginal fee curve, against the unit-by-unit integral of its rate |
| `FeeGrowth` | fee growth over wrapping 256-bit accumulators, against a plain ledger |
| `PoolPrice` | Newton's integer square root and the Q64.96 price built on it |
| `LockLifecycle` | fixed-point lock weight against the exact quadratic, lock terms, and the one-action-at-a-time planner |
| `EpochMaintenance` | the static batch plan, the live loop under a moving clock, and padded recovery plans |
| `Selection`, `Optimizer`, `CandidateIds` | Pareto dominance, the deterministic tie-break, the hard gates and the canonical candidate set |
| `LogScan` | chunked log reading and the reconciliation of mint history |
| `Sorting`, `Arithmetic`, `Wrappers` | stable sort, filter, sums and products, optional values and results |

Each component has two layers: a simple specification (an integral, a ledger, a whole-range query, a
minimum over all candidates, a relation between documents) and the code as written, tied to it.

**Machines that stop.** `Journal.Machine` and `Publication.Directory` carry a `budget`: the number of
effects (creating, filling or renaming a file, handing over a transaction) the machine still performs.
When it is used up every later effect does nothing. A statement about all budgets is therefore a
statement about all crash points. A file that was created or truncated but not filled is `Torn`.

## Where the code and its own words differ

- **Recovery batch.** The comment at `scripts/buildV4EpochRecoveryBatch.ts:49` says a call "safely
  stops early" once the engine is current. The engine's `advanceEpochs` reverts when there is nothing
  to settle (`contracts/v4/NARAEngine.sol:762-774`), so this holds within the call that catches up and
  not for later calls of the same Safe transaction. `PaddedPlanClearsExactly` gives the exact condition
  for both ways of executing the plan, and `CaughtUpCallUndoesThePlan` a plan that the last call undoes.
- **Fee thresholds.** The script rounds pressure thresholds up, the hook it configures rounds them down
  (`contracts/v4/NARALiquidityGrowthHook.sol:410-456`). For the reviewed curve, at every depth the hook
  accepts, the two charge alike on all amounts exactly when the depth is a multiple of 20
  (`ReviewedFeesAgreeExactly`); `ReviewedFeesCanDiffer` is an input where they do not, and
  `ScriptAndHookDiffer` bounds the difference for every curve.
- **The 0.75% floor.** `scripts/buildV4FeeCurveUpdate.ts:220` calls the floor independent of trade
  splitting. Taken literally, trades pay the full base rate exactly when their floors drop no more than
  the higher rates add (`BaseFloorExactly`): with the reviewed curve, up to the high threshold only when
  nothing needs rounding (`BaseFloorBelowHigh`), and always from 1600 units above it (`ReviewedFloor`).
  `SplittingBound` is what holds of every split, and `SplittingBoundIsTight` shows that its three units
  are really reached.
- **Canonical comparison.** A locale's order may tie distinct keys, which then keep their given order.
  The comparison is right about a document exactly when no object in it, at any depth, holds two tied
  keys (`CanonicalExact`); any other document has a reordering that is rejected
  (`TiedKeysAreMisjudged`).

## Model

| member | source | states |
|---|---|---|
| Journal.FailureNamesTheOpenStep | scripts/deployV4BaseUsdc.ts:306-316 | a recorded failure step is null exactly when every step is confirmed; otherwise it names the one unconfirmed step |
| Journal.HistoryIsMonotone | scripts/deployV4BaseUsdc.ts:255-316 | of any two logged snapshots the later extends the earlier: indices, names, hashes, receipts stay, states only advance, nothing different follows `completed` |
| Journal.PersistKeeps | scripts/deployV4BaseUsdc.ts:255-259 | stopped after any of the four effects of one persist, the log is a history, a complete checkpoint is its last or next-to-last snapshot, and it exists once anything was sent |
| Journal.StartTracks | scripts/deployV4BaseUsdc.ts:235-253 | the first persist, stopped anywhere, leaves an empty or one-line log and never a checkpoint without a logged line |
| Journal.SendKeeps | scripts/deployV4BaseUsdc.ts:508-512 | handing a prepared transaction over keeps all of that: its step is already in the log and the checkpoint is on disk |
| Journal.DiskIsStartOfRun | scripts/deployV4BaseUsdc.ts:215-228 | everything a stopped machine shows in log or checkpoint is extended by what the run went on to know; the disk never overclaims |
| Journal.ExtendsTransitive | scripts/deployV4BaseUsdc.ts:255-316 | extension composes, so it holds across any number of snapshots |
| Journal.ExtendsSpelledOut | scripts/deployV4BaseUsdc.ts:255-316 | what extension means field by field: names, hashes, addresses and receipts stay once set, confirmed and failed steps and final statuses never change |
| Journal.AbandonedExtends | scripts/deployV4BaseUsdc.ts:306-316 | recording a failure extends an unfinished snapshot and keeps it coherent |
| Journal.LastUnconfirmed | scripts/deployV4BaseUsdc.ts:308 | the backward search finds the last unconfirmed step, and none exactly when all are confirmed |
| Journal.LastUnconfirmedIsOpen | scripts/deployV4BaseUsdc.ts:308 | in a coherent journal that step is the last one |
| Journal.DeploymentJournal.constructor | scripts/deployV4BaseUsdc.ts:235-253 | a new journal agrees with its files, or the machine has stopped; nothing was sent |
| Journal.DeploymentJournal.Persist | scripts/deployPositionNFTStack.ts:428-432 | the log line is completed before the checkpoint is touched |
| Journal.DeploymentJournal.Prepare | scripts/deployPositionNFTStack.ts:434-445 | appends a prepared step at its own index; the snapshot extends the previous one |
| Journal.DeploymentJournal.Submitted | scripts/deployPositionNFTStack.ts:447-452 | records the hash of the last step and changes no other |
| Journal.DeploymentJournal.Confirmed | scripts/deployV4BaseUsdc.ts:282-287 | records the receipt of the last step and changes no other |
| Journal.DeploymentJournal.FailedStep | scripts/deployPositionNFTStack.ts:461-465 | fails the last step, keeping the hash if there is one |
| Journal.DeploymentJournal.MarkTransactionsComplete | scripts/deployPositionNFTStack.ts:467-470 | only with every step confirmed |
| Journal.DeploymentJournal.Complete | scripts/deployPositionNFTStack.ts:472-476 | records the manifest and the final status |
| Journal.DeploymentJournal.Fail | scripts/deployPositionNFTStack.ts:478-488 | changes nothing once completed; otherwise records and persists the open step and the final failure status |
| Deployment.PrepareAndSend | scripts/deployV4BaseUsdc.ts:508-512 | the journal entry comes before the transaction, and the transaction gets out at most once |
| Deployment.HandOver | scripts/deployPositionNFTStack.ts:575-602 | the first try block: submitted with its hash, or failed, with at most this one transaction sent |
| Deployment.Settle | scripts/deployPositionNFTStack.ts:606-621 | the second try block: confirms or fails the last step and sends nothing |
| Deployment.SendRecorded | scripts/deployV4BaseUsdc.ts:501-568 | confirmed exactly when the transaction was returned and mined; a deployment is recorded at the address its own nonce creates, a call with the address it was planned with |
| Deployment.SentGrows | scripts/deployV4BaseUsdc.ts:501-568 | what was sent stays a prefix of what was planned, one transaction at a time |
| Deployment.SendNext | scripts/deployV4BaseUsdc.ts:501-568 | one more planned transaction keeps the confirmed steps and the sent transactions aligned with the plan |
| Deployment.SendPlan | scripts/deployV4BaseUsdc.ts:818-1144 | exactly the replies up to the first failure are used: the failing step is the last one prepared, and nothing behind it in the plan is sent |
| Deployment.Conclude | scripts/deployV4BaseUsdc.ts:1286-1319 | completed with the manifest exactly when everything is confirmed, the checks after the last transaction pass and the manifest is written; otherwise failed with the reason, straight from in progress when a check fails |
| Deployment.DeployBase | scripts/deployV4BaseUsdc.ts:615-1319 | a checkpoint of this protocol, torn or complete, stops the attempt with nothing changed; otherwise the plan is sent up to and with the first failure and no further, wherever the machine stops, and each confirmed step's expected and receipt address is the one created by the transaction's nonce, or the planned one of a call |
| Deployment.DeployRecorded | scripts/deployPositionNFTStack.ts:564-622 | lands exactly when latest and pending nonce, code check, returned nonce, receipt and predicted address all agree; a disturbed step sends nothing |
| Deployment.EverythingUsedComesFirst | scripts/deployPositionNFTStack.ts:909-1034 | every contract of the sequence comes after all the contracts its constructor is given, and none comes twice |
| Deployment.DeployNext | scripts/deployPositionNFTStack.ts:909-1034 | the next contract lands at the address predicted from the planned nonce, or its step is failed and stays last, unsent when it was disturbed |
| Deployment.SendSuite | scripts/deployPositionNFTStack.ts:909-1034 | confirmed steps are the prefix up to the first reply that does not let a contract land; nothing is sent after a failed step |
| Deployment.DeploySuite | scripts/deployPositionNFTStack.ts:374-401 | an earlier manifest, checkpoint or Safe artifact stops the attempt; otherwise contract k is confirmed at the address of nonce start + k, in order, for exactly the undisturbed prefix; a foreign transaction before step k, mined or waiting, leaves step k and all later ones unsent |
| Deployment.RunSuite | scripts/deployPositionNFTStack.ts:895-1034 | past the first checks, for any list of contracts: exactly the undisturbed prefix lands in order, and an undisturbed failing step is the last that may be sent |
| Deployment.ForeignSenderStopsTheRun | scripts/deployPositionNFTStack.ts:578-588 | one foreign transaction before step k bounds the sendable steps by k, so `DeploySuite` sends neither step k nor a later one |
| Deployment.NothingSentAfterInterference | scripts/deployPositionNFTStack.ts:578-588 | the same about the list of sent transactions, for every pattern of foreign transactions |
| Deployment.TryOnce | scripts/deployV4BaseUsdc.ts:54 | an attempt is stopped by its own protocol's checkpoint only, and leaves the other protocol's files alone |
| Deployment.Attempts | scripts/deployPositionNFTStack.ts:121-122 | over any interleaving of Base and Position NFT attempts with any crash points, everything one protocol ever sent is the start of the plan of a single attempt, up to and with its first failure |
| Retirement.DigitSpan | scripts/finalizeV4TreasuryRangeManagerDeployment.ts:427 | the maximal leading run of digits, as the name pattern consumes it |
| Retirement.PlanPathsDistinct | scripts/finalizeV4TreasuryRangeManagerDeployment.ts:424-454 | an accepted pair differs only in .json and .md, and its four paths are pairwise different |
| Retirement.RetirementPlanExactly | scripts/finalizeV4TreasuryRangeManagerDeployment.ts:424-454 | a pair is accepted exactly when one tail (stem, block, nonce) names both files in one directory as UNEXECUTED, and each then goes to the EXECUTED-DO-NOT-IMPORT name of the same tail |
| Retirement.PlacementMoves | scripts/finalizeV4TreasuryRangeManagerDeployment.ts:475-495 | each of the four renames moves between the four placements of the pair |
| Retirement.PlacementConserves | scripts/finalizeV4TreasuryRangeManagerDeployment.ts:468-502 | in every placement each content is at exactly one of its two paths and no other path changed |
| Retirement.RetireArtifacts | scripts/finalizeV4TreasuryRangeManagerDeployment.ts:456-502 | rejected with nothing changed, or always one of the placements: both retired exactly when both renames are clean, reported as rolled back (and then both back) exactly when every rename the rollback needs is clean, and no stranding with at most one fault |
| Retirement.RenameBoth | scripts/finalizeV4TreasuryRangeManagerDeployment.ts:475-501 | the same for the two renames and their rollback |
| Retirement.RollBack | scripts/finalizeV4TreasuryRangeManagerDeployment.ts:478-499 | a rollback is reported exactly when each needed rename is clean, the failures name exactly the others, and a file stays retired exactly when its rename back threw before taking effect |
| Publication.Directory.DurableWriteNew | scripts/buildPositionNFTPhase2Finalization.ts:152-161 | refuses an existing name; otherwise the name is absent, torn or complete according to the effects left |
| Publication.Directory.Publish | scripts/buildPositionNFTPhase2Finalization.ts:69-83 | any leftover candidate makes the build refuse with nothing changed; otherwise the batch is importable exactly when all five effects happened, at every crash point with its complete matching packet |
| Publication.Directory.WriteGeneration | scripts/buildPositionNFTPhase2Finalization.ts:730-758 | from a clean directory the batch is importable exactly when all five effects happened, with its packet, and any effect leaves a candidate behind |
| Publication.Directory.MoveAll | scripts/quarantineIncompletePositionNFTPhase2SafeArtifacts.ts:33-38 | stopped between any two renames, every candidate is whole at its own or its quarantined name, and no batch is left without its packet |
| Publication.Directory.Quarantine | scripts/quarantineIncompletePositionNFTPhase2SafeArtifacts.ts:16-38 | refuses exactly when there is nothing to move or an earlier copy would be overwritten; a completed one leaves the directory clean |
| ArtifactNames.PatternExactly | scripts/buildPositionNFTPhase2Finalization.ts:66-67 | the pattern finds exactly packets, staged batches and batches, and no quarantined name |
| ArtifactNames.PatternSpelledOut | scripts/buildPositionNFTPhase2Finalization.ts:66-67 | the pattern accepts one of the two prefixes and then anything |
| ArtifactNames.FileNameInjective | scripts/buildPositionNFTPhase2Finalization.ts:624-639 | different kinds, blocks or nonces never share a file |
| ArtifactNames.KindsSort | scripts/quarantineIncompletePositionNFTPhase2SafeArtifacts.ts:24 | sorted as text, staged batches come before batches and batches before packets, whatever their numbers |
| Publication.OrderedCandidates | scripts/quarantineIncompletePositionNFTPhase2SafeArtifacts.ts:21-24 | every candidate is moved once, staged batch before batch before packet |
| Publication.MoveKeepsSound | scripts/quarantineIncompletePositionNFTPhase2SafeArtifacts.ts:33-34 | in that order each single rename keeps every importable batch matched by its packet |
| Publication.MoveConserves | scripts/quarantineIncompletePositionNFTPhase2SafeArtifacts.ts:33-37 | a single rename neither loses, duplicates nor overwrites a candidate |
| Publication.History | scripts/buildPositionNFTPhase2Finalization.ts:730-758 | over any sequence of interrupted builds and quarantines, two generations never coexist and every importable batch has its complete matching packet |
| CanonicalJson.EscapeUnambiguous | scripts/finalizeV4TreasuryRangeManagerDeployment.ts:183 | no character's escape is a prefix of another's |
| CanonicalJson.QuoteUnambiguous | scripts/finalizeV4TreasuryRangeManagerDeployment.ts:183 | a quoted string at the start of a text determines the string and the rest |
| CanonicalJson.Unambiguous | scripts/finalizeV4TreasuryRangeManagerDeployment.ts:178-187 | a canonical text at the start of a longer text determines the document up to key order, and the rest |
| CanonicalJson.ObjectsUnambiguous | scripts/finalizeV4TreasuryRangeManagerDeployment.ts:180-185 | the same for objects, whose fields were sorted |
| CanonicalJson.ArraysUnambiguous | scripts/finalizeV4TreasuryRangeManagerDeployment.ts:179 | the same for arrays |
| CanonicalJson.KeysOfSorted | scripts/finalizeV4TreasuryRangeManagerDeployment.ts:181-182 | sorting fields by key sorts exactly their keys |
| CanonicalJson.SortAligns | scripts/finalizeV4TreasuryRangeManagerDeployment.ts:181-182 | sorting brings equal keys of equal objects without tied keys to equal positions |
| CanonicalJson.SameCanonical | scripts/finalizeV4TreasuryRangeManagerDeployment.ts:178-187 | documents equal up to key order at every depth have one text when no object in them holds tied keys |
| CanonicalJson.UntiedIsJudgedRight | scripts/finalizeV4TreasuryRangeManagerDeployment.ts:178-191 | a document without tied keys is accepted exactly against the documents equal to it up to key order |
| CanonicalJson.CanonicalExact | scripts/finalizeV4TreasuryRangeManagerDeployment.ts:178-191 | for every document and key order: the comparison is right about it against every other document exactly when the order tells apart any two keys of each of its objects, at every depth |
| CanonicalJson.TiedKeysAreMisjudged | scripts/finalizeV4TreasuryRangeManagerDeployment.ts:182 | every document with two tied keys in some object, at any depth, has a reordering that the comparison rejects |
| CanonicalJson.CanonicalSpells | scripts/finalizeV4TreasuryRangeManagerDeployment.ts:178-187 | the text is JSON for the document by the grammar of RFC 8259, the members of every object in key order |
| CanonicalJson.JsonNumbersAreNumberTexts | scripts/finalizeV4TreasuryRangeManagerDeployment.ts:187 | every number of RFC 8259 is among the number texts covered |
| CanonicalJson.EscapeDenotes | scripts/finalizeV4TreasuryRangeManagerDeployment.ts:183 | each character's escape denotes that character by section 7 of RFC 8259 |
| FeeCurve.CeilMulDiv | scripts/buildV4FeeCurveUpdate.ts:55-58 | the least whole number not below the exact quotient |
| FeeCurve.CumulativeFee | scripts/buildV4FeeCurveUpdate.ts:60-77 | early returns and the reassigned segment end compute the four-segment sum for every ordered curve, depth zero included |
| FeeCurve.ScriptTiersOrdered | scripts/buildV4FeeCurveUpdate.ts:63-65 | ordered pressure thresholds give ordered amounts, rounded either way |
| FeeCurve.ScriptTiersGrowWithDepth | scripts/buildV4FeeCurveUpdate.ts:63-65 | a deeper pool starts every rate later |
| FeeCurve.ExactFeeIsSegmentSum | scripts/buildV4FeeCurveUpdate.ts:60-77 | the unit-by-unit integral of the marginal rate is the sum over the four segments |
| FeeCurve.FeeWithinFourFloors | scripts/buildV4FeeCurveUpdate.ts:60-77 | the fee never exceeds the integral and falls short of it by less than four units |
| FeeCurve.ExactFeeSuperadditive | scripts/buildV4FeeCurveUpdate.ts:60-77 | splitting an amount never raises the exact fee |
| FeeCurve.ExactFeeBetweenFlatRates | scripts/buildV4FeeCurveUpdate.ts:29-41 | the exact fee lies between the flat base and extreme rates |
| FeeCurve.ExactFeeFallsWithHigherTiers | scripts/buildV4FeeCurveUpdate.ts:60-77 | later thresholds never raise the exact fee |
| FeeCurve.FeeMonotoneAndNonExpansive | scripts/buildV4FeeCurveUpdate.ts:60-77 | the fee and the net amount are both non-decreasing in the amount, and the net is non-negative |
| FeeCurve.FeeAtMostFlatExtreme | scripts/buildV4FeeCurveUpdate.ts:62 | the fee never exceeds the depth-zero fee, which is the flat extreme rate |
| FeeCurve.FeeFallsWithDepth | scripts/buildV4FeeCurveUpdate.ts:60-77 | the fee is non-increasing in depth up to three units |
| FeeCurve.SeparateFeesWithinExact | scripts/buildV4FeeCurveUpdate.ts:60-77 | the fees of any list of trades stay within the exact fee of their total and near the base rate |
| FeeCurve.SplittingBound | scripts/buildV4FeeCurveUpdate.ts:220 | any split pays at most three units more than one trade, and at least the base rate less four units a trade |
| FeeCurve.SplittingBoundIsTight | scripts/buildV4FeeCurveUpdate.ts:220 | a curve and five trades that pay those three units more |
| FeeCurve.FeeAgainstBaseRate | scripts/buildV4FeeCurveUpdate.ts:60-77 | fee plus what the four floors drop is the base rate plus what the higher rates add, for every amount |
| FeeCurve.BaseFloorExactly | scripts/buildV4FeeCurveUpdate.ts:220 | any list of trades pays the base rate in full exactly when the four floors of each drop no more in all than the higher rates add |
| FeeCurve.BaseFloorBelowHigh | scripts/buildV4FeeCurveUpdate.ts:220 | with equal base and medium rates, a trade up to the high threshold pays it in full exactly when neither segment needs rounding |
| FeeCurve.BaseFloorFarAboveHigh | scripts/buildV4FeeCurveUpdate.ts:220 | far enough above the high threshold it is always paid in full |
| FeeCurve.ReviewedFloor | scripts/buildV4FeeCurveUpdate.ts:32-41 | the reviewed curve misses the floor at the smallest trade and meets it from 1600 units above the high threshold, at any depth |
| FeeCurve.ExactFeeShiftedTiers | contracts/v4/NARALiquidityGrowthHook.sol:410-456 | thresholds one unit earlier raise the exact fee by at most the rate steps passed |
| FeeCurve.ScriptAndHookDiffer | contracts/v4/NARALiquidityGrowthHook.sol:410-456 | script and hook fees differ by at most three units one way and four the other |
| FeeCurve.ThresholdsAgreeExactly | contracts/v4/NARALiquidityGrowthHook.sol:439-441 | script and hook thresholds coincide exactly when none needs rounding |
| FeeCurve.LaterMediumShows | contracts/v4/NARALiquidityGrowthHook.sol:443-445 | a medium threshold one unit later changes the reviewed curve's fee just above it or 133 units further |
| FeeCurve.LaterHighShows | contracts/v4/NARALiquidityGrowthHook.sol:447-449 | a high threshold one unit later changes it just above or 99 units further |
| FeeCurve.ReviewedFeesAgreeExactly | contracts/v4/NARALiquidityGrowthHook.sol:431-456 | at every depth the hook accepts, script and hook charge the reviewed curve alike on all amounts exactly when the depth is a multiple of 20 |
| FeeCurve.ReviewedFeesCanDiffer | contracts/v4/NARALiquidityGrowthHook.sol:431-456 | depth 1000001, amount 100134: the script says 750, the hook charges 751 |
| FeeGrowth.SubtractModulo256 | scripts/buildV4LiquidityStackWithdrawal.ts:146-150 | the loop over wrapping subtractions is one subtraction of the sum modulo 2^256 |
| FeeGrowth.WordSizes | scripts/buildV4LiquidityStackWithdrawal.ts:146-150 | the word sizes are the powers of two they are named after |
| FeeGrowth.Signed24 | scripts/buildV4LiquidityStackWithdrawal.ts:152-155 | the one signed 24-bit tick congruent to the value |
| FeeGrowth.Slot0RoundTrip | scripts/buildV4LiquidityStackWithdrawal.ts:330-332 | price and tick come back from the packed word, whatever lies above them |
| FeeGrowth.ReadFeeGrowthInside | scripts/buildV4LiquidityStackWithdrawal.ts:338-362 | the three branches over loaded words compute the growth inside for both currencies |
| FeeGrowth.InsideIsLedgerDifference | scripts/buildV4LiquidityStackWithdrawal.ts:338-362 | all three branches give the ledger below the upper tick less the ledger below the lower, modulo 2^256 |
| FeeGrowth.AdjacentRangesAddUp | scripts/buildV4LiquidityStackWithdrawal.ts:338-362 | adjacent ranges add up for any words and any current tick |
| FeeGrowth.UninitializedRange | scripts/buildV4LiquidityStackWithdrawal.ts:338-362 | storage that was never written reads as zero: such a range has the whole global growth inside exactly when the price is |
| FeeGrowth.StepGrowsInside | scripts/buildV4LiquidityStackWithdrawal.ts:338-362 | crossing or initializing ticks leaves the inside growth alone; an accrual raises it exactly when the price is inside |
| FeeGrowth.RunGrowsInsideByEarned | scripts/buildV4LiquidityStackWithdrawal.ts:338-362 | over every run of the pool the inside growth moves by what an unwrapped ledger earned, modulo 2^256 |
| FeeGrowth.ReportedFeesAreEarned | scripts/buildV4LiquidityStackWithdrawal.ts:401-404 | reported fees are the unwrapped floor of what the range earned, as long as that is below 2^256 |
| FeeGrowth.SeparateFeesNearPooledFee | scripts/buildV4LiquidityStackWithdrawal.ts:401-419 | positions on one range together get at most the pooled floor and lose less than one unit each |
| PoolPrice.Isqrt | scripts/deployV4BaseUsdc.ts:390-400 | rejects negatives, terminates, and returns the floor of the square root for every other value |
| PoolPrice.PriceScale | scripts/deployV4BaseUsdc.ts:404 | the scale is 2^192, as 2^128 times 2^64 |
| PoolPrice.FloorSqrtUnique | scripts/deployV4BaseUsdc.ts:390-400 | there is only one such value |
| PoolPrice.NewtonStaysAbove | scripts/deployV4BaseUsdc.ts:393-398 | no Newton step falls below the root, from any estimate |
| PoolPrice.NewtonStopsAtRoot | scripts/deployV4BaseUsdc.ts:394 | an estimate that no longer decreases is not above the root |
| PoolPrice.SqrtPriceX96FromRawAmounts | scripts/deployV4BaseUsdc.ts:402-405 | s*s*amount0 <= amount1*2^192 < (s+1)*(s+1)*amount0, and non-positive amounts are rejected |
| PoolPrice.FloorQuotientSqrt | scripts/deployV4BaseUsdc.ts:404 | the root of a floored quotient brackets the exact quotient |
| PoolPrice.SortAddresses | scripts/deployV4BaseUsdc.ts:386-388 | the same two addresses, in order |
| PoolPrice.InitialPool | scripts/deployV4BaseUsdc.ts:1048-1052 | the price is currency1 per currency0 whichever side the token lands on |
| PoolPrice.OppositeOrdersAreReciprocal | scripts/deployV4BaseUsdc.ts:1048-1052 | the prices s, t of the two currency orders satisfy s*t <= scale < (s+1)*(t+1), for any scale and so for 2^192 |
| PoolPrice.SqrtPriceUnique | scripts/deployV4BaseUsdc.ts:402-405 | positive amounts have one price |
| LockLifecycle.WeightMonotone | scripts/prepareV4EngineLifecycleSmoke.ts:170-182 | more principal or a longer lock never weighs less |
| LockLifecycle.WeightBounds | scripts/prepareV4EngineLifecycleSmoke.ts:170-182 | at least the principal, and at most the full-duration multiple of it |
| LockLifecycle.WeightUndershoot | scripts/prepareV4EngineLifecycleSmoke.ts:170-182 | never above the exact quadratic, and below it by less than 1 + net*(2*WAD + linear + 3*quadratic)/WAD^2 |
| LockLifecycle.MultiplierError | scripts/prepareV4EngineLifecycleSmoke.ts:174-181 | the nested floors of the multiplier lose less than 2 + (linear + 3*quadratic)/WAD |
| LockLifecycle.LockTermsExactly | scripts/prepareV4EngineLifecycleSmoke.ts:184-207 | terms exist exactly when the shortest duration fits and the fee leaves something; the zero-weight refusal never fires |
| LockLifecycle.LockTermsReconcile | scripts/audit-live-nfts.js:122-130 | the fee is the floored share, fee and net add up to gross, the duration is the shortest possible, the audit recomputes the same weight from the stored epochs, and unlock is one epoch after activation |
| LockLifecycle.SignedActionIsProgress | scripts/prepareV4EngineLifecycleSmoke.ts:508-616 | each signed action uses up one unit of a bounded measure |
| LockLifecycle.SessionIsShort | scripts/prepareV4EngineLifecycleSmoke.ts:508-616 | with the settled epoch fixed at most three signatures are asked for, and at most two without a position |
| LockLifecycle.SignedExactly | scripts/prepareV4EngineLifecycleSmoke.ts:508-616 | every answer but a funding request, the two waits and completion asks for a signature |
| LockLifecycle.UnlockOnlyWhenSafe | scripts/prepareV4EngineLifecycleSmoke.ts:552-616 | unlock is recommended exactly for an open position with no allowance, nothing claimable and its epochs settled |
| LockLifecycle.PlannerAnswers | scripts/prepareV4EngineLifecycleSmoke.ts:428-442 | the planner answers exactly with epochs in step, a backlog of at most 7 and existing terms |
| LockLifecycle.BeforeTheLock | scripts/prepareV4EngineLifecycleSmoke.ts:508-551 | without a position: the missing amount is asked for, then approval, then the lock, each exactly under its condition |
| LockLifecycle.LockConserves | scripts/prepareV4EngineLifecycleSmoke.ts:536-551 | following the recommended lock moves exactly the amount into the position and its fee |
| LockLifecycle.AfterTheLock | scripts/prepareV4EngineLifecycleSmoke.ts:552-616 | with a position: revocation, completion, both waits, claim and unlock, each exactly under its condition |
| LockLifecycle.StepKeepsBudget | scripts/prepareV4EngineLifecycleSmoke.ts:508-616 | time, settlement, rewards and funding never add signatures other than claims |
| LockLifecycle.LifecycleSignatures | scripts/prepareV4EngineLifecycleSmoke.ts:508-616 | over any run following the planner costs at most three signatures besides claims |
| EpochMaintenance.PlanEpochBatches | scripts/maintainV4Epochs.ts:125-136 | the loop builds the greedy plan; only a negative backlog is rejected |
| EpochMaintenance.PlanShape | scripts/maintainV4Epochs.ts:125-136 | as many batches as are needed and allowed, covering the backlog or the whole capacity |
| EpochMaintenance.PlanEntry | scripts/maintainV4Epochs.ts:128-134 | every batch is full except for a last remainder |
| EpochMaintenance.ValidateAutomaticPlan | scripts/maintainV4Epochs.ts:138-153 | accepted exactly within capacity and the automatic limit, and then the plan sums to the backlog |
| EpochMaintenance.CatchUp | scripts/maintainV4Epochs.ts:407-433 | every batch is sized from the backlog of its moment; success exactly when some number of batches absorbs every suffix of arrivals, in particular with at most maxBatches - ceil(backlog/size) ticks |
| EpochMaintenance.LiveBacklogExactly | scripts/maintainV4Epochs.ts:407-427 | the backlog after n batches, exactly, in terms of arrivals alone |
| EpochMaintenance.OutcomeExactly | scripts/maintainV4Epochs.ts:407-433 | the loop ends current exactly under that condition, and always under the simple tick bound |
| EpochMaintenance.BatchesNeededAfter | scripts/maintainV4Epochs.ts:407-427 | each tick costs at most one extra batch |
| EpochMaintenance.StillClockFollowsPlan | scripts/maintainV4Epochs.ts:407-427 | with a still clock the replanned batch is the planned one, at every position |
| EpochMaintenance.StillClockSendsPlan | scripts/maintainV4Epochs.ts:407-427 | with a still clock the loop sends exactly the static plan |
| EpochMaintenance.NeededBracket | scripts/buildV4EpochRecoveryBatch.ts:43-46 | the number of batches is the only k with size*(k-1) < backlog <= size*k |
| EpochMaintenance.TogetherOutcome | scripts/buildV4EpochRecoveryBatch.ts:47-53 | n full calls in one transaction succeed exactly when each finds something to settle |
| EpochMaintenance.SeparateOutcome | scripts/buildV4EpochRecoveryBatch.ts:56-73 | n full calls as separate transactions settle the backlog up to their capacity |
| EpochMaintenance.PaddedPlanClearsExactly | scripts/buildV4EpochRecoveryBatch.ts:37-73 | rejected exactly above capacity; otherwise clears a later backlog exactly up to size*ceil(backlog/size) and the untracked reserve exactly when asked to, with the exact success condition of the atomic form |
| EpochMaintenance.RecoveryPlanCalls | scripts/buildV4EpochRecoveryBatch.ts:47-53 | the calls themselves: the sync first exactly when asked for, then one full batch each, as many as needed |
| EpochMaintenance.AdvancesSeeTrackedReserve | scripts/buildV4EpochRecoveryBatch.ts:47-48 | when any advance runs the reserve is tracked exactly if the sync was asked for or it already was |
| EpochMaintenance.CaughtUpCallUndoesThePlan | scripts/buildV4EpochRecoveryBatch.ts:49-52 | planned for one epoch more than a batch and executed with one batch left, separate parts clear the backlog and the single Safe transaction reverts |
| EpochMaintenance.ExactPlanClearsExactly | scripts/maintainV4Epochs.ts:125-136 | the exact-remainder plan clears exactly the backlogs up to its sum |
| Selection.DominanceIsStrictOrder | scripts/optimizeV4TreasuryRanges.ts:318-333 | irreflexive, asymmetric and transitive |
| Selection.DominatesExactly | scripts/optimizeV4TreasuryRanges.ts:318-333 | both measured, at least as good in all six criteria and not equal in all six |
| Selection.OrderIsStrictWeak | scripts/optimizeV4TreasuryRanges.ts:335-353 | the seven comparisons and the identifier make a consistent sorting order |
| Selection.SelectionOrderExactly | scripts/optimizeV4TreasuryRanges.ts:335-353 | the first of the seven criteria that tells two candidates apart decides, each in its direction, and then the identifier |
| Selection.SelectionOrderMirrors | scripts/optimizeV4TreasuryRanges.ts:335-353 | comparing the other way round gives the opposite answer |
| Selection.DominanceImpliesPrecedence | scripts/optimizeV4TreasuryRanges.ts:318-353 | with exposed plus protected USDC fixed, a dominating candidate always sorts first |
| Selection.FrontierCovers | scripts/optimizeV4TreasuryRanges.ts:432-435 | every gated candidate is on the frontier or dominated by a member of it |
| Selection.FrontierExactly | scripts/optimizeV4TreasuryRanges.ts:433-435 | the frontier is exactly what no gated candidate dominates |
| Selection.LexMinimumIsOnFrontier | scripts/optimizeV4TreasuryRanges.ts:432-437 | the minimum of all gated candidates is never dominated |
| Selection.FlaggedIsFrontier | scripts/optimizeV4TreasuryRanges.ts:432-437 | marking by identifier flags exactly the frontier |
| Selection.SelectedIsMinimumOfGated | scripts/optimizeV4TreasuryRanges.ts:432-457 | for any gate that fixes the USDC budget, the pick off the sorted frontier is the minimum of the whole gated set |
| Selection.NothingGatedNothingSelected | scripts/optimizeV4TreasuryRanges.ts:432-457 | nothing is selected when nothing passes |
| CandidateIds.DecimalInjective | scripts/optimizeV4TreasuryRanges.ts:271-273 | numbers print differently |
| CandidateIds.DecimalSpells | scripts/optimizeV4TreasuryRanges.ts:271-273 | the text of a number reads back as that number, without leading zeros |
| CandidateIds.CandidateIdInjective | scripts/optimizeV4TreasuryRanges.ts:271-273 | different profiles or whole budgets never share an identifier |
| Optimizer.RequiredCandidateIds | scripts/optimizeV4TreasuryRanges.ts:275-295 | accepted exactly for the three canonical profiles, and then the 21 required identifiers; the duplicate stop is unreachable |
| Optimizer.ExactMetricsMeansExactKeys | scripts/optimizeV4TreasuryRanges.ts:297-309 | count and both scans together mean exactly the expected keys, each naming itself |
| Optimizer.IdAtInjective | scripts/optimizeV4TreasuryRanges.ts:275-295 | the nested loops never produce an identifier twice |
| Optimizer.IdsAreRequired | scripts/optimizeV4TreasuryRanges.ts:275-295 | and produce all of them, whatever order the profiles come in |
| Optimizer.BuildDraft | scripts/optimizeV4TreasuryRanges.ts:378-431 | the nested loops draft the 21 candidates in order |
| Optimizer.GatedIsCanary | scripts/optimizeV4TreasuryRanges.ts:387-432 | passing every gate means being the approved canary with its exact USDC split |
| Optimizer.SelectionExactly | scripts/optimizeV4TreasuryRanges.ts:366-457 | something is selected exactly with the 21 canonical metric keys, valid evidence and a passing draft; it is the canary and the minimum of all that passed |
| Optimizer.SelectionSpelledOut | scripts/optimizeV4TreasuryRanges.ts:366-457 | with no reference to the gates: the canary is selected exactly when the evidence holds and the finalized CONSERVATIVE profile at 100000 NARA has the name, budget, 200/300 USDC split, band, exact-input and five route sizes demanded |
| Optimizer.GatesSpelledOut | scripts/optimizeV4TreasuryRanges.ts:387-401 | each of the eight gates on its own, for any candidate |
| Optimizer.DraftSpelledOut | scripts/optimizeV4TreasuryRanges.ts:381-429 | a candidate's identifier, budget, measurements, profile and funding refusal |
| Optimizer.DraftsSpelledOut | scripts/optimizeV4TreasuryRanges.ts:378-431 | the listed candidates are the drafts of every profile at every budget, in that order |
| Optimizer.FrontierIsSelected | scripts/optimizeV4TreasuryRanges.ts:432-437 | what is marked is exactly what is selected |
| Optimizer.CanaryIsRequired | scripts/optimizeV4TreasuryRanges.ts:271-295 | the approved canary is one of the 21 candidates |
| Optimizer.OptimizeTreasuryRanges | scripts/optimizeV4TreasuryRanges.ts:355-457 | for every input: the canary or nothing is selected, under the spelled-out condition; exactly it is marked; execution is blocked exactly when 500 USDC or 100000 NARA exceeds the Safe's balance |
| LogScan.QuerySplits | scripts/buildPositionNFTPhase2Finalization.ts:214-219 | a range query is the union of the queries of two adjacent parts |
| LogScan.QueryExactly | scripts/buildPositionNFTPhase2Finalization.ts:217 | an answer holds each log of the block range as often as the provider does |
| LogScan.EachBlockOnce | scripts/buildPositionNFTPhase2Finalization.ts:215-218 | the requested ranges cover every block of the range exactly once and no other block |
| LogScan.GetEventLogsInChunks | scripts/buildPositionNFTPhase2Finalization.ts:207-220 | the loop asks for the chunk ranges in order and returns the same logs as one query over the whole range |
| LogScan.ChunksTile | scripts/buildPositionNFTPhase2Finalization.ts:215-218 | the requested ranges are consecutive, fill the range and respect the chunk size |
| LogScan.ChunksFindAll | scripts/buildPositionNFTPhase2Finalization.ts:215-218 | the answers to the chunk requests are together those to one whole query |
| LogScan.ChunkedSortAgrees | scripts/buildPositionNFTPhase2Finalization.ts:576-578 | sorted by block and index, chunked and whole reading give one history, ties and duplicates included |
| LogScan.LogsInChunks | scripts/finalizePositionNFTPhase2Evidence.ts:177-190 | reading in chunks and sorting equals sorting one whole query, for any logs, and the result increases in block and, within a block, in log index |
| LogScan.SortingFollowsPrecedence | scripts/finalizePositionNFTPhase2Evidence.ts:189 | among distinct logs, sorted position follows block, index and, at one position, the given order |
| LogScan.OneToOneIsNumbered | scripts/buildPositionNFTPhase2Finalization.ts:579-605 | one-to-one ids in minting order are numbered 1, 2, 3 ... once sorted, for any list of logs |
| LogScan.NumberedIsOneToOne | scripts/buildPositionNFTPhase2Finalization.ts:579-605 | and the other way round, for any list of logs |
| LogScan.Reconcile | scripts/buildPositionNFTPhase2Finalization.ts:576-605 | for every list of logs: accepted exactly when their ids are a bijection onto 1 .. nextTokenId - 1 that increases with the block, within a block with the log index, and at one position with the list (and none is removed) |
| LogScan.DuplicatesAreRejected | scripts/buildPositionNFTPhase2Finalization.ts:579-589 | a log delivered twice, or a removed one next to its replacement, is never accepted |
| LogScan.ReconcileHistory | scripts/finalizePositionNFTPhase2Evidence.ts:572-593 | the same for the whole check, chunked reading included, for any logs of the provider |

## Left out

- IO calls that throw: files fail here only by the machine stopping, so the journal's and builder's own handling of a thrown write is not modelled (`Retirement` does model throwing renames).
- Durability of directory entries: a created or renamed file is taken to survive a stop once its effect happened.
- Deployment.SendPlan: the Base script's straight-line sequence of sends is a plan of any length, with the checks between two sends reduced to whether one of them threw.
- Deployment.SendSuite: the seven consecutive `deployRecorded` calls are written as one loop over their names; the lists of names in the script and in `scripts/lib/v4PositionNftPhase2.ts:17-25` are the same.
- Deployment.DeployBase: the non-Base path (`V4_ALLOW_NON_BASE`, an existing launcher, a skipped log) is not modelled.
- Deployment.Attempts: archiving a checkpoint by hand between attempts is not modelled; without it the protocol stays stopped.
- Journal steps as objects: the scripts mutate step objects shared with the journal; here the journal replaces the step at its index, so aliasing of steps is not captured.
- Clock values, error texts and evidence fields of journal entries other than hash and contract address.
- Publication.Directory.Publish: one builder at a time; two builders that both pass the first check before either writes are not modelled.
- Read-backs by content hash: reading back the bytes just written stands for both comparisons.
- CanonicalJson.CanonicalExact: an arbitrary strict weak key order, which may tie keys, stands for `localeCompare`; lone surrogates, -0, NaN, undefined and bigint values are outside the documents modelled.
- FeeCurve.CumulativeFee: the sum is stated for ordered thresholds only; on unordered ones the code subtracts segments and no policy is claimed for that.
- FeeGrowth.StepGrowsInside: the pool's own bookkeeping is the environment, because the pool contract is not part of the repository's scripts.
- EpochMaintenance.CatchUp: `advanceEpochs` settles exactly the requested steps or the backlog, whichever is less; gas estimation, read retries and the reserve synchronization are not modelled.
- LockLifecycle.SessionIsShort: actions have their stated effects; the pending-configuration guard, role checks and transaction simulation are not modelled, and the action's ETH value is omitted.
- Optimizer.OptimizeTreasuryRanges: evidence validation and profile finalization are parameters, and an arbitrary strict weak order of identifiers stands for `localeCompare`.
- RPC reads, ABI encoding, hashing and address derivation: addresses are an injective function of creator and nonce, provider answers are arbitrary.
- Git, BaseScan, Safe simulation and attestation checks: long conjunctions that a reading of the branch settles.
- `recoverySingleTransactionPlan` has the same body as `recoveryCallPlan` up to its constants and is covered by the same function.

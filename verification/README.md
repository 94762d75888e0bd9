# A verified model of the VALORANT optimizer's core

The optimizer has an elevated daemon that changes Windows settings before a match and puts them
back afterwards, measures what the changes did, and decides whether they helped. This project
models the parts where that can go wrong and proves what they keep:

| files | part of the system |
|---|---|
| `RealArith`, `RealSeqs`, `PairCounting`, `TieRuns`, `Splits`, `MannWhitney` | the Mann-Whitney test: mid-rank loop, tie correction, variance over all deals |
| `Percentiles`, `Dispersion`, `FrameMetrics`, `Bootstrap`, `Welch`, `Verdict` | percentiles, frame metrics, paired bootstrap, t-tests, the A/B verdict |
| `SnapshotSigning`, `SnapshotStore`, `CrashRecovery` | the signed baseline snapshot, its directory under crashes, recovery from it |
| `OptimizationModel`, `OptimizationProofs`, `OptimizationCoordinator` | apply and rollback of one optimization transaction with failing calls |
| `OptimizationRuns` | runs of applies and recoveries over the one record: what can still come back |
| `Hex`, `Guids` | the GUID text that rollback depends on |
| `CasMaximum`, `LatencyMonitor`, `DriverIsolator`, `KernelSession` | DPC/ISR latency: lock-free maximum, sample ring, driver attribution, their agreement |
| `Supervisor`, `SupervisedSettings` | launch, apply, rollback, shutdown and supervisor threads around the stop-flag slot, and the settings and record that they change |
| `CpuTopology`, `ProcessorRecords` | the processor-record parser and the P-core mask |
| `PresentCapture`, `NetworkProbe` | frame times from present events; the UDP probe and its jitter filter |
| `Options`, `Modular` | an option type and two facts about remainders |

`dafny verify dfyconfig.toml` checks everything.

How things are modelled. Every `f64` is an exact `real`. A Windows, registry or file call that can
fail takes its outcome from a parameter, and every theorem is about all outcomes unless it says
which calls succeed ("Left out" names the calls without an outcome). SHA-256, the JSON codec and
machine-bound data protection are function values with the laws that the proofs use
(`SnapshotSigning.Foreign.Lawful`); the normal tail and the continued fraction are function values
without any law, so what is proved about p-values holds whatever they compute. Code that updates state is a class or a method with loops, tied by its
`ensures` to a function or to a ghost history about which the lemmas speak. Protocols (file steps
with crashes, compare-and-swap loops, supervisor threads) are machines whose steps interleave
freely, and their theorems are about every run.

Things that reading the proofs will show about the code:

- values closer than 1e-12 are ranked as ties even when they differ. Each such pair across the
  samples moves u1 by half a point, so u1 is the plain pair count exactly when the merged pairs fall
  on both sides equally often (`ToleranceShiftsCount`); it always is when values of different
  samples are equal or 1e-12 apart (`ApartCountsPairs`), and `ToleranceMergesDistinctSamples` is an
  input where it is not;
- the stutter-count bounds hold except when all frame times are zero, where every frame counts
  (`StutterBounds`);
- a delete cut short between zeroing and removing the key leaves a junk key without a snapshot, and
  over any run every save refuses until a delete begins (`JunkKeyReachable`, `JunkKeyBlocksSaves`);
- a second apply records the first one's result as its baseline, which loses the original one
  unless the first apply found nothing to change (`SecondApplyForgetsBaseline`, `BaselineLost`), and
  a failing apply deletes the record of an earlier one (`FailedApplyChangesNothing`);
- what is neither in force nor on record never comes back: an overwritten or deleted record loses
  its baseline for every later run (`ModeComesBackIff`, `SchemeComesBackIff`, `ValueComesBackIff`,
  `GoneForGood`);
- recovery deletes its record, and its snapshot, even when restoring failed: a failed recovery gets
  a second chance only if it ended before the deletion or the deletion failed too (`SecondRecovery`,
  `BaselineBackIff`, `DeletionLosesScheme`);
- an endpoint whose raw value could not be queried is backed up as absent, so rollback deletes the
  value it had (`EndpointRecoversIff`); a failed Game Mode query is backed up as "on"
  (`GameModeRecoversIff`);
- recovery can report Game Mode as restored although the observable mode is not, and counts every
  audio backup as restored even when all of them were skipped (`ReportedIsRestored`);
- a supervisor that has passed its final check still recovers after a new launch has applied. It
  uses up the new launch's record: what was in force before that launch is in force again, with no
  record left and the new supervisor live (`LateRestoration`). If those were an earlier launch's
  optimizations, they stay with no record to undo them by (`LateRestorationStrands`). Requests that
  the daemon handles one at a time are enough for this (`RestorationReachable`).
  `NewestLaunchSafeIff` has the exact condition, at the launch's begin, for a launch to keep its
  record until its own supervisor restores, as long as no newer apply or rollback comes;
- a rollback recovers after it has released the lock, so callers that handle requests concurrently
  in one process could lose a launch's record in the same way (`LateRollback`). The daemon's
  listener finishes one request before it takes the next, which rules it out
  (`SerialRollbackAlone`);
- the 64 MB attribution window wraps around at the top of the address space
  (`AttributionIsNearIff`, `WrappedDriverMissed`);
- the last group of a GUID may have up to sixteen digits and keeps its last twelve
  (`LongGroupIsCut`, `CutText`);
- a processor record's group count is not checked against the record: a count that passes its end
  takes the next record's bytes for masks, and one that passes the end of the buffer reads outside
  (`ParsedIffFits`, `LeavesBufferIff`, with `NeighbourIsRead` and `BareHeaderLeaves` as inputs);
- a probe with no packets at all reports total loss (`Probe`).

## Model

| member | source | states |
|---|---|---|
| `PairCounting.PairScoreConserved` | crates/val-opt-shared/src/benchmarking/stats.rs:537-539 | u1 + u2 = n1*n2 for pair counts: the two directions share two half points a pair |
| `PairCounting.PairScorePermutation` | crates/val-opt-shared/src/benchmarking/stats.rs:498-507 | the pair count depends only on which values each sample holds, so combining and sorting cannot change it |
| `PairCounting.WinsOfRun` | crates/val-opt-shared/src/benchmarking/stats.rs:514-523 | a value whose tie run spans positions lo to hi scores lo + hi half points, which is what makes the mid-rank (i+1+j)/2 right |
| `TieRuns.SeparatedIffOwnLeaders` | crates/val-opt-shared/src/benchmarking/stats.rs:516 | on sorted values the 1e-12 tolerance changes nothing if and only if no two different values lie closer than that |
| `TieRuns.DistinctLeadersApart` | crates/val-opt-shared/src/benchmarking/stats.rs:514-518 | the first values of different tie runs lie at least 1e-12 apart |
| `TieRuns.TieMassOneBlock` | crates/val-opt-shared/src/benchmarking/stats.rs:524-526 | a single tie run contributes n^3 - n, the largest tie correction |
| `TieRuns.TieMassManyBlocks` | crates/val-opt-shared/src/benchmarking/stats.rs:524-526 | with two or more runs the correction falls short of that by at least 3n(n-1) |
| `Splits.DealsAreChoices` | crates/val-opt-shared/src/benchmarking/stats.rs:537-542 | over every way to deal the sorted values into samples of the given sizes, the deviations of the pair count from its middle are those of sums of chosen centred ranks |
| `Splits.AllRankSquares` | crates/val-opt-shared/src/benchmarking/stats.rs:514-542 | the squared centred mid-ranks of all values add up to a third of n^3 - n less the tie correction |
| `Splits.MomentsOverDeals` | crates/val-opt-shared/src/benchmarking/stats.rs:537-542 | over all deals the deviations of the pair count from n1 n2 / 2 cancel, and their squares add up to a third of n^3 - n less the tie correction for each choice that separates two given values |
| `MannWhitney.SortItemsMembers` | crates/val-opt-shared/src/benchmarking/stats.rs:498-507 | the combined sort moves no value from one group to the other |
| `MannWhitney.RunEnd` | crates/val-opt-shared/src/benchmarking/stats.rs:514-518 | the inner scan finds the whole tie run that starts at i, and a new run starts where it stops |
| `MannWhitney.FillRanks` | crates/val-opt-shared/src/benchmarking/stats.rs:521-523 | after a run is filled, every rank so far is half of (pair points + 1) of its position |
| `MannWhitney.AssignMidRanks` | crates/val-opt-shared/src/benchmarking/stats.rs:509-528 | every position gets the rank given by counting pairs against all values, and the tie sum is the tie mass of the sorted values over n(n-1) |
| `MannWhitney.RankSumA` | crates/val-opt-shared/src/benchmarking/stats.rs:530-535 | the rank sum of group A is its pair points against everybody plus its size, halved |
| `MannWhitney.RankPointsArePairScore` | crates/val-opt-shared/src/benchmarking/stats.rs:530-537 | the rank sum and the A-against-B pair count determine each other: 2R = n1 + n1^2 + 2 n1 n2 - 2u1 |
| `MannWhitney.CombinedFacts` | crates/val-opt-shared/src/benchmarking/stats.rs:498-507 | the combined sorted items carry both samples, and the pair count over them is the samples' own |
| `MannWhitney.RankStatistic` | crates/val-opt-shared/src/benchmarking/stats.rs:498-542 | u1 computed from ranks is the pair count #{a<b} + 1/2 #{a=b} over tie-collapsed values, for all samples |
| `MannWhitney.MannWhitneyUTest` | crates/val-opt-shared/src/benchmarking/stats.rs:486-560 | fails iff a sample has fewer than two values; U is the smaller of the two pair counts; p is exactly 1 on a single tie run, otherwise the normal tail of the distance of U from n1 n2 / 2 less half a point, never past the middle, over a variance that is the variance of u1 over all deals of the pooled values, and at least n1 n2 / 4 |
| `MannWhitney.SmallerHalf` | crates/val-opt-shared/src/benchmarking/stats.rs:537-556 | U is a multiple of 1/2 and at most mu, so the continuity correction never overshoots zero |
| `MannWhitney.VarianceDichotomy` | crates/val-opt-shared/src/benchmarking/stats.rs:541-547 | the variance is exactly 0 with U = mu when all values form one tie run, and at least n1 n2 / 4 otherwise |
| `MannWhitney.VarianceOverDeals` | crates/val-opt-shared/src/benchmarking/stats.rs:540-542 | the permutation law: over all ways to deal the pooled values into samples of these sizes, n1 n2 / 2 is the mean of u1 and the formula with its tie correction is its variance, ties included |
| `MannWhitney.PValueIsExpected` | crates/val-opt-shared/src/benchmarking/stats.rs:544-556 | the guard and the three branches of z reduce to: 1 on one tie run, the never-positive shift otherwise |
| `MannWhitney.SwapKeepsU` | crates/val-opt-shared/src/benchmarking/stats.rs:537-539 | swapping the samples mirrors u1 around n1 n2 and leaves U unchanged |
| `MannWhitney.SwapKeepsP` | crates/val-opt-shared/src/benchmarking/stats.rs:541-560 | swapping the samples leaves the p-value unchanged |
| `MannWhitney.PairKeepsScore` | crates/val-opt-shared/src/benchmarking/stats.rs:514-523 | a pair of values is merged into a tie, exactly when both lie in one tie run, or keeps its score |
| `MannWhitney.ToleranceShiftsCount` | crates/val-opt-shared/src/benchmarking/stats.rs:514-539 | for all samples u1 differs from the plain pair count by half the merged pairs with a > b less those with a < b; it is the pair count iff there are as many of the one as of the other |
| `MannWhitney.ApartCountsPairs` | crates/val-opt-shared/src/benchmarking/stats.rs:514-539 | u1 is the plain pair count whenever values of different samples are equal or at least 1e-12 apart, however close values of one sample are |
| `MannWhitney.SeparatedCountsPairs` | crates/val-opt-shared/src/benchmarking/stats.rs:514-539 | the tolerance leaves every value alone iff any two values are equal or at least 1e-12 apart, and then u1 is the plain pair count |
| `MannWhitney.ToleranceMergesDistinctSamples` | crates/val-opt-shared/src/benchmarking/stats.rs:516 | two samples half a tolerance apart: the code counts four tied pairs where plain counting has four wins |
| `Percentiles.AtMonotone` | crates/val-opt-shared/src/benchmarking/stats.rs:122-131 | interpolation on ascending data is monotone in the fractional rank, across sample boundaries too |
| `Percentiles.PercentileMonotone` | crates/val-opt-shared/src/benchmarking/stats.rs:114-131 | percentiles of ascending data grow with p, stay between first and last, and reach them at 0 and 100 |
| `Percentiles.PercentileAffine` | crates/val-opt-shared/src/benchmarking/stats.rs:114-131 | the percentile 100 k / (n-1) is sample k, and from there to the next sample the value moves along a straight line, for any data: this fixes the percentile at every p |
| `Percentiles.PercentileIsQuantile` | crates/val-opt-shared/src/benchmarking/stats.rs:114-131 | at most p percent of the n-1 gaps, and one sample, lie below the percentile of the sorted data, and at most the other gaps, and one sample, above it |
| `FrameMetrics.MetricsOrdered` | crates/val-opt-shared/src/benchmarking/stats.rs:37-82 | for positive times p50 <= p90 <= p95 <= p99 <= p99.9 and min fps <= 0.1% low <= 1% low <= max fps, the average fps lying between min and max |
| `FrameMetrics.MetricsExact` | crates/val-opt-shared/src/benchmarking/stats.rs:37-82 | every figure by what it means: durations and rates as products with the frame count, percentiles and lows as quantiles of the active frame times, the variance by the squared differences of all pairs of frames |
| `Dispersion.DeviationsArePairs` | crates/val-opt-shared/src/benchmarking/stats.rs:43-52 | 2 n times the squared deviations from the mean are the squared differences of all pairs, for every sample |
| `FrameMetrics.CountTimesThreshold` | crates/val-opt-shared/src/benchmarking/stats.rs:84-89 | k times of at least c weigh at least k*c |
| `FrameMetrics.StutterBounds` | crates/val-opt-shared/src/benchmarking/stats.rs:84-89 | at most half of the frames reach twice the mean and at most two thirds reach 1.5 times it, if and only if the capture has positive duration |
| `Bootstrap.NextRandNeverZero` | crates/val-opt-shared/src/benchmarking/stats.rs:588-596 | an xorshift step takes no non-zero state to zero |
| `Bootstrap.FirstStates` | crates/val-opt-shared/src/benchmarking/stats.rs:588-596 | the first two states that the generator takes from its seed |
| `Bootstrap.StreamNeverZero` | crates/val-opt-shared/src/benchmarking/stats.rs:588-615 | the generator state never becomes zero over a whole bootstrap |
| `Bootstrap.Resample` | crates/val-opt-shared/src/benchmarking/stats.rs:601-607 | the two sums of one replicate pick the same indices from both samples |
| `Bootstrap.CollectDeltas` | crates/val-opt-shared/src/benchmarking/stats.rs:600-615 | the deltas are those of the replicates with a positive baseline mean, in stream order |
| `Bootstrap.PairedInterval` | crates/val-opt-shared/src/benchmarking/stats.rs:570-631 | rejects exactly unequal or too small samples; otherwise returns the percentile interval of the deltas |
| `Bootstrap.IntervalShares` | crates/val-opt-shared/src/benchmarking/stats.rs:621-630 | of n deltas at most (1 - confidence)/2 times (n-1), and one, lie below the low end and as many above the high end, whose values are the quantiles of these shares |
| `Bootstrap.PickedAtMost` | crates/val-opt-shared/src/benchmarking/stats.rs:603-613 | mediant bound: a bound on every pair's percentage delta bounds every resampled one from above, whatever is picked |
| `Bootstrap.PickedAtLeast` | crates/val-opt-shared/src/benchmarking/stats.rs:603-613 | the same from below |
| `Bootstrap.IntervalInsidePairDeltas` | crates/val-opt-shared/src/benchmarking/stats.rs:598-630 | with positive baselines every replicate counts and the interval is ordered and inside the range of the per-pair deltas, for every generator state |
| `Bootstrap.NoBaselineNoInterval` | crates/val-opt-shared/src/benchmarking/stats.rs:611-619 | without a positive baseline value the interval is (0, 0), whatever the other sample and the stream |
| `Bootstrap.NoImprovementNoPositiveLow` | crates/val-opt-shared/src/benchmarking/stats.rs:598-630 | if no pair improves, the lower end is never positive, for any baselines and any stream |
| `Welch.ThresholdsComplement` | crates/val-opt-shared/src/benchmarking/stats.rs:271-273 | the two reflection thresholds add up to one |
| `Welch.BetaReflectsOnce` | crates/val-opt-shared/src/benchmarking/stats.rs:262-273 | the beta recursion reflects at most once and then evaluates the fraction, so it terminates |
| `Welch.BetaSymmetric` | crates/val-opt-shared/src/benchmarking/stats.rs:262-273 | I_x(a,b) + I_{1-x}(b,a) = 1 holds by construction for every x, the ends and beyond included, but on the threshold, where it holds iff the fraction satisfies it |
| `Welch.DegreesOfFreedomBounds` | crates/val-opt-shared/src/benchmarking/stats.rs:166-167 | min(n1,n2) - 1 <= df <= n1 + n2 - 2 for all squared errors that are not both zero |
| `Welch.TTestBounds` | crates/val-opt-shared/src/benchmarking/stats.rs:135-172 | every outcome of the test has df within those bounds, so the df <= 0 guard is dead and p is one evaluation of the fraction |
| `Welch.ErrorIsPairs` | crates/val-opt-shared/src/benchmarking/stats.rs:150-155 | 2 n^2 (n-1) times the squared error of a mean is the sum of the squared differences of all pairs |
| `Welch.TTestExact` | crates/val-opt-shared/src/benchmarking/stats.rs:147-171 | t^2 times the squared error is the squared difference of the means, t is zero iff they are equal and then p is 1; df solves the Welch-Satterthwaite equation; the branch for no spread is taken iff the squared error is at most 1e-24 |
| `Welch.TTestShifted` | crates/val-opt-shared/src/benchmarking/stats.rs:135-172 | adding a constant to every value of both samples leaves the whole outcome unchanged |
| `Welch.TTestScaled` | crates/val-opt-shared/src/benchmarking/stats.rs:135-172 | so does a positive factor, as long as there is spread before and after |
| `Welch.TTestSwapped` | crates/val-opt-shared/src/benchmarking/stats.rs:135-172 | and so does swapping the samples |
| `Welch.PairedTTestExact` | crates/val-opt-shared/src/benchmarking/stats.rs:181-211 | the paired test fails iff the samples differ in size or hold fewer than two pairs; otherwise it tests the mean of the per-pair differences against its squared error with n-1 degrees of freedom |
| `Welch.PairedTTestIgnoresDrift` | crates/val-opt-shared/src/benchmarking/stats.rs:174-211 | any drift that both members of each pair share, different for every pair, leaves the paired outcome unchanged |
| `Welch.PairedTTestScaled` | crates/val-opt-shared/src/benchmarking/stats.rs:181-211 | a positive factor leaves it unchanged, as long as there is spread before and after |
| `Welch.PairedTTestSwapped` | crates/val-opt-shared/src/benchmarking/stats.rs:181-211 | swapping the members of all pairs leaves it unchanged |
| `Welch.TailClosedForm` | crates/val-opt-shared/src/benchmarking/stats.rs:253-259 | the two-tailed p is the fraction at df/(df+t^2) or one minus it at the reflected point |
| `Verdict.CompareTrials` | crates/val-opt-shared/src/benchmarking/stats.rs:354-430 | significance holds iff a t-test is below 0.01, the pair-counting U's p is below 0.05 and the bootstrap low is positive; whatever the tails are, a favourable verdict implies equal trial counts, a pair that improves and lows that are not all tied |
| `Verdict.SignificantIff` | crates/val-opt-shared/src/benchmarking/stats.rs:404-406 | the thresholds of the three conditions on t-tests, rank test and bootstrap; the rank p lies in [0, 1] and the paired p is 1 for unequal trial counts |
| `Verdict.VerdictsExact` | crates/val-opt-shared/src/benchmarking/stats.rs:408-425 | each of the four verdicts as an iff on significance, the mean 1% lows and the mean fps, zero baselines included |
| `Verdict.NormalPNearest` | crates/val-opt-shared/src/benchmarking/stats.rs:558 | the rank p is the number of [0, 1] nearest to the normal tail |
| `Verdict.PositiveLowNeedsImprovement` | crates/val-opt-shared/src/benchmarking/stats.rs:399-406 | a positive bootstrap low means that some trial pair improved its 1% low |
| `SnapshotSigning.ConstantTimeEq` | crates/val-opt-shared/src/models/snapshot.rs:47-56 | the or-of-xors loop answers equality of the byte strings |
| `SnapshotSigning.ComputeHmac` | crates/val-opt-shared/src/models/snapshot.rs:59-93 | the padding loops compute the two-pass construction of section 2 of RFC 2104 |
| `SnapshotSigning.PadsSeparateKeys` | crates/val-opt-shared/src/models/snapshot.rs:60-75 | inner and outer pad differ in every byte, and equally long keys have equal pads only when equal |
| `SnapshotSigning.TrailingZeroIgnored` | crates/val-opt-shared/src/models/snapshot.rs:60-68 | a short key and the same key with a zero byte appended sign alike |
| `SnapshotSigning.LongKeyIsHashed` | crates/val-opt-shared/src/models/snapshot.rs:59-68 | a key longer than a block signs like its hash |
| `SnapshotSigning.HexTextDigits` | crates/val-opt-shared/src/models/snapshot.rs:168-177 | the text of a digest is the lower-case hexadecimal digits of its bytes, high nibble first |
| `SnapshotSigning.LowerAgreeIff` | crates/val-opt-shared/src/models/snapshot.rs:180-186 | two letters of a digest text agree iff they are equal up to case |
| `SnapshotSigning.PayloadIsBody` | crates/val-opt-shared/src/models/snapshot.rs:152-157 | with a codec that loses nothing, two snapshots have the same signed payload iff they have the same body |
| `SnapshotSigning.SignedVerifies` | crates/val-opt-shared/src/models/snapshot.rs:152-207 | whatever was in the signature fields, a signed snapshot verifies under its key |
| `SnapshotSigning.VerifiedIsSigned` | crates/val-opt-shared/src/models/snapshot.rs:180-207 | a snapshot verifies iff its fields are those that signing would write, up to the letter case of the hash; signing forgets earlier signatures |
| `SnapshotSigning.Draft.SignWithKey` | crates/val-opt-shared/src/models/snapshot.rs:204-207 | signing in place replaces the two fields by those of the signed value and nothing else |
| `SnapshotSigning.Draft.VerifyWithKey` | crates/val-opt-shared/src/models/snapshot.rs:190-196 | the in-place check accepts exactly a non-empty signature that matches |
| `SnapshotStore.KeyFileHoldsSecret` | crates/val-opt-core/src/state/snapshot_engine.rs:550-617 | a generated key file yields its 32-byte secret again |
| `SnapshotStore.StepKeepsInv` | crates/val-opt-core/src/state/snapshot_engine.rs:550-859 | every file step of save, recover and delete, succeeding, failing or cut by a crash, keeps: a present snapshot verifies under the present key and holds a body that was saved |
| `SnapshotStore.RunKeepsInv` | crates/val-opt-core/src/state/snapshot_engine.rs:550-859 | so does every run from an empty directory |
| `SnapshotStore.PresentSnapshotLoads` | crates/val-opt-core/src/state/snapshot_engine.rs:746-823 | after every run, loading finds nothing iff no snapshot is there, and a present one loads and is one that was saved |
| `SnapshotStore.LoadedIff` | crates/val-opt-core/src/state/snapshot_engine.rs:746-823 | for every directory, whatever it holds: a snapshot is loaded iff it is what the target parses to, its code is non-empty and is the HMAC of its body under the secret in the key file, and its digest matches |
| `SnapshotStore.RefusedIff` | crates/val-opt-core/src/state/snapshot_engine.rs:746-823 | for every directory: the exact condition of each refusal |
| `SnapshotStore.ForgedIsRefused` | crates/val-opt-core/src/state/snapshot_engine.rs:783-795 | a snapshot without a code, or with one for another secret or body, is an integrity violation however right its digest is |
| `SnapshotStore.TargetIsOldNewOrAbsent` | crates/val-opt-core/src/state/snapshot_engine.rs:673-715 | no step leaves anything at the target but the old snapshot, nothing, or the whole new one |
| `SnapshotStore.SaveSucceedsIff` | crates/val-opt-core/src/state/snapshot_engine.rs:633-735 | an undisturbed save makes its body load again under the kept or the new key, with no temporary file left, iff the key file is absent or usable; otherwise it changes nothing |
| `SnapshotStore.FallbackSaves` | crates/val-opt-core/src/state/snapshot_engine.rs:680-706 | a save whose move fails still succeeds by removing and renaming, whether or not the removal succeeds; if the renaming fails, the temporary file goes, and the old snapshot with it iff its removal succeeded |
| `SnapshotStore.TornWrites` | crates/val-opt-core/src/state/snapshot_engine.rs:673-674 | a write that is cut short, by a failure or a crash, leaves whatever it had written, any other call cut short leaves the directory alone, and after a crash nothing is under way |
| `SnapshotStore.DeleteClears` | crates/val-opt-core/src/state/snapshot_engine.rs:831-859 | an undisturbed delete leaves neither snapshot nor key |
| `SnapshotStore.NothingAppears` | crates/val-opt-core/src/state/snapshot_engine.rs:831-859 | over any run without a save, whatever fails or crashes, deletes and recoveries make no file appear and leave the snapshot as it is until it goes |
| `SnapshotStore.UnzeroedKeyIsRemoved` | crates/val-opt-core/src/state/snapshot_engine.rs:849-855 | a delete whose zeroing fails still removes the key |
| `SnapshotStore.JunkKeyReachable` | crates/val-opt-core/src/state/snapshot_engine.rs:849-855 | save, then a delete that crashes after zeroing the key: a junk key and no snapshot |
| `SnapshotStore.JunkKeyStays` | crates/val-opt-core/src/state/snapshot_engine.rs:551-575 | with an unusable key and no snapshot, no run without a delete changes the directory: every save refuses and every recovery finds nothing |
| `SnapshotStore.JunkKeyBlocksSaves` | crates/val-opt-core/src/state/snapshot_engine.rs:550-855 | so after a delete that crashed behind the zeroing, over any run until the next delete, which clears the directory |
| `CrashRecovery.CapturedAudio` | crates/val-opt-core/src/state/snapshot_engine.rs:487-498 | the captured baseline holds one backup for each present endpoint, 0 or 1, also where no value is stored |
| `CrashRecovery.DisabledIsSeen` | crates/val-opt-core/src/optimizations/audio.rs:141-201 | what disabling writes is what capturing sees; an endpoint that was not written is seen as before |
| `CrashRecovery.RestoreSnapshot` | crates/val-opt-core/src/state/crash_recovery.rs:125-198 | the restore steps leave the settings of the specification and report exactly which calls succeeded |
| `CrashRecovery.Recover` | crates/val-opt-core/src/state/crash_recovery.rs:52-121 | for every directory, whatever it holds: an authentic snapshot that can be read is restored and reported; on any other no setting changes, and the answer is "nothing to do" iff no snapshot is there and an error otherwise |
| `CrashRecovery.ReportedIsRestored` | crates/val-opt-core/src/state/crash_recovery.rs:160-198 | when the power flag is set the saved scheme is active, and when it is not the scheme was left alone; when the Game Mode flag is set the observable mode is the saved one iff the first value was written or it was that mode already; the audio count is that of all backups, while each endpoint whose calls failed keeps its value |
| `CrashRecovery.RecoveryRestoresModeAndScheme` | crates/val-opt-core/src/state/crash_recovery.rs:176-198 | whatever happened in between, a recovery whose writes succeed brings back the captured observable Game Mode and power scheme |
| `CrashRecovery.RecoveryRestoresEndpoint` | crates/val-opt-core/src/state/crash_recovery.rs:160-174 | an endpoint gets its disabled flag back iff its key exists or the flag was off, and its raw value back iff it was 0 or 1 (or the key is gone and there was none) |
| `CrashRecovery.RecoveryTwice` | crates/val-opt-core/src/state/crash_recovery.rs:104-109 | a recovery that ends before its deletion and a second one with outcomes of its own are together one recovery in which each call succeeded that succeeded in either |
| `CrashRecovery.RecoveryCanBeRepeated` | crates/val-opt-core/src/state/crash_recovery.rs:104-109 | with the same outcomes the second changes nothing and reports the same |
| `CrashRecovery.TryEnds` | crates/val-opt-core/src/state/crash_recovery.rs:104-109 | a recovery that could read its snapshot removes it whatever its restoring calls did, unless it crashes first or the removal fails, and then leaves the directory as it was |
| `CrashRecovery.TriesAreOne` | crates/val-opt-core/src/state/crash_recovery.rs:52-121 | any number of recoveries is one in which each call succeeded that succeeded in a readable try up to and including the first that removed the snapshot |
| `CrashRecovery.BaselineBackIff` | crates/val-opt-core/src/state/crash_recovery.rs:52-198 | after any number of recoveries each part of the captured baseline is back iff it was never away or its calls succeeded in one of those tries |
| `CrashRecovery.DeletionLosesScheme` | crates/val-opt-core/src/state/crash_recovery.rs:104-109 | a recovery whose scheme call fails and whose deletion succeeds loses the captured scheme for every later recovery |
| `CrashRecovery.RecoveryFailsOnlyOnReads` | crates/val-opt-core/src/state/crash_recovery.rs:64-104 | in every reachable directory recovery does nothing iff no snapshot is there, ends in an error iff one is there and a read fails, and otherwise restores a body that was saved |
| `OptimizationProofs.EndpointThereAndBack` | crates/val-opt-core/src/optimizations/audio.rs:128-254 | after the disable loop over any prefix of the endpoints and the restore loop over its backups, each endpoint went there and back on its own |
| `OptimizationProofs.EndpointRecoversIff` | crates/val-opt-core/src/optimizations/audio.rs:141-252 | an endpoint's raw value, absence included, comes back iff its query and the restoring calls allow it |
| `OptimizationProofs.GameModeRecoversIff` | crates/val-opt-core/src/optimizations/game_mode.rs:62-125 | the exact calls under which setting and restoring leaves the observable Game Mode as it was |
| `OptimizationProofs.SecondValue` | crates/val-opt-core/src/optimizations/game_mode.rs:62-125 | the second registry value after apply and after rollback, and the exact calls under which it comes back |
| `OptimizationProofs.PowerRecoversIff` | crates/val-opt-core/src/optimizations/power.rs:72-97 | the exact calls under which switching, printing, parsing and restoring brings the power scheme back |
| `OptimizationProofs.RememberedSoFar` | crates/val-opt-core/src/optimizations/mod.rs:48-97 | at every point of apply there is a transaction iff Game Mode did not fail, and it is the finished one as far as apply has got |
| `OptimizationProofs.RollbackFromAnyPoint` | crates/val-opt-core/src/optimizations/mod.rs:30-158 | at every point of apply, inside the endpoint loop too and for every failure pattern, rolling back what it has remembered restores all observable settings iff each part's condition holds |
| `OptimizationProofs.RollbackRestores` | crates/val-opt-core/src/optimizations/mod.rs:30-158 | in particular it does whenever the queries and the restoring calls succeed, whichever writes of apply failed |
| `OptimizationProofs.FailedApplyChangesNothing` | crates/val-opt-core/src/optimizations/mod.rs:48-58 | an error from apply means no setting changed its value, but an existing record is deleted |
| `OptimizationProofs.RecoveryAfterApply` | crates/val-opt-core/src/optimizations/mod.rs:86-95 | a written record makes later recovery the rollback of this apply; without one and without an earlier one recovery does nothing |
| `OptimizationProofs.UnchangedIff` | crates/val-opt-core/src/optimizations/mod.rs:30-97 | apply leaves every observable setting as it was iff it fails at Game Mode, or Game Mode was on or not written, the scheme was the new one or not switched, and each endpoint written held 1 |
| `OptimizationProofs.SecondApplyForgetsBaseline` | crates/val-opt-core/src/optimizations/mod.rs:86-95 | after two applies recovery returns to the state between them, hence to the first baseline iff the first apply found nothing to change |
| `OptimizationProofs.GameModeLost` | crates/val-opt-core/src/optimizations/mod.rs:86-95 | in particular a Game Mode that was off stays on after two applies and a successful recovery |
| `OptimizationProofs.BaselineLost` | crates/val-opt-core/src/optimizations/mod.rs:86-95 | such an input, with every call succeeding |
| `OptimizationProofs.RollbackTwice` | crates/val-opt-core/src/optimizations/mod.rs:100-158 | rolling back with outcomes c and then with outcomes d is one rollback in which each call succeeded that succeeded in either |
| `OptimizationProofs.RollbackIdempotent` | crates/val-opt-core/src/optimizations/mod.rs:100-158 | with the same outcomes rolling back twice is rolling back once |
| `OptimizationProofs.RetriedRollbackIff` | crates/val-opt-core/src/optimizations/mod.rs:30-158 | any number of rollbacks from any point of apply restores all observable settings iff each part's condition holds for the calls that succeeded in some attempt |
| `OptimizationProofs.RetriedRollbackRestores` | crates/val-opt-core/src/optimizations/mod.rs:30-158 | one attempt whose calls succeed is enough, however the earlier ones ended |
| `OptimizationProofs.SecondRecovery` | crates/val-opt-core/src/optimizations/mod.rs:151-173 | a second recovery from disk does nothing if the first deleted the record, and otherwise completes it |
| `OptimizationRuns.ModeComesBackIff` | crates/val-opt-core/src/optimizations/mod.rs:30-173 | while Game Mode is on, some run of applies and recoveries turns it off iff the record on disk says it was off |
| `OptimizationRuns.SchemeComesBackIff` | crates/val-opt-core/src/optimizations/mod.rs:30-173 | a scheme that is not active and that apply does not write becomes active in some run iff the record names it |
| `OptimizationRuns.ValueComesBackIff` | crates/val-opt-core/src/optimizations/mod.rs:30-173 | a raw value that an endpoint does not hold and that apply does not write comes back in some run iff the record holds it |
| `OptimizationRuns.GoneForGood` | crates/val-opt-core/src/optimizations/mod.rs:30-173 | a baseline some part of which is neither in force nor on record is restored by no run of applies and recoveries, whatever calls fail |
| `OptimizationRuns.SecondApplyLosesMode` | crates/val-opt-core/src/optimizations/mod.rs:53-93 | a second apply that records, or one that fails and deletes the record, loses a Game Mode that the first switched on |
| `OptimizationCoordinator.Machine.SetGameMode` | crates/val-opt-core/src/optimizations/game_mode.rs:62-118 | the registry values and the returned previous state, for each pattern of failing calls |
| `OptimizationCoordinator.Machine.ApplyPower` | crates/val-opt-core/src/optimizations/power.rs:72-90 | the new scheme and the scheme to restore: kept on laptops, Ultimate, else High, else an error |
| `OptimizationCoordinator.Machine.DisableEndpoint` | crates/val-opt-core/src/optimizations/audio.rs:141-201 | one endpoint: what is written and what is backed up; no other endpoint changes |
| `OptimizationCoordinator.Machine.DisableAudio` | crates/val-opt-core/src/optimizations/audio.rs:128-205 | the loop leaves the endpoints and backups of the specification, a backup for exactly the values written |
| `OptimizationCoordinator.Machine.RestoreAudio` | crates/val-opt-core/src/optimizations/audio.rs:208-254 | the restore loop, skipping endpoints that cannot be opened |
| `OptimizationCoordinator.Machine.RestorePower` | crates/val-opt-core/src/optimizations/mod.rs:131-139 | back to the saved scheme iff its text parses and the call succeeds, and it says so |
| `OptimizationCoordinator.Machine.Rollback` | crates/val-opt-core/src/optimizations/mod.rs:100-158 | the whole new settings after a rollback, record removed |
| `OptimizationCoordinator.Machine.ApplyOptimizations` | crates/val-opt-core/src/optimizations/mod.rs:30-97 | the whole new settings and the returned transaction; an error means that nothing observable changed |
| `OptimizationCoordinator.Machine.RecoverOrphanedTransaction` | crates/val-opt-core/src/optimizations/mod.rs:161-173 | rolls back the record if there is one and says so |
| `Guids.RoundTrip` | crates/val-opt-core/src/optimizations/power.rs:100-145 | parsing a printed GUID gives it back for all 128 bits, with any braces and whitespace around it |
| `Guids.PrintCanonical` | crates/val-opt-core/src/optimizations/power.rs:100-115 | printing yields the 8-4-4-4-12 lower-case form of section 4 of RFC 9562 |
| `Guids.PrintParse` | crates/val-opt-core/src/optimizations/power.rs:118-145 | every canonical text parses, and printing a parsed text gives the text back iff it was canonical |
| `Guids.CleanIgnoresWrapping` | crates/val-opt-core/src/optimizations/power.rs:118-120 | trimming removes exactly the surrounding whitespace and braces |
| `Hex.NumberIff` | crates/val-opt-core/src/optimizations/power.rs:125-130 | exactly the strings of hexadecimal digits, of either case, are numbers |
| `Hex.CaseAndSign` | crates/val-opt-core/src/optimizations/power.rs:125-130 | letter case and a leading plus sign make no difference |
| `Guids.SpacesAre` | crates/val-opt-core/src/optimizations/power.rs:119 | what trimming removes besides braces are the 25 code points of Unicode's White_Space property |
| `Guids.JoinSplit` | crates/val-opt-core/src/optimizations/power.rs:119-122 | splitting at hyphens loses nothing |
| `Guids.SplitJoin` | crates/val-opt-core/src/optimizations/power.rs:119-122 | splitting a joined list of hyphen-free groups gives the list back |
| `Guids.StringToGuid` | crates/val-opt-core/src/optimizations/power.rs:118-145 | the imperative parser agrees with the parse function on every text, errors included |
| `Guids.FillD4` | crates/val-opt-core/src/optimizations/power.rs:129-137 | the shifting loop writes the two and six big-endian bytes of the last groups |
| `Guids.LastGroupKeeps48Bits` | crates/val-opt-core/src/optimizations/power.rs:127-137 | of the last group's number the low 48 bits are kept; it is kept whole iff it has no others |
| `Guids.LongGroupIsCut` | crates/val-opt-core/src/optimizations/power.rs:118-145 | a text whose last group has twelve to sixteen digits parses, and its GUID prints the last twelve of them |
| `Guids.CutText` | crates/val-opt-core/src/optimizations/power.rs:127-137 | a text whose GUID prints a different last group |
| `CasMaximum.StepKeepsInv` | crates/val-opt-core/src/latency/etw_session.rs:120-149 | each atomic step, spurious failures included, keeps: counts match the calls that counted, the maximum is 0 or ingested, finished calls are covered |
| `CasMaximum.RunKeepsInv` | crates/val-opt-core/src/latency/etw_session.rs:120-149 | so does every interleaving |
| `CasMaximum.MaximumNeverDecreases` | crates/val-opt-core/src/latency/etw_session.rs:120-149 | neither maximum and neither counter ever goes down |
| `CasMaximum.StartedIsThere` | crates/val-opt-core/src/latency/etw_session.rs:120-149 | after any run every sample whose ingestion has begun is among the calls with its kind and duration, so the claims about all calls are claims about all samples |
| `CasMaximum.DoneStaysDone` | crates/val-opt-core/src/latency/etw_session.rs:120-149 | a finished call stays finished with its kind and duration, however far the run goes on |
| `CasMaximum.MaximumIsSound` | crates/val-opt-core/src/latency/etw_session.rs:120-149 | the maximum is always 0 or some ingested duration of its kind and at least that of every finished call |
| `CasMaximum.QuiescentMaximumIsExact` | crates/val-opt-core/src/latency/etw_session.rs:120-149 | when no call is under way, counter and maximum are exact for each kind |
| `CasMaximum.LossesBoundedByWins` | crates/val-opt-core/src/latency/etw_session.rs:123-134 | a call that retries has lost at most as often as others won, and every win has raised the maximum, so no more often than its value: the loop is lock-free |
| `CasMaximum.UndisturbedCallFinishes` | crates/val-opt-core/src/latency/etw_session.rs:122-134 | a call left alone finishes within two operations of its load, and within four from wherever the others left it |
| `LatencyMonitor.RingBuffer.constructor` | crates/val-opt-core/src/latency/monitor.rs:27-38 | a new ring of the given capacity has an empty history |
| `LatencyMonitor.RingBuffer.Push` | crates/val-opt-core/src/latency/monitor.rs:40-46 | a push extends the history by its sample |
| `LatencyMonitor.RingBuffer.ToVec` | crates/val-opt-core/src/latency/monitor.rs:48-67 | exactly the last min(pushes, capacity) samples, in order |
| `LatencyMonitor.RingBuffer.Clear` | crates/val-opt-core/src/latency/monitor.rs:73-79 | clearing forgets the history |
| `LatencyMonitor.SlotsDiffer` | crates/val-opt-core/src/latency/monitor.rs:40-67 | pushes less than a capacity apart use different slots |
| `LatencyMonitor.LastOfPush` | crates/val-opt-core/src/latency/monitor.rs:144-149 | dropping the oldest before pushing keeps exactly the last n |
| `LatencyMonitor.LastOfLast` | crates/val-opt-core/src/latency/monitor.rs:168-176 | the last k of the last n are the last min(k, n) |
| `LatencyMonitor.Monitor.Ingest` | crates/val-opt-core/src/latency/monitor.rs:101-159 | extends the history; the stored warnings stay the last 1000 of the samples of at least 500 us, and one is raised iff this sample is such |
| `LatencyMonitor.Monitor.RecentSamples` | crates/val-opt-core/src/latency/monitor.rs:168-176 | the last min(k, capacity) samples ever ingested |
| `LatencyMonitor.Monitor.Clear` | crates/val-opt-core/src/latency/monitor.rs:179-182 | forgets samples and warnings |
| `DriverIsolator.BinarySearch` | crates/val-opt-core/src/latency/driver_isolator.rs:198 | an exact hit, or the insertion point between smaller and larger bases |
| `DriverIsolator.Resolve` | crates/val-opt-core/src/latency/driver_isolator.rs:186-214 | binary-search attribution is the linear rule: the greatest verified base not above the address, within the window |
| `DriverIsolator.PickAttributes` | crates/val-opt-core/src/latency/driver_isolator.rs:198-213 | every outcome of the search is turned into the attribution of that rule |
| `DriverIsolator.WindowIsNearIff` | crates/val-opt-core/src/latency/driver_isolator.rs:204 | the 64-bit window test is "less than 64 MB above the base" iff the window does not wrap or the address is the base |
| `DriverIsolator.AttributionIsNearIff` | crates/val-opt-core/src/latency/driver_isolator.rs:186-214 | the attribution is that of the rule "less than 64 MB above the nearest base" iff that base's window does not wrap or the address is the base |
| `DriverIsolator.WrappedDriverMissed` | crates/val-opt-core/src/latency/driver_isolator.rs:204 | a driver in the last 64 MB loses every address above its base |
| `DriverIsolator.UpdateFolds` | crates/val-opt-core/src/latency/driver_isolator.rs:230-250 | updating one entry keeps every entry the fold (count, total, maximum, mean, flag) of its driver's samples |
| `DriverIsolator.Isolator.RecordExecution` | crates/val-opt-core/src/latency/driver_isolator.rs:217-253 | the sample joins the history under the name that the attribution rule gives, with the two unresolved names |
| `DriverIsolator.Isolator.ClearStats` | crates/val-opt-core/src/latency/driver_isolator.rs:283-286 | forgets the statistics and keeps the drivers |
| `DriverIsolator.CountsAddUp` | crates/val-opt-core/src/latency/driver_isolator.rs:242 | over any listing of the drivers the execution counts add up to the number of samples |
| `DriverIsolator.OverallIsLargestDriver` | crates/val-opt-core/src/latency/driver_isolator.rs:244-246 | the largest sample is the largest driver maximum |
| `DriverIsolator.OffendingIff` | crates/val-opt-core/src/latency/driver_isolator.rs:248-250 | a driver's maximum reaches 500 us iff one of its samples does |
| `DriverIsolator.OffendingDriversExact` | crates/val-opt-core/src/latency/driver_isolator.rs:256-265 | the offending list holds each flagged driver as often as the statistics do, and no other |
| `DriverIsolator.TopDrivers` | crates/val-opt-core/src/latency/driver_isolator.rs:268-274 | at most `limit` entries in descending order of maximum |
| `DriverIsolator.TopDriversAreLargest` | crates/val-opt-core/src/latency/driver_isolator.rs:268-274 | what was cut off is the rest, and nothing in it exceeds anything kept |
| `KernelSession.Session.Ingest` | crates/val-opt-core/src/latency/etw_session.rs:120-163 | one sample through counters, isolator and ring: all of them describe the same history extended by it |
| `KernelSession.Session.Count` | crates/val-opt-core/src/latency/etw_session.rs:120-149 | the counter and maximum of the sample's kind, and only those |
| `KernelSession.Session.Reset` | crates/val-opt-core/src/latency/etw_session.rs:448-453 | everything is empty again and agrees |
| `KernelSession.Session.Agreement` | crates/val-opt-core/src/latency/driver_isolator.rs:217-274 | the stored execution counts add up to DPCs plus ISRs, the larger maximum is the largest driver maximum, a driver is flagged iff one of its samples took 500 us |
| `KernelSession.KindsAddUp` | crates/val-opt-core/src/latency/etw_session.rs:120-149 | DPCs and ISRs partition the samples, and the larger of their maxima is the overall one |
| `Supervisor.StepKeepsInv` | crates/val-opt-core/src/ipc_server.rs:87-237 | every step of a launch, an apply, a rollback, a shutdown or a supervisor thread keeps: a published supervisor with an unset flag is the one in the slot or the one the lock holder is about to stop |
| `Supervisor.RunKeepsInv` | crates/val-opt-core/src/ipc_server.rs:87-237 | so does every interleaving |
| `Supervisor.OneLiveSupervisor` | crates/val-opt-core/src/ipc_server.rs:198-204 | at most one spawned supervisor has an unset flag, and the slot (or the lock holder) knows it |
| `Supervisor.CancelStopsEverybody` | crates/val-opt-core/src/ipc_server.rs:104-110 | when a rollback or shutdown has stored its flag and still holds the lock, every spawned supervisor is stopped |
| `Supervisor.FlagsOnlyRise` | crates/val-opt-core/src/ipc_server.rs:197-204 | stop flags only go from false to true |
| `Supervisor.StoppedNeverRestores` | crates/val-opt-core/src/process/supervisor.rs:296-331 | a supervisor stopped before its final check never starts post-match restoration, whatever happens later |
| `Supervisor.RestorationNeedsLiveFlag` | crates/val-opt-core/src/process/supervisor.rs:320-331 | restoration starts only in a supervisor that is live at that moment |
| `Supervisor.ProgressWasSeen` | crates/val-opt-core/src/process/supervisor.rs:244-331 | over every run: a supervisor past polling has found the game, one that waits has opened it, and one that has exited, restores or is complete has taken a step in which it saw the game exit |
| `Supervisor.NoExitNoRestoration` | crates/val-opt-core/src/process/supervisor.rs:244-331 | so one that has not seen its game exit is not restoring, however the run interleaves |
| `Supervisor.NeverGoesBack` | crates/val-opt-core/src/process/supervisor.rs:286-354 | over every run a supervisor's phase only advances until it is cancelled, and cancelled or complete it stays |
| `Supervisor.StopEndsSupervisor` | crates/val-opt-core/src/process/supervisor.rs:252-331 | one told to stop before its restoration ends within two steps of its own, whatever they find, and with the next one wherever it looks at its flag |
| `Supervisor.LiveEndsOnlyUnopened` | crates/val-opt-core/src/process/supervisor.rs:314-326 | and one not told to stop is cancelled only by failing to open the game |
| `Supervisor.RestorationReachable` | crates/val-opt-core/src/process/supervisor.rs:286-354 | a launch, a game and a second launch that begins while the first supervisor is past its final check, with one request at a time |
| `Supervisor.RollbackReachesRecovery` | crates/val-opt-core/src/ipc_server.rs:104-113 | from every state with a free lock a rollback gets to where it has released the lock and not yet recovered, and with one more step it is finished |
| `Supervisor.SerialRunsOneRequest` | crates/val-opt-core/src/ipc_server.rs:389-471 | a listener that takes one request at a time has at most one under way, in every interleaving with supervisor threads |
| `Supervisor.SerialRollbackAlone` | crates/val-opt-core/src/ipc_server.rs:389-471 | so nothing begins while a rollback is between its unlocking and its recovery |
| `SupervisedSettings.SettingsFollowOperations` | crates/val-opt-core/src/ipc_server.rs:87-237 | however requests and threads interleave, the settings are those that the run's applies and recoveries leave one after the other |
| `SupervisedSettings.BaselineGoneForGood` | crates/val-opt-core/src/ipc_server.rs:87-237 | a baseline part that is neither in force nor on record is restored by no run of the daemon |
| `SupervisedSettings.RecordRestoresItsBaseline` | crates/val-opt-core/src/optimizations/mod.rs:30-173 | in every run in which applies read what they remember and get their records written, the record on disk restores exactly the observable settings that its request found |
| `SupervisedSettings.RecoveryReturnsToBaseline` | crates/val-opt-core/src/process/supervisor.rs:344-352 | so a successful recovery, by whichever supervisor or rollback, returns to what was in force when the record's owner applied |
| `SupervisedSettings.NoExitNoRecovery` | crates/val-opt-core/src/process/supervisor.rs:244-352 | in a run in which a supervisor never sees its game exit, no step of it recovers the settings |
| `SupervisedSettings.RecordSurvivesIff` | crates/val-opt-core/src/ipc_server.rs:87-237 | over any run a request's record is there at the end iff no step took it: a newer apply that recorded or failed, or a recovery by a supervisor or a rollback |
| `SupervisedSettings.NewestLaunchSafeIff` | crates/val-opt-core/src/ipc_server.rs:171-211 | from a launch's begin on, with earlier requests finished: every interleaving of its steps, supervisor threads and shutdowns leaves its optimizations and its record alone until its own supervisor has restored, iff at the begin no other supervisor is restoring or live and unfinished |
| `SupervisedSettings.LateRestoration` | crates/val-opt-core/src/process/supervisor.rs:328-352 | a supervisor past its final check that recovers after a new launch: the new supervisor is live, its record is gone, and the settings are those before its launch, hence any given baseline iff they were when it applied |
| `SupervisedSettings.LateRestorationStrands` | crates/val-opt-core/src/process/supervisor.rs:328-352 | with the earlier launch's optimizations in force at that moment, the original settings are back iff that launch had found nothing to change |
| `SupervisedSettings.LateRollback` | crates/val-opt-core/src/ipc_server.rs:104-113 | the same by a rollback between its unlocking and its recovery, for callers that run requests concurrently |
| `CpuTopology.Survey` | crates/val-opt-shared/src/hardware/cpu.rs:81-98 | the survey loop's sum, flag, minimum and maximum are those of the cores |
| `CpuTopology.AddGroups` | crates/val-opt-shared/src/hardware/cpu.rs:108-112 | the group loop adds exactly the group-0 masks |
| `CpuTopology.AffinityMask` | crates/val-opt-shared/src/hardware/cpu.rs:106-113 | the mask is the union of the group-0 masks of the cores of the class |
| `CpuTopology.EvaluateTopology` | crates/val-opt-shared/src/hardware/cpu.rs:76-129 | hybrid iff two classes occur; P and E cores split the cores by the maximum class; a mask iff hybrid and not empty |
| `CpuTopology.OrAllBit` | crates/val-opt-shared/src/hardware/cpu.rs:106-113 | a bit is in the union iff some mask has it |
| `CpuTopology.OrAllCounts` | crates/val-opt-shared/src/hardware/cpu.rs:106-113 | the union of disjoint masks has as many bits as they have together |
| `CpuTopology.CountOnesIsPositions` | crates/val-opt-shared/src/hardware/cpu.rs:167 | the popcount is the number of positions that hold a bit |
| `CpuTopology.BitsDetermine` | crates/val-opt-shared/src/hardware/cpu.rs:106-113 | a mask is determined by its bits |
| `CpuTopology.AffinityMaskExact` | crates/val-opt-shared/src/hardware/cpu.rs:106-115 | bit i is set iff a maximum-class core owns processor i of group 0, and no E-core's bit is when owners are distinct |
| `CpuTopology.AffinityMaskCount` | crates/val-opt-shared/src/hardware/cpu.rs:106-115 | with disjoint masks the popcount is the sum over the maximum-class cores |
| `CpuTopology.CountsSplit` | crates/val-opt-shared/src/hardware/cpu.rs:103-104 | P-cores and E-cores partition the cores |
| `ProcessorRecords.ParseProcessorCores` | crates/val-opt-shared/src/hardware/cpu.rs:132-181 | the offset loop terminates on every buffer and computes the recursive parse |
| `ProcessorRecords.LogicalCoresAreBits` | crates/val-opt-shared/src/hardware/cpu.rs:162-169 | the logical processors of a core are the set bits of its masks, group by group |
| `ProcessorRecords.RecordsRoundTrip` | crates/val-opt-shared/src/hardware/cpu.rs:132-181 | parsing the concatenated encodings of any well-formed records, other kinds between them and any rest at which the loop stops behind, gives exactly the cores described |
| `ProcessorRecords.EveryBufferIsRecords` | crates/val-opt-shared/src/hardware/cpu.rs:141-149 | every buffer of bytes is a list of records and a rest at which the loop stops |
| `ProcessorRecords.ParsedIffFits` | crates/val-opt-shared/src/hardware/cpu.rs:132-181 | for any records, with any contents, the parser returns the cores that they describe iff every core record's announced groups lie inside the record |
| `ProcessorRecords.LeavesBufferIff` | crates/val-opt-shared/src/hardware/cpu.rs:155-158 | the parser reads outside the buffer iff some core record announces groups past the end of the buffer |
| `ProcessorRecords.NeighbourIsRead` | crates/val-opt-shared/src/hardware/cpu.rs:155-158 | two records where the parser takes the second one's header for a mask of the first |
| `ProcessorRecords.BareHeaderLeaves` | crates/val-opt-shared/src/hardware/cpu.rs:151-158 | a core record that is only a header makes the parser read outside |
| `ProcessorRecords.DetectTopology` | crates/val-opt-shared/src/hardware/cpu.rs:185-219 | the topology of a buffer is the evaluation of its parsed cores; there is none iff the parser would leave the buffer |
| `ProcessorRecords.MaskOfBuffer` | crates/val-opt-shared/src/hardware/cpu.rs:76-219 | for every buffer whose core records fit, bit i of the mask is set iff a record of the highest class names processor i of group 0 |
| `PresentCapture.Collector.Record` | crates/val-opt-core/src/benchmarking/frametimes.rs:49-58 | a frame is stored iff recording |
| `PresentCapture.Collector.Clear` | crates/val-opt-core/src/benchmarking/frametimes.rs:71-76 | no frames and no count are left |
| `PresentCapture.Capture.constructor` | crates/val-opt-core/src/benchmarking/etw_capture.rs:330-345 | a new session starts empty with no last present but carries the counters over |
| `PresentCapture.Capture.OnEvent` | crates/val-opt-core/src/benchmarking/etw_capture.rs:201-256 | the callback's whole effect on last present, counters and frames |
| `PresentCapture.RecordedIff` | crates/val-opt-core/src/benchmarking/etw_capture.rs:238-254 | a frame is recorded iff its interval is longer than 50 us and shorter than 5 s, in ticks; its time is the ticks over the frequency |
| `PresentCapture.OnlyMatchingEventsCount` | crates/val-opt-core/src/benchmarking/etw_capture.rs:219-237 | events of other processes, providers or kinds make no difference to any run |
| `PresentCapture.AdvancesCounted` | crates/val-opt-core/src/benchmarking/etw_capture.rs:238-254 | for any timestamps every advance is recorded or dropped, and the recorded indices are consecutive from the first after the carried-over counter |
| `PresentCapture.TimeConserved` | crates/val-opt-core/src/benchmarking/etw_capture.rs:238-254 | recorded and dropped time together are the time of the advanced ticks |
| `PresentCapture.IncreasingEventsTelescope` | crates/val-opt-core/src/benchmarking/etw_capture.rs:238-254 | for increasing positive timestamps recorded + dropped = matched - 1 and the times telescope to last - first |
| `NetworkProbe.Collect` | crates/val-opt-core/src/network/probe.rs:113-152 | one packet sent per attempt and one sample per answer, for every pattern of replies |
| `NetworkProbe.SamplesAreAnswers` | crates/val-opt-core/src/network/probe.rs:134-150 | there are as many samples as packets answered with their own sequence number, none negative |
| `NetworkProbe.SampleOfAnswer` | crates/val-opt-core/src/network/probe.rs:134-142 | each answered packet has its sample at its place: its saturated round trip in microseconds over a thousand |
| `NetworkProbe.WeightedPush` | crates/val-opt-core/src/network/probe.rs:198-202 | one filter step extends the closed form by one difference |
| `NetworkProbe.Jitter` | crates/val-opt-core/src/network/probe.rs:197-202 | J is the sum of (1/16)(15/16)^(k-i) times the i-th difference, the recurrence of section 6.4.1 of RFC 3550 |
| `NetworkProbe.WeightedBounds` | crates/val-opt-core/src/network/probe.rs:197-202 | after k differences J is between 0 and (1 - (15/16)^k) times their bound, and reaches it when all equal it |
| `NetworkProbe.JitterBounds` | crates/val-opt-core/src/network/probe.rs:176-202 | hence J is at most that share of max RTT - min RTT |
| `NetworkProbe.Probe` | crates/val-opt-core/src/network/probe.rs:95-216 | received is the number of answered packets, at most sent; with a sample: loss, mean, median, extremes and variance by what they mean, loss below 100 and zero iff all answered, min <= average, median <= max, J within the spread; without: all zero and total loss |

## Left out

- Floating-point rounding, infinities and NaN, except the division by a zero mean in `Verdict`; square roots are kept squared (guards compare squares), so the model claims no standard deviation and no t value but its square.
- The values of `ln_gamma`, the normal distribution and the continued fraction (stats.rs:275-350, 467-481): function values without laws.
- Cohen's d, Levene's test, the unpaired bootstrap and the report fields that the verdict does not use (stats.rs:222-249, 635-741): further sums of the same kind.
- Sorting is modelled by its result (an ascending permutation); the stable order of equal keys is not used by any claim.
- SHA-256, DPAPI, random generation, JSON text, ACLs and the path, reparse-point and hard-link checks: foreign calls; only the laws named in `Lawful` are used.
- Two processes, or two snapshot targets, sharing one directory; write ordering and durability under power loss: a crash stops the program between or inside file calls, and a finished call stays done.
- A failure to create the directory, to draw random bytes or to serialize, before the first file call of save: save then ends without a file step.
- Capture when a query fails: the baseline model is that of successful queries.
- QoS policy, adapter properties, services, process backups, the recovery log and timings in snapshots, recovery and rollback: thin wrappers over other tools.
- A crash inside apply, and a torn or unreadable transaction record: the record is written once at the end, and the model's record is either the old one or the whole new one.
- The FxProperties key that disabling creates stays behind after rollback; the theorems speak of the value in it.
- The order in which endpoints are enumerated is a parameter without duplicates (empty when the enumeration fails); endpoints that disappear or appear between apply and rollback are not modelled.
- Overflow of 32- and 64-bit counters and sums; thread-safety of the isolator, the monitor and the collector (each behind a lock), lock poisoning, and relaxed memory order (the atomics are sequentially consistent in the model).
- `DriverIsolator.Isolator.constructor`: loading and refreshing the driver list from Windows is not modelled; the list arrives sorted by base, as the refresh leaves it.
- `LatencyMonitor.RingBuffer.Push`: asks for a slot, because the source's write into a ring of capacity zero is out of range.
- `SnapshotStore.StepKeepsInv`: save, recovery and delete are modelled as the steps of one machine on values rather than as methods, because a crash may end them anywhere.
- A failing read of the key or the snapshot inside save and in the step that begins a recovery: the operation then ends before its first file step, so the directory's runs are those without it.
- `Supervisor.StepKeepsInv`: requests and threads are steps of one machine; the game's process, relaunching applications and the waits are events with either outcome.
- `SupervisedSettings.SettingsFollowOperations`: an apply or a recovery is one step, and a record that is there can be read; the baseline snapshot that a rollback request also recovers from (ipc_server.rs:112) is left to `CrashRecovery`; several processes on one record are not modelled.
- `CpuTopology.Survey`: masks and classes are natural numbers (classes at most 255); how Windows reports the records is not modelled.
- `PresentCapture.Capture.constructor`: the trace session, its worker thread and the `u64` cast of timestamps above the exact range of `f64` are not modelled.
- The bufferbloat grades, the safety database, Vanguard checks, named pipe, elevation, GUI, launcher and installer: tables, threshold chains and plumbing.

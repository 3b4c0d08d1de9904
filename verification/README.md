# Verification of the native backend's arithmetic, ownership protocols and encoders

This project models, in Dafny, the parts of the APFS access backend in which a small slip would be
silent, and proves what they promise.

* **Block ranges and snapshot accounting.** `BlockRanges`, `ProfileSetMath`, `SnapshotFamilies`,
  `SnapshotAttribution`, `AttributionExactness`, `BlockPlacing`, `LiveOverlaps`, `ProtectedOverlaps`,
  `ProtectedTest`, `SnapshotMeasures`, `VisibleSnapshots`, `ProfileViews`, `VisibleReport`,
  `VisibleMeaning`, `MarkedReferences`, `LiteralPlaces`, `MarkedOwners`, `RetainedHistory` and
  `HistoryMeaning`. The budgeted two-pointer range arithmetic is proved
  against plain sets of blocks; the report validators are proved to accept exactly the reports whose
  numbers count those sets; and for the numeric checks that remain where ranges are absent it is
  settled exactly which accepted numbers have sets behind them.
* **Ownership and retirement.** `HostGuardian`, `WriterSession`, `WriterCustody`, `WriterRegistry`,
  `LockedImage` and `TerminalProofs`. Each lock body is one step on the fields of a class; the invariants hold over
  every run, with unreliable but truthful observations and a child process that moves on its own.
* **Encoders.** `Bytes`, `Fletcher`, `BTreeLeaf`, `ContainerLayout`, `CommandLine`,
  `RecoveryIdentity`, `PlanId` and `Utf8`. Buffers are filled in place, and what is written is read back by an independent
  reader.
* **Topology.** `SharedSpace` and `SpaceGuarantee`, `VolumeGroups` and `GroupTargets`.

`VisibleMeaning`, `HistoryMeaning`, `LockedImage`, `SpaceGuarantee` and `GroupTargets` say again, in
reported fields, block sets, probe answers and drawn blocks alone, what an accepted report or an answer means.

Every class method is proved against a step function of the old fields; the step functions carry the
theorems. Rows below that name a class member state the new state and the answer of one call.

## Where code and expectation part

* `ProfileSetMath.Count` adds a range's end before it subtracts its start, so the checked addition can
  overflow although the block count fits: on canonical lists exactly when the block count plus the
  start of the last range exceeds 2^64 - 1. The address limits of every caller exclude that.
* The snapshot-space checks do not compare live overlaps between rows, so a report can be accepted
  that no block sets have. With q the live blocks a row shares and z the other blocks it shares, and d
  the shared blocks in all, accepted rows have sets behind them exactly when max q + max z <= d,
  d <= floor(sum q / 2) + floor(sum z / 2), 2 max q <= sum q and 2 max z <= sum z. With the protected and
  reclaim columns as well, the exact condition is the test of `ProtectedTest`: for some sizes of the four
  shared parts, bounds on every row and on the sums do not contradict each other.
* The literal-union check of marked references sees sizes only, not places. Where the payloads lie
  apart from each other the only possible union is the sum of the sizes; where they share at least as
  many blocks as the union counts, every size that passes is possible. For any number of
  views the possible unions form an interval, for two views with known ends; for more, its lower end is a
  set-covering question, which is not settled here.
* Shared-space reports stay accepted over every schedule exactly when the volumes' own counters
  together do not exceed the container's. Where they overlap, freeing blocks can leave a volume that
  claims more than the container has in use, and that report is refused.
* A quoted program name that ends in a backslash does not survive the run-time's own rule for names.
* The partition check lets the last partition cover the sector named for the backup header.
* An unresolved unmount identity is dropped unread exactly in a step that publishes a recorded result
  to more than 256 identities of one owner, and such a step can be reached.
* `WaitForEmpty` answers no once ownership has been released, because the job handle is gone, and
  always for a guardian that never had a job. In every other case two proofs in a row answer yes.
* A guardian whose creation-time query failed, as an aborted start allows, cannot tell a reused process id
  from its child, so it keeps its handles until the id is free, however long the child is over.
* Taking a registration away does not forget the volume's clean retirement: registered again as it was,
  the image counts as already locked again.

## Model

| member | source | states |
|---|---|---|
| BlockRanges.CanonicalIsUnique | src/ApfsAccess.Backend.Native/NativeApfsImageVerifier.VisibleSnapshotSets.cs:68-72 | A set of blocks has at most one list of nonempty, sorted, never-touching ranges; so equal blocks means equal lists |
| ProfileSetMath.ListOf | src/ApfsAccess.Backend.Native/NativeApfsImageVerifier.VisibleSnapshotSets.cs:68-72 | And every set of blocks has such a list |
| BlockRanges.LengthIsSize | src/ApfsAccess.Backend.Native/NativeApfsImageVerifier.VisibleSnapshotSets.cs:44 | On such a list the summed lengths are the number of blocks |
| ProfileSetMath.ProfileSetMath.Tick | src/ApfsAccess.Backend.Native/NativeApfsImageVerifier.VisibleSnapshotSets.cs:17 | Adds to the work counter; succeeds exactly while the counter stays within 1000000 and the count is not negative |
| ProfileSetMath.ProfileSetMath.Sort | src/ApfsAccess.Backend.Native/NativeApfsImageVerifier.VisibleSnapshotSets.cs:21 | A sorted permutation for at least n - 1 charged comparisons; refuses only when over budget |
| ProfileSetMath.ProfileSetMath.Union | src/ApfsAccess.Backend.Native/NativeApfsImageVerifier.VisibleSnapshotSets.cs:18-29 | On any range list: the same blocks, ranges never touching, and canonical when no input range is empty; success costs at least 3n - 1 ticks, and only the budget refuses |
| ProfileSetMath.ProfileSetMath.Carve | src/ApfsAccess.Backend.Native/NativeApfsImageVerifier.VisibleSnapshotSets.cs:35-41 | The inner scan, restarting at the outer cursor: one left range less everything on the right, with the exact tick count |
| ProfileSetMath.ProfileSetMath.Difference | src/ApfsAccess.Backend.Native/NativeApfsImageVerifier.VisibleSnapshotSets.cs:30-43 | On canonical lists: exactly the set difference, canonical, at most 2(left + right) ticks, success if and only if within budget |
| ProfileSetMath.ProfileSetMath.Count | src/ApfsAccess.Backend.Native/NativeApfsImageVerifier.VisibleSnapshotSets.cs:44 | The number of blocks; succeeds exactly when the ticks fit and the checked sum, formed before the subtraction, does not overflow |
| ProfileSetMath.ProfileSetMath.Disjoint | src/ApfsAccess.Backend.Native/NativeApfsImageVerifier.VisibleSnapshotSets.cs:45-49 | Accepts exactly disjoint block sets, refuses exactly overlapping ones, within the summed lengths in ticks |
| ProfileSetMath.CountOverflowIsExact | src/ApfsAccess.Backend.Native/NativeApfsImageVerifier.VisibleSnapshotSets.cs:44 | On canonical lists Count overflows if and only if the block count plus the last range's start exceeds 2^64 - 1 |
| ProfileSetMath.CountOverflowNeedsHighBlocks | src/ApfsAccess.Backend.Native/NativeApfsImageVerifier.VisibleSnapshotSets.cs:44 | So it can only overflow when some range ends above 2^63 |
| ProfileSetMath.CountCanOverflow | src/ApfsAccess.Backend.Native/NativeApfsImageVerifier.VisibleSnapshotSets.cs:44 | Two ranges whose block count fits 64 bits and on which Count still overflows |
| SnapshotFamilies.DoubleCount | src/ApfsAccess.Backend.Native/NativeApfsImageVerifier.SnapshotSpace.cs:120-131 | A block set whose members lie in lo to hi of the family's sets is counted between lo and hi times by the family |
| SnapshotFamilies.FamilyCounts | src/ApfsAccess.Backend.Native/NativeApfsImageVerifier.SnapshotSpace.cs:127-137 | Exclusive parts add up to the unshared blocks, shared parts to at least twice the shared ones |
| SnapshotAttribution.AddRow | src/ApfsAccess.Backend.Native/NativeApfsImageVerifier.SnapshotSpace.cs:115-125 | One row into the saturating totals: refused exactly on a bad row or too many exclusive blocks, else the totals are the capped exact sums |
| SnapshotAttribution.AddOrRefuse | src/ApfsAccess.Backend.Native/NativeApfsImageVerifier.SnapshotSpace.cs:115-125 | A refused row means no accepted inventory contains these rows |
| SnapshotAttribution.CloseKind | src/ApfsAccess.Backend.Native/NativeApfsImageVerifier.SnapshotSpace.cs:128-138 | From the saturating totals, accepts exactly what the unbounded sums accept |
| SnapshotAttribution.ValidateInventory | src/ApfsAccess.Backend.Native/NativeApfsImageVerifier.SnapshotSpace.cs:91-138 | The whole saturating validator accepts if and only if ids rise to at most the checkpoint, names are usable and distinct, nothing is purgeable, and the exact-sum inventory test holds for both kinds |
| AttributionExactness.RowOfSets | src/ApfsAccess.Backend.Native/NativeApfsImageVerifier.SnapshotSpace.cs:155-169 | The counts of any refs, live, others and protected sets pass the row test |
| AttributionExactness.FamilyAccepted | src/ApfsAccess.Backend.Native/NativeApfsImageVerifier.SnapshotSpace.cs:98-137 | Completeness: the counts of every finite family within capacity pass every row and inventory test of their kind |
| AttributionExactness.ReportAccepted | src/ApfsAccess.Backend.Native/NativeApfsImageVerifier.SnapshotSpace.cs:92-138 | Completeness of the whole report, metadata and payload together, for any catalog, live and protected sets |
| AttributionExactness.RowWitness | src/ApfsAccess.Backend.Native/NativeApfsImageVerifier.SnapshotSpace.cs:163-167 | Builds four sets from any seven accepted numbers |
| AttributionExactness.RowTestIsExact | src/ApfsAccess.Backend.Native/NativeApfsImageVerifier.SnapshotSpace.cs:155-169 | Tightness: seven numbers pass the row test if and only if some sets have them as their counts |
| AttributionExactness.CountsWitness | src/ApfsAccess.Backend.Native/NativeApfsImageVerifier.SnapshotSpace.cs:127-137 | Builds a family of sets from accepted referenced, shared and union counts |
| AttributionExactness.InventoryTestIsExact | src/ApfsAccess.Backend.Native/NativeApfsImageVerifier.SnapshotSpace.cs:127-137 | The inventory test on referenced, shared and union counts holds if and only if a family with those counts exists |
| AttributionExactness.AcceptedKindHasSets | src/ApfsAccess.Backend.Native/NativeApfsImageVerifier.SnapshotSpace.cs:127-137 | Rows that the whole validation accepts have a family behind their referenced, shared and union counts |
| BlockPlacing.MovedCounts | src/ApfsAccess.Backend.Native/NativeApfsImageVerifier.SnapshotSpace.cs:127-137 | Moving a family of sets block by block to other places changes no size, no shared count and no union size |
| LiveOverlaps.SplitOfFamily | src/ApfsAccess.Backend.Native/NativeApfsImageVerifier.SnapshotSpace.cs:98-137 | Any family and live set split the shared blocks into a live and a dead part, each large enough for every row and counted twice |
| LiveOverlaps.LiveWitness | src/ApfsAccess.Backend.Native/NativeApfsImageVerifier.SnapshotSpace.cs:98-137 | Builds, from any block on, a family and a live set from accepted rows that pass the missing test |
| LiveOverlaps.LiveTestIsExact | src/ApfsAccess.Backend.Native/NativeApfsImageVerifier.SnapshotSpace.cs:98-137 | Accepted rows have a family and a live set behind their referenced, live, absent, shared and unique counts if and only if four inequalities on sums and maxima hold, which the code does not test |
| LiveOverlaps.ReportTestIsExact | src/ApfsAccess.Backend.Native/NativeApfsImageVerifier.SnapshotSpace.cs:91-138 | The same for a whole accepted report: metadata inside a catalog, payload outside it, all on the device |
| ProtectedOverlaps.FamilySplits | src/ApfsAccess.Backend.Native/NativeApfsImageVerifier.SnapshotSpace.cs:91-169 | Any family, live set and protected set split the shared blocks in four and every row with them |
| ProtectedOverlaps.SplitWitness | src/ApfsAccess.Backend.Native/NativeApfsImageVerifier.SnapshotSpace.cs:91-169 | Builds, from any block on, a family, a live set and a protected set from accepted rows and a split of their numbers |
| ProtectedOverlaps.AllCountsAreExact | src/ApfsAccess.Backend.Native/NativeApfsImageVerifier.SnapshotSpace.cs:91-169 | Accepted rows are, in all seven columns, the counts of a family, a live set and one common protected set if and only if their numbers split |
| ProtectedTest.Spread | src/ApfsAccess.Backend.Native/NativeApfsImageVerifier.SnapshotSpace.cs:91-169 | A point within the summed bounds is a sum of points within the bounds of the rows |
| ProtectedTest.SplitIsDecided | src/ApfsAccess.Backend.Native/NativeApfsImageVerifier.SnapshotSpace.cs:91-169 | The split exists exactly when, for some sizes of the four shared parts, no bounds of a row and none of the sums contradict each other |
| ProtectedTest.SevenCountsAreExact | src/ApfsAccess.Backend.Native/NativeApfsImageVerifier.SnapshotSpace.cs:91-169 | So accepted rows have sets behind all seven columns if and only if that test passes |
| ProtectedTest.SevenReportIsExact | src/ApfsAccess.Backend.Native/NativeApfsImageVerifier.SnapshotSpace.cs:91-169 | The same for a whole accepted report with one catalog and one protected set for both kinds |
| LiveOverlaps.LiveOverlapsAreNotCompared | src/ApfsAccess.Backend.Native/NativeApfsImageVerifier.SnapshotSpace.cs:91-138 | A whole report of two rows that the validator accepts and that no block sets have |
| SnapshotMeasures.ComputeMeasures | src/ApfsAccess.Backend.Native/NativeApfsImageVerifier.MarkedOwners.cs:101-111 | The seven counts by range arithmetic are the cardinalities of the block sets, with same-view unmarked blocks kept |
| SnapshotMeasures.UniqueRanges | src/ApfsAccess.Backend.Native/NativeApfsImageVerifier.MarkedOwners.cs:105 | Exactly the blocks that neither current, nor other, nor same-view ranges hold |
| SnapshotMeasures.SplitsPayload | src/ApfsAccess.Backend.Native/NativeApfsImageVerifier.MarkedOwners.cs:92-93 | Two empty differences hold exactly when the payload is the union of marked and unmarked blocks |
| SnapshotMeasures.ComputedRowsPass | src/ApfsAccess.Backend.Native/NativeApfsImageVerifier.SnapshotSpace.cs:155-169 | Counts computed from ranges always pass the purely numeric row test |
| SnapshotMeasures.ReclaimIsMarginal | src/ApfsAccess.Backend.Native/NativeApfsImageVerifier.VisibleSnapshotSets.cs:137-144 | A snapshot's reclaim bound is the drop in size of live, all snapshots and external together when that snapshot goes |
| SnapshotMeasures.ReclaimSum | src/ApfsAccess.Backend.Native/NativeApfsImageVerifier.VisibleSnapshotSets.cs:137-144 | The bounds add up to the blocks exactly one snapshot and nothing else holds, so to no more than snapshots less live and external |
| SnapshotMeasures.MarkedReclaimIsMarginal | src/ApfsAccess.Backend.Native/NativeApfsImageVerifier.MarkedOwners.cs:101-121 | The same for marked payload: the drop when a view's marked blocks go and its unmarked ones stay |
| SnapshotMeasures.MarkedReclaimSum | src/ApfsAccess.Backend.Native/NativeApfsImageVerifier.MarkedOwners.cs:101-121 | Marked bounds add up to no more than the payloads hold outside live and external |
| MarkedOwners.ValidateRow | src/ApfsAccess.Backend.Native/NativeApfsImageVerifier.MarkedOwners.cs:112-121 | One row, metadata and marked payload against the other snapshots, the current view and its own unmarked blocks: accepted exactly when it counts them |
| MarkedOwners.ValidateReport | src/ApfsAccess.Backend.Native/NativeApfsImageVerifier.MarkedOwners.cs:76-121 | The whole report: accepted only if kinds stay apart, views split, and every amount counts the blocks it names; refused only if not; else the budget ran out |
| MarkedOwners.BoundIsMarked | src/ApfsAccess.Backend.Native/NativeApfsImageVerifier.MarkedOwners.cs:101-121 | For every view, the current one too, the bound counts the marked blocks that no other view, no unmarked block and nothing protected holds |
| MarkedOwners.AcceptedBoundIsMarginal | src/ApfsAccess.Backend.Native/NativeApfsImageVerifier.MarkedOwners.cs:101-121 | In an accepted report it is what visible and protected blocks lose when that view keeps only its unmarked payload |
| MarkedOwners.AcceptedBoundsFit | src/ApfsAccess.Backend.Native/NativeApfsImageVerifier.MarkedOwners.cs:76-121 | And together the bounds never exceed the visible payload that is not protected, so never the reported payload union |
| MarkedOwners.SnapshotsAgainstCurrent | src/ApfsAccess.Backend.Native/NativeApfsImageVerifier.MarkedOwners.cs:112-121 | In an accepted report a snapshot's metadata row counts what it shares with and lacks from the last view's metadata, its marked row the same against the last view's payload |
| MarkedOwners.CurrentAgainstItself | src/ApfsAccess.Backend.Native/NativeApfsImageVerifier.MarkedOwners.cs:112-121 | The current view's metadata is compared with nothing, so shares 0 and lacks all of itself; its marked payload with its own unmarked blocks |
| MarkedOwners.ColumnsAgainstOthers | src/ApfsAccess.Backend.Native/NativeApfsImageVerifier.MarkedOwners.cs:101-121 | Of either kind, shared counts what another snapshot holds, unique what no other view holds, current or not, nor for marked payload its own unmarked blocks |
| MarkedOwners.AcceptedMetadataBoundIsMarginal | src/ApfsAccess.Backend.Native/NativeApfsImageVerifier.MarkedOwners.cs:101-121 | A view's metadata bound is what visible and protected metadata lose when that view goes |
| MarkedOwners.AcceptedMetadataBoundsFit | src/ApfsAccess.Backend.Native/NativeApfsImageVerifier.MarkedOwners.cs:76-121 | And together these never exceed the visible metadata that is not protected |
| VisibleSnapshots.OthersUnion | src/ApfsAccess.Backend.Native/NativeApfsImageVerifier.VisibleSnapshotSets.cs:150-152 | The union of every other snapshot's ranges |
| VisibleSnapshots.ValidateMeasures | src/ApfsAccess.Backend.Native/NativeApfsImageVerifier.VisibleSnapshotSets.cs:137-144 | Accepts a row's counts exactly when they are the counts of its blocks; refuses exactly otherwise; or the budget ran out |
| VisibleSnapshots.ValidateRows | src/ApfsAccess.Backend.Native/NativeApfsImageVerifier.VisibleSnapshotSets.cs:136-153 | A report is accepted only with the one list of true counts and refused only when it differs |
| VisibleSnapshots.AcceptedRowsCount | src/ApfsAccess.Backend.Native/NativeApfsImageVerifier.VisibleSnapshotSets.cs:145-153 | Every accepted row, of either kind, counts that view's blocks |
| VisibleSnapshots.RecomputedRowsPassNumericTests | src/ApfsAccess.Backend.Native/NativeApfsImageVerifier.SnapshotSpace.cs:98-137 | Recomputed rows pass the numeric tests used where ranges are absent, and their reclaim bounds never overlap |
| VisibleSnapshots.AcceptedReportPassesNumericTests | src/ApfsAccess.Backend.Native/NativeApfsImageVerifier.SnapshotSpace.cs:98-137 | So does every accepted report, for both kinds |
| ProfileViews.ReadView | src/ApfsAccess.Backend.Native/NativeApfsImageVerifier.VisibleSnapshotSets.cs:103-116 | One view in order: inside its checkpoint, apart from every earlier volume's payload, which two running unions hold |
| ProfileViews.ReadViews | src/ApfsAccess.Backend.Native/NativeApfsImageVerifier.VisibleSnapshotSets.cs:101-117 | All views of a checkpoint: accepted exactly when volumes rise, each with rising distinct snapshots and then its current view, every view lies in the checkpoint, peers share no payload, and payload is covered |
| ProfileViews.ReadCheckpoint | src/ApfsAccess.Backend.Native/NativeApfsImageVerifier.VisibleSnapshotSets.cs:95-119 | One checkpoint: accepted exactly when its kinds fit the container and its views are so |
| ProfileViews.PayloadHasOneOwner | src/ApfsAccess.Backend.Native/NativeApfsImageVerifier.VisibleSnapshotSets.cs:107-117 | In an accepted checkpoint the payload is what its views hold, and each block belongs to views of one volume only |
| ProfileViews.OneCurrentView | src/ApfsAccess.Backend.Native/NativeApfsImageVerifier.VisibleSnapshotSets.cs:105-117 | In views in order every volume has exactly one current view, its last |
| VisibleReport.ReadChain | src/ApfsAccess.Backend.Native/NativeApfsImageVerifier.VisibleSnapshotSets.cs:91-120 | The chain: accepted exactly when ids rise between the requested ends, every checkpoint is valid, and no block is metadata in one and payload in another |
| VisibleReport.ReadLive | src/ApfsAccess.Backend.Native/NativeApfsImageVerifier.VisibleSnapshotSets.cs:121-126 | Accepted exactly when the selected volume has one current view and it is the selected one |
| VisibleReport.ExternalIs | src/ApfsAccess.Backend.Native/NativeApfsImageVerifier.VisibleSnapshotSets.cs:127-129 | The external blocks are exactly those of earlier checkpoints and of other volumes at the last |
| VisibleReport.ValidateReport | src/ApfsAccess.Backend.Native/NativeApfsImageVerifier.VisibleSnapshotSets.cs:91-153 | The whole report: accepted only if chain, selection, totals, headings and every row are right, refused only if not; else the budget ran out |
| VisibleReport.AcceptedReclaimFits | src/ApfsAccess.Backend.Native/NativeApfsImageVerifier.VisibleSnapshotSets.cs:127-153 | In an accepted report the reclaim bounds together never exceed what the snapshots hold and neither the current view, an earlier checkpoint nor another volume does |
| VisibleMeaning.AcceptedChain | src/ApfsAccess.Backend.Native/NativeApfsImageVerifier.VisibleSnapshotSets.cs:91-120 | In an accepted report ids rise from the requested start, or from none, to the requested end, and no block is metadata at one checkpoint and payload at any |
| VisibleMeaning.AcceptedCheckpoint | src/ApfsAccess.Backend.Native/NativeApfsImageVerifier.VisibleSnapshotSets.cs:95-119 | Each checkpoint has metadata and views, fits the container, and its payload is exactly what its views hold |
| VisibleMeaning.AcceptedView | src/ApfsAccess.Backend.Native/NativeApfsImageVerifier.VisibleSnapshotSets.cs:77-116 | Each view is of an allowed volume and time, lies in its checkpoint kind by kind, and holds its descriptor, whose identity is the volume's for a current view and its own block for a snapshot |
| VisibleMeaning.AcceptedOrder | src/ApfsAccess.Backend.Native/NativeApfsImageVerifier.VisibleSnapshotSets.cs:103-117 | Of two views the later has no smaller volume; in one volume snapshots rise with distinct names before the one current view; different volumes share no payload |
| VisibleMeaning.AcceptedSelection | src/ApfsAccess.Backend.Native/NativeApfsImageVerifier.VisibleSnapshotSets.cs:121-132 | The selected volume has exactly one current view at the end, whose superblock is the selected one, with the root in its metadata and the checkpoint block in the checkpoint's; the live totals count it |
| VisibleMeaning.AcceptedSnapshots | src/ApfsAccess.Backend.Native/NativeApfsImageVerifier.VisibleSnapshotSets.cs:127-147 | The rows are those of that volume's snapshots at the end, all and only, by rising id, each with its id, name, amount and descriptor |
| VisibleMeaning.AcceptedRow | src/ApfsAccess.Backend.Native/NativeApfsImageVerifier.VisibleSnapshotSets.cs:137-153 | Row i counts snapshot i in seven numbers, kind by kind, against the other snapshots, the one current view, and the blocks of earlier checkpoints and of other volumes' views |
| VisibleMeaning.AcceptedTotals | src/ApfsAccess.Backend.Native/NativeApfsImageVerifier.VisibleSnapshotSets.cs:130-135 | The two snapshot totals count the blocks that any of these snapshots holds |
| MarkedReferences.GatherOthers | src/ApfsAccess.Backend.Native/NativeApfsImageVerifier.MarkedReferences.cs:95-102 | The ranges of all other snapshots, charged exactly once for every view visited and every range added |
| MarkedReferences.OtherSnapshots | src/ApfsAccess.Backend.Native/NativeApfsImageVerifier.MarkedReferences.cs:95-103 | Their union; success has charged at least one tick for every snapshot visited and four for every range, less one |
| MarkedReferences.ObserveView | src/ApfsAccess.Backend.Native/NativeApfsImageVerifier.MarkedReferences.cs:92-111 | One view's counts are the cardinalities of its block set against the current view and the other snapshots |
| MarkedReferences.ObserveViews | src/ApfsAccess.Backend.Native/NativeApfsImageVerifier.MarkedReferences.cs:91-111 | Every view is counted so, or the budget ran out |
| MarkedReferences.SpaceMeans | src/ApfsAccess.Backend.Native/NativeApfsImageVerifier.MarkedReferences.cs:103-110 | In blocks: a snapshot against the current view, both against the other snapshots, and unique is what no other view holds |
| MarkedReferences.UniquesAndSharedMakeUnion | src/ApfsAccess.Backend.Native/NativeApfsImageVerifier.MarkedReferences.cs:103-110 | Unique counts of all views plus the blocks at least two views hold make up the union |
| MarkedReferences.LiteralBounds | src/ApfsAccess.Backend.Native/NativeApfsImageVerifier.MarkedReferences.cs:87 | The running maximum and the saturating sum are the true maximum and the capped sum |
| MarkedReferences.LiteralsOfSetsPass | src/ApfsAccess.Backend.Native/NativeApfsImageVerifier.MarkedReferences.cs:89-90 | Real literal sets inside their payloads always pass the literal-union test |
| MarkedReferences.LiteralTestIsExact | src/ApfsAccess.Backend.Native/NativeApfsImageVerifier.MarkedReferences.cs:89-90 | Sizes pass if and only if sets of those sizes with a union of that size exist within payload size and capacity |
| MarkedReferences.ApartIsExact | src/ApfsAccess.Backend.Native/NativeApfsImageVerifier.MarkedReferences.cs:89-90 | Where payloads lie apart from each other, literal sets of these sizes inside them exist if and only if the union is the sum of the sizes and each size fits its payload |
| MarkedReferences.CommonIsEnough | src/ApfsAccess.Backend.Native/NativeApfsImageVerifier.MarkedReferences.cs:89-90 | Where all payloads share at least as many blocks as the union counts, the test on sizes is enough |
| MarkedReferences.LiteralTestMissesPlaces | src/ApfsAccess.Backend.Native/NativeApfsImageVerifier.MarkedReferences.cs:89-90 | Otherwise it is not: two payloads apart, a literal union of one block passes and no literal sets have it |
| LiteralPlaces.Between | src/ApfsAccess.Backend.Native/NativeApfsImageVerifier.MarkedReferences.cs:89-90 | A literal union between two possible ones is possible, by exchanging one block at a time |
| LiteralPlaces.PossibleIsAnInterval | src/ApfsAccess.Backend.Native/NativeApfsImageVerifier.MarkedReferences.cs:89-90 | For any number of views the possible unions are all numbers from the smallest to the largest of them |
| LiteralPlaces.TwoViewsAreExact | src/ApfsAccess.Backend.Native/NativeApfsImageVerifier.MarkedReferences.cs:89-90 | For two views a union is possible if and only if each size fits its payload and it lies between s1 + s2 - min(s1, s2, overlap) and min(s1 + s2, payload union) |
| RetainedHistory.AddressIsOneMember | src/ApfsAccess.Backend.Native/NativeApfsImageVerifier.ProfileHistory.cs:106-107 | The two-tier address test holds exactly of nonempty ranges inside one member |
| RetainedHistory.ValidateRanges | src/ApfsAccess.Backend.Native/NativeApfsImageVerifier.cs:259-272 | Accepts exactly the canonical lists inside the store and sums them to their number of blocks |
| RetainedHistory.RequireDisjoint | src/ApfsAccess.Backend.Native/NativeApfsImageVerifier.cs:274-286 | Accepts exactly when the two lists share no block |
| RetainedHistory.ReadKind | src/ApfsAccess.Backend.Native/NativeApfsImageVerifier.ProfileHistory.cs:119-128 | One kind of a checkpoint on top of a running total: accepted exactly when addressed, canonical and within capacity |
| RetainedHistory.ReadCheckpoint | src/ApfsAccess.Backend.Native/NativeApfsImageVerifier.ProfileHistory.cs:117-128 | Accepts exactly a checkpoint with metadata, both kinds addressed and canonical and together within capacity, while all ranges so far stay within a million; its total counts the blocks |
| RetainedHistory.ReadHistory | src/ApfsAccess.Backend.Native/NativeApfsImageVerifier.ProfileHistory.cs:110-130 | Reads the whole chain and accepts exactly rising ids between the two given ones with a readable checkpoint each |
| RetainedHistory.ScanPair | src/ApfsAccess.Backend.Native/NativeApfsImageVerifier.ProfileHistory.cs:135-142 | One pair of lists: accepts exactly disjoint ones, every comparison charged |
| RetainedHistory.ScanAllPairs | src/ApfsAccess.Backend.Native/NativeApfsImageVerifier.ProfileHistory.cs:131-143 | The all-pairs scan accepts only disjoint unions, refuses only overlapping ones, and runs out of budget only when n^2 plus n times the ranges exceeds it; it never accepts when n^2 does |
| RetainedHistory.ValidateHistory | src/ApfsAccess.Backend.Native/NativeApfsImageVerifier.ProfileHistory.cs:110-143 | Chain and scan together: unless the budget ran out, accepted exactly when the history is valid and all metadata is apart from all payload |
| RetainedHistory.PairsAreUnions | src/ApfsAccess.Backend.Native/NativeApfsImageVerifier.ProfileHistory.cs:131-143 | All pairs apart if and only if the metadata union and the payload union are apart |
| RetainedHistory.CompareUnions | src/ApfsAccess.Backend.Native/NativeApfsImageVerifier.VisibleSnapshotSets.cs:120 | The other form, one comparison of two merged unions, decides the same question |
| RetainedHistory.AcceptedTotalIsUnion | src/ApfsAccess.Backend.Native/NativeApfsImageVerifier.ProfileHistory.cs:118-143 | Once the scan accepted, a checkpoint's range total is the number of blocks it owns |
| RetainedHistory.ValidateUsage | src/ApfsAccess.Backend.Native/NativeApfsImageVerifier.Retained.cs:66-82 | The running check accepts exactly ordered, consistent rows whose referenced blocks fit the payload and of which one is the selected volume's |
| RetainedHistory.HoldsSelected | src/ApfsAccess.Backend.Native/NativeApfsImageVerifier.Retained.cs:43-51 | Accepts exactly when metadata holds block 0 and every selected block |
| RetainedHistory.ValidateAccounting | src/ApfsAccess.Backend.Native/NativeApfsImageVerifier.Retained.cs:24-82 | Ids, sums, scan, required blocks, census and pool partition accept exactly the accountings in which every total is a number of blocks and owned = size of metadata + payload |
| HistoryMeaning.AcceptedRanges | src/ApfsAccess.Backend.Native/NativeApfsImageVerifier.Retained.cs:38-51 | In an accepted accounting the ranges of each kind are nonempty, apart and inside the store, no block is of both kinds, and block 0 and the selected blocks are metadata |
| HistoryMeaning.AcceptedTotals | src/ApfsAccess.Backend.Native/NativeApfsImageVerifier.Retained.cs:52-65 | Conservation: the main pool's allocation is every covered block once, with what is reserved and deferred; the internal pool is part of it; nothing is unattributed |
| HistoryMeaning.AcceptedUsage | src/ApfsAccess.Backend.Native/NativeApfsImageVerifier.Retained.cs:24-82 | Ids rise to the selected checkpoint; usage rows rise by volume, hold the selected one, and together reference no more than the payload blocks |
| HistoryMeaning.AcceptedHistory | src/ApfsAccess.Backend.Native/NativeApfsImageVerifier.ProfileHistory.cs:110-130 | An accepted history leads from one id to the other with a checkpoint that has metadata for each, within a million ranges in all |
| HistoryMeaning.AcceptedEntry | src/ApfsAccess.Backend.Native/NativeApfsImageVerifier.ProfileHistory.cs:106-128 | Each of its ranges lies wholly in the main store or, with Fusion, wholly in the second tier; kinds are apart within themselves and fit the container together |
| CommandLine.QuoteArgument | src/ApfsAccess.Backend.Native/HostProcessGuardian.cs:913-954 | The builder loop with its backslash counter writes the recursive quoting |
| CommandLine.BuildCommandLine | src/ApfsAccess.Backend.Native/HostProcessGuardian.cs:886-898 | File name, quoted arguments or the raw string, joined by single blanks |
| CommandLine.PlainIsExact | src/ApfsAccess.Backend.Native/HostProcessGuardian.cs:913-926 | An argument is written as it is exactly if it is not empty and holds neither white space nor a quote |
| CommandLine.WhiteSpaceByNumber | src/ApfsAccess.Backend.Native/HostProcessGuardian.cs:919-921 | White space is that of .NET, by code point |
| CommandLine.EscapedReadsBack | src/ApfsAccess.Backend.Native/HostProcessGuardian.cs:927-953 | Inside quotes, escaped text reads back as the text and stops at the closing quote |
| CommandLine.JoinSplits | src/ApfsAccess.Backend.Native/HostProcessGuardian.cs:888-890 | Splitting the joined quoted arguments by the C run-time rules returns them, empty ones and trailing backslashes included, under either double-quote rule |
| CommandLine.ArgumentsRoundTrip | src/ApfsAccess.Backend.Native/HostProcessGuardian.cs:886-898 | Read up to the first NUL, the list survives if and only if no argument holds a NUL |
| CommandLine.NameRoundTrip | src/ApfsAccess.Backend.Native/HostProcessGuardian.cs:891 | The program name, read by its own rule, survives if and only if it has no quote and is not quoted with a final backslash |
| CommandLine.NameCanBeLost | src/ApfsAccess.Backend.Native/HostProcessGuardian.cs:891 | One such name: with a blank inside and a backslash at its end, read back it is not itself |
| CommandLine.CommandLineRoundTrip | src/ApfsAccess.Backend.Native/HostProcessGuardian.cs:886-954 | Name and arguments survive together if and only if the name is safe and nothing holds a NUL |
| HostGuardian.HostProcessGuardian.TryObserveProcessExit | src/ApfsAccess.Backend.Native/HostProcessGuardian.cs:408-434 | The answer and the remembered exit code of one look, every query of which may fail |
| HostGuardian.HostProcessGuardian.TryProveOwnershipReleased | src/ApfsAccess.Backend.Native/HostProcessGuardian.cs:580-591 | Exit proved and the job absent or empty |
| HostGuardian.HostProcessGuardian.StartKeeper | src/ApfsAccess.Backend.Native/HostProcessGuardian.cs:535-555 | Starts a keeper only when none runs |
| HostGuardian.HostProcessGuardian.ReleaseProvenOwnership | src/ApfsAccess.Backend.Native/HostProcessGuardian.cs:593-599 | Job, thread and process handles closed, release completed, nothing else |
| HostGuardian.HostProcessGuardian.ResumeSuspendedProcess | src/ApfsAccess.Backend.Native/HostProcessGuardian.cs:348-362 | Resumes a held thread at most once: a success gives the handle up |
| HostGuardian.HostProcessGuardian.TryTerminate | src/ApfsAccess.Backend.Native/HostProcessGuardian.cs:448-457 | One attempt, then a keeper unless released or proved |
| HostGuardian.HostProcessGuardian.Dispose | src/ApfsAccess.Backend.Native/HostProcessGuardian.cs:514-533 | Idempotent; proves, or terminates and proves again, and else leaves a keeper |
| HostGuardian.HostProcessGuardian.KeepOwnership | src/ApfsAccess.Backend.Native/HostProcessGuardian.cs:557-578 | One keeper pass under the lock and whether it ends the keeper |
| HostGuardian.HostProcessGuardian.WaitForEmptyPass | src/ApfsAccess.Backend.Native/HostProcessGuardian.cs:486-504 | One pass of the wait and the flag it carries |
| HostGuardian.StepKeepsCustody | src/ApfsAccess.Backend.Native/HostProcessGuardian.cs:448-599 | Every lock body, whatever the child does and whichever queries fail, keeps custody and undoes nothing already final |
| HostGuardian.CustodyOverRuns | src/ApfsAccess.Backend.Native/HostProcessGuardian.cs:408-599 | Over every interleaving: handles close and release completes only after true exit and an empty or absent job; a disposed, unreleased guardian has exactly one keeper |
| HostGuardian.SeenExitIsReal | src/ApfsAccess.Backend.Native/HostProcessGuardian.cs:408-434 | An exit observed while ownership is not released has happened, and the id's present owner was not created when the child was, nor at the recorded time if there is one |
| HostGuardian.NoExitUnseen | src/ApfsAccess.Backend.Native/HostProcessGuardian.cs:414-433 | Without release no exit is seen through a closed handle, without a process id, before the signal or after a fault |
| HostGuardian.ReliableProofIsExact | src/ApfsAccess.Backend.Native/HostProcessGuardian.cs:408-434 | With working queries an exit is seen, and a proof given, if and only if ownership is released or the child is over and can be told from the id's present owner |
| HostGuardian.ExitCodeIsKept | src/ApfsAccess.Backend.Native/HostProcessGuardian.cs:419-420 | A code read once is the child's and is kept over every run, whatever failed after it was read |
| HostGuardian.ReliableKeeperIsExact | src/ApfsAccess.Backend.Native/HostProcessGuardian.cs:557-578 | A keeper pass with working queries ends the keeper if and only if ownership is released or the child is over and recognizable, and releases if and only if a disposal was asked for as well |
| HostGuardian.ReliableDisposeIsExact | src/ApfsAccess.Backend.Native/HostProcessGuardian.cs:514-533 | A first disposal with working queries releases if and only if one of its two looks finds the child over and recognizable; else a keeper runs |
| HostGuardian.ReliablePassReleases | src/ApfsAccess.Backend.Native/HostProcessGuardian.cs:557-578 | Every run with one such keeper pass releases a disposed guardian of a finished child |
| HostGuardian.UnknownCreationNeverReleases | src/ApfsAccess.Backend.Native/HostProcessGuardian.cs:425-430 | A guardian that never learnt its child's creation time never releases while the id stays in use |
| HostGuardian.ReleaseIsReachable | src/ApfsAccess.Backend.Native/HostProcessGuardian.cs:408-533 | A run from a new guardian to release in which the id is reused and the job empties |
| HostGuardian.TerminationReaches | src/ApfsAccess.Backend.Native/HostProcessGuardian.cs:448-475 | Until release a termination attempt reaches the job that was there and the process; after it, it answers no and only stores the code |
| HostGuardian.EnforcedOverRuns | src/ApfsAccess.Backend.Native/HostProcessGuardian.cs:448-578 | After a termination attempt or disposal, over every run, a keeper is at work until the child is over |
| HostGuardian.LastCodeOverRuns | src/ApfsAccess.Backend.Native/HostProcessGuardian.cs:448-457 | Over any run the code in force is that of the last termination attempt, at first that of a failed start |
| HostGuardian.NewThreadOverRuns | src/ApfsAccess.Backend.Native/HostProcessGuardian.cs:348-362 | Over any run of a new guardian the suspended thread is held until the first resume that works or until release |
| HostGuardian.WaitAnswersTruthfully | src/ApfsAccess.Backend.Native/HostProcessGuardian.cs:477-512 | Yes only on a second consecutive proof, and then the child is over; a guardian without a job or released answers no |
| HostGuardian.ReliableWaitIsExact | src/ApfsAccess.Backend.Native/HostProcessGuardian.cs:486-504 | With working queries a pass sees the job empty if and only if the child is over and recognizable, and answers yes only if the pass before did |
| HostGuardian.WaitAnswersYes | src/ApfsAccess.Backend.Native/HostProcessGuardian.cs:477-512 | Once the child is over and recognizable and queries work, two passes with anything in between answer yes if and only if there was a job and ownership is not released |
| WriterSession.NativeEncryptedImageServiceSession.TryAdmitObservation | src/ApfsAccess.Backend.Native/NativeEncryptedImageServiceSession.cs:167-175 | Replaces the last observation exactly when the status is admitted after it |
| WriterSession.NativeEncryptedImageServiceSession.StopAsync | src/ApfsAccess.Backend.Native/NativeEncryptedImageServiceSession.cs:108-149 | The new session and the answer of one stop call |
| WriterSession.AdmissionIsMonotone | src/ApfsAccess.Backend.Native/NativeEncryptedImageServiceSession.cs:177-213 | An admitted status has cleaned <= durable <= accepted, is at or above the previous one, and is settled when terminal |
| WriterSession.AdmissionIsExact | src/ApfsAccess.Backend.Native/NativeEncryptedImageServiceSession.cs:177-213 | A status is admitted if and only if it is of the session's own host and image, healthy for its phase, ordered, and below neither the registered checkpoint nor anything admitted; it is recorded as it is |
| WriterSession.ExplainedOverRuns | src/ApfsAccess.Backend.Native/NativeEncryptedImageServiceSession.cs:108-213 | Over every run of a new session each observation, proof and release goes back to a call that showed what it rests on |
| WriterSession.FirstStopIsExact | src/ApfsAccess.Backend.Native/NativeEncryptedImageServiceSession.cs:108-149 | A first stop answers released if and only if host, job and directory were gone, the record written and the guardian released, and clean if and only if also exit code, final status and lease say so |
| WriterSession.RunKeeps | src/ApfsAccess.Backend.Native/NativeEncryptedImageServiceSession.cs:108-213 | Any run of admissions and stops keeps the session sound and moves it only onward |
| WriterSession.WatermarksNeverFall | src/ApfsAccess.Backend.Native/NativeEncryptedImageServiceSession.cs:203-209 | Between any two points of a run no counter falls |
| WriterSession.CleanRetirementCoversRun | src/ApfsAccess.Backend.Native/NativeEncryptedImageServiceSession.cs:115-139 | A clean retirement leaves and records accepted = durable = cleaned at or above everything seen in the run |
| WriterSession.ProofNeverChanges | src/ApfsAccess.Backend.Native/NativeEncryptedImageServiceSession.cs:113-144 | A captured proof survives every later call, and after release every stop repeats the same answer |
| WriterCustody.JoinedOverRuns | src/ApfsAccess.Backend.Native/NativeEncryptedImageServiceSession.cs:108-149 | Over every interleaving of the child, its guardian's passes, admissions and stops: a proof of retirement is held only of a child that is over, a clean one only of one that exited with 0 |
| WriterCustody.ReleasedMeansOver | src/ApfsAccess.Backend.Native/NativeEncryptedImageServiceSession.cs:108-149 | A stop that answers released leaves a released guardian and a truly finished child with an empty job; a clean answer also exit code 0 and a settled record |
| WriterCustody.ReliableStopIsExact | src/ApfsAccess.Backend.Native/NativeEncryptedImageServiceSession.cs:108-149 | And a first stop whose queries and files work answers released if and only if the child was over at its queries, with its job, and recognizable then and at the disposal |
| WriterRegistry.EncryptedWriters.Register | src/ApfsAccess.Backend.Native/EncryptedImageRegistration.cs:14-59 | Adds a valid profile for an unregistered volume, nothing else |
| WriterRegistry.EncryptedWriters.Deregister | src/ApfsAccess.Backend.Native/NativeApfsBackend.KeyManagement.cs:27-41 | Removes an idle registration, refused while a writer is reserved |
| WriterRegistry.EncryptedWriters.StopEncryptedWriteSession | src/ApfsAccess.Backend.Native/EncryptedImageWriteRegistration.cs:62-89 | Removes the session only on proved release and unmount; re-registers only after a clean end |
| WriterRegistry.EncryptedWriters.UnlockWritable | src/ApfsAccess.Backend.Native/EncryptedImageWriteRegistration.cs:16-60 | Admits a writer for the registered profile when none is reserved; a failed start stops it again |
| WriterRegistry.EncryptedWriters.Unmount | src/ApfsAccess.Backend.Native/EncryptedImageWriteRegistration.cs:119-126 | Stops a reserved session or repeats its recorded retirement |
| WriterRegistry.EncryptedWriters.ObserveLockedImage | src/ApfsAccess.Backend.Native/EncryptedImageWriteRegistration.cs:98-117 | Answers already locked exactly under the stated conditions |
| WriterRegistry.StepKeeps | src/ApfsAccess.Backend.Native/EncryptedImageWriteRegistration.cs:16-126 | Every operation keeps the registry sound |
| WriterRegistry.RegistryOverRuns | src/ApfsAccess.Backend.Native/EncryptedImageWriteRegistration.cs:16-126 | So does every run |
| WriterRegistry.OneWriterPerVolume | src/ApfsAccess.Backend.Native/EncryptedImageWriteRegistration.cs:25-37 | In every reachable registry a volume has at most one reserved writer |
| WriterRegistry.TracedOverRuns | src/ApfsAccess.Backend.Native/EncryptedImageWriteRegistration.cs:64-68 | In every reachable registry each proof and each kept answer goes back to what stops of that session saw |
| WriterRegistry.RemovalNeedsProof | src/ApfsAccess.Backend.Native/EncryptedImageWriteRegistration.cs:64-68 | A reserved session leaves only in an unmount that saw its guardian released and its directory absent, and some stop of the run saw its owner gone, its job empty and its directory absent and wrote the record; a clean answer also an exit code of 0 and an unchanged lease |
| WriterRegistry.RetirementNeedsProof | src/ApfsAccess.Backend.Native/EncryptedImageWriteRegistration.cs:64-68 | Every remembered retirement, also of a session whose start failed, has such a release at or after such a stop |
| WriterRegistry.AlreadyLockedMeansClean | src/ApfsAccess.Backend.Native/EncryptedImageWriteRegistration.cs:98-112 | In every reachable registry the answer means that the volume's latest session has on record accepted = durable = cleaned and nothing dirty, at or below the registered checkpoint |
| WriterRegistry.AlreadyLockedIsSettled | src/ApfsAccess.Backend.Native/EncryptedImageWriteRegistration.cs:98-112 | Where no status of a mounted host is read after a clean proof, that record is the last observation and the registered checkpoint is exactly its own |
| WriterRegistry.CheckpointNeverFalls | src/ApfsAccess.Backend.Native/EncryptedImageWriteRegistration.cs:71-80 | While a volume stays registered its checkpoint never decreases, over any run |
| LockedImage.RegisterIsExact | src/ApfsAccess.Backend.Native/EncryptedImageRegistration.cs:14-59 | A valid profile of an unregistered volume is registered, with a write lease just when writable; whatever was registered stays as it was |
| LockedImage.DeregisterIsExact | src/ApfsAccess.Backend.Native/NativeApfsBackend.KeyManagement.cs:27-41 | A registration goes exactly if no session of its volume is reserved; a clean retirement is not forgotten by it |
| LockedImage.UnlockIsExact | src/ApfsAccess.Backend.Native/EncryptedImageWriteRegistration.cs:16-60 | In every reachable registry an unlock answers yes if and only if it is for the registered valid writable profile, no session of the volume is reserved, host and lease are there, and it starts and becomes ready; and what it then leaves |
| LockedImage.AnswersNeed | src/ApfsAccess.Backend.Native/EncryptedImageWriteRegistration.cs:16-117 | In any registry, reachable or not, a yes to an unlock or to the locked query rests on a valid, writable, leased registration without a reserved writer |
| LockedImage.KnownMounts | src/ApfsAccess.Backend.Native/EncryptedImageWriteRegistration.cs:16-126 | A directory is reserved or retired, never both, exactly if an unlock of the run started a session under it |
| LockedImage.UnknownMountAnswers | src/ApfsAccess.Backend.Native/EncryptedImageWriteRegistration.cs:119-126 | An unmount of any other directory reports nothing released or removed and changes nothing |
| LockedImage.UnmountAnswerIsKept | src/ApfsAccess.Backend.Native/EncryptedImageWriteRegistration.cs:62-126 | An answer of released and removed is repeated by every later unmount of that directory, over any run in between |
| LockedImage.AlreadyLockedIsExact | src/ApfsAccess.Backend.Native/EncryptedImageWriteRegistration.cs:98-117 | In every reachable registry the answer is yes if and only if the volume is not mounted, directory and process are absent, p is the registered profile, and some earlier event ended a session of the volume clean, registered p and pinned the present identity, with no later unlock of the volume that went ahead |
| LockedImage.LastCleanStopIsUnique | src/ApfsAccess.Backend.Native/EncryptedImageWriteRegistration.cs:62-117 | There is one such event |
| TerminalProofs.TerminalOwners.BoundCompleted | src/ApfsAccess.Backend.Native/NativeUnmountTerminalState.cs:90-95 | Enqueues and evicts the oldest while over the bound |
| TerminalProofs.TerminalOwners.Retain | src/ApfsAccess.Backend.Native/NativeUnmountTerminalState.cs:49-72 | Adds an identity for each row that matches its owner and is new |
| TerminalProofs.TerminalOwners.Publish | src/ApfsAccess.Backend.Native/NativeUnmountTerminalState.cs:74-88 | Gives an owner's result to all its waiting identities |
| TerminalProofs.TerminalOwners.GetUnmountTerminalState | src/ApfsAccess.Backend.Native/NativeUnmountTerminalState.cs:21-47 | Unknown, pending, or the retained proof |
| TerminalProofs.EvictKeeps | src/ApfsAccess.Backend.Native/NativeUnmountTerminalState.cs:90-95 | Eviction leaves the newest 256 proofs, the queue exact, and every unresolved entry in place |
| TerminalProofs.PublishKeeps | src/ApfsAccess.Backend.Native/NativeUnmountTerminalState.cs:74-88 | After each published identity the queue is the newest of old and published ones and nothing else changed |
| TerminalProofs.SoundOverRuns | src/ApfsAccess.Backend.Native/NativeUnmountTerminalState.cs:49-95 | In every reachable state the queue has no duplicates, lists exactly the resolved identities, at most 256, and each proof is its owner's |
| TerminalProofs.RetainedProofNeverChanges | src/ApfsAccess.Backend.Native/NativeUnmountTerminalState.cs:68-95 | Over any run in which an identity stays retained, its proof is the same at the end |
| TerminalProofs.UnresolvedNotEvicted | src/ApfsAccess.Backend.Native/NativeUnmountTerminalState.cs:90-95 | An unresolved identity leaves only in the step that resolves it together with more than 256 of its owner's |
| TerminalProofs.LossIsExact | src/ApfsAccess.Backend.Native/NativeUnmountTerminalState.cs:74-95 | A step loses some unresolved identity if and only if it publishes a recorded result to more than 256 at once |
| TerminalProofs.LossIsReachable | src/ApfsAccess.Backend.Native/NativeUnmountTerminalState.cs:49-95 | A run from the empty cache at whose end the next step loses one |
| TerminalProofs.LookupReturnsOwnProof | src/ApfsAccess.Backend.Native/NativeUnmountTerminalState.cs:21-47 | A completed lookup returns the result of the owner whose tracking key that identity was retained under |
| TerminalProofs.PublishingLeavesNothingPending | src/ApfsAccess.Backend.Native/NativeUnmountTerminalState.cs:79-86 | After publication nothing of that owner waits any more |
| TerminalProofs.RetainIsExact | src/ApfsAccess.Backend.Native/NativeUnmountTerminalState.cs:49-72 | A row enters its identity, under its owner's creation time, with its owner's key and result, exactly if the owner is running with a known creation time and the row names it or leaves the time open; else nothing changes |
| TerminalProofs.LookupIsExact | src/ApfsAccess.Backend.Native/NativeUnmountTerminalState.cs:21-47 | In every reachable state a lookup is unknown just when the identity is not retained, pending just when it waits, and else completed with its owner's result |
| TerminalProofs.UnnamedIsUnknown | src/ApfsAccess.Backend.Native/NativeUnmountTerminalState.cs:30-36 | In any cache a lookup without a process id or a creation time is unknown |
| TerminalProofs.PublishedIsAnswered | src/ApfsAccess.Backend.Native/NativeUnmountTerminalState.cs:74-88 | A waiting identity is answered with the result once it is published, unless more than 256 waited with it |
| SharedSpace.ValidateSpace | src/ApfsAccess.Backend.Native/ObserverTopologyMetadataValidation.cs:170-202 | Accepts if and only if totals, ids, per-volume counters, reserves and derived availability all hold |
| SharedSpace.AvailableIsExact | src/ApfsAccess.Backend.Native/ObserverTopologyMetadataValidation.cs:195-200 | Taking n blocks keeps every reserve backed and the quota whole if and only if n is at most the availability |
| SharedSpace.AcceptedAvailabilityIsExact | src/ApfsAccess.Backend.Native/ObserverTopologyMetadataValidation.cs:195-200 | The same for the availability an accepted report states |
| SharedSpace.GiveKeepsCovered | src/ApfsAccess.Backend.Native/ObserverTopologyMetadataValidation.cs:194-205 | Freeing blocks keeps every reserve backed |
| SharedSpace.SchedulesKeepCovered | src/ApfsAccess.Backend.Native/ObserverTopologyMetadataValidation.cs:170-205 | Every schedule of available takes and of frees keeps free + used = total, reserves backed and terms unchanged |
| SharedSpace.ReportsStayAccepted | src/ApfsAccess.Backend.Native/ObserverTopologyMetadataValidation.cs:170-202 | After such a schedule from an accepted report with additive counters the next report is accepted |
| SharedSpace.AdditivityIsExact | src/ApfsAccess.Backend.Native/ObserverTopologyMetadataValidation.cs:170-202 | From an accepted report every schedule leads to an accepted report if and only if the volumes' counters together do not exceed the container's |
| SharedSpace.OverlappingCountersCanFail | src/ApfsAccess.Backend.Native/ObserverTopologyMetadataValidation.cs:170-202 | An accepted report with overlapping counters and one freeing step after which the next report is refused |
| SpaceGuarantee.UnmetIsLeast | src/ApfsAccess.Backend.Native/ObserverTopologyMetadataValidation.cs:204-205 | The unmet part of a reserve is the least number of blocks that bring the volume up to it |
| SpaceGuarantee.CoverIsAttainable | src/ApfsAccess.Backend.Native/ObserverTopologyMetadataValidation.cs:180-194 | Free space covers what is unmet if and only if some schedule of takes, within free space and quotas, brings every volume up to its reserve at once |
| SpaceGuarantee.AcceptedAmounts | src/ApfsAccess.Backend.Native/ObserverTopologyMetadataValidation.cs:162-192 | What an accepted report's amounts, unit and ids are |
| SpaceGuarantee.GuaranteeOverRuns | src/ApfsAccess.Backend.Native/ObserverTopologyMetadataValidation.cs:170-202 | From an accepted report and after any schedule of available takes and of frees, every reserve can still be met at once |
| SpaceGuarantee.AvailabilityIsGreatest | src/ApfsAccess.Backend.Native/ObserverTopologyMetadataValidation.cs:195-202 | The reported availability is the greatest number of blocks within free space and quota after whose taking every reserve can still be met |
| SpaceGuarantee.AvailableIsGreatestOverRuns | src/ApfsAccess.Backend.Native/ObserverTopologyMetadataValidation.cs:195-202 | And so is the availability in every pool that such a schedule leads to |
| SpaceGuarantee.SiblingReserveIsLeast | src/ApfsAccess.Backend.Native/ObserverTopologyMetadataValidation.cs:196-200 | The reported sibling reserve is the least free space from which all other volumes' reserves can be met |
| VolumeGroups.CheckGroups | src/ApfsAccess.Backend.Native/ObserverTopologyMetadataValidation.cs:72-85 | The group loop with its dictionary accepts exactly valid, disjoint, uniquely keyed records |
| VolumeGroups.CheckRoutes | src/ApfsAccess.Backend.Native/ObserverTopologyMetadataValidation.cs:86-92 | Accepts exactly when every volume's group id names a record that lists it |
| VolumeGroups.CheckClass | src/ApfsAccess.Backend.Native/ObserverTopologyMetadataValidation.cs:126-146 | Accepts a class exactly when its rows and its record match the derived status and targets |
| VolumeGroups.Validate | src/ApfsAccess.Backend.Native/ObserverTopologyMetadataValidation.cs:65-148 | The whole validation accepts if and only if the declarative predicate holds |
| VolumeGroups.GroupsAreClasses | src/ApfsAccess.Backend.Native/ObserverTopologyMetadataValidation.cs:126-146 | Every record of a listed container is the record of exactly one class of two or more volumes |
| VolumeGroups.ClassesHaveGroups | src/ApfsAccess.Backend.Native/ObserverTopologyMetadataValidation.cs:141-142 | Every such class has its record |
| VolumeGroups.MembershipIsReciprocal | src/ApfsAccess.Backend.Native/ObserverTopologyMetadataValidation.cs:81-91 | A volume's group id names the one record that lists it |
| VolumeGroups.VolumeRowsDetermineGroups | src/ApfsAccess.Backend.Native/ObserverTopologyMetadataValidation.cs:126-146 | Accepted evidence with equal volume rows and every volume's container listed has the same groups: equally many, matched one to one |
| GroupTargets.RecordShape | src/ApfsAccess.Backend.Native/ObserverTopologyMetadataValidation.cs:72-85 | Every accepted record is named by its nonzero uuid and lists two or more distinct known volumes of one container that name it back |
| GroupTargets.NamedGroupExists | src/ApfsAccess.Backend.Native/ObserverTopologyMetadataValidation.cs:86-92 | A volume that names a group is listed by exactly one record, the one so named |
| GroupTargets.RecordMembers | src/ApfsAccess.Backend.Native/ObserverTopologyMetadataValidation.cs:126-143 | In a listed container a record's members are exactly the volumes with its uuid, at least two, each with the record's own status |
| GroupTargets.RecordStatus | src/ApfsAccess.Backend.Native/ObserverTopologyMetadataValidation.cs:126-143 | Malformed if and only if some member's metadata or uuid is not valid; else ambiguous if and only if two members share the role system or data; valid if and only if exactly one has each; else incomplete |
| GroupTargets.RecordTargets | src/ApfsAccess.Backend.Native/ObserverTopologyMetadataValidation.cs:144-146 | A valid record names the id of its one system member and of its one data member; any other names neither |
| GroupTargets.RowAlone | src/ApfsAccess.Backend.Native/ObserverTopologyMetadataValidation.cs:112-124 | A row states its own metadata validity; without a uuid it names no group and is none or malformed |
| GroupTargets.SingleVolume | src/ApfsAccess.Backend.Native/ObserverTopologyMetadataValidation.cs:136-140 | A volume that shares its uuid with no other routes to no record, and is malformed or incomplete |
| Bytes.FromLeOfToLe | src/ApfsAccess.Backend.Native/SyntheticApfsTestImage.cs:899-900 | Little-endian bytes read back as the integer written |
| Fletcher.ComputeApfsObjectChecksum | src/ApfsAccess.Backend.Native/SyntheticApfsTestImage.cs:934-948 | The 64-bit loop returns the seal of the unbounded sums whenever those stay below 2^64, and refuses partial words |
| Fletcher.RoomIsExact | src/ApfsAccess.Backend.Native/SyntheticApfsTestImage.cs:937-943 | Up to 92680 words no data can wrap the sums, past that all-ones data does; one 4096-byte block is far below it |
| Fletcher.SealWords | src/ApfsAccess.Backend.Native/SyntheticApfsTestImage.cs:945-947 | Both words lie in 1 to 2^32 - 1 |
| Fletcher.SealClosesSums | src/ApfsAccess.Backend.Native/SyntheticApfsTestImage.cs:945-947 | Among nonzero words, only the seal's low and high word bring both running sums to zero |
| Fletcher.SealsAgree | src/ApfsAccess.Backend.Native/SyntheticApfsTestImage.cs:934-948 | Equal seals if and only if both sums agree modulo 2^32 - 1 |
| Fletcher.OneWordChange | src/ApfsAccess.Backend.Native/SyntheticApfsTestImage.cs:934-948 | A changed word keeps the seal only when 0 and 2^32 - 1 trade places |
| Fletcher.NeighboursSwapped | src/ApfsAccess.Backend.Native/SyntheticApfsTestImage.cs:934-948 | Swapped neighbours keep the seal only when equal modulo 2^32 - 1 |
| Fletcher.SealApfsBlock | src/ApfsAccess.Backend.Native/SyntheticApfsTestImage.cs:899-900 | Writes the seal into the first eight bytes and leaves the rest; the block is then well sealed |
| Fletcher.ReaderAgrees | src/ApfsAccess.Backend.Native/SyntheticApfsTestImage.cs:899-900 | A reader that runs the sums on through two nonzero stored words agrees exactly with the stored seal |
| Fletcher.ZeroedSealFails | src/ApfsAccess.Backend.Native/SyntheticApfsTestImage.cs:193-200 | A block with a zeroed seal is never well sealed |
| Fletcher.DamageShows | src/ApfsAccess.Backend.Native/SyntheticApfsTestImage.cs:899-900 | A well sealed block with one damaged word is well sealed only if the word changed by a multiple of the modulus |
| BTreeLeaf.WriteHeader | src/ApfsAccess.Backend.Native/SyntheticApfsTestImage.cs:815-822 | The header fields at their offsets; refused exactly when the table length does not fit 16 bits |
| BTreeLeaf.WriteTable | src/ApfsAccess.Backend.Native/SyntheticApfsTestImage.cs:824-836 | For records that fit, every table entry in place and nothing else moved |
| BTreeLeaf.WriteKeys | src/ApfsAccess.Backend.Native/SyntheticApfsTestImage.cs:838-843 | For records that fit, the keys one after another behind the table |
| BTreeLeaf.WriteValues | src/ApfsAccess.Backend.Native/SyntheticApfsTestImage.cs:845-851 | For records that fit, the values one before another up to the info block |
| BTreeLeaf.WriteInfo | src/ApfsAccess.Backend.Native/SyntheticApfsTestImage.cs:861-884 | The forty info bytes for either kind of tree |
| BTreeLeaf.WriteCatalogTypedLeaf | src/ApfsAccess.Backend.Native/SyntheticApfsTestImage.cs:804-887 | Succeeds if and only if the records fit; then every region is as specified and the block is well sealed |
| BTreeLeaf.LeafRoundTrip | src/ApfsAccess.Backend.Native/SyntheticApfsTestImage.cs:804-887 | Reading through the header and the table of contents returns exactly the records, in order |
| BTreeLeaf.RegionsTile | src/ApfsAccess.Backend.Native/SyntheticApfsTestImage.cs:824-860 | By the stored fields, table, keys, zero bytes and values follow one another without gap or overlap |
| BTreeLeaf.FreeLengthIsExact | src/ApfsAccess.Backend.Native/SyntheticApfsTestImage.cs:853-860 | Records fit exactly when lengths plus table fit the room, and the stored free length is what is left |
| BTreeLeaf.HeaderByNumber | src/ApfsAccess.Backend.Native/SyntheticApfsTestImage.cs:815-822 | Every header field by its offset: identity, flags 1, 2 and, with fixed sizes, 4, level 0, counts |
| BTreeLeaf.SizesByNumber | src/ApfsAccess.Backend.Native/SyntheticApfsTestImage.cs:866-884 | The size fields are 16 and 8 for fixed sizes, else the longest key and value: never exceeded and attained |
| BTreeLeaf.InfoByNumber | src/ApfsAccess.Backend.Native/SyntheticApfsTestImage.cs:861-887 | Tree flags by the top two bits of the object type, block size, record and node counts |
| BTreeLeaf.LeafIsDetermined | src/ApfsAccess.Backend.Native/SyntheticApfsTestImage.cs:804-887 | The node and its records determine all 4096 bytes |
| BTreeLeaf.LeafIsInjective | src/ApfsAccess.Backend.Native/SyntheticApfsTestImage.cs:804-887 | The block determines the node and its records |
| ContainerLayout.SetBitmapBit | src/ApfsAccess.Backend.Native/SyntheticApfsTestImage.cs:757-758 | Marks exactly one more bit |
| ContainerLayout.CountSetBits | src/ApfsAccess.Backend.Native/SyntheticApfsTestImage.cs:760-772 | The number of marked bits below the bound |
| ContainerLayout.BuildCatalogAllocationBitmap | src/ApfsAccess.Backend.Native/SyntheticApfsTestImage.cs:719-755 | Marks exactly the blocks in use |
| ContainerLayout.UsedCount | src/ApfsAccess.Backend.Native/SyntheticApfsTestImage.cs:719-772 | 14 + 6n of 15 + 7n blocks are in use; the other n + 1 are block 1 and each volume's sixth block |
| ContainerLayout.WrittenBlocks | src/ApfsAccess.Backend.Native/SyntheticApfsTestImage.cs:371-428 | No block of a container is written twice, all lie inside, and they are the marked blocks less three empty checkpoint slots |
| ContainerLayout.ImageStream.WriteCatalogContainer | src/ApfsAccess.Backend.Native/SyntheticApfsTestImage.cs:371-428 | The written extents in order, the bitmap, and a recorded free count of n + 1 |
| ContainerLayout.PlacePartitions | src/ApfsAccess.Backend.Native/SyntheticApfsTestImage.cs:157-166 | The placement loop yields the closed-form starts: rounding up never moves one |
| ContainerLayout.ImageStream.CreateCatalogFixture | src/ApfsAccess.Backend.Native/SyntheticApfsTestImage.cs:121-192 | Succeeds if and only if sizes, counts and the last partition fit; writes nothing when refused |
| ContainerLayout.PartitionsInOrder | src/ApfsAccess.Backend.Native/SyntheticApfsTestImage.cs:157-174 | Partitions are eight-sector aligned, ordered, disjoint, behind header and entries, inside the image |
| ContainerLayout.FirstUsableIsLeast | src/ApfsAccess.Backend.Native/SyntheticApfsTestImage.cs:154-157 | They start at the least eight-sector boundary behind header sector and entries |
| ContainerLayout.MarkedIsBit | src/ApfsAccess.Backend.Native/SyntheticApfsTestImage.cs:757-772 | Block b is bit b % 8 of byte b / 8, counted from the low end |
| ContainerLayout.WritesNeverOverlap | src/ApfsAccess.Backend.Native/SyntheticApfsTestImage.cs:187-192 | Over the whole image no byte is written twice and none outside it |
| ContainerLayout.BackupSectorIsClear | src/ApfsAccess.Backend.Native/SyntheticApfsTestImage.cs:168-188 | The sector named as the backup header's stays outside every partition if and only if the partitions leave the last sector free |
| ContainerLayout.BackupSectorCanBeCovered | src/ApfsAccess.Backend.Native/SyntheticApfsTestImage.cs:168-188 | Eight partitions with 129 volumes fill an accepted 4 MiB image to that sector |
| ContainerLayout.VolumeLimitIsTheLeafLimit | src/ApfsAccess.Backend.Native/SyntheticApfsTestImage.cs:774-802 | The limit of 100 volumes is exactly the object-map leaf's: a hundred mappings leave no byte, one more does not fit |
| RecoveryIdentity.BuildNamespaceMaterial | src/ApfsAccess.Backend.Native/NativeRecoveryStorage.cs:16-28 | Builds the 42 bytes exactly under the stated conditions |
| RecoveryIdentity.BuildableIsExact | src/ApfsAccess.Backend.Native/NativeRecoveryStorage.cs:18-20 | They are: a partition that is not all zero unless none is allowed, a container of 32 hexadecimal digits not all zero, and a nonzero object id |
| RecoveryIdentity.HexByPlace | src/ApfsAccess.Backend.Native/NativeRecoveryStorage.cs:20 | A hexadecimal digit stands for its place, in either case |
| RecoveryIdentity.DecodeOfBuilt | src/ApfsAccess.Backend.Native/NativeRecoveryStorage.cs:16-46 | Decoding a built witness returns the partition, the container in lower case and the object id |
| RecoveryIdentity.BuiltOfDecoded | src/ApfsAccess.Backend.Native/NativeRecoveryStorage.cs:16-46 | Every witness that decodes is the one built from what it decodes to |
| RecoveryIdentity.SameWitness | src/ApfsAccess.Backend.Native/NativeRecoveryStorage.cs:16-28 | Two requests share a witness if and only if partition, container up to letter case, and object id agree |
| RecoveryIdentity.UnpackOfSextets | src/ApfsAccess.Backend.Native/NativeRecoveryStorage.cs:30-34 | Base64 groups of any length unpack to the bytes they came from |
| RecoveryIdentity.SextetsOfUnpack | src/ApfsAccess.Backend.Native/NativeRecoveryStorage.cs:30-34 | And canonical sextets are those of the bytes they unpack to |
| RecoveryIdentity.NameOfDigest | src/ApfsAccess.Backend.Native/NativeRecoveryStorage.cs:30-34 | Trimming the padding and replacing two characters gives the URL-safe alphabet of section 5 of RFC 4648 |
| RecoveryIdentity.DigestRoundTrip | src/ApfsAccess.Backend.Native/NativeRecoveryStorage.cs:170-178 | The name of every 32-byte digest is accepted and gives the digest back |
| RecoveryIdentity.NameRoundTrip | src/ApfsAccess.Backend.Native/NativeRecoveryStorage.cs:170-178 | Every accepted name is the name of exactly one 32-byte digest |
| RecoveryIdentity.KeysAreDigests | src/ApfsAccess.Backend.Native/NativeRecoveryStorage.cs:170-178 | A storage key exists exactly for the names of 32-byte digests, and distinct digests get distinct keys |
| PlanId.BuildPlanId | src/ApfsAccess.Backend.Native/NativeApfsImageVerifier.cs:327-359 | The builder appends, field after field, exactly the prefixed encoding of the bound parts |
| PlanId.PlanIdInOrder | src/ApfsAccess.Backend.Native/NativeApfsImageVerifier.cs:325-359 | The whole identifier: the version's prefix, then every bound part in its place; reports without the newer parts keep the first form |
| PlanId.EncodeIsInjective | src/ApfsAccess.Backend.Native/NativeApfsImageVerifier.cs:335-340 | Equal encodings come from equal field lists, of whatever number and content |
| PlanId.ObservePeel | src/ApfsAccess.Backend.Native/NativeApfsImageVerifier.cs:346-353 | Whether content was observed shows although both ownership variants share a prefix: a one-digit refusal is never a byte limit |
| PlanId.PlanIdIsInjective | src/ApfsAccess.Backend.Native/NativeApfsImageVerifier.cs:327-359 | Two reports have the same plan identifier if and only if every bound part of them is the same |
| Utf8.LengthIsBytes | src/ApfsAccess.Backend.Native/NativeApfsImageVerifier.cs:335-340 | The byte count in front of a field is the number of bytes of its UTF-8 form, section 3 of RFC 3629 |
| Utf8.EncodeIsInjective | src/ApfsAccess.Backend.Native/NativeApfsImageVerifier.cs:335-340 | And no two strings have the same bytes |

## Left out

* JSON parsing, exact-field checks, text limits and the wrapping of exceptions: the models start from
  typed records, and every thrown refusal is a negative answer.
* Cancellation: an early failure that changes nothing.
* The cost of the library sort inside `Union`: any comparison sort stands in for it, each comparison
  charged.
- VisibleReport.ValidateReport: does not model the reader of range lists, whose result is the precondition, nor the ticks it charges.
- VisibleSnapshots.ValidateMeasures: does not model the order in which single counts are compared; all are computed first.
- MarkedReferences.ObserveViews: does not model the multiplication by the allocation unit, nor the row parser in front of it.
- RetainedHistory.ValidateAccounting: does not model the store size as a multiple of the block size, nor the two fields that must be null.
- MarkedReferences.CommonIsEnough: one direction only; LiteralPlaces settles two views, and for more the lower end is a covering problem.
- MarkedOwners.ValidateReport: does not model the checkpoint chain, the marked-reference report inside it, nor the range reader, whose result is the precondition.
- LiveOverlaps.LiveTestIsExact: leaves out the protected and reclaim columns, which ProtectedTest.SevenCountsAreExact adds.
- LiveOverlaps.ReportTestIsExact: the same, added by ProtectedTest.SevenReportIsExact.
- PlanId.PlanIdIsInjective: a bound value is its field text, so a null and the text unknown, or true and the text 1, are the same field; the reader types each field.
- HostGuardian.CustodyOverRuns: does not model the window between creating and assigning the job, nor a keeper that runs inline because no thread could start; its passes are keeper steps here.
- HostGuardian.HostProcessGuardian.StartKeeper: does not model the keeper that runs inline when no thread could start; its passes are keeper steps of the run.
- HostGuardian.HostProcessGuardian.WaitForEmptyPass: does not model the clock; a timeout ends the loop with no.
- WriterSession.NativeEncryptedImageServiceSession.StopAsync: of the retirement file, models whether it was written and the observation it states.
- WriterRegistry.EncryptedWriters.Deregister: does not model key management itself, only that it removes an idle registration, which may then be registered anew.
- WriterRegistry.EncryptedWriters.Register: does not model the limit of sixteen images and the path and disk tests.
- WriterRegistry.RegistryOverRuns: sessions are values in the map, not shared objects, and session directories are fresh by assumption; disposal of the backend is not part of this model.
- TerminalProofs.TerminalOwners.Retain: does not model how a row finds its owner; the pair is the input.
- SharedSpace.ValidateSpace: does not model the parsing of volume ids and checkpoint text, nor the two amounts that must be null.
- VolumeGroups.Validate: does not model store geometry, role numbers, volume UUID uniqueness and checkpoint order, which are tests on single rows.
- BTreeLeaf.LeafRoundTrip: reads eight-byte table entries; fixed-size trees, which the format reads with four-byte entries, are only ever written without records.
- ContainerLayout.ImageStream.CreateCatalogFixture: does not model the deliberate corruptions of a fixture, names, identifiers and the contents of superblocks; a written block is an extent.
- RecoveryIdentity.BuildNamespaceMaterial: identifiers are their sixteen bytes.
- RecoveryIdentity.NameOfDigest: the digest is any byte string; nothing is claimed about SHA-256.
* Foreign-namespace classification, which is two membership tests over decoded witnesses.
* The Fusion session, the quota, rename, repair and topology
  transports, the command-line front end and the user interface: the same shapes again, or plumbing.
* The native engine, which the backend only starts and listens to, is not part of this model.

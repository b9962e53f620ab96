# cluster-pi: verified model of the control plane

cluster-pi turns Raspberry Pi boards into a k3s cluster: a netboot server boots
them over TFTP, a local disk manager prepares their disks, and an operator
promotes workers to masters. This project models the logic those three programs
depend on and proves what each of them is for.

- **Leader election** (`Lease`, `ElectionSafety`, `ElectionConvergence`,
  `LeadershipLoop`). Electors share one Kubernetes lease. At most one believes it
  leads in every run with bounded clock skew, crashes, releases and failing calls
  if and only if identities are distinct and non-empty and the renewal period plus
  twice the skew is shorter than the stored lease. A round of passes settles on one
  leader if and only if it is shorter than every lease. The worker behind the
  leadership callback runs exactly while its elector leads.
- **Promotion** (`Crd`, `Candidate`, `GfsAdmin`, `Promotion`, `PromotionSystem`).
  Over runs with arbitrarily stale listings and node copies, lost writes and crashes, at most one
  node is evacuated or reformatted at a time, a disk is committed to a master only
  after its own drain was accepted and reported complete, and an undisturbed
  promotion takes exactly max(1, c) + 6 steps for a drain of c chunks.
- **TFTP** (`TftpCodec`, `TftpStream`, `TftpTransfer`). Requests and option
  acknowledgements round-trip, the block size told to the client is the one used,
  and over a network that loses, duplicates and reorders packets the stored bytes
  always begin the file and a sender that finishes has delivered all of it, although
  block numbers wrap at 16 bits. That holds in every run if and only if no packet
  outlives one cycle of that counter or the file fills at most 65535 blocks.
- **Asset synchronisation** (`AssetSync`). A pass makes the cache agree with the
  source exactly when every difference is detectable by size or modification time.
  Runs whose edits carry later stamps keep that true through failed and killed
  passes, even ones that leave a file half copied.
- **Disks** (`Text`, `MountTable`, `Fstab`, `FstabProperties`, `Device`, `Safety`,
  `Discovery`, `Provision`, `Audit`, `DiskManager`). The fstab editor replaces
  exactly one entry and is idempotent, unique, commuting and invertible under exact
  conditions; the format guard never admits a whole disk shared with the root or
  boot file systems, misses partitions in exactly one case, and without confirmation
  formats only blank devices; running provisioning twice changes nothing the second time exactly
  when the target is absent, names the disk by path or link, or is its new UUID; every interleaving of disk operations keeps
  a write-ahead audit; dry runs only record.

The electors, promotion engine, drain client, fstab manager, asset cache and disk
manager are classes whose methods are proved equal to specification functions on
values; the theorems are about those functions and about runs built from them.
Clocks, failures of remote calls, command results and packet arrivals are
parameters, so each theorem holds for all of them.

Check the project with `dafny verify dfyconfig.toml`.

## Where the code differs from what is promised

- Mutual exclusion of leaders is not unconditional: `ShortLeaseAdmitsTwoLeaders`,
  `UnfitIdentityAdmitsTwoLeaders` and `InterleavedPassesAdmitTwoLeaders` build runs
  with two leaders. The patches carry no resource version, so two passes that
  interleave their reads and writes both win.
- Upserting into fstab is documented as idempotent. A kept line that ends in a
  carriage return loses one on each rewrite, so the bytes change again;
  `CrIsLostAgain` shows it and `UpsertIdempotentIffNoCr` gives the exact condition.
- Removing a mount point does not always undo its upsert: a foreign line with the
  mount point in its device column goes too (`RemovalTakesBindMount`);
  `RemoveUndoesUpsertIff` gives the exact condition.
- A UUID counts as a stable disk identifier (crates/cluster-common/src/device.rs:259),
  but formatting replaces it: `OldUuidIsLostAt` is a board whose rerun loses its
  target, and `RerunSkipsIff` has the exact condition.
- A cached asset whose source is replaced by equally long content with an older
  time stamp is never refreshed: `BackdatedEditIsMissed`.
- The guard compares device names by prefix, so it also protects disks whose names
  are merely prefixes of the boot disk's: `LongerNameIsRefused`, exactly as
  `WholeDiskTestExactIff` says.
- With the root file system directly on a disk such as md0, the guard alone lets a
  blank partition md0p1 through, because the parent it derives is md0p:
  `ArrayPartitionIsAdmitted`, exactly as `PartitionMatchesIff` says. Discovery offers
  it whole disks only, for which `ResolvedDiskIsNotBootDisk` holds without exception.
- A TFTP sender can finish although the receiver lacks bytes when an old
  acknowledgement outlives a counter cycle: `StaleAckLosesBytes`.
- A negotiated block size of zero is accepted and such a transfer never completes;
  `Stream` states that completion implies a positive size.

## Model

| member | source | states |
|---|---|---|
| `Lease.ExpiryInstant` | crates/cluster-common/src/election.rs:146-153 | a lease held `secs` seconds is expired exactly from (secs + 1) whole seconds after its renewal, because ages are truncated to seconds |
| `Lease.WritersOwnTheLease` | crates/cluster-common/src/election.rs:112-195 | whoever changes the lease or comes out leading is the recorded holder with that clock reading, under any call failure |
| `Lease.HeldLeaseExcludesOthers` | crates/cluster-common/src/election.rs:146-194 | before expiry no other elector's pass changes the lease or leads |
| `Lease.StaleLeaseIsTaken` | crates/cluster-common/src/election.rs:146-194 | from the expiry instant on any other elector takes the lease over |
| `Lease.ReleasedLeaseIsFree` | crates/cluster-common/src/election.rs:146-211 | a release clears only the holder, and such a lease is anybody's at once, however fresh |
| `Lease.HolderRenews` | crates/cluster-common/src/election.rs:155-170 | the recorded holder renews even an expired lease |
| `Lease.HistoryIsKept` | crates/cluster-common/src/election.rs:112-190 | a creation starts the transition count at one, a takeover adds one and is dated, a renewal keeps both |
| `Lease.MissingFieldsCountAsOld` | crates/cluster-common/src/election.rs:146-153 | a foreign lease without times is taken exactly from sixteen seconds after the epoch |
| `Lease.FailedCallsDoNotLead` | crates/cluster-common/src/election.rs:112-195 | a failing call never leads and writes only what was applied |
| `Lease.StoredSecsWraps` | crates/cluster-common/src/election.rs:160 | the stored duration is the configured one as a signed 32-bit number |
| `ElectionSafety.LeaderSurvivesPass` | crates/cluster-common/src/election.rs:56-94 | with the margin, another elector's pass at any skewed clock leaves a live leader's lease alone |
| `ElectionSafety.PassPreservesInv` | crates/cluster-common/src/election.rs:56-94 | every pass keeps the invariant that a leader's own fresh write is on the server |
| `ElectionSafety.StepPreservesInv` | crates/cluster-common/src/election.rs:56-110 | time, passes, releases and crashes all keep it |
| `ElectionSafety.RunKeepsInv` | crates/cluster-common/src/election.rs:42-110 | it holds in every state of every run |
| `ElectionSafety.ShortLeaseAdmitsTwoLeaders` | crates/cluster-common/src/election.rs:146-153 | an elector whose lease does not outlast period and skew has a run with two leaders |
| `ElectionSafety.UnfitIdentityAdmitsTwoLeaders` | crates/cluster-common/src/election.rs:146-171 | so has one with an empty or a shared identity |
| `ElectionSafety.MarginImpliesSingleLeader` | crates/cluster-common/src/election.rs:42-211 | with distinct non-empty identities and the margin no run has two leaders |
| `ElectionSafety.SingleLeaderIffMargin` | crates/cluster-common/src/election.rs:42-211 | for two or more electors, single leadership over all runs holds if and only if those conditions do |
| `ElectionConvergence.ContiguousCallsAreOnePass` | crates/cluster-common/src/election.rs:112-194 | a read directly followed by its write acts as one atomic pass |
| `ElectionConvergence.PassConverges` | crates/cluster-common/src/election.rs:112-194 | each pass of a short round leaves only the recorded holder leading among those that passed |
| `ElectionConvergence.RoundConverges` | crates/cluster-common/src/election.rs:56-94 | so does any sequence of uninterrupted passes |
| `ElectionConvergence.RoundLeavesOneLeader` | crates/cluster-common/src/election.rs:56-94 | whatever happened before, a round in which everyone passes once leaves at most one leader |
| `ElectionConvergence.AnyStateSettles` | crates/cluster-common/src/election.rs:56-194 | from any state, also with passes open, the open passes can end without a new one beginning and any round then leaves at most one leader |
| `ElectionConvergence.InterleavedPassesAdmitTwoLeaders` | crates/cluster-common/src/election.rs:112-194 | two passes whose reads precede both writes make two leaders |
| `ElectionConvergence.LongRoundAdmitsTwoLeaders` | crates/cluster-common/src/election.rs:146-153 | a round as long as a lease can end with two leaders |
| `ElectionConvergence.RoundsSettleIffShort` | crates/cluster-common/src/election.rs:56-194 | rounds settle on one leader if and only if they are shorter than every lease |
| `LeadershipLoop.LiveTokenIsInSlot` | crates/cluster-operator/src/main.rs:146-181 | without repeated notifications the only uncancelled token is the stored one, present exactly while leading |
| `LeadershipLoop.RepeatLeaksAToken` | crates/cluster-operator/src/main.rs:146-181 | a repeated "leading" notification leaves two workers running |
| `LeadershipLoop.OneWorkerIffNoRepeat` | crates/cluster-operator/src/main.rs:146-181 | never more than one worker if and only if no such repeat occurs |
| `LeadershipLoop.NotificationsAlternate` | crates/cluster-common/src/election.rs:56-94 | the elector's notifications alternate, starting with gained leadership |
| `LeadershipLoop.WorkerRunsExactlyWhileLeading` | crates/cluster-netboot/src/main.rs:184-212 | after any run exactly one worker runs while leading, none otherwise, and none after cancellation |
| `LeadershipLoop.LeaseElector.TryAcquireOrRenew` | crates/cluster-common/src/election.rs:112-195 | including a lost creation race and a failing second read, the calls give the outcome and lease of one atomic pass |
| `LeadershipLoop.LeaseElector.Adopt` | crates/cluster-common/src/election.rs:60-87 | leadership becomes the pass's outcome, an error counting as lost, and the callback hears only changes |
| `LeadershipLoop.LeaseElector.Run` | crates/cluster-common/src/election.rs:42-110 | the loop's notifications are those of its beliefs, no worker survives it, and the final lease is the last pass's, with only the holder cleared when a leader releases it and untouched otherwise |
| `LeadershipLoop.LeaseElector.Shutdown` | crates/cluster-common/src/election.rs:105-110 | a leader clears the holder and stops its worker, a follower changes nothing |
| `LeadershipLoop.ShutdownIsARelease` | crates/cluster-common/src/election.rs:42-211 | the last iteration and the shutdown are a pass and, for a leader only, a release of the timed system |
| `Candidate.SelectBestCandidate` | crates/cluster-operator/src/candidate.rs:13-59 | a worker that is Ready or Discovered with its disk not in error: Ready if any is, on GFS storage if any of that readiness is, the leftmost of those; none exactly when there is no such worker |
| `Candidate.BestIffPreferred` | crates/cluster-operator/src/candidate.rs:40-58 | the greatest score belongs to exactly that worker |
| `Candidate.StableSortHeadIsLeftmostBest` | crates/cluster-operator/src/candidate.rs:57-58 | the head of any stable descending sort of the candidates is the leftmost best node |
| `Candidate.StableSortDescending` | crates/cluster-operator/src/candidate.rs:57 | the sort is descending and keeps equal scores in order, losing and adding nothing |
| `Candidate.BestIsUnique` | crates/cluster-operator/src/candidate.rs:13-59 | being the leftmost best determines the choice |
| `GfsAdmin.MockDrainsInExactlyItsChunks` | crates/cluster-operator/src/gfs_admin.rs:118-162 | a mock drain of c chunks reports completion from poll max(1, c) on and not before |
| `GfsAdmin.MockEdgeCases` | crates/cluster-operator/src/gfs_admin.rs:118-162 | nodes marked as failing are refused, failed drains stay failed, unknown handles count as done |
| `GfsAdmin.GfsAdminClient.DrainNode` | crates/cluster-operator/src/gfs_admin.rs:118-140 | starting a drain answers and stores as specified, and the reply is logged |
| `GfsAdmin.GfsAdminClient.QueryStatus` | crates/cluster-operator/src/gfs_admin.rs:142-162 | a status query counts the drain down and logs the reply |
| `Promotion.NodeCell.EvacuateStep` | crates/cluster-operator/src/promotion_fsm.rs:72-109 | the evacuation step drains once, keeps the handle, and fails or advances as specified |
| `Promotion.NodeCell.Fail` | crates/cluster-operator/src/promotion_fsm.rs:187-211 | failing records the reason and marks the node and promotion failed |
| `Promotion.NodeCell.Step` | crates/cluster-operator/src/promotion_fsm.rs:22-160 | one engine step maps node and drain service exactly as the specification does, for every step and reply |
| `PromotionSystem.StepMakesNoBetter` | crates/cluster-operator/src/promotion_fsm.rs:22-211 | no step makes a node a better candidate, and it stops being one only by retiring |
| `PromotionSystem.OnlyTheChosenEvacuates` | crates/cluster-operator/src/promotion_fsm.rs:57-70 | a node starts evacuating only as the choice of its listing |
| `PromotionSystem.ChoiceSurvives` | crates/cluster-operator/src/candidate.rs:13-59 | the choice is stable while other nodes get no better |
| `PromotionSystem.ListingStillStands` | crates/cluster-operator/src/promotion_fsm.rs:57-70 | the choice of an old listing is still the choice or its promotion is over |
| `PromotionSystem.ActionKeepsInv` | crates/cluster-operator/src/promotion_fsm.rs:22-211 | steps on stale copies and listings, lost writes, crashes and drain-service changes keep the invariant |
| `PromotionSystem.AtMostOnePromotionInFlight` | crates/cluster-operator/src/promotion_fsm.rs:22-160 | in every run from a quiet cluster at most one node is evacuated, prepared or reformatted, however stale the listings and node copies |
| `PromotionSystem.StepStaysOrderly` | crates/cluster-operator/src/promotion_fsm.rs:72-160 | a step keeps handle and progress backed by logged replies |
| `PromotionSystem.DrainPrecedesReformat` | crates/cluster-operator/src/promotion_fsm.rs:72-160 | in every run a node becomes master or reformat-confirmed only after its own drain was accepted and then reported complete, and a failed one never did |
| `PromotionSystem.PromotionTimeline` | crates/cluster-operator/src/promotion_fsm.rs:22-160 | the exact step, node and drain state after each number of steps |
| `PromotionSystem.PromotionCompletesExactly` | crates/cluster-operator/src/promotion_fsm.rs:22-160 | completion comes exactly after max(1, c) + 6 steps, with one drain call, a Ready master on a mounted etcd disk and no failure reason |
| `PromotionSystem.DetectingFollowsQuorum` | crates/cluster-operator/src/promotion_fsm.rs:43-55 | a detecting node goes on exactly when the quorum is lost |
| `PromotionSystem.PromotionNeedsLostQuorum` | crates/cluster-operator/src/promotion_fsm.rs:43-55 | in every run a node that starts detecting has moved only if a written-back step of it saw the quorum lost |
| `PromotionSystem.LostQuorumBeginsPromotion` | crates/cluster-operator/src/promotion_fsm.rs:43-55 | and such a step does move it |
| `PromotionSystem.SelectionFollowsPreference` | crates/cluster-operator/src/promotion_fsm.rs:57-70 | a selecting node evacuates exactly when it is the listing's preferred worker |
| `PromotionSystem.NoCandidateFails` | crates/cluster-operator/src/promotion_fsm.rs:65-69 | without a promotable worker the selection fails |
| `PromotionSystem.EvacuationFollowsReplies` | crates/cluster-operator/src/promotion_fsm.rs:72-109 | which calls an evacuation step makes, and that it goes where the last reply says |
| `PromotionSystem.FailureIsRecorded` | crates/cluster-operator/src/promotion_fsm.rs:187-211 | a failing step records a reason and the failed phase and leaves role and confirmation alone |
| `PromotionSystem.FailureHasACause` | crates/cluster-operator/src/promotion_fsm.rs:57-109 | in every run a promotion fails only at a step with nobody to promote or a bad reply |
| `PromotionSystem.StepsInOrder` | crates/cluster-operator/src/promotion_fsm.rs:22-160 | a step stays, goes to the next of the ten or fails, in order; finished promotions stay; the record keeps candidate and attempts |
| `PromotionSystem.CompleteNodesServe` | crates/cluster-operator/src/promotion_fsm.rs:134-150 | verification and every later step leave the node ready with etcd on its disk |
| `TftpCodec.ParseRrq` | crates/cluster-netboot/src/tftp.rs:206-234 | the byte loop computes the specified request or the malformed-payload error |
| `TftpCodec.PartsInvertTerminated` | crates/cluster-netboot/src/tftp.rs:206-218 | splitting at NUL inverts NUL-terminated joining and drops an unterminated tail |
| `TftpCodec.CollectLastWins` | crates/cluster-netboot/src/tftp.rs:224-231 | the options are exactly the lower-cased keys, each with its last value |
| `TftpCodec.RequestRoundTrip` | crates/cluster-netboot/src/tftp.rs:206-234 | parsing an encoded request gives back its name, lower-case mode and options, whatever unterminated bytes follow |
| `TftpCodec.DecimalRoundTrip` | crates/cluster-netboot/src/tftp.rs:112-116 | a machine-word number survives printing and parsing |
| `TftpCodec.BuildOack` | crates/cluster-netboot/src/tftp.rs:253-263 | the acknowledgement is the opcode and the NUL-terminated pairs in the map's iteration order |
| `TftpCodec.OackRoundTrip` | crates/cluster-netboot/src/tftp.rs:253-263 | a client decodes the acknowledgement to the same options in every iteration order |
| `TftpCodec.NegotiatedBlockSize` | crates/cluster-netboot/src/tftp.rs:112-134 | the block size the client reads is the one the server uses, at most 1428 and at most the requested one |
| `TftpCodec.BlockSizeExact` | crates/cluster-netboot/src/tftp.rs:112-116 | the requested size up to 1428, and 512 when none or no number was requested |
| `TftpCodec.ToldWhatWasAsked` | crates/cluster-netboot/src/tftp.rs:123-134 | the client is told exactly the options it asked for, the block size in use and the file's length |
| `TftpCodec.NumberForms` | crates/cluster-netboot/src/tftp.rs:114 | a plus sign is accepted; other bytes, emptiness and overflow are not numbers |
| `TftpCodec.LowerLetters` | crates/cluster-netboot/src/tftp.rs:224-231 | lower-casing letter by letter |
| `TftpStream.WireInjective` | crates/cluster-netboot/src/tftp.rs:165 | block indices less than one counter cycle apart have different wire numbers |
| `TftpStream.CoveredExactly` | crates/cluster-netboot/src/tftp.rs:144-146 | k reads cover k full blocks until the file is exhausted |
| `TftpStream.BlockLength` | crates/cluster-netboot/src/tftp.rs:167-170 | exactly the last of L / B + 1 blocks is shorter than the block size |
| `TftpStream.BlocksMakeTheFile` | crates/cluster-netboot/src/tftp.rs:142-171 | those blocks concatenate to the file, also when its length is a multiple of the block size |
| `TftpStream.BuildDataPacket` | crates/cluster-netboot/src/tftp.rs:236-242 | the header decodes to opcode and block number and the rest is the payload |
| `TftpStream.WaitForAck` | crates/cluster-netboot/src/tftp.rs:178-201 | true exactly when an acknowledgement of that block from that peer arrives in time; the first one ends the wait |
| `TftpStream.AckOnTheWire` | crates/cluster-netboot/src/tftp.rs:190-196 | an acknowledgement is a datagram of the peer that begins with bytes 0, 4 and the block number, high byte first |
| `TftpStream.SendBlock` | crates/cluster-netboot/src/tftp.rs:148-158 | up to five copies, timeouts between them, ended by an acknowledgement, a failing send or the fifth timeout |
| `TftpStream.Stream` | crates/cluster-netboot/src/tftp.rs:142-171 | the packets sent are exactly blocks 1, 2, ... in order, each up to five times; completion means all of them and the whole file, and happens if and only if the last is acknowledged; a fully acknowledged transfer sends each block once |
| `TftpTransfer.AckIsForThisBlock` | crates/cluster-netboot/src/tftp.rs:178-201 | a matching wire number means the sender's own block, already stored, or comes when all bytes are stored |
| `TftpTransfer.DataIsTheNextBlock` | crates/cluster-netboot/src/tftp.rs:142-171 | a matching wire number means the block the receiver expects |
| `TftpTransfer.StepPreservesInv` | crates/cluster-netboot/src/tftp.rs:121-171 | every send, timeout, socket error, loss, duplicate and reordering keeps both ends in step |
| `TftpTransfer.DeliveryIsFaithful` | crates/cluster-netboot/src/tftp.rs:121-171 | in every run the stored bytes are a prefix of the file, and all of it once either side is done, within five sends a block |
| `TftpTransfer.ReachBlock` | crates/cluster-netboot/src/tftp.rs:142-171 | every block is reached by some run |
| `TftpTransfer.StaleBlockCorrupts` | crates/cluster-netboot/src/tftp.rs:165 | a first block that outlives a counter cycle can corrupt the stored file |
| `TftpTransfer.StaleAckLosesBytes` | crates/cluster-netboot/src/tftp.rs:165 | outside that condition some run finishes with bytes missing, the acknowledgement of the options serving at block 65536 |
| `TftpTransfer.FaithfulIff` | crates/cluster-netboot/src/tftp.rs:142-171 | for every file, that the stored bytes always begin it and a finished sender has delivered it all holds over all runs if and only if packets live at most 65536 blocks or the file fills at most 65535 |
| `TftpTransfer.StreamIsARun` | crates/cluster-netboot/src/tftp.rs:142-171 | every way the stream loop can end is the sender's part of some run: same packets, same last block, same success |
| `TftpTransfer.OptionsAreOfferedOnce` | crates/cluster-netboot/src/tftp.rs:121-140 | in every run the option acknowledgement goes out at most once |
| `AssetSync.PassAgreesIffDetectable` | crates/cluster-netboot/src/asset_sync.rs:66-106 | after a pass every source file is in the cache with its content if and only if each differing cached file was shorter, longer or older |
| `AssetSync.PassLeavesUpToDateIff` | crates/cluster-netboot/src/asset_sync.rs:66-106 | a pass leaves nothing the next pass would copy if and only if its clock is not behind a file it copied |
| `AssetSync.UpToDateIsFixed` | crates/cluster-netboot/src/asset_sync.rs:80-101 | an up-to-date cache is a fixed point of a pass |
| `AssetSync.PassKeepsCacheOnly` | crates/cluster-netboot/src/asset_sync.rs:71-105 | entries only the cache has stay as they are at every depth |
| `AssetSync.CopyRecursive` | crates/cluster-netboot/src/asset_sync.rs:66-106 | in any directory order the copy computes the specified tree, counts copies, and fails exactly on a clash of kinds, then leaving a cut-off pass |
| `AssetSync.Cache.SyncOnce` | crates/cluster-netboot/src/asset_sync.rs:51-64 | an absent source changes nothing, a source or cache path that is no directory is an error, otherwise the cache becomes the synchronised tree, holding every source file at its path exactly when every difference showed, or a cut-off pass |
| `AssetSync.CutOffStaysDetectable` | crates/cluster-netboot/src/asset_sync.rs:66-106 | a pass ended by an error or a crash at any point, also inside a copy, leaves every difference detectable |
| `AssetSync.CutOffKeepsCacheOnly` | crates/cluster-netboot/src/asset_sync.rs:66-106 | and keeps entries only the cache has |
| `AssetSync.EditStaysDetectable` | crates/cluster-netboot/src/asset_sync.rs:80-92 | an edit stamped later than the cache's latest stamp stays detectable |
| `AssetSync.EveryPassAgrees` | crates/cluster-netboot/src/asset_sync.rs:27-48 | in every run of such edits, failed and killed passes included and from any cache with detectable differences, each successful pass agrees with its source, and is a no-op when repeated if and only if its clock was not behind a file it copied |
| `AssetSync.EveryPassKeepsCacheOnly` | crates/cluster-netboot/src/asset_sync.rs:27-48 | however a pass of a run ends, entries only the cache has stay as they are |
| `AssetSync.PassBringsEveryFileIff` | crates/cluster-netboot/src/asset_sync.rs:66-106 | path by path at every depth: after a pass every source file is in the cache with its content if and only if each cached file there was of another length, older or equal |
| `AssetSync.EveryPassBringsEveryFile` | crates/cluster-netboot/src/asset_sync.rs:27-106 | in every run a successful pass leaves every source file in the cache at its path |
| `AssetSync.EveryPassKeepsToTheSource` | crates/cluster-netboot/src/asset_sync.rs:66-106 | in every run, however a pass ends, paths the source does not have keep what they had and get nothing new |
| `AssetSync.SameKindsIffEverythingFits` | crates/cluster-netboot/src/asset_sync.rs:67-100 | a pass succeeds exactly when every file and directory of the source fits at its path |
| `AssetSync.BackdatedEditIsMissed` | crates/cluster-netboot/src/asset_sync.rs:80-92 | equally long content with an older stamp is not copied |
| `MountTable.ParseLines` | crates/cluster-common/src/device.rs:27-58 | all entries of all lines, or the number and text of the first line with one or two columns |
| `MountTable.ParseFailsIff` | crates/cluster-common/src/device.rs:36-43 | parsing fails exactly on a line of one or two columns |
| `MountTable.LineEntry` | crates/cluster-common/src/device.rs:44-54 | an entry is the first three columns and the parts of the fourth |
| `MountTable.FindByMountPoint` | crates/cluster-common/src/device.rs:76-78 | an entry at the mount point, none exactly when there is none |
| `MountTable.FindsTheFirst` | crates/cluster-common/src/device.rs:76-78 | the entry found is the first one at that mount point |
| `MountTable.BootDevices` | crates/cluster-common/src/device.rs:86-92 | exactly the devices mounted at /boot and /boot/firmware |
| `Text.LinesOfUnlines` | crates/cluster-ldm/src/fstab.rs:49-78 | writing lines and reading them back loses only a carriage return at a line's end |
| `Text.CommentsHaveNoColumns` | crates/cluster-ldm/src/fstab.rs:50-54 | blank lines and comments, indented or not, have no columns |
| `Fstab.RewriteLines` | crates/cluster-ldm/src/fstab.rs:46-76 | the loop computes the specified rewrite |
| `Fstab.FstabManager.UpsertEntry` | crates/cluster-ldm/src/fstab.rs:23-83 | the file becomes the upserted text, also when it was missing |
| `Fstab.FstabManager.RemoveEntry` | crates/cluster-ldm/src/fstab.rs:86-122 | the file becomes the text without the key, a missing file stays missing |
| `Fstab.PrintedColumns` | crates/cluster-ldm/src/fstab.rs:30-33 | a printed entry reads back as its six columns |
| `FstabProperties.RewriteShape` | crates/cluster-ldm/src/fstab.rs:46-76 | the result is the foreign lines in their order with the new line once among them |
| `FstabProperties.ReplacesInPlace` | crates/cluster-ldm/src/fstab.rs:61-76 | the new line stands where the first line of the entry stood, or at the end |
| `FstabProperties.CommentsAreKept` | crates/cluster-ldm/src/fstab.rs:49-115 | blank lines and comments survive upserts and removals |
| `FstabProperties.UpsertReplacesExactlyTheEntry` | crates/cluster-ldm/src/fstab.rs:23-83 | afterwards exactly one line is for the UUID or mount point, and the others are as before |
| `FstabProperties.UpsertIdempotentIffNoCr` | crates/cluster-ldm/src/fstab.rs:21-83 | a second upsert leaves the bytes alone if and only if no kept line ends in a carriage return |
| `FstabProperties.CrIsLostAgain` | crates/cluster-ldm/src/fstab.rs:49-78 | a file holding a line that ends in a carriage return is changed again by a second upsert |
| `FstabProperties.UpsertKeepsEntriesUnique` | crates/cluster-ldm/src/fstab.rs:21-83 | a file without clashing mount points or UUIDs keeps having none |
| `FstabProperties.UpsertsCommute` | crates/cluster-ldm/src/fstab.rs:23-83 | upserts of entries differing in UUID and mount point give the same lines in either order |
| `FstabProperties.UpsertThenParse` | crates/cluster-ldm/src/fstab.rs:23-83 | the written file parses exactly when the kept lines do, and looking up the mount point finds the new entry |
| `FstabProperties.UpsertThenRemove` | crates/cluster-ldm/src/fstab.rs:86-122 | removing by mount point after an upsert leaves the foreign lines the key does not name |
| `FstabProperties.RemoveUndoesUpsertIff` | crates/cluster-ldm/src/fstab.rs:86-122 | removal undoes an upsert if and only if no foreign line has the mount point as its device or UUID |
| `FstabProperties.RemovalTakesBindMount` | crates/cluster-ldm/src/fstab.rs:107-112 | upserting and removing /m also removes a line that mounts /m elsewhere |
| `Device.FromSysfs` | crates/cluster-common/src/device.rs:191-203 | a device's mount points are exactly those of the entries for its path, name or links |
| `Device.MountedBy` | crates/cluster-common/src/device.rs:191-203 | an entry is a disk's exactly by its path, a path ending in its name, or a link |
| `Device.NamedByLink` | crates/cluster-common/src/device.rs:260-280 | a disk is named by its path, a link and the link's bare name |
| `Device.ParentIsProperPrefix` | crates/cluster-common/src/device.rs:319-336 | a derived parent name is a non-empty proper prefix |
| `Device.DevPathComponents` | crates/cluster-common/src/safety.rs:128-175 | the path of a device name has that name as its file name |
| `Safety.CrossReferenceSubsumed` | crates/cluster-common/src/safety.rs:128-175 | for scanned devices the cross-reference adds nothing to the name test |
| `Safety.DecisionIgnoresListing` | crates/cluster-common/src/safety.rs:37-125 | the guard's decision is the same for every listing of scanned devices |
| `Safety.RelatedDevicesMatch` | crates/cluster-common/src/safety.rs:128-175 | under the kernel's naming of partitions, the mounted device, its disk, its partitions and its siblings all match, except a partition of a whole mounted disk that ends in a digit and is neither mmcblk nor nvme |
| `Safety.DerivedParent` | crates/cluster-common/src/device.rs:319-336 | the derived parent is a prefix of the partition's disk, or the disk and a trailing p in the excepted case |
| `Safety.PartitionMatchesIff` | crates/cluster-common/src/safety.rs:128-175 | a partition of a mounted whole disk matches if and only if the disk ends in a non-digit or is mmcblk or nvme |
| `Safety.ArrayPartitionIsAdmitted` | crates/cluster-common/src/safety.rs:37-125 | a blank md0p1 passes the guard on a system whose root is md0 |
| `Safety.MatchIsNamePrefix` | crates/cluster-common/src/safety.rs:128-175 | apart from by-id links, a match is exactly a name prefix |
| `Safety.LongerNameIsRefused` | crates/cluster-common/src/safety.rs:152-155 | sda is refused on a system booted from sdaa2 though they share no disk |
| `Safety.WholeDiskTestExactIff` | crates/cluster-common/src/safety.rs:128-175 | for a whole disk the test agrees with sharing a disk if and only if its name is no proper prefix of the mounted name or names its partition |
| `Safety.BootDiskExcluded` | crates/cluster-common/src/safety.rs:37-125 | whatever the guard lets through shares no disk with root or any boot mount: for whole disks without exception, for partitions with the one above |
| `Safety.NoRootNoFormat` | crates/cluster-common/src/safety.rs:67-72 | without a root entry nothing is let through |
| `Safety.UnconfirmedNeedsBlank` | crates/cluster-common/src/safety.rs:116-122 | without confirmation only a device with no file system and no UUID is formatted |
| `Safety.GuardDecides` | crates/cluster-common/src/safety.rs:87-125 | beyond the boot check: storage in place is skipped, mounted devices are refused to idle roles, the rest is formatted if and only if blank or confirmed |
| `Safety.BootMediaAreRefused` | crates/cluster-common/src/safety.rs:7-54 | card slots and virtual devices are refused by name |
| `Safety.OwnPathsAreRefused` | crates/cluster-common/src/safety.rs:128-145 | so is a device that root or boot is mounted from by its path or a link |
| `Discovery.ScanEligibleDevices` | crates/cluster-ldm/src/discover.rs:12-43 | exactly the whole non-virtual disks the guard admits, in order |
| `Discovery.ResolveTargetDisk` | crates/cluster-ldm/src/discover.rs:46-87 | the first eligible disk the target names, or the only eligible one; not found and ambiguous otherwise |
| `Discovery.ResolvedDiskIsNotBootDisk` | crates/cluster-ldm/src/discover.rs:20-87 | the disk discovery settles on shares no disk with root or any boot mount |
| `Discovery.ResolvedByName` | crates/cluster-ldm/src/discover.rs:56-61 | with a target the lowest eligible disk it names is chosen |
| `Discovery.UnresolvedName` | crates/cluster-ldm/src/discover.rs:56-66 | and none is not found |
| `Discovery.ResolvedWithoutName` | crates/cluster-ldm/src/discover.rs:68-71 | without a target the only eligible disk is chosen |
| `Discovery.NothingToResolve` | crates/cluster-ldm/src/discover.rs:73-76 | none is not found |
| `Discovery.AmbiguousWithoutName` | crates/cluster-ldm/src/discover.rs:77-86 | two are ambiguous |
| `Provision.MountConfigMeetsGuard` | crates/cluster-ldm/src/mount.rs:32-41 | the mount destination is the one the guard recognises, and is neither root nor boot |
| `Provision.OtherDisksKeepDecision` | crates/cluster-common/src/safety.rs:37-125 | provisioning one disk leaves the guard's decision on every other disk alone |
| `Provision.OwnDiskIsSkipped` | crates/cluster-common/src/safety.rs:87-114 | the provisioned disk is recognised and skipped, confirmed or not |
| `Provision.SecondRunResolves` | crates/cluster-ldm/src/discover.rs:46-87 | a second run resolves to the same disk exactly when the target still names it |
| `Provision.RerunSkipsIff` | crates/cluster-ldm/src/main.rs:179-241 | a rerun skips the provisioned disk if and only if the target is absent, names it by path or by-id link, or is the new UUID |
| `Provision.RerunIsIdempotent` | crates/cluster-ldm/src/main.rs:179-241 | for absent targets, device paths and by-id links the rerun always skips |
| `Provision.SoleDiskIsProvisioned` | crates/cluster-ldm/src/main.rs:185-206 | a board's only disk, unmounted and not the boot disk, is chosen and formatted if the target is absent or names it and it is blank or confirmed |
| `Provision.CardBootedIsProvisioned` | crates/cluster-ldm/src/main.rs:185-206 | a board booted from its card with one blank sda is such a machine |
| `Provision.OldUuidIsLost` | crates/cluster-common/src/device.rs:267-271 | a target that named the disk by its old UUID is lost |
| `Provision.OldUuidIsLostAt` | crates/cluster-common/src/device.rs:267-271 | a board with one used disk, provisioned by its UUID, is one |
| `Audit.OperationPrefixBounded` | crates/cluster-ldm/src/format.rs:21-131 | wherever an operation is cut off, outcome records do not outnumber commands nor commands write-ahead records |
| `Audit.RecordComesFirst` | crates/cluster-ldm/src/mount.rs:44-174 | the write-ahead record precedes every other effect, and a dry run has no other |
| `Audit.AuditIsWriteAhead` | crates/cluster-common/src/audit.rs:157-186 | over any interleaving of any operations, cut off anywhere, per device and action: outcomes are at most the commands, which are at most the write-ahead records |
| `Audit.DryRunsMutateNothing` | crates/cluster-ldm/src/format.rs:48-55 | in any interleaving a dry-run operation contributes only records |
| `Audit.FormatIsRecorded` | crates/cluster-ldm/src/format.rs:84-131 | a format that reaches mkfs records how it ended, once and last |
| `Audit.MountIsRecorded` | crates/cluster-ldm/src/mount.rs:92-131 | so does a mount that succeeds or whose command fails |
| `Audit.UnmountIsRecorded` | crates/cluster-ldm/src/mount.rs:150-174 | and an unmount that succeeds |
| `Audit.FailedRecordStops` | crates/cluster-ldm/src/format.rs:46 | a write-ahead record that reports failure stops the operation before any change |
| `Audit.FailedPreparationStops` | crates/cluster-ldm/src/format.rs:62-66 | a failing preparation stops it before the command |
| `DiskManager.DiskManager.FormatDevice` | crates/cluster-ldm/src/format.rs:21-131 | result, machine and effects under every combination of audit, preparation and command failures |
| `DiskManager.DiskManager.MountRoleStorage` | crates/cluster-ldm/src/mount.rs:44-131 | result, mounts, fstab and effects under every failure |
| `DiskManager.DiskManager.UnmountPath` | crates/cluster-ldm/src/mount.rs:134-174 | result, mounts, fstab and effects, the fstab result being ignored |
| `DiskManager.DryRunOnlyRecords` | crates/cluster-ldm/src/format.rs:48-55 | a dry run leaves machine and fstab alone and writes only write-ahead records |
| `DiskManager.DiskManager.RunProvision` | crates/cluster-ldm/src/main.rs:149-244 | the whole resulting state: unchanged for idle roles, refusals and skips, otherwise formatted and mounted as far as the failures allow; and an unconfirmed run leaves every disk with a file system or UUID as it was |
| `DiskManager.DiskManager.TwoBoots` | crates/cluster-ldm/src/main.rs:149-244 | after a successful run, a second one succeeds and changes nothing, for absent or stable targets |
| `DiskManager.SuccessIsRecorded` | crates/cluster-ldm/src/format.rs:112-131 | reported successes have exactly one write-ahead record, command and outcome in the log |
| `DiskManager.UnmountUndoesMount` | crates/cluster-ldm/src/mount.rs:150-162 | unmounting what was mounted last restores the mounts |
| `DiskManager.NextBootFindsStorage` | crates/cluster-ldm/src/mount.rs:32-131 | after a successful run the parsed fstab has the reported UUID at the role's mount point with the role's options |

## Left out

- DHCP, HTTP, cloud-init, the disk manager's socket interface and the etcd client: each translates one message into one call or one template and keeps no state that the properties here depend on. etcd health is a boolean answered by the environment.
- The reconcile drivers and their termination: the driver steps a clone of each node (crates/cluster-operator/src/reconcile.rs:155-156) and drops it; runs here write a step back if the node is unchanged since it was copied, as a versioned update would, or lose it.
- Status time stamps, heartbeats and the remaining fields of the node resource.
- The real drain service: its replies are an arbitrary script.
- Deletion of the lease object, its transition counter's 32-bit overflow and other writers of the lease.
- ElectionSafety.SingleLeaderIffMargin: passes are atomic there, because the patches are unconditional and `InterleavedPassesAdmitTwoLeaders` shows that no margin helps once reads and writes interleave.
- TftpCodec.ParseRrq: text is ASCII bytes, as for `RequestRoundTrip`.
- TftpCodec.RequestRoundTrip: text is ASCII bytes; lossy UTF-8 decoding and Unicode lower-casing are not modelled.
- TftpStream.Stream: a read fills its buffer unless the file ends, and read errors of the file are not modelled.
- TftpTransfer.FaithfulIff: is about positive block sizes; a size of zero never completes.
- Path resolution of requested files and the TFTP error replies.
- AssetSync.CopyRecursive: a source file where the cache has a directory is always an error, where the code first compares the directory's own length and time and may then leave it; permissions and links are not modelled.
- A failing or torn write of fstab leaves the old text in the model.
- DiskManager.DiskManager.FormatDevice: what a failing mkfs leaves on the disk is the environment's choice, and the drop-in file is one side effect.
- DiskManager.DiskManager.MountRoleStorage: `mount` by the reported UUID reaches the formatted disk; live mount options are the environment's.
- DiskManager.DiskManager.TwoBoots: assumes distinct ordinary device names and no by-id link equal to another disk's path, as the kernel provides, and a target naming disks by path or link; `RerunSkipsIff` has the exact condition for other targets.
- Safety.BootDiskExcluded: mounts whose device is not of the form /dev/NAME (a label or a mapper path) are related only by path and link equality, as in the code.
- Device.ParentIsProperPrefix: digits are ASCII digits.
- Discovery.ScanEligibleDevices: the scan's sort by name is the order of the input; size, label and model of a disk are not modelled.
- PromotionSystem.AtMostOnePromotionInFlight: a write-back over a node that changed meanwhile is not modelled, because the driver writes nothing back.
- Reading the role file, /proc/mounts, sysfs and by-id links: their contents are parameters.
- JSON encoding of audit entries and the reader of the audit log.

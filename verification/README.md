# A verification of frankenstein-llm

This project models the parts of frankenstein-llm where a mistake would not show in a test, and
proves what they are for: where a model is placed, whether an artifact is what the manifest says,
who may write while it is being looked at, what survives a power loss, and whether an old
qualification may be used again. `dafny verify dfyconfig.toml` checks everything.

The models:

- `Placement*` is the GPU placement solver (scripts/gpu_placement.py). Shares chosen by an ordered
  policy are rounded by largest remainder, rescued, repaired unit by unit, reduced, projected back
  to bytes and charged with a pinned projector. The question throughout is whether the integers
  that are printed still mean what the policy chose.
- `HostileHost`, `VerifyFile` and `VerifyRun` are the artifact verifier on a filesystem where
  outside processes may write, rename and unlink between any two system calls and inside a read.
- `LockProtocol` is the writer-lock protocol as a state machine over any number of verifiers and
  writers, with crashes at any step and lock files swapped from outside.
- `CrashDisk` is a filesystem with a volatile and a durable layer: until a file or its directory
  has been flushed, a power loss may leave any bytes in the file and any recent binding of a name,
  each on its own. `Downloader` is the resumable downloader on it, over whole histories of boots;
  `AtomicReport` is the publication of a report.
- `DownloadQueue`, `QueueKeys` and `DownloadService` are the queue state that futures update in any
  order, what repeated artifact keys do to it, and the service that runs the queues one after another;
  `DownloadCrew` is the workers of a queue as a state machine on one disk, and `DownloadProgress` what
  they can get done.
- `Receipts` and `ReceiptProtocol` are the qualification receipt cache, against the plain
  specification of what the last real attempt said.
- `Fields`, `Manifest` and `Inventory` are the rules for manifest and inventory entries, and
  `SharedLocks` is what an inventory must be for a run over it to get its locks.
- `FloatSums` and `Int8Gemm` are the tiled INT8 matrix product, with FP32 additions in any order
  and any rounding of the inexact.
- `GgufFormat`, `GgufReader`, `GgufInspector` and `GgufLimits` are the two GGUF header readers and
  exactly what separates them.
- `SmartResize` is the image geometry, `CredentialScan` the streaming scan with its overlap,
  `ProofLayout` the migration of proof directories.

Code that changes things step by step is a method or a class here, proved against a specification
function; the properties are then lemmas about that function or invariants over every run.

## Assumptions

- A file that is new or has changed shows an identity (device, inode, size and both times) that no file
  ever showed before. It follows that different contents never share an identity; but a file that
  goes back to earlier bytes must not get its earlier identity back either, and
  `HostileHost.ReturningIdentityFoolsTheReader` shows why.
- A lock file is not unlinked or replaced while a process holds it, nor between the moment a Python
  writer opens it and the moment it locks it. `LockProtocol.CarelessSwapBreaksExclusion` shows
  that the second half is needed, because the Python writers do not look at the path again.
- Placement and resize arithmetic is over exact reals; a square root is a given positive number that
  satisfies its equation. The INT8 product is the one place where floating point is modelled.
- Python dictionaries of devices are maps, and the rows name each device once. The scale has more units
  than there are devices and a model has at least one byte, unless a lemma says otherwise.
- The directory that holds a destination or a report is itself there durably. The sources create missing
  parents and flush only the last directory, so a directory that is new can still be lost.
- SHA-256 is any function from bytes to digests. No property needs it to be injective: a verified
  verdict means the recorded digest, nothing more.
- The network, curl, aria2c, the clock, the gates and every system call are parameters: a script of
  answers, failures and power losses that the theorems quantify over.
- Receipts of different gates or models have different files and locks, so one is enough for the
  protocol.
- A moved proof is a whole file or subtree without relative links of its own.
- The transports of a writer end with it. A curl or aria2c that outlives its writer could go on writing
  its file without the lock, even once the file has been promoted.

## Findings

Where a promise is not met by the code as it stands, there is an example and, where there is one,
the exact condition.

- A turn of the repair loop can raise the total overflow. It lowers it exactly when a unit is smaller
  than the gap between donor and receiver (scripts/gpu_placement.py:297-312,
  `PlacementConvergence.RepairStepOverflow`).
- A model of zero bytes engages the first `split_scale` devices, so every device once the scale has a
  unit for each, the fallback included (scripts/gpu_placement.py:273-313,
  `PlacementPrinted.EmptyRequestUsesFirstDevices`).
- A policy may list a device twice, and then its headroom counts twice and its share is written once
  (scripts/gpu_placement.py:410-455). The printed split still carries the whole model, because the
  rounding takes the shares in proportion, but a device can be planned past its headroom and the
  second rule can use a device it gave nothing (`PlacementPrinted.RepeatedDeviceBreaksTheRule`). The
  plan is inside every headroom exactly when a check on the lists and sizes holds: the preferred
  devices, each counted once, hold the model under the second rule; under the last one no device
  with headroom is repeated, or the fallback, each counted once, holds the model by itself when the
  preferred devices have no room (`PlacementRepeats.PlanWithinIff`).
- `download` returns normally for a destination it finds valid without flushing the directory
  (verification/local-coverage-foundation/download_queue.py:197-204), so a file reported complete can be
  gone after a power loss. A normal return is durable exactly when the destination was not valid
  before, or was valid and flushed, bytes and name (`Downloader.Download`,
  `Downloader.VerifiedDestinationCanVanish`).
- `write_atomic` says that a failure leaves the previous file as it was. The target is replaced exactly
  when every step up to the rename works, and then a failing flush of the directory is reported as a
  failure with the new report in place (rust/src/report.rs:83-85, `AtomicReport.WriteAtomic`,
  `AtomicReport.FailsAndReplaces`).
- Two manifests in one directory that differ only in their extension share one lock file
  (rust/src/downloads.rs:38-40). An inventory with both is accepted, and then every run over it refuses
  itself; without such a pair a run that nobody disturbs gets its locks
  (`SharedLocks.InventoryCanBeVerifiedIff`, `SharedLocks.ClashingInventoryIsAccepted`).
- `prepare_jobs` does not check artifact keys
  (verification/local-coverage-foundation/download_queue.py:278-287). The status of a repeated key comes out
  right exactly when the last artifact with it lists as many files as all with it together;
  otherwise a failure can be forgotten or a full success never counts (`QueueKeys.QueuePromiseIff`).
  An artifact without files stays `running` (`DownloadQueue.FinalRecord`).
- Distinct destinations do not by themselves keep the workers of a queue apart: a queue that lists a file
  and the same name with `.partial` is accepted
  (verification/local-coverage-foundation/download_queue.py:288-301). Two downloads share a name exactly when
  one's destination is a name the other may write (`DownloadQueue.WritesOverlapIff`). Then a file that was
  checked and flushed can be replaced before it is promoted, and its destination ends with the bytes
  of another (`DownloadCrew.OverlapBreaksThePromise`); without such a pair every promise is kept
  (`DownloadCrew.EveryRunKeepsEveryPromise`).
- The budgets of `smart_resize` hold because they are wide
  (verification/computer-use-grounding/culib.py:77-84). With a budget of 50 blocks an image at exactly
  200:1 comes out twice too large by shrinking, and with a narrow band between the two bounds a small
  one by growing. The exact check on the input, for all branches, is `SmartResize.ResizeWithinIff`.
- The credential scan can refuse a file without a match in it
  (verification/prompt-corpus-admission/admit_corpus.py:176-188), because a window that begins behind a letter
  does not see it: a file is refused exactly when a stretch from 512 bytes before a multiple of
  1 MiB to the next one has a match (`CredentialScan.FullReadsRefuseIff`), and the same text one
  space further on is admitted (`CredentialScan.RefusalDependsOnAlignment`). Any way of reading agrees
  with a search of the whole exactly when the whole has a match or no piece of it looks like one
  (`CredentialScan.RefusalDependsOnCuttingIff`). Admission never lets a match through
  (`CredentialScan.NoMatchIsMissed`).
- The layout migration promises to overwrite no destination. It stops a directory entry at a dangling
  link in the proofs, but a loose proof replaces one (scripts/proof_layout.py:45-72,
  `ProofLayout.ReplacesDanglingLink`). A run that is done has left every entry under the proofs as it
  was exactly when no loose proof had one at its place (`ProofLayout.Disk.Prepare`).
- A file in the way of a pending move is found only after the directories before it have been moved
  (scripts/proof_layout.py:73-81). Nothing is lost then, but the run fails half way; it does so exactly
  when the plan is safe and such a file exists (`ProofLayout.Disk.Prepare`,
  `ProofLayout.FailsHalfWay`).

## Model

| member | source | states |
|---|---|---|
| PlacementRounding.Round | scripts/gpu_placement.py:316-326 | The in-place loop returns exactly the specified largest-remainder weights |
| PlacementRounding.RoundedMeaning | scripts/gpu_placement.py:316-326 | For shares with a positive total: the weights sum to the scale, each is strictly within one unit of its exact quota, and a device without a share gets no unit |
| PlacementRounding.RoundedFavoursRemainders | scripts/gpu_placement.py:321-325 | A device that got an extra unit is never behind, by remainder and then by share, a device that was refused one |
| PlacementRounding.RemaindersAreTheLack | scripts/gpu_placement.py:319-321 | The units left after the floors are exactly the sum of the remainders, so the slice that hands them out never runs short of devices |
| PlacementRepair.RescueTakes | scripts/gpu_placement.py:284-289 | For each device in turn: if it has a share and no unit it gets one, from the first of the devices with most units, if that has one to spare; else nothing changes |
| PlacementRepair.RescuedMeaning | scripts/gpu_placement.py:284-289 | The rescue pass conserves the scale, lowers no weight to zero, and with more units than devices leaves every device that has a share at least one unit |
| PlacementRepair.RepairStepMeaning | scripts/gpu_placement.py:297-312 | A turn moves one unit from the first of the devices furthest over budget to the first of those with most room, among the working ones if any has room, and conserves the scale |
| PlacementRepair.RepairStops | scripts/gpu_placement.py:297-309 | The loop breaks only when nothing is over budget or nothing else is under budget |
| PlacementRepair.CapMeaning | scripts/gpu_placement.py:291-295 | How many whole units fit a budget: the byte comparison of the code is a comparison with that number |
| PlacementConvergence.RepairStepOverflow | scripts/gpu_placement.py:297-312 | A turn lowers, keeps or raises the total overflow exactly as a unit is smaller than, equal to or larger than the gap between donor and receiver |
| PlacementConvergence.RepairStepCanRaiseOverflow | scripts/gpu_placement.py:297-312 | A concrete turn that raises the total overflow from 1 byte to 3 |
| PlacementConvergence.RepairReachesFit | scripts/gpu_placement.py:297-312 | When a whole-unit split over the working devices exists, the loop reaches a fitting one, in as many turns as there are units past a cap, and wakes no idle device |
| PlacementConvergence.RepairFitsIff | scripts/gpu_placement.py:291-313 | Run for `scale` turns, the loop ends in a fitting split over the devices it started with if and only if a whole-unit split over them exists |
| PlacementConvergence.RepairedConserves | scripts/gpu_placement.py:297-312 | The loop conserves the sum of the weights |
| PlacementConvergence.FittingSplitIsKept | scripts/gpu_placement.py:297-300 | A split that already fits is not touched |
| PlacementGcd.ReducedIsProportional | scripts/gpu_placement.py:254-259 | Reducing divides every weight, and the total, by one common positive factor |
| PlacementGcd.ReducedIsCanonical | scripts/gpu_placement.py:254-259 | Two splits that differ only by a factor reduce to the same list |
| PlacementSplit.Integerise | scripts/gpu_placement.py:262-313 | The loops of `_integerise` compute the specified rounding, rescue, repair and reduction |
| PlacementSplit.SimplestSplit | scripts/gpu_placement.py:329-352 | The search loop computes the specified coarsest good split |
| PlacementSplit.ChosenScaleIsCoarsest | scripts/gpu_placement.py:343-352 | The scale taken keeps work on exactly the devices with a share and every part within its headroom, every coarser one does not, and the full scale is taken only when none does |
| PlacementPlan.RescueMeaning | scripts/gpu_placement.py:273-289 | After rounding and rescue, work is on exactly the devices with a share and none is a whole unit past its share |
| PlacementPlan.CoarseSplitKeepsMargin | scripts/gpu_placement.py:343-351 | A coarse split leaves every working device its margin and its pinned bytes |
| PlacementPlan.FineSplitKeepsBudget | scripts/gpu_placement.py:291-313 | When a unit is no larger than the margin, the repair loop has nothing to do and every working device stays within budget |
| PlacementPlan.SplitRespectsPlan | scripts/gpu_placement.py:262-352 | A plan within headroom becomes a split within budget on exactly the devices of the plan, by either path |
| PlacementPlan.FineSplitFitsIff | scripts/gpu_placement.py:262-313 | Without the margin condition: the fine split fits and leaves shareless devices empty if and only if the devices with a share have room for the whole scale in whole units |
| PlacementPlan.SplitFitsIff | scripts/gpu_placement.py:329-352 | The same by either path: fits on the devices of the plan if and only if a coarse scale was good or the fine scale has room in whole units |
| PlacementPropose.Budgets | scripts/gpu_placement.py:232-251 | One row for each device in order: a card with a display withholds both reserves and any other card the first, and what is left of its memory is its budget, never less than nothing |
| PlacementPropose.FirstFittingMeaning | scripts/gpu_placement.py:421-423 | The single-device rule fires exactly when some candidate holds the model |
| PlacementPropose.FirstFittingIsFirst | scripts/gpu_placement.py:421-423 | It takes a candidate exactly when that one holds the model and none before it does |
| PlacementRules.RuleIs | scripts/gpu_placement.py:421-455 | Which rule fires, exactly: one device if a candidate holds the model, and then the first; only if none does the preferred devices, if they hold it together; only then an equal split, if every device has room for it; and only then the last resort |
| PlacementRules.SingleIs | scripts/gpu_placement.py:410-423 | By the lists as the policy writes them: a model is put on one device exactly when that is the first, in the list that is searched, to hold it with the margin and its pinned bytes left free |
| PlacementRules.SingleShareIs | scripts/gpu_placement.py:421-423 | Under the first rule the device has the whole model and every other nothing |
| PlacementRules.PreferredShareIs | scripts/gpu_placement.py:425-433 | Under the second rule shares are in proportion to headroom, and nothing outside the preferred devices |
| PlacementRules.EqualShareIs | scripts/gpu_placement.py:434-442 | Under the third rule every device has the same share |
| PlacementRules.FilledShareIs | scripts/gpu_placement.py:443-455 | Under the last rule the preferred devices are filled and the others share what is left in proportion to headroom |
| PlacementProportion.ProportionIsEnough | scripts/gpu_placement.py:262-352 | Shares that are a multiple of others are printed as the same weights at the same scale, through rounding, rescue, repair and the search for a coarse scale |
| PlacementRepeats.PlanWithinIff | scripts/gpu_placement.py:410-455 | Whatever the lists repeat and whichever rule fires: the shares, brought to the size of the model as the rounding does, are inside every working headroom if and only if a check on lists and sizes holds |
| PlacementRepeats.SharesAddUp | scripts/gpu_placement.py:421-455 | When no device with headroom is repeated, the shares of a rule that places the model within headroom add up to the model as they are |
| PlacementProposal.RequestIsGrouped | scripts/gpu_placement.py:69-98 | A policy that loads gives groups of listed devices with none in both, so that check can be made on every request |
| PlacementReport.ChooseShares | scripts/gpu_placement.py:414-455 | The loops that fill the share dictionary compute the shares of the rule that fires |
| PlacementReport.Propose | scripts/gpu_placement.py:355-481 | A proposal exists exactly for a known size and a usable device; its split, projected bytes, slack and verdict are those of the specification |
| PlacementProposal.RequestIsPlanned | scripts/gpu_placement.py:384-455 | Exactly when the check holds, the plan of the request leaves each device it uses its margin and its pinned bytes |
| PlacementProposal.ProposalRespectsBudgets | scripts/gpu_placement.py:384-470 | For every request that passes the check: the final, reduced split puts work on exactly the devices with a share and keeps each, pinned bytes included, within its budget |
| PlacementPrinted.ProposalFitsIff | scripts/gpu_placement.py:384-470 | Any request, repeated devices and models too large included, with more units than devices: the printed split is within every budget on the devices of the rule alone if and only if a coarse scale was taken or those devices have room for the fine scale in whole units |
| PlacementPrinted.EmptyRequestUsesFirstDevices | scripts/gpu_placement.py:457-462 | The split printed for a model of zero bytes is one for each of the first `split_scale` devices and zero for the others |
| PlacementPrinted.RepeatedDeviceBreaksTheRule | scripts/gpu_placement.py:410-433 | A request with one preferred device listed twice: the second rule fires and the printed split breaks it; with the device listed once the same model is split within every budget |
| PlacementProposal.FallbackStaysEmpty | scripts/gpu_placement.py:421-433 | Under the first two rules, for a request that passes the check, a device outside the preferred ones has weight zero in the final split |
| PlacementProposal.ProjectionAddsUp | scripts/gpu_placement.py:459-462 | Projected bytes add up to the model size for any split of positive total |
| PlacementProposal.ReducedBytes | scripts/gpu_placement.py:254-259 | Reduction changes no projected byte |
| PlacementProposal.DuplicatePreferenceHalvesTheShares | scripts/gpu_placement.py:410-430 | With the preferred list [d, d] the shares of the second rule add up to half of the model, and one device cannot hold it |
| PlacementProposal.EmptyModelUsesFirstDevices | scripts/gpu_placement.py:273-313 | A model of zero bytes ends with weight one on the first devices, as many as the scale has units |
| PlacementReport.Proposal.ChargeProjector | scripts/gpu_placement.py:558-608 | Charging changes the slack of the pinned device alone, by exactly the size, and the verdict follows; an unpinned or unknown device changes nothing |
| PlacementReport.ChargedProposalFitsIff | scripts/gpu_placement.py:457-466 | After charging, all slacks are non-negative if and only if every device left empty can hold the bytes pinned to it |
| PlacementReport.ProposeAndCharge | scripts/gpu_placement.py:542-608 | Proposing with the pinned bytes withheld and then charging them: the final verdict is that check |
| PlacementReport.CoarseProposalKeepsMargin | scripts/gpu_placement.py:329-351 | With a coarse split every working device keeps at least the margin after the charge |
| PlacementReport.CardHoldsItsShare | scripts/gpu_placement.py:232-251 | Share, pinned bytes and reserves together are no more than the card has |
| HostileHost.EvolvesAll | rust/src/verify.rs:60-88 | Under the stated assumption on single events, over any number of them recorded file states stay and no changed file shows an identity seen before |
| HostileHost.EventsHappen | rust/src/verify.rs:60-88 | The outside is free: each event has its effect on the paths it names, and no other |
| HostileHost.ReturningIdentityFoolsTheReader | rust/src/verify.rs:204-355 | On a host where an identity may come back with its bytes, a read can mix two states although every identity check agrees |
| HostileHost.LooselyKeepsBytes | rust/src/verify.rs:60-88 | The weaker host of that example still keeps the bytes of every identity |
| HostileHost.SignalIsSticky | rust/src/verification.rs:735-770 | Once a cancellation signal has arrived it is there at every later question |
| HostileHost.LastSignalIs | rust/src/verification.rs:735-770 | The signal seen is the last that arrived |
| VerifyFile.HashStream | rust/src/verify.rs:422-461 | If the file still has its opening identity at the end, the digest is of exactly the bytes of that identity, though they were read at many moments; a signal stops the hash before the next read, and it ends with an error exactly when the last read failed |
| VerifyFile.VerifyFileWith | rust/src/verify.rs:204-355 | Any verdict is justified by one recorded file state, whatever happened between the calls; a content verdict saw the path name that state; a host left alone gets the verdict its files deserve |
| VerifyFile.JustifiedForGood | rust/src/verify.rs:98-136 | A justified verdict stays justified however the host goes on |
| VerifyFile.ConfirmAtWindowClose | rust/src/verify.rs:360-394 | If the lstat works, an outcome with an identity is kept if and only if the path still names that very file, and a missing if and only if the path is still absent; anything else becomes changed-during-read, and a failed lstat unreadable |
| VerifyRun.AcquireAll | rust/src/verification.rs:600-628 | All locks in order, or none: a refusal holds nothing and names the refused one |
| VerifyRun.CheckAll | rust/src/verification.rs:640-676 | One result for each selected file in inventory order, not-checked ones only as a suffix and only after a signal |
| VerifyRun.CloseWindow | rust/src/verification.rs:677-683 | After the closing pass every kept outcome was true of its path within that pass, and every outcome given up as changed was untrue of it at some moment of it; on a host left alone whose calls work nothing is given up |
| VerifyRun.Run | rust/src/verification.rs:551-698 | How every run ends, exactly: by signal, by a refused or failing lock, by a report that cannot be written, or with every file examined. No artifact is examined without every lock; exit 0 if and only if complete, published, nothing unaccounted and every outcome good; a run whose locks, publications and calls work on a host left alone is complete and gives each file the verdict it deserves |
| VerifyRun.TallyCounts | rust/src/verify.rs:151-170 | The counters add up to the number of files |
| VerifyRun.TallyIs | rust/src/verify.rs:151-170 | Each counter is the number of files with that outcome |
| VerifyRun.VerdictIsStatus | rust/src/verification.rs:699-705 | The verdict on a run by its results alone: 74 exactly when a file could not be read, 0 exactly when nothing is unaccounted and every checked file is good, else 1 |
| VerifyRun.TallyNotChecked | rust/src/verify.rs:151-170 | The not-checked counter is zero exactly when every file was checked |
| VerifyRun.TallyExit | rust/src/verify.rs:172-187 | The status of the summary is zero exactly when every checked file is good |
| LockProtocol.EveryRunIsSafe | rust/src/downloads.rs:142-194 | In every state of every run of any number of processes, with lock files swapped with care, no verifier examines artifacts while a writer writes a source it covers |
| LockProtocol.AllOrNothing | rust/src/verification.rs:600-628 | A process that has ended holds no lock; one at work holds every lock it needs, each on the file its path names |
| LockProtocol.NoProcessWaits | rust/src/downloads.rs:159-178 | The next step of a process is possible whatever the others hold and brings it nearer its end, so there is no deadlock |
| LockProtocol.AnythingCanHappen | rust/src/downloads.rs:142-194 | Nothing that could be in the way is left out of a run: any process can start, any can die wherever it is, and lock files can go or be replaced whenever care allows it |
| LockProtocol.WorksThroughItsList | verification/local-coverage-foundation/download_service.py:97-130 | A process at work takes its sources one by one with every lock held, and one step after the last it has ended and holds none |
| LockProtocol.SharedLockNeverWorks | rust/src/downloads.rs:159-173 | A process whose list names one lock twice never gets to work |
| LockProtocol.CarelessSwapBreaksExclusion | verification/local-coverage-foundation/download_service.py:97-115 | A run in which unlinking a lock file between a Python open and its flock puts a verifier and a writer at work together |
| CrashDisk.RecoverRecovers | verification/local-coverage-foundation/download_queue.py:64-73 | Every choice of surviving names and bytes is a recovery the model admits |
| CrashDisk.UnflushedBytesCanBeLost | verification/local-coverage-foundation/download_queue.py:64-73 | Bytes that were written and not flushed can be any others after a power loss |
| CrashDisk.DurableSurvives | verification/local-coverage-foundation/download_queue.py:118-129 | Bytes durably held under a name are there after any power loss |
| Downloader.Valid | verification/local-coverage-foundation/download_queue.py:109-115 | True exactly when the file is there with the recorded size and digest |
| Downloader.QuarantinePartial | verification/local-coverage-foundation/download_queue.py:136-143 | Keeps the invariant; on a normal return no partial is left |
| Downloader.DurablePromote | verification/local-coverage-foundation/download_queue.py:118-129 | Promotes verified bytes so that no power loss can take them from the destination |
| Downloader.PromoteCompletePartial | verification/local-coverage-foundation/download_queue.py:146-167 | Promotes good bytes durably and moves bad ones aside |
| Downloader.Download | verification/local-coverage-foundation/download_queue.py:197-239 | A call returns normally if and only if every step it needs works, by the disk and the script before it: nothing to do for a valid destination; else move it aside; else promote a complete partial that matches or move a bad one aside; else a transfer that ends well with exactly the recorded bytes, and its promotion. A normal return leaves valid bytes at the destination, promoted by this call if and only if they were not valid before; they are durable if and only if promoted or flushed already. A transfer that leaves wrong bytes of the right length ends with them moved aside. However it ends the invariant holds, and a transfer never starts past the end of its file |
| Downloader.ValidIsDurableIff | verification/local-coverage-foundation/download_queue.py:197-204 | A valid destination is durable exactly when its bytes have been flushed and every earlier binding its name can come back to is good too |
| Downloader.UnflushedNameCanVanish | verification/local-coverage-foundation/download_queue.py:118-129 | A file under a name that has not been flushed can be gone after a power loss |
| Downloader.History | verification/local-coverage-foundation/download_queue.py:197-239 | After every power loss of any history of interrupted calls the destination is absent, what stood there before, or valid; a boot whose first call succeeds leaves the file there, and a file that is there after one power loss is there after every later one |
| Downloader.RecoveredDestination | verification/local-coverage-foundation/download_queue.py:118-239 | The invariant survives every power loss and is the promise about the destination |
| Downloader.VerifiedDestinationCanVanish | verification/local-coverage-foundation/download_queue.py:197-204 | A run of two calls: the first fails at its last step, the flush of the directory; the second finds the destination valid and returns normally; after a power loss it is gone |
| AtomicReport.WriteAtomic | rust/src/report.rs:55-86 | At every moment the target is what it was or exactly the new report. By the disk and the script before the call: which of the six outcomes is returned; the target changes if and only if everything up to the rename works; on success it is the report, flushed, under a settled name; a failure leaves no temporary behind if removing it works |
| AtomicReport.FailsAndReplaces | rust/src/report.rs:83-85 | A call on an empty disk that fails at the directory flush alone: the error is returned and the new report is in place |
| AtomicReport.SuccessSurvives | rust/src/report.rs:55-86 | After a success every recovery from a power loss finds exactly the new report at the target |
| AtomicReport.WriteThenLosePower | rust/src/report.rs:55-86 | The call and then a power loss: whatever is recovered, a report reported as published is there |
| AtomicReport.RecoveredReport | rust/src/report.rs:55-86 | What stands at the target after a power loss is a file it could name before the call, unchanged, or holds the whole new report |
| AtomicReport.CreateTemporary | rust/src/report.rs:89-112 | Succeeds exactly when one of seventeen names is free, every attempt up to it works and the inode is new; the temporary is this call's own, and the target is left alone |
| DownloadQueue.FinalRecord | verification/local-coverage-foundation/download_queue.py:328-345 | For every completion order: the counter is the number of successes, failed exactly when a file failed, complete exactly when there are files and all succeeded |
| DownloadQueue.AfterTallies | verification/local-coverage-foundation/download_queue.py:328-345 | The same after any part of the jobs, in any order |
| DownloadQueue.DuplicateKeysDependOnOrder | verification/local-coverage-foundation/download_queue.py:278-287 | With one key for two artifacts the final status depends on which finished first |
| QueueKeys.PromiseIff | verification/local-coverage-foundation/download_queue.py:328-345 | The status of a key comes out right for every outcome and every order if and only if its record counts its files |
| QueueKeys.QueuePromiseIff | verification/local-coverage-foundation/download_queue.py:278-302 | As a check on the queue: the last artifact with the key lists as many files as all with it together |
| QueueKeys.NeverComplete | verification/local-coverage-foundation/download_queue.py:328-345 | With a total of zero or too large, full success never completes the key |
| QueueKeys.FailureIsForgotten | verification/local-coverage-foundation/download_queue.py:328-345 | With a total that is too small, a key with a failed file can end complete |
| QueueKeys.UniqueKeysKeepPromise | verification/local-coverage-foundation/download_queue.py:278-302 | Unique keys are enough |
| DownloadQueue.PreparedRecord | verification/local-coverage-foundation/download_queue.py:278-287 | With unique keys each artifact starts from a record that counts its own files |
| DownloadQueue.OtherRecordsStay | verification/local-coverage-foundation/download_queue.py:363-385 | Records of artifacts that are not in the queue are what the earlier run left |
| DownloadQueue.CleanQueueIsComplete | verification/local-coverage-foundation/download_queue.py:305-349 | When every file arrives, every artifact with files ends complete with all of them counted |
| DownloadQueue.PassTells | verification/local-coverage-foundation/download_queue.py:278-345 | After a pass over unique keys an artifact with files is complete exactly when its own files all arrived and failed exactly when one did not, whatever happened to the others |
| DownloadQueue.Queue.PrepareJobs | verification/local-coverage-foundation/download_queue.py:267-302 | Refused exactly when two jobs resolve to one file; otherwise every job and a fresh record for every artifact |
| DownloadQueue.Queue.SettleAll | verification/local-coverage-foundation/download_queue.py:328-346 | Whatever failed, the jobs settled so far are in the records, one publication for each; only a publication that raises stops before the last; good exactly when every job succeeded and every publication worked |
| DownloadQueue.Queue.RunDownloads | verification/local-coverage-foundation/download_queue.py:305-349 | Good exactly when the artifacts are whole, destinations are disjoint, every job succeeded, every publication worked and, if anything is to be downloaded, the connection budget, the log line and the files are good; failures included, the published records are those of the order |
| DownloadQueue.Queue.ProcessQueue | verification/local-coverage-foundation/download_queue.py:363-403 | Exit 0 exactly when the queue can be read and has its fields, the settings are valid, destinations are disjoint, every file arrives and every write of state, stamp and log works; any other pass that got past its first publication ends failed, and publishes that; failures included, its records are how each artifact ended; the stamp changes only to the total and only if every job succeeded |
| DownloadQueue.WrittenNames | verification/local-coverage-foundation/download_queue.py:132-143 | The names a download may write, spelled out: the destination, its partial, the control file beside that, and for each tag a name for bad bytes of the destination, of the partial and for the control file beside that |
| DownloadQueue.WritesOverlapIff | verification/local-coverage-foundation/download_queue.py:132-143 | Two downloads may write a common name if and only if one's destination is the other's, its partial, its control file or a name its bad bytes move to |
| DownloadQueue.PartialOfAnotherPasses | verification/local-coverage-foundation/download_queue.py:288-301 | A file and its partial pass the uniqueness check although their workers write one file |
| DownloadCrew.EveryRunKeepsEveryPromise | verification/local-coverage-foundation/download_queue.py:305-349 | Any number of workers with no name in common, interleaved step by step on one disk, power losses anywhere: whatever a further power loss would leave at a destination is nothing, what stood there, or the recorded bytes of that very file |
| DownloadCrew.OnceDurableAlwaysDurable | verification/local-coverage-foundation/download_queue.py:118-129 | Bytes once safe at a destination stay there through everything the workers do and every power loss |
| DownloadProgress.CanFinish | verification/local-coverage-foundation/download_queue.py:118-239 | From every state of the disk, whatever earlier runs, other workers and power losses left, a worker whose transport delivers the recorded bytes can bring its file to where no power loss takes it away |
| DownloadProgress.CanSetAside | verification/local-coverage-foundation/download_queue.py:205-210 | A destination that is there and not valid can be moved aside, to any name kept for that |
| DownloadProgress.NothingIsAssumed | verification/local-coverage-foundation/download_queue.py:170-194 | The transport may leave any bytes in the partial and make or drop the control file |
| DownloadProgress.PowerCanFail | verification/local-coverage-foundation/download_queue.py:64-73 | The power may fail in any state, with any recovery |
| DownloadCrew.ApartIff | verification/local-coverage-foundation/download_queue.py:288-301 | The workers have no name in common if and only if no destination is a name that another may write |
| DownloadCrew.OverlapBreaksThePromise | verification/local-coverage-foundation/download_queue.py:288-301 | A run of two accepted downloads that share a name, after which one destination holds the bytes of the other file, checked and flushed |
| DownloadService.Service.RunQueue | verification/local-coverage-foundation/download_service.py:76-94 | One queue runs on its own files and the downloader's names come back, even when it raises |
| DownloadService.Service.RunAll | verification/local-coverage-foundation/download_service.py:116-130 | Every queue runs once, in order, whatever the others did; exit 0 exactly when all did |
| Receipts.ExplainAgreesWithReuse | verification/qualification-supervisor/qualification_cache.py:347-398 | The plan says reusable exactly when a run would reuse, force included |
| Receipts.OutcomeIs | verification/qualification-supervisor/qualification_cache.py:84-96 | What a result comes to, by its own fields: passed exactly with the pass flag set and none of blocked, inconclusive and failed stated, and what is no dictionary has failed |
| Receipts.ExplainNamesTheObstacle | verification/qualification-supervisor/qualification_cache.py:361-398 | Each reason is given exactly when its obstacle is the first that stands in the way |
| Receipts.SpentTells | verification/qualification-supervisor/qualification_cache.py:471-496 | What an attempt leaves tells of it |
| Receipts.ReuseIff | verification/qualification-supervisor/qualification_cache.py:347-358 | Whatever receipt stands there: a result is answered exactly when the receipt says passed for this very key and carries a result that is a pass by its own fields |
| Receipts.TellsReuse | verification/qualification-supervisor/qualification_cache.py:347-358 | A receipt that tells of the attempts is reused exactly when the last one returned a result whose pass flag is set and which states no other outcome, under this key; the answer is that result |
| Receipts.PublishedTells | verification/qualification-supervisor/qualification_cache.py:400-407 | Revoking before a run keeps the receipt telling of the attempts |
| Receipts.CompletedTells | verification/qualification-supervisor/qualification_cache.py:400-407 | So does recording how the run ended |
| Receipts.RepublishedTells | verification/qualification-supervisor/qualification_cache.py:400-407 | A run that returns nothing leaves the receipt telling of an attempt that never completed |
| Receipts.RestoreUndoesPublish | verification/qualification-supervisor/qualification_cache.py:400-420 | Restoring what was read before a publication brings back the whole store, receipt or none |
| Receipts.SpentIsReusableIff | verification/qualification-supervisor/qualification_cache.py:471-496 | What a real attempt leaves is reusable exactly for its own key, and only if its result has the pass flag and does not state blocked, inconclusive or failed |
| Receipts.Store.RunCached | verification/qualification-supervisor/qualification_cache.py:444-468 | Exactly when each answer is given and the whole store after it; lost lock, reuse, refusal and blocked change nothing; a result that is no dictionary is published and then raises |
| Receipts.Store.RunLocked | verification/qualification-supervisor/qualification_cache.py:471-496 | The same under the lock |
| ReceiptProtocol.EveryRunTells | verification/qualification-supervisor/qualification_cache.py:444-496 | In every state of every history of concurrent callers with crashes the receipt tells of the dispatched attempts |
| ReceiptProtocol.ReuseIsTheLastWord | verification/qualification-supervisor/qualification_cache.py:347-358 | Reuse answers exactly when the last dispatched attempt that did not end blocked completed with a pass under this key, and with its result; a non-passed receipt keeps the most recent pass |
| ReceiptProtocol.RunsOnlyWhenNeeded | verification/qualification-supervisor/qualification_cache.py:444-496 | In every history a caller is given an old result exactly when it does not insist and the last attempt that did not end blocked passed under its key; otherwise the test is run or refused |
| ReceiptProtocol.FoundIsKept | verification/qualification-supervisor/qualification_cache.py:471-496 | Whatever others do meanwhile, the receipt a caller will put back is the one it found |
| ReceiptProtocol.BlockedSpendsNothing | verification/qualification-supervisor/qualification_cache.py:471-496 | A run whose result states blocked leaves the receipt, and the history, as it found them |
| ReceiptProtocol.OthersAreTold | verification/qualification-supervisor/qualification_cache.py:471-496 | Every other run is added to the history with what came of it, and the receipt carries its key and result |
| ReceiptProtocol.PassIsServed | verification/qualification-supervisor/qualification_cache.py:347-496 | After a run the next caller with its key is given the result exactly when the run passed, and what was there before exactly when it was blocked; otherwise it has to run |
| ReceiptProtocol.NobodyIsStuck | verification/qualification-supervisor/qualification_cache.py:444-496 | A caller gets in exactly when nobody holds the lock, and inside every answer, dispatch, return and finish is possible when it is due, so no state of a run is a dead end |
| Inventory.CrossCheck | rust/src/inventory.rs:287-317 | Accepted exactly when artifact keys and destinations are unique across sources; every destination then has an owner |
| Inventory.OneOwner | rust/src/inventory.rs:287-317 | In an accepted inventory no destination belongs to two sources |
| Inventory.LoadUncovered | rust/src/inventory.rs:319-377 | Accepted exactly when not too many, each an absolute path in normal form with a class and a reason, none twice, and none inventoried |
| Inventory.DeclarationGoodIff | rust/src/inventory.rs:319-377 | What a good declaration is: an absolute path in normal form, one of the three classes and a reason |
| Inventory.ConsumerCoverage | rust/src/verification.rs:283-332 | Every loaded path falls in exactly one class, the counters add up, and nothing is unaccounted exactly when every path is inventoried or declared |
| Inventory.SameLockIff | rust/src/downloads.rs:38-40 | Two manifests share a lock file if and only if they stand in one directory under names that differ at most in the extension |
| Inventory.StemIs | rust/src/downloads.rs:38-40 | The stem leaves out what follows the last dot that does not lead the name, and nothing when there is none |
| Inventory.SameStemSameLock | rust/src/downloads.rs:38-40 | The usual case: one name and two extensions |
| SharedLocks.ReachesWorkIff | rust/src/verification.rs:600-628 | A process, verifier or writer, that starts while nobody holds a lock, and that nobody disturbs, gets to work if and only if its list names no lock twice |
| SharedLocks.InventoryCanBeVerifiedIff | rust/src/verification.rs:600-628 | Over the manifests of an inventory: if and only if no two of them share a directory and a name up to its extension |
| SharedLocks.ClashingInventoryIsAccepted | rust/src/inventory.rs:195-238 | Inventories with two such manifests, each with its paired lock, are consistent |
| Inventory.StaleDeclarations | rust/src/verification.rs:316-321 | Exactly the declared paths that nothing loads |
| Fields.OneSpelling | rust/src/manifest.rs:579-599 | Two accepted destinations that lead to the same place, links aside, are the same string |
| Fields.OtherSpellings | rust/src/manifest.rs:579-599 | Why only normal form may pass: a doubled slash, a `.` and a step down and up again lead where the path without them leads |
| Fields.JoinSplit | rust/src/manifest.rs:586-592 | Splitting at slashes loses nothing |
| Fields.RepositoryIff | rust/src/manifest.rs:543-552 | A repository is accepted exactly when it is an owner, a slash and a name, neither empty nor with a slash or white space |
| Fields.PathsIff | rust/src/manifest.rs:563-599 | A repository path is accepted exactly when it is plain names joined by slashes, and a destination exactly when it is a slash and such a path; a plain name is not empty, `.` or `..` and has no slash or NUL |
| Fields.TextIff | rust/src/manifest.rs:465-482 | A text is accepted exactly when it is not empty and trimming white space at both ends leaves it as it is |
| Fields.DigestIff | rust/src/manifest.rs:46-54 | A digest is accepted exactly when it is 64 characters, each a digit or one of a to f |
| Manifest.Assemble | rust/src/manifest.rs:383-434 | Accepted exactly when non-empty, no empty artifact, unambiguous and the sum fits 64 bits; the total is that sum |
| Manifest.CheckEntries | rust/src/manifest.rs:210-317 | Accepted exactly when every field of every entry is good, counts are within limits, keys and destinations unambiguous, and the declared total is the sum |
| Manifest.EntryGoodIff | rust/src/manifest.rs:247-317 | What a good entry is, field by field: trimmed texts, an owner and a name, a revision without white space, the declared bytes, and rows with plain relative paths, absolute destinations and digests of 64 lower-case digits |
| Manifest.Select | rust/src/manifest.rs:332-350 | Refused exactly for an unknown or repeated key |
| Manifest.ChosenExactly | rust/src/manifest.rs:345-350 | The selection has each wanted artifact once, no other, in manifest order |
| FloatSums.PartialsAreExact | verification/generative-media/comfy_runtime.py:9-11 | Every intermediate value of every order of adding at most 512 products is an integer of magnitude at most 2^23 and is not rounded |
| FloatSums.AnyOrderIsExact | verification/generative-media/comfy_runtime.py:9-20 | Any complete schedule of FP32 additions gives the plain sum |
| FloatSums.BinaryWith24Bits | verification/generative-media/comfy_runtime.py:9-11 | The format holds every integer up to 2^24 and the double of whatever it holds, and not 2^24 + 1 |
| Int8Gemm.WrapAdds | verification/generative-media/comfy_runtime.py:20 | Accumulating in a wrapping register is wrapping once at the end |
| Int8Gemm.Partial | verification/generative-media/comfy_runtime.py:18-20 | A K-tile adds exactly the next 512 products, or what is left of them |
| Int8Gemm.AddTile | verification/generative-media/comfy_runtime.py:15-20 | One K-tile is added into every cell of its tile, and no other cell changes |
| FloatSums.LeftToRightSchedules | verification/generative-media/comfy_runtime.py:18-20 | Adding from left to right is a complete schedule, for any number of products |
| FloatSums.PairwiseSchedules | verification/generative-media/comfy_runtime.py:18-20 | So is adding pairwise, halves first |
| Int8Gemm.PlainPlanIsSound | verification/generative-media/comfy_runtime.py:13-20 | So there is a sound plan for every depth |
| Int8Gemm.Int8Accumulate | verification/generative-media/comfy_runtime.py:4-21 | For every shape: refused exactly for incompatible operands; otherwise every cell is the full dot product modulo 2^32 |
| Int8Gemm.ExactDepth | verification/generative-media/comfy_runtime.py:4-21 | The result is the product itself for every input if and only if the inner dimension is at most 131071 |
| GgufFormat.LittleEndianRoundTrip | scripts/gguf_header.py:64-72 | Fixed-width little-endian integers are read back as written |
| GgufFormat.SizesAreThoseOfTypes | scripts/gguf_header.py:30-34 | The tags with a fixed width, and the widths, are those of the eleven named types of the format |
| GgufReader.ValueRoundTrip | scripts/gguf_header.py:80-100 | Every value within the limits, nested arrays included, is read back from its bytes and nothing more is consumed |
| GgufReader.HeaderRoundTrip | scripts/gguf_header.py:103-122 | Every header within the limits is read back from its encoding, whatever follows, consuming exactly its bytes |
| GgufReader.AcceptedValue | scripts/gguf_header.py:80-100 | An accepted value is within the limits and took exactly as many bytes as its encoding |
| GgufReader.AcceptedHeader | scripts/gguf_header.py:103-122 | An accepted file starts with a header within the limits, as long as its own encoding |
| GgufReader.ScalarsInBulk | scripts/gguf_header.py:97-98 | Reading an array of fixed-size elements in one piece is reading them one by one |
| GgufReader.Reader.ReadValue | scripts/gguf_header.py:80-100 | The recursive reader, from any position, delivers what the specification says, or the error |
| GgufReader.Reader.ReadHeader | scripts/gguf_header.py:103-122 | On every byte string: the specified header and position, or a GGUFError |
| GgufInspector.ReadersAgree | verification/local-coverage-foundation/scripts/inspect_gguf.py:57-77 | Whatever the first reader accepts this one accepts: same version, counts, keys, scalars and strings, array lengths and heads at every level, and the same end |
| GgufInspector.ValueAgrees | verification/local-coverage-foundation/scripts/inspect_gguf.py:42-54 | The same for one value |
| GgufLimits.AcceptedIffWithinLimits | scripts/gguf_header.py:54-122 | The first reader accepts a file if and only if the second does and version, pair count, strings, arrays, element kinds and nesting are within its limits |
| GgufLimits.ValueIff | scripts/gguf_header.py:80-100 | The same for one value at any depth |
| GgufInspector.OtherVersionsAreOnlyInspected | verification/local-coverage-foundation/scripts/inspect_gguf.py:57-77 | A header of another version is refused by the first reader and accepted by this one |
| GgufInspector.Inspector.ReadValue | verification/local-coverage-foundation/scripts/inspect_gguf.py:42-54 | The recursive reader delivers what its specification says and always ends |
| GgufInspector.Inspector.ReadMetadata | verification/local-coverage-foundation/scripts/inspect_gguf.py:57-77 | On every byte string: the specified report and position, or an error |
| SmartResize.ResizeMeetsBudget | verification/computer-use-grounding/culib.py:62-85 | Every image of aspect up to 200:1 becomes two positive multiples of the factor with an area within the budget, if the budget holds 200 blocks and spans a factor of eighteen |
| SmartResize.BudgetsInUse | verification/computer-use-grounding/culib.py:45-85 | Both budgets in use are such budgets |
| SmartResize.ShrunkWithinBudget | verification/computer-use-grounding/culib.py:77-80 | A shrunk image is within the budget if and only if the shorter side keeps a block or the longer one fits beside a single block, a check on the input alone |
| SmartResize.GrownWithinBudgetIff | verification/computer-use-grounding/culib.py:81-84 | A grown image is within the budget if and only if the fewest blocks along each side that reach the smallest area are, in whole numbers |
| SmartResize.GrownSideIsFewest | verification/computer-use-grounding/culib.py:81-84 | Each side of a grown image is the fewest blocks n with n times n times the other side, in blocks of one factor, at least the side times the smallest area |
| SmartResize.ResizeWithinIff | verification/computer-use-grounding/culib.py:62-85 | Whatever the budget and whichever branch: the result is no larger than the budget allows if and only if the image passes the check of its branch; only a shrunk image can be too small |
| SmartResize.ShrunkIsNotTiny | verification/computer-use-grounding/culib.py:77-80 | A shrunk image keeps more than a quarter of the budget |
| SmartResize.GrownWithinBudget | verification/computer-use-grounding/culib.py:81-84 | A grown image has at least the smallest area and less than eighteen times it |
| SmartResize.WideBudgetsFit | verification/computer-use-grounding/culib.py:70-80 | A budget of 200 blocks holds every supported image |
| SmartResize.SidesAreMultiples | verification/computer-use-grounding/culib.py:50-85 | Both sides of any result are positive multiples of the factor |
| SmartResize.SupportedIff | verification/computer-use-grounding/culib.py:70-74 | An image is refused exactly when it is empty or one side is over two hundred times the other |
| SmartResize.SidesAre | verification/computer-use-grounding/culib.py:50-85 | What each side of the answer is, by whole numbers alone: the nearest number of blocks, ties to even; for too large an area the most blocks, and for too small a one the fewest, that the budget gives that side; never less than one |
| SmartResize.NarrowBudgetOverflows | verification/computer-use-grounding/culib.py:77-80 | A budget of 50 blocks and an image at exactly 200:1 that comes out twice too large |
| SmartResize.NarrowBudgetOvergrows | verification/computer-use-grounding/culib.py:81-84 | A 28 by 28 image and a budget whose shrinking check it passes, and that it exceeds by growing |
| SmartResize.FittingImageIsKept | verification/computer-use-grounding/culib.py:75-85 | An image already in multiples and within the budget is kept |
| CredentialScan.HashAndScan | verification/prompt-corpus-admission/admit_corpus.py:176-193 | Admitted exactly when the length is the declared one within the bound, there is no NUL and no window has a match; the digest is then of the whole stream |
| CredentialScan.ShortStretchIsSeenWhole | verification/prompt-corpus-admission/admit_corpus.py:184-187 | However the stream is cut up, every stretch of at most 513 bytes lies whole inside one window |
| CredentialScan.NoMatchIsMissed | verification/prompt-corpus-admission/admit_corpus.py:47-52 | If no window has a match of a listed pattern, boundaries included, neither has the stream |
| CredentialScan.TextIsWritten | verification/prompt-corpus-admission/admit_corpus.py:47-52 | Each pattern matches exactly the texts made of its pieces: the fixed letters, a kind, and so many characters of the listed classes |
| CredentialScan.LongerStretchIsCut | verification/prompt-corpus-admission/admit_corpus.py:187 | A stretch of 514 bytes can lie in no window |
| CredentialScan.CanBeRefusedIff | verification/prompt-corpus-admission/admit_corpus.py:176-193 | Some way of reading a stream refuses it for a credential if and only if some piece of it, with the 512 bytes before, looks like one: a check on the bytes |
| CredentialScan.RefusalDependsOnCuttingIff | verification/prompt-corpus-admission/admit_corpus.py:176-193 | For streams and reads of any length: every way of reading gives the answer of searching the whole if and only if the whole has a match or no piece one read can return looks like one |
| CredentialScan.FullReadsRefuseIff | verification/prompt-corpus-admission/admit_corpus.py:176-188 | A file read in full pieces is refused if and only if a stretch from 512 bytes before a multiple of the read size to the next one has a match |
| CredentialScan.RefusalDependsOnAlignment | verification/prompt-corpus-admission/admit_corpus.py:176-188 | A file of 1048577 bytes without a match that is refused at its second read, and admitted with one more space in front |
| ProofLayout.Disk.PlanDirs | scripts/proof_layout.py:35-51 | Raises exactly when a directory is unsafe to move; otherwise plans exactly those not yet links |
| ProofLayout.Disk.PlanLoose | scripts/proof_layout.py:61-72 | Raises exactly when a loose proof is unsafe to move; otherwise plans exactly those not yet links |
| ProofLayout.Disk.MoveEntries | scripts/proof_layout.py:77-78 | The renames leave the directory empty and its entries on top of the store |
| ProofLayout.Disk.Prepare | scripts/proof_layout.py:31-86 | Refused, unchanged, exactly when the plan is unsafe; in every outcome each readable path reads the same; after a run that is done every entry under the proofs is as it was if and only if no loose proof found one at its place; fails exactly when the plan is safe but a file stands where a pending move needs a directory, and then every directory before the first such one has been moved; done means links everywhere and a `.gitkeep` in every directory moved; a second run returns 0 and changes nothing |
| ProofLayout.FailsHalfWay | scripts/proof_layout.py:73-81 | A run that passes validation, turns one directory into a link and then fails at the next |
| ProofLayout.ReplacesDanglingLink | scripts/proof_layout.py:45-85 | A migration that succeeds and leaves a loose proof where a dangling link was |
| ProofLayout.UnsafeIff | scripts/proof_layout.py:38-71 | What makes a plan unsafe, spelled out for directories and loose proofs: proofs elsewhere, links elsewhere, wrong kinds of file, entries without a migration and every collision that is looked for |
| ProofLayout.MovedDirHolds | scripts/proof_layout.py:73-80 | What the store holds after a directory has been moved, name by name: the moved entries, what was there, and `.gitkeep` in any case |
| ProofLayout.KeptUnderTheProofs | scripts/proof_layout.py:73-85 | A file of a directory that is now a link stands under the proofs with its content, and so does a loose proof that is now a link |
| ProofLayout.MovedDirKeeps | scripts/proof_layout.py:73-81 | Moving a directory keeps every readable path |
| ProofLayout.MovedLooseKeeps | scripts/proof_layout.py:82-85 | So does moving a loose proof |

## Left out

- IEEE rounding in the placement and resize arithmetic.
- `measured_override`, `--verify`, `--scan` and sizing from headers in the placement tool: the required bytes are an input.
- The reasons a proposal lists and the `marginal` remarks: they are text.
- JSON, TOML and TSV reading, field by field: entries, queues, receipts and reports are typed values. The exact key sets of JSON objects, the schema names and the size limits of whole files are part of that.
- The order in which several manifest errors would be reported: only acceptance and refusal are modelled.
- UTF-8 replacement decoding of GGUF strings: strings are bytes, so two keys that decode alike are two keys here. Floats are bit patterns.
- Python's recursion limit in the second GGUF reader, which has no depth bound of its own.
- The bytes that aria2 leaves in a sparse file without a recorded digest: the invariants are for files with one, except that `Downloader.Download` also covers a record of size alone.
- The sequential code of `Downloader.Download` and the steps of `DownloadCrew` are two models: that the one takes only steps of the other is read off the code, not proved. Several directories are one, whose names may settle at any time.
- Other failures of `mkdir`, `rename` and `rmdir` in the layout migration, and a crash in the middle of one directory.
- The glob patterns and the directory table of the layout migration: they are parameters.
- `adopt_legacy_step`, `step_key`, `preset_identity` and `runtime_identity`: a key is an opaque value. Reading and writing the receipt file is one step; a torn, oversized or unreadable receipt is not modelled. A gate that returns a list of pairs, which Python would make into a dictionary, counts as one that returns none.
- The two scripts that say they take a writer lock but do not, and `download_queue.py` run on one queue with the lock of another: they are outside the protocol.
- Row validation, catalog and manifest checks of the corpus admission.
- Missing parent directories, which the downloader and the report writer create.
- The lock path of a manifest path that names no file.
- `rescale_point`, action parsing and the rest of the grounding helpers.
- Rendering, command lines, status commands, telemetry, model gates and prompts.

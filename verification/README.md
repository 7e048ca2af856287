# A verified model of git-remote-object-store

git-remote-object-store keeps git repositories in an object store: bundles and manifests under
`<prefix>/<ref>/`, coordination keys beside them (`LOCK#.lock`, `PROTECTED#`), and a `HEAD`
object that names the default branch. This project models the parts of it whose correctness
depends on every input, every schedule or every fault, and proves what those parts are for.

`dafny verify dfyconfig.toml` checks the whole project.

## What is modelled

- **Commit walks and the shallow file** (`ObjectDb`, `ShallowWalk`, `ShallowFile`,
  `ShallowHistory`). The object database is a finite map from ids to commits, tags, trees and
  blobs, with entries missing or undecodable. Tag peeling, the queue walk that finds the
  boundary of a shallow clone, and the rewrite of the `shallow` file are loops over it. The
  walk is proved against shortest parent paths, its result is proved to cut history exactly at
  the depth, and the file keeps, over any sequence of fetches, every boundary that is still one.
- **Multipart upload** (`Multipart`, `AzureBlocks`). The part planner in 64-bit arithmetic, the
  positional reads, and concurrent block staging as a scheduler that runs and joins tasks in
  any order with any failures, from a body or from an open file; its ghost log keeps what each
  request was answered. What is committed is the body, or the file up to the size its metadata
  gave, or what was there before. `AzureRaces` lets two uploads to one key
  mix their blocks and says exactly when that is harmless.
- **The bucket** (`Keys`, `Store`). A shared map that others may change between any two
  requests, except at the keys in `mine`, or not at all when `quiet`; every request may fail,
  and a failed write may have been applied. The store keeps a ghost log of the requests, each
  with the bucket it found and the one it left, so that properties of whole runs are properties
  of logs.
- **Branch management** (`BranchProtocol`, `BranchSweep`, `BranchMoves`, `BranchCommands`).
  `delete-branch`, `protect` and `unprotect` as methods on the store; and, with pushes, as
  step machines that interleave one request at a time, crash anywhere, leak locks and recover
  stale ones. Each request the methods log is proved to be an action of the machine, so what
  is proved of its runs, the lock included, is about those requests in that order.
- **Snapshot and doctor** (`Snapshot`, `StaleLocks`, `Repair`, `Doctor`). The fold of a listing
  into a repository state, and the doctor's repair run: in a quiet bucket, with an answer for
  every question and no fault, it finishes and reaches a state its own analysis has nothing to
  say about; and against any other clients each of its destructive requests follows the checks
  and the operator's yes that guard it.
- **Framing** (`BundleHeader`, `Lfs`, `RemoteUrl`). The bounded bundle-header reader and its
  writer, the git-lfs transfer transcript with its progress channel, and what a remote URL
  means and how it is refused, with its canonical form.

## Where the code does less than it says

Each of these is a lemma; the code is modelled as it is.

- `Multipart.CountBoundIff`, `Multipart.OnePartCanBeExceeded`: the planner keeps to `max_parts`
  exactly when `max_parts` is at least 2 or the size fits in the largest doubling of the
  target. With `max_parts` 1 and a huge body the `checked_mul` exit gives more parts. No caller
  asks for one part.
- `ShallowHistory.RewriteAntitoneIff`: a larger object database does not always keep fewer old
  boundaries, since an entry whose own object was missing can become a boundary once it is
  there. It does, for every larger database, exactly when every old entry resolves already.
- `StaleLocks.ZeroTtlFlagsAllIff`: `--lock-ttl-seconds 0` is documented as treating every lock
  as stale, but the comparison is strict: it does so exactly when no lock carries the instant of
  the scan.
- `BranchProtocol.ExclusiveIffUnlocked`: `acquire_lock` excludes exactly when it starts free.
  Let every holder heartbeat in time and nothing leak: two or more clients then keep each lock
  to one holder in every run if and only if no lock key is on the bucket at the start. From a
  lock left behind two clients can both go on (`BothTakeTheLock`), because the second delete
  removes the lock the first has just taken, and a protected ref can end up empty
  (`LateRecoveryLosesData`). The comment on `acquire_lock` (src/protocol/push.rs:659-663)
  considers only the lost `put_if_absent`.
- `BranchProtocol.SafeIffNoNestedRefs`: with one ref inside another, `delete-branch` of the outer
  ref can leave the inner one protected and empty, each client holding its own lock.
- `Snapshot.OnlyKeyDataIff`: the snapshot's branch-data test is said to mirror the key-level
  one (src/manage/snapshot.rs:74-80); it is the stronger of the two. They disagree about a ref
  exactly when keys under it carry data and every one of them is hidden by a tombstone, in a
  bookkeeping directory, nested deeper, or neither a 40-hex bundle nor the manifest.
- `AzureRaces.RaceIsSafeIff`: block ids depend on the part number alone, so two uploads to one
  key can mix. With parts of one size, every order of arrival commits one of the two bodies if
  and only if their common parts agree, but for one part when there are as many of them.
- `BranchCommands.ManageBranch.DeferredIsKeptIff`: `delete-branch` defers the baseline bundle of
  a branch with a manifest for the grace period of a tombstone. In a quiet bucket and without
  faults, later runs leave that bundle alone if and only if none of them is confirmed with the
  lock free; the first such run finds no manifest and deletes it, whatever is left of the grace
  period (`SecondRunTakesBaseline`).
- `BundleHeader.RoundTrip`: a ref name that ends in a carriage return is written as it is and
  read back without it. No caller writes one: ref names are validated before they get here
  (src/bundle.rs:440-443).
- `Snapshot.HeadReadsBackIff`: a branch name with whitespace at an end cannot be named by HEAD.

## Model

| member | source | states |
|---|---|---|
| ObjectDb.PeelTagChain | src/git.rs:501-539 | terminates on every finite database; on success the chain starts at the tip, has no duplicates, each element is a tag of the next, and the last one targets the returned non-tag, which is the leaf of the tip |
| ObjectDb.PeelTrace | src/git.rs:501-539 | each outcome of peeling is witnessed by iterating the target map: a leaf, a missing or an undecodable object reached, or tags for ever |
| ObjectDb.RevisitNeverEnds | src/git.rs:509-514 | a tag met twice means iterating the targets never leaves the tags |
| ObjectDb.StopsAgree | src/git.rs:501-539 | iteration of the targets stops at one place only |
| ObjectDb.PeelOutcome | src/git.rs:501-539 | the four outcomes, each if and only if: leaf reached, missing object, undecodable tag, and a cycle exactly when iterating the targets never reaches a non-tag |
| ObjectDb.DecodesIff | src/git.rs:609-612 | what the walk does with a queued id: it gets the parents of a commit exactly when peeling its targets reaches that commit |
| ShallowWalk.ReachIsPath | src/git.rs:541-557 | reachability in n steps is the existence of a parent path with n edges |
| ShallowWalk.DistancesMean | src/git.rs:541-557 | the distance function gives the length of a shortest parent path, and only reachable commits have one |
| ShallowWalk.DistancesAre | src/git.rs:541-557 | the distance function has the local properties the walk relies on: 0 at the tip, a predecessor one step closer everywhere else |
| ShallowWalk.PoppedAtDistance | src/git.rs:599-606 | a commit popped for the first time is queued at its shortest distance, whatever other depths it is queued at |
| ShallowWalk.NothingOverlooked | src/git.rs:599-619 | a commit not yet visited has a queued commit on its shortest path |
| ShallowWalk.Visit | src/git.rs:599-619 | a first visit keeps the queue ordered by depth, exact, and complete |
| ShallowWalk.VisitAtCut | src/git.rs:603-608 | a commit at the cut joins the frontier and its parents are not queued |
| ShallowWalk.VisitAbove | src/git.rs:609-618 | a commit above the cut queues its unvisited parents one deeper |
| ShallowWalk.WalkDone | src/git.rs:592-621 | with an empty queue exactly the commits below the depth were visited |
| ShallowWalk.QueueParents | src/git.rs:613-618 | the inner loop appends exactly the unvisited parents, in order |
| ShallowWalk.VisitCommit | src/git.rs:599-619 | one first visit keeps the walk invariant or reports the commit that does not decode; `depth + 1` stays within `max_depth`, so u32 never wraps |
| ShallowWalk.WalkStarts | src/git.rs:592-598 | the queue that holds the tip alone is ordered, exact and complete |
| ShallowWalk.WalkTurn | src/git.rs:599-619 | one turn of the loop keeps the walk invariant and uses up an id of the database or a queued entry |
| ShallowWalk.WalkLoop | src/git.rs:592-621 | the loop ends, by unvisited commits and then queue length, with the commits at the cut, or with an undecodable commit above it |
| ShallowWalk.WalkFrontier | src/git.rs:592-622 | the walk from a commit lists exactly the commits at distance `max_depth - 1`, each once |
| ShallowWalk.ShallowBoundaries | src/git.rs:571-622 | Ok exactly when the tip peels and everything above the cut decodes; then it lists, without duplicates, exactly the commits whose shortest parent path from the peeled tip has `max_depth - 1` edges |
| ShallowHistory.GraftShowsDepth | src/git.rs:541-557 | making a set of commits parentless that meets the cut leaves reachable exactly the commits below the depth |
| ShallowHistory.FrontierShowsDepth | src/git.rs:541-557 | the frontier the walk returns is such a set: nothing deeper leaks in, nothing shallower is lost |
| ShallowHistory.DistancesAreContiguous | src/git.rs:541-557 | a commit at some distance has commits at every smaller distance |
| ShallowHistory.EmptyFrontierIsWholeHistory | src/git.rs:552-557 | an empty frontier means every reachable commit is above the cut |
| ShallowHistory.RewrittenFileShowsDepth | src/git.rs:664-722 | grafting at the rewritten file, old entries included, shows exactly the commits above the cut and at it |
| ShallowFile.UnhexHex | src/git.rs:714-720 | an object id survives its hexadecimal form |
| ShallowFile.ParseRender | src/git.rs:670-721 | the text written for a set of ids parses back to that set |
| ShallowFile.HexKeepsOrder | src/git.rs:712-715 | ordering ids is ordering their lines |
| ShallowFile.SortedIsUnique | src/git.rs:712-715 | a set has one strictly sorted list, so the file is determined by the set |
| ShallowFile.SortUnstable | src/git.rs:714-715 | the list written is strictly sorted and has exactly the elements of the set |
| ShallowFile.ReadEntries | src/git.rs:670-678 | reading an existing file gives the set of ids it lists |
| ShallowFile.ListsWhatLinesSpell | src/git.rs:670-678 | an existing file lists an id if and only if one of its lines, between newlines, is the 40 hexadecimal digits of the id with nothing but whitespace around |
| ShallowFile.UnhexIs | src/git.rs:670-678 | 40 digits, in either case, read as the 20 bytes they spell pair by pair |
| ShallowFile.AddRemaining | src/git.rs:684-699 | of the old entries exactly those that are still boundaries are added |
| ShallowFile.RemainsIff | src/git.rs:766-793 | an old entry remains exactly when it reaches a commit with at least one parent missing |
| ShallowFile.RewriteLists | src/git.rs:684-699 | the rewritten set: the boundaries, and the old entries with a parent still missing |
| ShallowFile.GitDir.WriteShallowFile | src/git.rs:664-722 | an id is listed afterwards if and only if it is a boundary, or it was listed before and reaches, through tags, a present commit at least one of whose parents is not in the database; the file is removed exactly when nothing is listed, and otherwise holds the ids sorted |
| ShallowFile.FileReadsBack | src/git.rs:670-721 | what the rewrite leaves reads back as the rewritten set |
| ShallowFile.RewriteIsIdempotent | src/git.rs:664-722 | rewriting again with the same boundaries and database changes nothing |
| ShallowHistory.BoundaryAntitone | src/git.rs:766-793 | a present commit that is still a boundary in a larger database was one before |
| ShallowHistory.RewriteAntitoneIff | src/git.rs:664-722 | every larger database gives a smaller or equal set if and only if every old entry that is not newly designated resolves already |
| ShallowHistory.ResolvesIff | src/git.rs:776-784 | an entry resolves exactly when it reaches a commit |
| ShallowHistory.ListingHistory | src/git.rs:664-722 | what is listed after a sequence of fetches: entries that were designated once and have remained boundaries since |
| ShallowHistory.NeverDroppedTooEarly | src/git.rs:766-793 | over any sequence of fetches no listed id that resolves is dropped while a parent of its commit is missing |
| Multipart.ScalePartSize | src/object_store/multipart.rs:203-220 | the loop returns the target doubled until the count fits, or until doubling would leave 64 bits; no product overflows |
| Multipart.ScaledIsLeastFit | src/object_store/multipart.rs:203-220 | that is target times 2^k for the least k that fits |
| Multipart.FitsIffCovers | src/object_store/multipart.rs:203-220 | the division test says the parts cover the size |
| Multipart.CountBracket | src/object_store/multipart.rs:88-117 | the part count is the least number of parts that covers the size |
| Multipart.CountBoundIff | src/object_store/multipart.rs:203-220 | the count is within `max_parts` if and only if `max_parts` is at least 2 or the size is within the largest doubling of the target |
| Multipart.OnePartCanBeExceeded | src/object_store/multipart.rs:203-220 | an input with `max_parts` 1 that gets more than one part |
| Multipart.CapsAreRespected | src/object_store/multipart.rs:88-117 | with at least two parts allowed the plan never exceeds the cap, and every part but the last is at least the target |
| Multipart.CapacityDoesNotWrap | src/object_store/multipart.rs:88-117 | the capacity sum stays within 64 bits |
| Multipart.LayOut | src/object_store/multipart.rs:98-117 | the layout loop: contiguous, non-empty parts of the chosen size, the last one shorter |
| Multipart.PlanUploadParts | src/object_store/multipart.rs:88-117 | the parts partition the size from 0; empty exactly when an argument is zero |
| Multipart.SliceParts | src/object_store/multipart.rs:197-201 | each slice is the bytes its part names |
| Multipart.SlicesJoinToBody | src/object_store/multipart.rs:88-117 | the slices of a plan laid end to end are the body |
| Multipart.SlicesAreChunks | src/object_store/multipart.rs:98-117 | the slices of a plan are the body cut every part size |
| Multipart.PreadExact | src/object_store/multipart.rs:179-191 | unless a read fails, the buffer is filled with the bytes at the offset exactly when the file has them, whatever short reads happen; else the end of the file is reported |
| Multipart.ReadFilePart | src/object_store/multipart.rs:136-152 | unless a read fails, the bytes of the part exactly when the file has them |
| AzureBlocks.IdsHaveOneLength | src/object_store/azure.rs:1034-1036 | every index a 64-bit usize holds gets an id of 32 characters |
| AzureBlocks.IdsAreInjective | src/object_store/azure.rs:1034-1036 | different parts have different ids |
| AzureBlocks.SpelledBlockId | src/object_store/azure.rs:1034-1036 | the id spells the part number |
| AzureBlocks.CollectSlots | src/object_store/azure.rs:1049-1060 | the ids in slot order, or an error exactly when a slot was never filled |
| AzureBlocks.TaskRan | src/object_store/azure.rs:954-987 | staging one part overwrites no other part, and its failure is remembered until joined |
| AzureBlocks.TaskJoined | src/object_store/azure.rs:1040-1048 | joining a task fills its own slot |
| AzureBlocks.RanOneMore | src/object_store/azure.rs:954-987 | the log grows by the block of the task that ran, with its answer |
| AzureBlocks.FailuresAreOnRecord | src/object_store/azure.rs:1040-1048 | a failed task is one whose logged staging failed, and the other way round |
| AzureBlocks.BlockBlob.RunTask | src/object_store/azure.rs:975-984 | one spawned task runs: what it asked, what is staged, and what it answered |
| AzureBlocks.BlockBlob.StageTask | src/object_store/azure.rs:1011-1021 | one task stages its own bytes under its own id, from the body or read from the file; a part that cannot be read is not staged |
| AzureBlocks.CutBody | src/object_store/azure.rs:906-910 | the parts are the body cut every part size, within the cap, and join to it |
| AzureBlocks.BlockBlob.Commit | src/object_store/azure.rs:1070-1091 | a commit takes effect only with every listed block staged, and then the body is the blocks in list order |
| AzureBlocks.BlockBlob.RunAndJoin | src/object_store/azure.rs:1040-1060 | for every order of completion: ids come back exactly when no logged staging failed, in part order, with every body staged under its id |
| AzureBlocks.BlockBlob.StageBlocks | src/object_store/azure.rs:954-987 | each part is asked for under its own id at most once, and ids come back exactly when all were and none failed |
| AzureBlocks.BlockBlob.StageBlocksFromFile | src/object_store/azure.rs:993-1024 | the same with each part read from the open file by its own task; ids come back exactly when every part was read and staged |
| AzureBlocks.MultipartPutBytes | src/object_store/azure.rs:899-913 | the committed object equals the body, or nothing was committed; the log is part uploads, then one commit of all the ids exactly when none of them failed, and the outcome is what it was answered |
| AzureBlocks.ReadPartsAreFile | src/object_store/azure.rs:915-938 | parts that were all read join to the file up to its recorded size |
| AzureBlocks.MultipartPutPath | src/object_store/azure.rs:923-938 | the committed object equals the file up to the size its metadata gave, or nothing was committed; a file that has become shorter uploads nothing; the log is as for a body |
| AzureRaces.RaceIsSafeIff | src/object_store/azure.rs:899-1036 | two uploads to one key, cut into parts of one size: every order of arrival lets the first commit one of the two bodies if and only if their common parts agree, but for one when there are as many |
| AzureRaces.AgreeingIsSafe | src/object_store/azure.rs:1034-1036 | and then it is one of the two lists of blocks |
| AzureRaces.MixedIsNeither | src/object_store/azure.rs:1034-1036 | one foreign block makes neither body when the two differ elsewhere or in length |
| Keys.SplitIsUnique | src/keys.rs:49-56 | there is one way to split a key at its last slash |
| Keys.MarkerKeyIsMarker | src/keys.rs:34-56 | the protection key is seen as a marker and is neither a lock nor branch data |
| Keys.LockKeyIsLock | src/protocol/push.rs:230-232 | the lock key is seen as a lock and is neither a marker nor branch data |
| Keys.BundleKeyDeterminesParts | src/keys.rs:145-154 | a bundle key determines its ref and its commit |
| Store.Enumerate | src/object_store/mod.rs:238-239 | a listing has every key with the prefix, once, in some order |
| Store.TraceGrows | src/object_store/mod.rs:237-339 | a log extended by a request that had its effect is a history again |
| Store.ObjectStore.List | src/object_store/mod.rs:239 | lists the keys with the prefix; others may have moved before, as `quiet` and `mine` allow |
| Store.ObjectStore.Head | src/object_store/mod.rs:327 | metadata of the key, or NotFound only when it is absent; others may have moved before, as `quiet` and `mine` allow |
| Store.ObjectStore.GetBytes | src/object_store/mod.rs:252 | the body of the key; others may have moved before, as `quiet` and `mine` allow |
| Store.ObjectStore.PutBytes | src/object_store/mod.rs:279-284 | writes the key; a reported failure may have been applied; others may have moved before, as `quiet` and `mine` allow |
| Store.ObjectStore.PutIfAbsent | src/object_store/mod.rs:324 | creates the key only when absent; others may have moved before, as `quiet` and `mine` allow |
| Store.ObjectStore.Copy | src/object_store/mod.rs:335 | copies the body; NotFound only when the source is absent; others may have moved before, as `quiet` and `mine` allow |
| Store.ObjectStore.Delete | src/object_store/mod.rs:339 | removes the key; NotFound only when it is absent; others may have moved before, as `quiet` and `mine` allow |
| BranchSweep.SweepPartitions | src/manage/branch.rs:314-341 | swept, undeleted and the deferred key are the under-lock listing, each key once; the attempted count cannot underflow |
| BranchSweep.AfterSweep | src/manage/branch.rs:314-336 | a key under the ref survives a sweep only as the deferred or an undeleted one, unchanged |
| BranchSweep.WithoutKeyIsListing | src/manage/branch.rs:242-248 | the filtered listing is every key under the ref except the lock |
| BranchCommands.ManageBranch.SweepKey | src/manage/branch.rs:324-335 | one delete of the sweep: NotFound counts as gone |
| BranchCommands.ManageBranch.SweepNext | src/manage/branch.rs:315-336 | one turn of the loop skips exactly the deferred key |
| BranchCommands.ManageBranch.Sweep | src/manage/branch.rs:314-336 | one delete for each key but the deferred one, in listing order; undeleted is, in that order, exactly the keys whose delete failed with something other than NotFound; no other key changes |
| BranchCommands.ManageBranch.DeleteIdempotent | src/protocol/push.rs:783-791 | a missing key counts as deleted |
| BranchCommands.ManageBranch.AcquireRefLock | src/manage/branch.rs:558-578 | with `acquire_lock` (src/protocol/push.rs:672-699): the client works under the lock exactly when it is told so, and then the last request put it; a present lock is taken over only when older than the TTL, and refused in a quiet bucket only when it is not; no other key changes |
| BranchCommands.ManageBranch.TakeOver | src/protocol/push.rs:681-699 | a lock that was there is taken over only after it was found stale: its delete and a second put |
| BranchCommands.ManageBranch.TryPut | src/protocol/push.rs:678-680 | one `put_if_absent` of the lock key: the client works under it, looks at the lock there, or gives up |
| BranchCommands.ManageBranch.LockIsStale | src/protocol/push.rs:681-691 | a lock of ours is found stale exactly when it is older than the TTL, and only then is there something to recover; nothing changes |
| BranchCommands.ManageBranch.Recover | src/protocol/push.rs:692-698 | the lock found stale is deleted and ours put; the client works under the lock exactly when it is told so |
| BranchCommands.ManageBranch.RetryPut | src/protocol/push.rs:694-698 | the second and last `put_if_absent` |
| BranchCommands.ManageBranch.ReleaseOrWarn | src/manage/branch.rs:585-595 | one delete of the lock, whatever it is answered, and the client is idle; without a fault the lock is gone; no other key changes |
| BranchCommands.ManageBranch.TryTombstoneBaseline | src/packchain/gc.rs:449-492 | the deferred key is the listed baseline that the fetched manifest names, deferred exactly when its tombstone was written; no key under the ref changes |
| BranchCommands.ManageBranch.FindBaseline | src/packchain/gc.rs:456-478 | the listed bundle that the fetched manifest names, or none exactly when it names none; with nobody else at the manifest and no fault, the one that the bucket names |
| BranchCommands.ManageBranch.WriteTombstone | src/packchain/gc.rs:479-491 | one write of the tombstone; no key under the ref changes |
| BranchCommands.ManageBranch.TombstoneAndSweep | src/manage/branch.rs:298-336 | the tombstone comes before the sweep, which spares exactly its baseline |
| BranchMoves.TombstonesAreNotRefs | src/packchain/gc.rs:1131-1136 | a tombstone key lies under no branch |
| BranchCommands.ManageBranch.SweepAndReport | src/manage/branch.rs:298-365 | the manifest is fetched first and its baseline deferred exactly when the tombstone could be written; then the deletes are one for each other key listed, and the report is exactly what they answered; a partial one means a request met a fault |
| BranchCommands.ManageBranch.ListForDelete | src/manage/branch.rs:227-262 | the under-lock listing without the lock starts the sweep of what it shows, or ends the work |
| BranchCommands.ManageBranch.DeleteUnderLock | src/manage/branch.rs:227-365 | working under the lock: a store failure exactly when the listing failed, gone exactly when nothing but the lock is listed, refused exactly when a marker is listed, else the sweep of everything listed; the lock is never swept |
| BranchCommands.ManageBranch.SweptIsAsShown | src/manage/branch.rs:238-336 | the logged deletes are for the keys of the logged listing, without the lock and the deferred one |
| BranchCommands.ManageBranch.DeleteHoldingLock | src/manage/branch.rs:214-219 | from working under the lock to idle: the first request is the listing that decides the outcome, the deletes are for the keys it shows, and the release follows every outcome and undoes none |
| BranchCommands.ManageBranch.WorkSettles | src/manage/branch.rs:227-365 | what the work leaves of the keys under the ref, the deferred one among them, and that a marker stops it |
| BranchCommands.ManageBranch.LockAndDelete | src/manage/branch.rs:205-220 | contention and a failed lock leave the ref alone |
| BranchCommands.ManageBranch.ConfirmAndDelete | src/manage/branch.rs:192-220 | the listing before the prompt comes first: with a marker in it the outcome is the refusal whatever the answer would be, and a declined prompt is reported as such only without one; every other outcome is that of the work under the lock |
| BranchCommands.ManageBranch.DeleteInto | src/manage/branch.rs:192-220 | against anyone: each request is an action of the protocol; keys under the ref only disappear, the deferred one stays; a protected ref, a declined prompt and a fresh lock lose nothing; once the lock was put, the last request is its delete, and with the lock to itself and no fault any outcome but contention leaves no lock behind; a success or partial delete is decided by the listing made right after the lock was put, and reports what the deletes of its keys were answered; a reported success leaves only the deferred key, and a failure means a fault. In a quiet bucket: without a fault, confirmed, unprotected and the lock free or stale, it succeeds, defers exactly the baseline that the manifest names, and leaves nothing else |
| BranchCommands.ManageBranch.ReportsSince | src/manage/branch.rs:192-220 | what the work under the lock reported, a run that began before it reports |
| BranchCommands.ManageBranch.RunsOnlyShrink | src/manage/branch.rs:192-220 | over any sequence of runs in a quiet bucket, whatever faults they meet, no key under the ref appears or changes |
| BranchCommands.ManageBranch.RunsConverge | src/manage/branch.rs:298-341 | repeated runs converge: after one undisturbed run an unprotected ref without a manifest is empty and stays so; with a manifest after two |
| BranchCommands.ManageBranch.DeferredStays | src/manage/branch.rs:298-336 | however their requests fail, later runs that are declined or meet a fresh lock leave the deferred baseline |
| BranchCommands.ManageBranch.DeferredIsKeptIff | src/manage/branch.rs:278-336 | after an undisturbed run that deferred it, the baseline is there after later runs without faults if and only if none of them was confirmed with the lock free |
| BranchCommands.ManageBranch.SecondRunTakesBaseline | src/manage/branch.rs:278-336 | two confirmed runs in a row, the second of which deletes the baseline the first deferred |
| BranchCommands.ManageBranch.RefusedIffGuarded | src/manage/branch.rs:260-262 | the under-lock listing refuses exactly when a marker is on the bucket under the ref |
| BranchCommands.ManageBranch.ListForProtect | src/manage/branch.rs:478-487 | the listing under the lock decides: branch data, by the key-level test, or none |
| BranchCommands.ManageBranch.PutMarker | src/manage/branch.rs:488-492 | one write of the marker, only where the protocol allows it |
| BranchCommands.ManageBranch.ProtectUnderLock | src/manage/branch.rs:478-492 | working under the lock: the marker is written right after a listing with branch data, and refused exactly without |
| BranchCommands.ManageBranch.ProtectHoldingLock | src/manage/branch.rs:466-471 | from working under the lock to idle: the same, and the last request is the delete of the lock, whatever the work came to |
| BranchCommands.ManageBranch.ProtectInto | src/manage/branch.rs:466-471 | each request is an action of the protocol; once the lock was put, the last request is its delete, and nothing else of the ref but the marker was asked for in between; success leaves the marker, refusal and contention change nothing but the lock; with the lock to itself and no fault, any outcome but contention leaves no lock behind |
| BranchCommands.ManageBranch.UnprotectUnderLock | src/manage/branch.rs:538-546 | working under the lock: one delete of the marker |
| BranchCommands.ManageBranch.UnprotectHoldingLock | src/manage/branch.rs:527-529 | from working under the lock to idle: the same, and the last request is the delete of the lock |
| BranchMoves.FirstPutActs | src/protocol/push.rs:672-678 | the first `put_if_absent`, whatever it is answered, is an action of the protocol |
| BranchMoves.RecoveryActs | src/protocol/push.rs:689-692 | so is the delete of a stale lock |
| BranchMoves.ReleaseActs | src/manage/branch.rs:585-595 | so is the release, from wherever the work stopped |
| BranchMoves.SweepStarts | src/manage/branch.rs:242-298 | so is a listing with something to sweep and no marker: the sweep it starts is of what it shows |
| BranchMoves.SweepActs | src/manage/branch.rs:324-335 | so is one delete of the sweep |
| BranchMoves.TombstoneActs | src/packchain/gc.rs:471-492 | so is the tombstone: no ref lists it |
| BranchMoves.ShowsData | src/manage/branch.rs:478-487 | the key-level test of a listing says whether the ref has data |
| BranchMoves.MarkingStarts | src/manage/branch.rs:478-487 | a listing with branch data lets the marker be written |
| BranchMoves.MarkActs | src/manage/branch.rs:488-492 | and writing it is an action of the protocol |
| BranchMoves.UnmarkActs | src/manage/branch.rs:538-546 | so is removing it |
| BranchProtocol.ActsAreSteps | src/manage/branch.rs:192-546 | each action is at most two steps of the machine |
| BranchCommands.ManageBranch.UnprotectInto | src/manage/branch.rs:525-546 | each request is an action of the protocol; once the lock was put, the requests are the delete of the marker and then that of the lock; success leaves no marker, and a missing one counts as removed; with the lock to itself and no fault, any outcome but contention leaves no lock behind |
| BranchProtocol.TurnIsLocal | src/manage/branch.rs:227-546 | one request touches at most one key, under the client's own ref |
| BranchProtocol.OtherListingsAgree | src/manage/branch.rs:82-84 | without nested refs a key under one ref is listed under no other |
| BranchProtocol.ListingIsRight | src/manage/branch.rs:242-262 | a sweep starts with no marker on the bucket |
| BranchProtocol.PushIsRight | src/protocol/push.rs:1442-1561 | a push leaves its new bundle before it may remove another |
| BranchProtocol.TurnIsRight | src/manage/branch.rs:213-546 | a client leaves the marker of its ref with data, and its own decision still right |
| BranchProtocol.WritersAreAlone | src/protocol/push.rs:672-699 | a client that changes the bucket is alone in the critical section of its ref |
| BranchProtocol.StepKeepsInv | src/manage/branch.rs:213-546 | every step of every client keeps the invariant, crashes and failed requests included |
| BranchProtocol.HeartbeatKeepsInv | src/protocol/push.rs:716-768 | so does a heartbeat, even one that lands late |
| BranchProtocol.ElsewhereKeepsInv | src/packchain/gc.rs:471-492 | so does a write that no ref lists |
| BranchProtocol.ProtectedRefsHaveData | src/manage/branch.rs:242-263 | in every state of every run in which no lock of a working client is deleted as stale, crashes, leaks and late heartbeats included, a protected ref has branch data and no ref has two holders of its lock |
| BranchProtocol.SafeIffNoNestedRefs | src/manage/branch.rs:213-263 | markers imply data in every run whose locks start free, are kept fresh and do not leak, if and only if no ref lies inside another |
| BranchProtocol.NestedRefsLoseData | src/manage/branch.rs:242-263 | for any nested pair, a run in which the inner ref ends protected and empty |
| BranchProtocol.DecideNested | src/manage/branch.rs:242-298 | each takes its own lock, and the data of the inner ref is listed under both |
| BranchProtocol.NobodyStartsRecovering | src/protocol/push.rs:679-699 | with nothing orphaned, every lock found is held and fresh, so nobody gets to recover one |
| BranchProtocol.TimelyRunsAreSafe | src/protocol/push.rs:672-768 | so from an unlocked bucket the invariant holds in every state of every timely run |
| BranchProtocol.ExclusiveIffUnlocked | src/protocol/push.rs:659-699 | from any start, with two clients or more, every timely run keeps each lock to one holder if and only if no lock key is there at the start |
| BranchProtocol.BothTakeTheLock | src/protocol/push.rs:672-699 | from any start, two clients that find a left-behind lock stale both take it, in a run where every client is in time |
| BranchProtocol.LateRecoveryLosesData | src/protocol/push.rs:659-699 | and such a run ends with a ref protected and empty |
| Snapshot.TrimIsIdentityIff | src/manage/snapshot.rs:220-223 | trimming changes exactly the strings with whitespace at an end |
| Snapshot.TrimIs | src/manage/snapshot.rs:220-223 | trimming takes the whitespace at both ends and nothing else |
| Snapshot.HeadReadsBackIff | src/manage/snapshot.rs:218-225 | a name written to HEAD reads back as itself if and only if it is not empty and has no whitespace at an end |
| Snapshot.BundleKeyReadsBack | src/manage/snapshot.rs:238-271 | classification of a bundle key gives back its ref and commit |
| Snapshot.ItemNamesItsKey | src/manage/snapshot.rs:238-284 | and what is classified as bundle, manifest or marker has that key |
| Snapshot.RepoSnapshot.Insert | src/manage/snapshot.rs:249-284 | one classified key updates the entry of its ref and nothing else |
| Snapshot.RepoSnapshot.ClassifyInto | src/manage/snapshot.rs:200-286 | slots one key in: HEAD is fetched and decoded, locks, archives, bookkeeping and foreign keys are left out |
| Snapshot.AnalyzeObjects | src/manage/snapshot.rs:164-193 | the snapshot shows exactly the visible items of the listing, bundles and malformed keys in listing order; the only requests are fetches, one for each time HEAD is listed and visible, and no write |
| Snapshot.FoldObject | src/manage/snapshot.rs:186-191 | one turn of the fold: a hidden object is passed over, any other is classified |
| Snapshot.HeadIsListedOnce | src/manage/snapshot.rs:164-193 | a listing has HEAD at most once, so it is fetched at most once |
| Snapshot.EntryIffMentioned | src/manage/snapshot.rs:249-284 | a ref has an entry if and only if a visible marker, well-formed bundle or manifest is listed under it |
| Snapshot.OrderDoesNotMatter | src/manage/snapshot.rs:164-193 | another listing order gives the same snapshot up to the order of bundles and malformed keys |
| Snapshot.DistinctShas | src/manage/snapshot.rs:255-271 | bundles under a ref have pairwise distinct commits |
| Snapshot.BundlesAreOnBucket | src/manage/snapshot.rs:238-271 | the snapshot shows a bundle if and only if it is on the bucket, visible and well-formed |
| Snapshot.ChainIsOnBucket | src/manage/snapshot.rs:278-284 | the same for the manifest |
| Snapshot.MarkerIsOnBucket | src/manage/snapshot.rs:249-256 | a ref is shown as protected exactly when its marker is visible on the bucket |
| Snapshot.MalformedIsOnBucket | src/manage/snapshot.rs:257-277 | the malformed bundle keys listed are exactly the visible keys right under a ref that end like a bundle without a commit before the ending |
| Snapshot.DataIsListed | src/manage/mod.rs:75-83 | data in the snapshot is branch data in the listing of the ref |
| Snapshot.DataIffShown | src/manage/snapshot.rs:255-284 | the snapshot has data for a ref exactly when its own listing has a visible 40-hex bundle or manifest right under it |
| Snapshot.OnlyKeyDataIff | src/manage/mod.rs:69-83 | the two data tests disagree exactly when some key carries data and no such key shows as data; then only the key-level one says yes |
| Snapshot.ArchiveIsOnlyKeyData | src/manage/mod.rs:75-83 | an archive alone is such a listing |
| StaleLocks.StaleIff | src/manage/doctor.rs:637-673 | stale means older than the TTL, or stamped in the future when the TTL is zero |
| StaleLocks.ScanFlags | src/manage/doctor.rs:637-673 | a lock is reported with its age exactly when that is more than the TTL, or with age zero when it is stamped in the future and the TTL is zero |
| StaleLocks.ReportedIffStale | src/manage/doctor.rs:637-673 | the same by key |
| StaleLocks.ScanIsAntitone | src/manage/doctor.rs:637-673 | a longer TTL reports no lock a shorter one does not, future stamps and TTL zero included |
| StaleLocks.ZeroTtlFlagsAllIff | src/manage/doctor.rs:120-135 | TTL zero reports every lock if and only if none carries the instant of the scan |
| StaleLocks.ZeroTtlSparesFreshLock | src/manage/doctor.rs:637-673 | a lock that TTL zero does not report |
| StaleLocks.RefusalMeansNewTimestamp | src/manage/doctor.rs:715-743 | with a clock that does not run back a reported lock is refused only when its timestamp is newer, or at TTL zero at the very instant of its stamp |
| StaleLocks.DeleteIfStillStale | src/manage/doctor.rs:709-769 | a lock is deleted only if the metadata read at its re-check was stale; every skip leaves it |
| StaleLocks.TallyAfter | src/manage/doctor.rs:709-769 | the outcome is told by the requests: one look, and a delete answered well or not |
| StaleLocks.HandleLock | src/manage/doctor.rs:574-620 | one turn of the loop keeps the count of what was asked, and leaves every key but reported locks alone |
| StaleLocks.HandleNext | src/manage/doctor.rs:601-620 | one turn with its three counters: removed, skipped for any reason, or failed |
| StaleLocks.HandleStaleLocks | src/manage/doctor.rs:574-620 | each reported lock is re-checked, and deleted if that finds it stale, and so many re-checks are made; deleted counts the deletes that were answered well, failed those that were not, skipped the rest; no key but a reported lock changes; without the option nothing is asked |
| Repair.DeletesAreGuarded | src/manage/doctor.rs:329-384 | against any other clients: a bundle is deleted only after the operator said yes to the fix of its ref and a HEAD of the keeper then succeeded, and it is not the keeper |
| Repair.KeeperIsNeverDeleted | src/manage/doctor.rs:329-384 | the keeper is never deleted |
| Repair.HeadWritesAreGuarded | src/manage/doctor.rs:499-569 | against any other clients: HEAD is written only with a branch that the request just before found to have branch data; in a quiet bucket that data is still there |
| Repair.LocksAreLeft | src/manage/doctor.rs:593-599 | a run that keeps to a plan without lock removal touches no lock key with any request |
| Repair.CopiedJustBefore | src/manage/doctor.rs:409-438 | in quarantine mode the delete follows the successful copy of the same bundle |
| Repair.StepKeepsBody | src/manage/doctor.rs:409-449 | one request keeps the body of an evicted bundle at its key or in quarantine |
| Repair.QuarantineLosesNoBody | src/manage/doctor.rs:409-449 | in every intermediate state of a run the body of a bundle being evicted is on the bucket, at source or destination, if no one else touches those keys |
| Repair.LosersDoNotMeet | src/manage/doctor.rs:416-423 | when quarantining with fresh suffixes, no quarantine key is a bundle key of the snapshot or another quarantine key |
| Repair.WhereItWas | src/manage/doctor.rs:373-385 | a bundle present after the evictions was there before or came from quarantine |
| Repair.PlanLeavesOneEach | src/manage/doctor.rs:373-385 | the evictions leave at most one bundle for each ref |
| Repair.PlanKeepsData | src/manage/doctor.rs:373-385 | every ref with data keeps some |
| Repair.PlanMakesNoBranch | src/manage/doctor.rs:416-423 | quarantine makes no branch under refs/heads where there was none |
| Repair.RunRepairs | src/manage/doctor.rs:165-216 | evictions, HEAD step and lock removals together leave a repaired bucket |
| Doctor.Partition | src/manage/doctor.rs:377-380 | the kept and the losing bundles: together all of them |
| Doctor.Doctor.EvictLosingBundle | src/manage/doctor.rs:388-450 | one eviction is disciplined; in a quiet bucket it removes the bundle and writes at most its quarantine key |
| Doctor.Doctor.CopyToQuarantine | src/manage/doctor.rs:409-437 | one copy to the quarantine key of the bundle; in a quiet bucket no other key changes; a loser already gone counts as evicted |
| Doctor.Doctor.DeleteLoser | src/manage/doctor.rs:438-449 | one delete, in quarantine mode after the copy; a bundle already gone counts as deleted |
| Doctor.Doctor.EvictAll | src/manage/doctor.rs:382-385 | all losers go, or the first failure is returned |
| Doctor.Doctor.ThinOut | src/manage/doctor.rs:373-385 | the snapshot keeps exactly the chosen bundle, the bucket loses exactly the others |
| Doctor.Doctor.FixMultipleBundles | src/manage/doctor.rs:288-386 | without a choice and a yes nothing is asked and nothing changes; with them every loser is evicted and the snapshot keeps the chosen one, or a request met a fault, or the snapshot is stale, in a quiet bucket because the keeper is not there |
| Doctor.Doctor.CheckKeeper | src/manage/doctor.rs:329-371 | after the yes, one HEAD of the bundle to keep; not found, in a quiet bucket, means it is not there |
| Doctor.Candidates | src/manage/doctor.rs:463-468 | the branches offered are exactly those with data, in name order |
| Doctor.DuplicatedRefs | src/manage/doctor.rs:199-204 | the refs to fix are exactly those with several bundles, each once, in name order |
| Doctor.Doctor.FixHead | src/manage/doctor.rs:452-571 | the branch named is the one at the picked place among the candidates in name order; HEAD is written right after a fresh listing of it with branch data; without, nothing is written and the snapshot is stale: deleted meanwhile exactly when the listing is empty |
| Keys.SortedIsOne | src/manage/doctor.rs:463-468 | a set of names has one sorted list, so a place in it names one branch |
| Doctor.Doctor.NameBranch | src/manage/doctor.rs:499-572 | the re-listing and the write, request by request |
| Doctor.Doctor.FixRefs | src/manage/doctor.rs:199-208 | after the loop every ref with several bundles was answered for, and every loser of a confirmed one is evicted |
| Doctor.Doctor.FixAll | src/manage/doctor.rs:205-208 | every ref with several bundles is gone through; the snapshot keeps which refs have data |
| Doctor.Doctor.Analyse | src/manage/doctor.rs:165-172 | one listing and its snapshot, with reads only |
| Doctor.Doctor.SettleHead | src/manage/doctor.rs:210-212 | a valid HEAD is left alone; in a quiet bucket the snapshot is never found stale |
| Doctor.Doctor.RefIsRight | src/manage/snapshot.rs:238-284 | each ref of the snapshot is what the bucket has under it |
| Doctor.Doctor.HeadValidIff | src/manage/snapshot.rs:120-125 | the snapshot's HEAD is valid if and only if the bucket's HEAD names a ref with data |
| Doctor.Doctor.NothingToFix | src/manage/doctor.rs:165-216 | re-analysing a repaired bucket finds no ref with several bundles and a valid HEAD or no branch with data |
| Doctor.Doctor.PlanIsPlanned | src/manage/doctor.rs:165-216 | the plan of a run is what its one listing and the operator's answers say |
| Doctor.Doctor.PlansAgree | src/manage/doctor.rs:165-216 | and there is only one such plan |
| Doctor.Doctor.AgreedAnswersFit | src/manage/doctor.rs:288-336 | answers that suit the bucket suit every snapshot of it |
| Doctor.Doctor.RunConcludes | src/manage/doctor.rs:165-216 | the steps of a finished run add up to a repaired bucket |
| Doctor.Doctor.HeadEndsAsPicked | src/manage/doctor.rs:210-212 | what the HEAD step of a finished run leaves in a quiet bucket: HEAD untouched, or naming the picked branch of the bucket |
| Doctor.Doctor.FixRefsAndHead | src/manage/doctor.rs:199-212 | the two fixes, and nothing at all on a repaired bucket |
| Doctor.Doctor.SweepLocks | src/manage/doctor.rs:214-214 | the last step: with the option every stale lock listed is re-checked and deleted if it is still stale; without it nothing is asked and nothing changes; in a quiet bucket no other key changes |
| Doctor.Doctor.LocksStay | src/manage/doctor.rs:593-599 | a run without the option writes and deletes no lock key, and in a quiet bucket every lock is kept |
| Doctor.Doctor.FixAndSweep | src/manage/doctor.rs:199-216 | the same with the lock sweep |
| Doctor.Doctor.RunInto | src/manage/doctor.rs:165-216 | the run lists first and follows the plan that this listing and the answers determine; every request is disciplined; a finished run evicted every loser of every confirmed ref and, with the option, re-checked every stale lock listed and deleted those still stale; without the option no request writes or deletes a lock. In a quiet bucket: with answers that suit it and no fault it finishes and leaves the bucket repaired; HEAD is left alone when it names data, and otherwise names the branch at the picked place in the sorted list of branches with data; a store failure means a fault; no run finds the snapshot stale if, when quarantining, the suffixes are fresh; and on a repaired bucket a run changes no key but stale locks |
| BundleHeader.HeaderReader.ReadUntilNewline | src/bundle.rs:153-158 | stops at the first newline, the budget or the end of the file |
| BundleHeader.HeaderReader.ReadHeaderLine | src/bundle.rs:132-197 | refuses exactly when no line within 16 KiB, within the 64 MiB total and valid as UTF-8 can be read; counts what it read |
| BundleHeader.HeaderReader.VerifyPackMagic | src/bundle.rs:250-267 | accepts exactly PACK |
| BundleHeader.HeaderReader.NextHeaderLine | src/bundle.rs:132-197 | the next line is the one every well-formed header has here |
| BundleHeader.HeaderReader.ReadMagic | src/bundle.rs:84-93 | refuses only files that begin with no header |
| BundleHeader.HeaderReader.ReadEntry | src/bundle.rs:98-105 | one classified line; at the blank one the header is complete exactly when PACK follows |
| BundleHeader.HeaderReader.Read | src/bundle.rs:74-119 | succeeds if and only if the file begins with a well-formed header; then refs and prerequisites are the in-order classification of its lines and the offset is the sum of their lengths |
| BundleHeader.OneReadableLine | src/bundle.rs:153-185 | there is one line to read at each place |
| BundleHeader.HeaderIsUnique | src/bundle.rs:74-119 | a file begins with at most one header |
| BundleHeader.ReadNamesAreTrimmed | src/bundle.rs:213-247 | no name that is read is empty or ends in a line ending |
| BundleHeader.RefLineReadsBack | src/bundle.rs:213-247 | the ref line of a name without its own line ending reads back |
| BundleHeader.EntryReads | src/bundle.rs:213-247 | what any line reads as, each if and only if: the end when nothing is left of it without its line ending; a prerequisite for a dash, 40 digits and nothing or a space and anything; a ref for 40 digits, a space and a name that is not empty |
| BundleHeader.PrerequisiteReads | src/bundle.rs:218-222 | a dash and 40 digits, followed by nothing or by a space and any comment, is that prerequisite |
| BundleHeader.RefReads | src/bundle.rs:224-236 | 40 digits, a space and a name is that ref |
| BundleHeader.TrimEolIs | src/bundle.rs:213-214 | the line ending that is stripped is all the trailing newlines and carriage returns and nothing else |
| BundleHeader.Utf8IsEncoded | src/bundle.rs:188-193 | what counts as text is the UTF-8 encoding of some sequence of Unicode scalar values |
| BundleHeader.EncodedIsUtf8 | src/bundle.rs:188-193 | and every such encoding does |
| BundleHeader.HeaderWriter.WriteBundleHeader | src/bundle.rs:444-453 | appends the magic, the ref line and a blank line |
| BundleHeader.WrittenIsHeader | src/bundle.rs:444-453 | what is written for a good name, with PACK after it, is a well-formed header with that one ref |
| BundleHeader.RoundTrip | src/bundle.rs:444-453 | for a newline-free name that fits the line cap, reading what was written gives that one ref, no prerequisite and the header length, if and only if the name is not empty and does not end in a carriage return |
| BundleHeader.SaidReadsBack | src/bundle.rs:213-247 | each entry as git writes it, a prerequisite with or without a comment or a ref, reads back as itself |
| BundleHeader.SaidIsHeader | src/bundle.rs:74-119 | the magic, any such lines in any order, a blank line and PACK are a well-formed header |
| BundleHeader.ReadBack | src/bundle.rs:74-119 | reading such a bundle gives exactly its prerequisites and its refs, in order, and where the pack begins |
| Lfs.Announce | src/lfs/agent.rs:244-250 | a zero report is dropped, any other announced with the running total |
| Lfs.WithProgressStream | src/lfs/agent.rs:217-268 | for every interleaving of reports and polls the events are those of the reports in order; after a failed write a prefix of them |
| Lfs.Serve | src/lfs/agent.rs:95-136 | one answer to one request: its progress and one complete event, or a refusal of a malformed oid |
| Lfs.ServeAll | src/lfs/run.rs:193-217 | every transfer before terminate is answered, in input order |
| Lfs.TransferServed | src/lfs/run.rs:193-217 | one transfer more, one answer more |
| Lfs.Run | src/lfs/run.rs:151-219 | a run ends as the input says: a bad first line, a failed init, a malformed line at its place, a terminate or the end; or a write failed. What it wrote is the acknowledgement, an error exactly for an empty remote or one that does not resolve, and one answer to each transfer before that end, in input order, and a prefix of it when a write failed |
| Lfs.AnswerIsTranscript | src/lfs/run.rs:193-217 | an answer is zero or more progress events and exactly one complete event, all of the same oid |
| Lfs.AnswerTellsOutcome | src/lfs/agent.rs:95-136 | the complete event is an error exactly for a malformed oid or a failed transfer, and carries a path only for a download that worked |
| Lfs.TransfersGoOn | src/lfs/run.rs:193-217 | nothing but terminate and a malformed line stops what is asked for |
| Lfs.TransfersStop | src/lfs/run.rs:193-217 | each of these stops all of it, and a line by itself asks for what it says |
| Lfs.WellFormedIff | src/lfs/run.rs:193-217 | an input is well formed exactly when terminate comes before every malformed line |
| Lfs.ProgressIsRunningSum | src/lfs/agent.rs:244-250 | the n-th progress event carries the n-th positive report and the saturated sum up to it |
| Lfs.LastProgressIsTotal | src/lfs/agent.rs:237-265 | the last one carries the saturated sum of all reports |
| RemoteUrl.SlashSeparates | src/url.rs:685-690 | a slash separates the segments on its two sides, and what has none is one segment unless empty: so the segments of every path are determined |
| RemoteUrl.CanonicalSegments | src/url.rs:685-703 | a canonical path is spelled with single slashes and has the segments it was made of |
| RemoteUrl.ExtractFlags | src/url.rs:543-573 | the loop computes the settings of the query pair by pair, and its error is that of the first bad pair |
| RemoteUrl.FirstErrorStands | src/url.rs:543-573 | nothing after a bad pair changes the error |
| RemoteUrl.QueryAcceptedIff | src/url.rs:543-573 | a query is accepted if and only if every pair is a documented flag with a value for it |
| RemoteUrl.QueryErrorIsFirst | src/url.rs:543-573 | otherwise the error is the one for the first pair that is not |
| RemoteUrl.LaterPairsReplace | src/url.rs:543-573 | a query without an error sets each flag to what the last pair for it says, or leaves its default |
| RemoteUrl.FlagsMean | src/url.rs:543-573 | the same flag by flag, under its own name |
| RemoteUrl.BucketIsBeforeLastMarker | src/url.rs:901-911 | the bucket is everything before the rightmost service marker |
| RemoteUrl.BucketIff | src/url.rs:901-911 | a host names a bucket exactly when something stands before its last marker |
| RemoteUrl.BlobIff | src/url.rs:999-1007 | an Azure host is taken as virtual-hosted if and only if it is a first label, the label `blob`, and more labels or nothing |
| RemoteUrl.AwsLeadIff | src/url.rs:719-728 | the part before the AWS suffix is what stands before either of the two, and no host has both |
| RemoteUrl.ShowsS3Iff | src/url.rs:761-793 | the six tests on the rest of an AWS host pass if and only if one of its labels is `s3` or begins with `s3-` |
| RemoteUrl.EarlyRefusals | src/url.rs:407-435 | cleartext is refused exactly for http to a host that is not loopback without the override; a presign lifetime is refused exactly when the last bundle_uri flag does not turn advertising on |
| RemoteUrl.MisplacedRefusals | src/url.rs:585-596 | a flag is misplaced exactly when the query names one of the other backend; an AWS host is refused exactly when none of its labels names the service |
| RemoteUrl.BadQueryRefused | src/url.rs:407-435 | a query with a bad pair is refused with the error of the first |
| RemoteUrl.S3MarkedUrl | src/url.rs:841-881 | a host that is a bucket and a service marker gives that bucket, virtual-hosted, and all of the path as prefix, unless path style is asked for |
| RemoteUrl.S3LabelUrl | src/url.rs:841-881 | any other host asked for as virtual gives its first label |
| RemoteUrl.S3PathUrl | src/url.rs:841-881 | in path style, asked for or for want of a marker, the first segment is the bucket and the others are the prefix; without segments the bucket is missing |
| RemoteUrl.AzureVirtualUrl | src/url.rs:978-997 | virtual-hosted, by its host or as asked for, the first label is the account, the first segment the container, the others the prefix |
| RemoteUrl.AzurePathUrl | src/url.rs:978-997 | otherwise the first two segments are account and container |
| RemoteUrl.AzureBlobUrl | src/url.rs:978-1007 | built from a dot-free account, `.blob`, more labels or nothing, a container and a prefix, with no style asked for, the URL gives exactly these |
| RemoteUrl.MissingPlaces | src/url.rs:841-997 | each refusal for a missing bucket, account or container, if and only if |
| RemoteUrl.TagIsRecovered | src/url.rs:503-512 | the tag that Display writes is the one parsing strips |
| RemoteUrl.S3KeepsSegments | src/url.rs:795-831 | resetting the path keeps its segments, in both styles |
| RemoteUrl.AzureKeepsSegments | src/url.rs:924-974 | the same for Azure |
| RemoteUrl.SlashesDoNotMatter | src/url.rs:685-703 | URLs that differ only in doubled or trailing slashes are one remote |
| RemoteUrl.CanonicalIsFixpoint | src/url.rs:407-448 | parsing what an accepted URL displays as gives the same remote, in both backends and both styles |

## Left out

- ObjectDb.DecodesIff: gix's `peel_to_kind` has no cycle guard; where it would not return on a cyclic tag the model gives an error.
- ShallowFile.GitDir.WriteShallowFile: the file lock, the temporary file and the rename are one atomic replacement; their failures, which leave the file as it was, are not modelled.
- Multipart.PreadExact: which operating-system error a failed read reports is left out.
- AzureBlocks.MultipartPutBytes: the concurrency limit, uploads still in flight after an abort and the HTTP headers of the commit are not modelled; part counts are below 2^64, as on a 64-bit usize.
- AzureBlocks.MultipartPutPath: the open file is one value: writes to it while the parts are read are not modelled.
- AzureRaces.RaceIsSafeIff: two uploads whose bodies are so large that the planner cuts them into parts of different sizes are left out, and so is what the second commit does once the first has discarded the blocks.
- BranchProtocol.ProtectedRefsHaveData: `gc sweep` and the doctor are not among the clients, and a lock's age is any answer the clock may give. Its hypothesis about stale deletes is on the run; ExclusiveIffUnlocked says when timely clients meet it.
- BranchProtocol.ExclusiveIffUnlocked: a timely run is one in which a lock is found stale only while nobody holds it, and no crash, failed release or late heartbeat leaves a lock behind.
- BranchCommands.ManageBranch.TryTombstoneBaseline: what a manifest parses to is a given map from its text, and the text of the tombstone is arbitrary.
- BranchCommands.ManageBranch.DeleteInto: nothing is said about keys outside the ref; the heartbeat of a held lock runs beside the command and belongs to the protocol machine.
- Snapshot.AnalyzeObjects: the bundles hidden by tombstones are a given set of keys, fixed for a run; reading the tombstones is left out.
- Doctor.Doctor.RunInto: the prompts are given answers, the suffixes given strings; the packchain report is left out.
- Store.ObjectStore.List: a listing is one atomic look at the bucket, where a paginated one is several.
- StaleLocks.HandleStaleLocks: the environment default of the TTL and the report text are left out.
- BundleHeader.HeaderReader.Read: read errors of the file system are left out; which of the two caps an error names is not stated.
- Lfs.Run: JSON, the resolver and the store are reduced to parsed events and to what each transfer reports and how it ends.
- RemoteUrl.CanonicalIsFixpoint: the text syntax of RFC 3986, percent-encoding included, belongs to the `url` crate: the model starts from parsed URLs and assumes that crate reads back what it prints. User info, port and fragment, which the code never looks at or changes, are not part of the endpoint. Name charsets, boolean words, engine names and the reading of numbers are arbitrary functions of one token.
- gix itself: pack encoding and decoding, merge bases, archives, ref transactions.
- S3 and Azure requests, credentials, signing, retries and status codes.
- `src/manage/compact.rs`, `src/manage/gc.rs` and the packchain engine beyond the tombstone of a deleted branch.
- `config_set_many` and `config_unset`: they depend on the section semantics of gix-config.
- Prompts, reports, tracing and command-line parsing: text and plumbing.

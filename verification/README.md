# Verification of dedup

`dedup` walks directories, finds groups of files with equal bytes, and replaces all but one file of
each group with a clone, a hard link or a symbolic link. This project models its logic in Dafny and
proves what it promises. `dafny verify dfyconfig.toml` checks all of it.

## What is modelled

**The lazy index** (`Twins`, `VisitedView`, `VisitedTree`). The visited tree is keyed by device, size,
first and last character and keeps one unhashed file per bucket until a second one arrives. Its
specification is the sequence of insertions: `Twin` is the earliest readable file of the bucket with the
digest. `VisitedView` says what one insertion does to a bucket; the class `VisitedTree` does it in place,
on nodes that are objects, and is proved to answer exactly `Twin`. The index is then proved equal to
comparing bytes with every earlier file, and its hashing cost is counted.

**The lists** (`AList`, `Queue`, `DuplicateTree`, `Visiting`, `DedupContext`). The growing array, the FIFO
queue and the tree of lists are classes updated in place. `DedupContext` runs the first phase with a
thread count of zero and is proved to reach the state `Serial`.

**The threads** (`Protocol*`, `Grouping`, `Groups`, `Exactness`). The first phase with any number of workers is
a state machine: every thread is deterministic, taking a lock is one step, a critical section up to its unlock
is another, and a schedule is any sequence of thread numbers. Inserting a file in the visited tree and putting
it on its list are separate sections, so the invariant (`Grouped`) counts the files in flight between them.
`Exactness` says what lists hold when nothing is in flight, and exactly when they are whole groups. No worker
exits before `done` is set, one that starts later leaves without a look at the queue, and the duplicates found
and the progress are counted right whatever the schedule (`ProtocolJoin`, `ProtocolCounts`).

**The walk** (`Survey`). An entry is true of the file system when it has the device, inode number, link count, flags
and length of a regular file, and opening the file finds its first and last byte and its clone id. The records of the
first phase are then proved true, and the theorems about the whole program speak of such entries.

**Paths** (`RelativePaths`, `PathChars`). Canonical paths are sequences of names. The relative path is
specified on names and computed on characters, with the source's loops and its zeroed buffer.

**Replacement** (`FileSystem`, `Replacing`, `Volume`). A file system maps names to inodes or symbolic links.
Each way of replacing a file is a run of system calls, and a script says how each call goes; the class
`Volume` performs the same calls in place and is proved to go through the same states.

**The second phase** (`Origin`, `Deduplication`, `Accounting`, `PhaseTwo`, `Outcomes`, `WholeRun`). `Chosen` says in words
which file is the origin, and `SelectOrigin` finds it with the count tree. `Deduplicated` and `AllGroups`
specify what happens to every file, and the class `Totals` does it on a volume. On these rest the accounting, the
dry run, and the promise of the whole program: on any number of devices and whatever the schedule, in clone mode
every name reads the bytes it read before, whichever calls fail, and with links exactly when no file was unlinked
without its link being made; and no name ever reads other bytes. `Outcomes` says which calls have to work for a
file to count as saved, and that a file that counts does share with its origin.

**Running twice** (`Idempotence`, `SecondRun`, `SecondPhase`, `AnyOrder`, `Steady`, `Resurvey`, `ProgramTwice`).
The program promises that files once processed need not be replaced by later runs (`README.md:34-37`). That is
proved of a second run that meets the files in the same order. In any other order, which threads may bring about,
it is proved to hold exactly when the first run met a condition (`Steady`): for one group, and for the
whole program with both of its phases run twice.

Digests are numbers, the all-zero digest being 0. A file that cannot be read, or whose digest is all zero,
is one that is not `Hashable`. Where content is spoken of, the digest is assumed to have no collisions on
the files at hand. Definitions have no row below; the rows name what is proved of them.

Where code and documentation disagree, the code is modelled:

- `map.h:128-129` says that the duplicate tree matches on device, too. `map.c:430` matches on the digest alone, so
  a list may hold files of several devices and miss one of every device but one (`ListMissesOnePerBucket`,
  `SecondDeviceLosesItsFirst`).
- `README.md:37-38` says that without links or clones the first file is the origin. `dedup.c:251-262` takes the
  first that is not compressed (`FirstFileIsOriginIff`).
- The comment at `dedup.c:727-728` says that queued files have one link; nothing there checks it, and the
  link count is only looked at in `dedup.c:211` and `dedup.c:297`.

Some promises hold only under a condition, which the code does not check; each is proved to be the exact one:

- Equal files are listed as comparing bytes would list them if and only if they are on one device
  (`EqualFilesAreGrouped`).
- An entry may be left in the queue when the producer has joined its workers (`EntryLeftBehind`). `QueueEmptyAtJoin`
  says exactly when none is.
- A hard or symbolic link is made after the old file is unlinked, so the file is lost exactly when the unlink
  works and a later call does not (`LinkKeepsBytesIff`, `SymlinkKeepsBytesIff`, `PhaseKeepsBytesIff`).
- link(2) never works between devices, and a list may hold files of several. When all else works, hard links keep
  all bytes if and only if every file attempted is on the device of its origin (`LinksNeedOneDevice`). With two equal
  files on each of two devices one is lost (`SecondDeviceLosesAFile`).
- `tmp_name` looks for the staging name with access(2), which finds files and directories and follows links. A
  symbolic link there that leads to neither is taken for a free name, clonefile(2) refuses, and the link is
  unlinked: a staging name that exists is spared if and only if it leads to a file or a directory, or the code
  gives up before, or the unlink fails (`ExistingStaging`, `DanglingStagingIsLost`). No bytes are lost with it.
- In clone mode a second run replaces nothing, in whatever order it meets the files, if and only if every group was
  steady in the first (`SecondRunInAnyOrder`, `QuietTwiceIff`). Where there are hard links that is to say that the
  most linked files are clones of each other, or that no file may be replaced; elsewhere, that it is not so that in a
  group without clones only the origin may be replaced and another file is not compressed. Two files with equally many
  links, and an immutable file, are inputs for which it fails (`LinkedOrderMatters`, `ImmutableOrderMatters`).
- The origin is optimal if and only if no clone id in the group has more files that may be replaced than its own
  (`OptimalIffMostEligible`). Immutable files and hard links can mislead the choice (`ImmutableFilesMislead`,
  `HardLinksMislead`).
- Two paths that fit in `PATH_MAX` may have a relative path between them that does not (`RelativeMayNotFit`).

## Model

| member | source | states |
|---|---|---|
| Twins.EarliestIsFirstMatch | map.c:292-366 | the specified answer is absent exactly when no earlier readable file of the bucket has the digest, and otherwise is the first such file, with its digest filled in |
| Twins.PrefilterIsContentEquality | map.c:199-242 | on one device, sharing device, size, first and last character and digest is the same as having equal bytes, so the pre-filter loses nothing |
| Twins.TwinIsEarliestEqualFile | map.c:292-366 | the answer to an insertion is the earliest readable file on the device with the same bytes, as comparing with every earlier file would find |
| VisitedView.InsertionIsRight | map.c:292-366 | one insertion keeps the view of the tree equal to the history: shape, answers, hashing debt and lone files, on every branch, including the stash that cannot be hashed and is replaced |
| VisitedView.EveryRun | map.c:292-366 | after any sequence of insertions every bucket holds one stashed file and no children or at least two children under their own digests, knows the earliest file of every digest, and hash attempts plus stashed unhashed files equal the insertions of unhashed files |
| VisitedView.InsertAnswersTwin | map.c:292-366 | in every reachable tree, the answer that the bucket gives is the earliest earlier file with the same key and digest |
| VisitedView.HashedAtMostOnce | map.c:247-290 | a file that is inserted once is hashed at most once, and hash attempts plus stashed unhashed files are the insertions of unhashed files |
| VisitedView.AloneIsNeverHashed | map.c:296-303 | a file is never hashed when every other is on another device or differs in size, first or last character |
| VisitedView.SplitDigestsMeaning | map.c:368-401 | the digests counted are those of readable files in buckets where two different readable digests have met |
| Visited.VisitedTree.PopulateSha256IfEmpty | map.c:247-290 | a digest that is there costs nothing and stays; an empty one costs one attempt, and is filled in exactly when the file can be hashed; the code tells a file that cannot be read from one whose digest is all zero |
| Visited.VisitedTree.FindOrCreateLastNode | map.c:199-242 | finds the one node of the bucket or makes an empty one, and changes no other |
| Visited.VisitedTree.InsertAt | map.c:292-366 | the branches of an insertion, in place on one node: its new contents, the files hashed, the answer, and the digest filled in |
| Visited.VisitedTree.Insert | map.c:292-366 | the tree then represents the longer history, and the answer is the twin of the file in the old one |
| Visited.VisitedTree.Count | map.c:368-401 | the number of distinct digests in the split nodes of all buckets |
| ALists.AList.constructor | alist.c:33-39 | an empty list of any capacity |
| ALists.AList.Ensure | alist.c:56-62 | room for the elements required, contents kept, capacity less than twice what is required when it grew |
| ALists.AList.Get | alist.c:72-77 | the element at the index, or nothing beyond the end |
| ALists.AList.Add | alist.c:79-82 | appends; over any number of adds fewer than two slots per add are copied by doubling |
| ALists.AList.Set | alist.c:84-90 | replaces the element, and does nothing beyond the end |
| ALists.AList.Remove | alist.c:93-103 | takes the element out and closes the gap, and does nothing beyond the end |
| Queues.FileEntryQueue.Append | queue.c:43-62 | the entry joins at the end |
| Queues.FileEntryQueue.Next | queue.c:64-73 | the first entry leaves, or nothing when there is none |
| Duplicates.DuplicateTree.Find | map.c:429-439 | the list of the digest, made empty when there is none, and no other list changes |
| Duplicates.DuplicateTree.Create | map.c:431-436 | a new empty list joins the tree, shared with no other digest |
| Duplicates.DuplicateTree.Add | dedup.c:126-144 | the file joins the end of its list, and no other list changes although lists are shared objects |
| Visiting.ListingSteps | dedup.c:125-144 | find, test for empty, add the twin, add the file: together they are one head and one tail step |
| DedupContexts.DedupContext.ListDuplicate | dedup.c:124-145 | the lists after one file with a twin |
| DedupContexts.DedupContext.CountDuplicate | dedup.c:123-161 | the lists after one file with a twin, and one more duplicate found unless the two are clones already |
| DedupContexts.DedupContext.VisitFile | dedup.c:118-165 | history, lists and the count of duplicates found after one visit |
| DedupContexts.DedupContext.VisitEntry | dedup.c:103-166 | an entry that cannot be opened changes nothing; any other is visited |
| DedupContexts.DedupContext.DedupWork | dedup.c:168-202 | with a thread count of zero, the first queued entry is taken and visited, and nothing once `done` is set |
| DedupContexts.DedupContext.ProduceSerially | dedup.c:734-754 | with a thread count of zero every entry is visited exactly once, in order, and the queue is empty at the end |
| Grouping.InsertKeepsGrouped | dedup.c:118-121 | after an insertion the lists and the files in flight still make up all files that had a twin |
| Grouping.HeadKeepsGrouped | dedup.c:124-128 | putting the twin at the head of a new list keeps that, and the head is the earliest readable file of its bucket |
| Grouping.TailKeepsGrouped | dedup.c:143-145 | putting the file on the list takes it out of flight and keeps the rest |
| Groups.GroupOfPermutation | dedup.c:103-166 | the group of a digest does not depend on the order of the files |
| Groups.GroupMeansContent | map.c:199-242 | the group of the digest of a file holds exactly the readable files with its bytes |
| Groups.LosersOfGroup | map.c:292-366 | where a digest belongs to one bucket, the files that had a twin are all of its group but the first, and the earliest is the first |
| Groups.ListsAtRest | dedup.c:124-145 | with nothing in flight, where a digest belongs to one bucket, its list exists exactly when two files have it, holds each once, and starts with the first inserted |
| Exactness.ListHasDistinctFiles | dedup.c:124-145 | with nothing in flight, on any number of devices, a list holds different files, each with its digest |
| Exactness.CountsAddUp | map.c:292-366 | of the files with a digest one for every bucket had no twin, and all others had one |
| Exactness.ExactIffOneBucket | map.c:429-439 | with nothing in flight, a list is exactly the group of its digest if and only if the files of the digest belong to one bucket |
| Exactness.OneBucketIffOneDevice | map.c:199-242 | which means, with a digest without collisions, that the readable files with those bytes are on one device |
| Groups.SerialIsGrouped | dedup.c:745-747 | visiting one file after the other keeps the lists right with nothing in flight |
| ProtocolLocks.LocksAlwaysAgree | dedup.c:118-194 | in every reachable state a lock is taken exactly when the thread that took it is in a section of that lock, or of the duplicates lock around it |
| ProtocolLocks.MutualExclusion | dedup.c:118-194 | no two threads are ever in sections of the same lock |
| ProtocolLocks.DeadlockFreedom | dedup.c:118-199 | in every reachable state in which the producer has not returned, some thread can move |
| ProtocolProgress.EveryRunCanFinish | dedup.c:118-202 | from every reachable state some continuation of the schedule leads to where all workers have exited and the producer returns, so no thread is ever stuck for good |
| ProtocolProgress.EveryStepCounts | dedup.c:168-202 | once `done` is set, every step of every thread leaves fewer steps to the end, polling included |
| ProtocolQueue.AlwaysConserved | dedup.c:168-202 | in every reachable state the entries taken, queued and still to come are all entries in order, and each entry taken is with exactly one worker or finished |
| ProtocolJoin.AlwaysJoinable | dedup.c:734-767 | in every reachable state, `done` is set once everything is queued, no worker has exited before that, a worker that found the queue empty after that found it empty for good, and joined workers have exited |
| ProtocolJoin.NoneLeavesEarly | dedup.c:178-186 | a worker that finds the queue empty goes on polling until `done` is set |
| ProtocolJoin.StartedTooLate | dedup.c:168-172 | if no worker moves before `done` is set, nothing is ever visited and all entries are left behind |
| ProtocolJoin.QueueEmptyAtJoin | dedup.c:734-767 | at the join nothing is half visited, and the queue is empty exactly when some worker found it empty after `done` was set or every entry had been taken by then |
| ProtocolJoin.EntryLeftBehind | dedup.c:174-182 | a schedule of one worker that leaves the only entry in the queue for good |
| ProtocolFlight.AlwaysConsistent | dedup.c:103-166 | in every reachable state the history is that of the entries seen, the lists and the files in flight are what it says, and what workers carry in local variables is still right |
| ProtocolCounts.AlwaysCounted | dedup.c:147-151 | in every reachable state the duplicates found and those still to be counted are the files whose twin had another clone id; the progress told and still to be told is that of the visits; and entries are announced as they are queued |
| ProtocolCounts.CountsAtJoin | dedup.c:147-188 | at the join no duplicate is uncounted: those found are what the serial run over the files seen counts; and with progress every entry was announced and every visit told |
| ProtocolCounts.SerialFound | dedup.c:147-151 | the serial run counts the files whose twin has another clone id |
| ProtocolGroups.AtRest | dedup.c:103-166 | once every entry is visited nothing is in flight, and the history is an ordering of all entries that could be opened |
| ProtocolGroups.JoinedIsAtRest | dedup.c:756-766 | once every worker is joined nothing is in flight, even if entries were left behind |
| ProtocolGroups.GroupsForEverySchedule | dedup.c:118-145 | for every schedule that visits all entries, the list of a digest is exactly its group if and only if its files belong to one bucket, and then starts with the file inserted first |
| ProtocolGroups.GroupsAtJoin | dedup.c:756-766 | the same for every schedule once the workers are joined, of the entries that were seen |
| ProtocolGroups.SchedulesAgree | dedup.c:118-145 | where a digest belongs to one bucket, every schedule that visits all entries finds the same group, as a multiset, as visiting the files one after the other |
| ProtocolGroups.ListMissesOnePerBucket | map.c:429-439 | on any number of buckets a list exists exactly when one of them has two files of the digest, and misses one file of every bucket but the one it starts with |
| ProtocolGroups.EqualFilesAreGrouped | dedup.c:118-145 | in bytes: the files equal to a readable file are listed exactly as comparing bytes would list them, each once and only when there are two, if and only if they are all on its device |
| ProtocolGroups.SoundOnSeveralDevices | map.c:429-439 | on any number of devices listed files have the digest of their list, and every file that had a twin when it was inserted is listed |
| ProtocolGroups.EqualOnSeveralDevices | map.c:429-439 | the same in bytes: listed files are equal to each other, and every readable file for which an earlier one on its device is equal is listed |
| ProtocolGroups.SecondDeviceLosesItsFirst | map.c:429-439 | two equal files on each of two devices give a list of three |
| Survey.OpenedIsRecorded | utils.c:103-185 | when the walk and the opening of files report the truth, every record holds the device, inode number, link count, flags, clone id, length, first and last byte of its file, and the files are those that can be opened, in order |
| Survey.WalkIsSurveyed | dedup.c:734-747 | so the records describe the bytes on the file system, under different names |
| Survey.WalkedFilesAreGrouped | dedup.c:118-145 | in terms of the walk: for every schedule files are listed as comparing the bytes on the file system would list them if and only if they are on one device |
| Survey.EveryOrderIsWalked | dedup.c:734-747 | the files in any order are what some truthful walk finds |
| RelativePaths.RelativeResolves | clone.c:290-364 | followed from the directory of one file, the relative path leads to the other |
| RelativePaths.RelativeIsShortest | clone.c:314-359 | no relative path that leads there, however it mixes going up and down, is shorter; the destination is a file and so not a directory above the source |
| RelativePaths.UpsAreExact | clone.c:314-359 | the number of steps up is the depth of the directory below the longest common directory |
| PathChars.SkipCommon | clone.c:308-344 | the loop over characters stops behind the common directories in both paths |
| PathChars.CountComponents | clone.c:346-350 | the loop over slashes counts the components left |
| PathChars.Write | clone.c:353-360 | writes `../` as often as told, then the rest, into a buffer of zeros |
| PathChars.TextLength | clone.c:346-360 | the length of the text: three characters for every directory to leave, and the rest of the destination |
| PathChars.RelativeMayNotFit | clone.c:353-360 | two canonical paths that fit in `PATH_MAX` whose relative path does not |
| PathChars.PathRelativeTo | clone.c:291-364 | the characters written are those of the relative path, ended by a zero, provided they fit |
| PathChars.TextReadsBack | clone.c:291-364 | the text, split at its slashes, is the relative path |
| PathChars.TextLeadsToDst | clone.c:291-364 | the text, split at its slashes and followed from the directory of the source, leads to the destination |
| Replacing.StagingTextNamesStaging | clone.c:69-87 | the text that is put together names that path |
| Replacing.StagingIsBeside | clone.c:69-87 | the staging path is in the directory of the file, its name is that of the file with `.~.` before it, and no two files share one |
| Replacing.StagedSafety | clone.c:192-276 | whichever call fails, at every step each name but the staging name is as before, and only a successful run ends with the destination replaced; a failing run leaves it alone; a staging name that led to a file or a directory is never touched |
| Replacing.ExistingStaging | clone.c:69-99 | exactly when a staging name that exists is left alone, among them when it leads to a file or a directory, and that otherwise the run fails with it unlinked and nothing else changed |
| Replacing.DanglingStagingIsLost | clone.c:89-99 | a symbolic link at the staging name that leads neither to a name nor to a directory is lost, whatever else works |
| Replacing.CloneSucceeds | clone.c:192-276 | exactly when the result is zero: which calls have to work, that nothing is at the staging name, not even a directory, that the files are on one device, and that the source is not empty |
| Replacing.CloneKeepsBytes | clone.c:192-276 | between files of equal bytes, at every step and under any failure, what every name reads is kept |
| Replacing.LinkReplaces | clone.c:279-288 | on one device, on success the two names share an inode and no other name changes |
| Replacing.LinkSucceeds | clone.c:279-288 | the result is zero exactly when both calls work and the files are on one device, which is when the file has become a hard link; it is 1 exactly when the unlink fails, and else the file is gone |
| Replacing.LinkKeepsBytesIff | clone.c:279-288 | what every name reads is kept unless, and only unless, the unlink works and the link fails, as it always does between devices |
| Replacing.SymlinkReplaces | clone.c:366-383 | when the relative path fits and every call works, the name is a link that leads to the source, and no other name changes |
| Replacing.SymlinkSucceeds | clone.c:366-383 | the result is zero exactly when every call works and the relative path fits, which is when the file has become a symbolic link to the source; it is 1 exactly when the unlink fails, and else the file is gone |
| Replacing.SymlinkKeepsBytesIff | clone.c:366-383 | what every name reads is kept unless, and only unless, the unlink works and the path cannot be had, does not fit, or the link fails |
| FileSystem.ExistsIffArrives | clone.c:89 | access(2) finds a name exactly when some number of symbolic links leads from it to a file or a directory, for which no more links than there are names need be followed |
| FileSystem.ChangeKeepsBytes | clone.c:192-383 | changing one name that is regular, so that it still reads its bytes, or one that leads nowhere, changes nothing for any name, also through chains of symbolic links |
| Volumes.Volume.FindZeroFile | clone.c:48-65 | tells apart a file that cannot be written, is gone, or is empty |
| Volumes.Volume.TmpName | clone.c:69-99 | a staging name exactly when it fits and following links leads to no file or directory there, and otherwise which error |
| Volumes.Volume.ReplaceWithClone | clone.c:192-276 | goes through the states of the specified run and returns its result |
| Volumes.Volume.ReplaceWithLink | clone.c:279-288 | goes through the states of the specified run and returns its result |
| Volumes.Volume.ReplaceWithSymlink | clone.c:366-383 | goes through the states of the specified run, with the target read back from the characters that `path_relative_to` writes |
| Origins.OneChoice | dedup.c:204-283 | at most one decision fits the description: most hard links, all cloned, first uncompressed, all compressed, most clones |
| Origins.FirstFileIsOriginIff | dedup.c:251-262 | with neither links nor clones the first file becomes the origin exactly when its flags do not say that it is compressed |
| Origins.TieGoesToSmallestId | map.c:508-519 | of two clone ids that equally many files have the smaller wins, and of its files the first |
| Idempotence.OriginIsAsPromised | README.md:30-34 | the origin has the most hard links if any file has several, and otherwise shares the most clones with others |
| Origins.DistinctIds | dedup.c:242 | there are as many ids as files exactly when no two files are clones |
| Origins.OneId | dedup.c:225 | there is one id exactly when the group is not empty and all are clones |
| Origins.CountAgain | map.c:494-506 | counting a file whose id has a node keeps the tree equal to the multiset of ids |
| Origins.CountFirst | map.c:494-506 | counting a file with a new id does, too, and its node remembers that file as the first |
| Origins.LeaderIsMostCloned | map.c:508-519 | the first node of largest count holds the first file of the smallest id that most files have |
| Origins.CloneIdCounts.Increment | map.c:494-506 | one more file is counted, and the count of its id is returned |
| Origins.CloneIdCounts.Count | dedup.c:225-242 | the number of nodes is one exactly when all are alike, and that of the files exactly when all are distinct |
| Origins.CloneIdCounts.Max | map.c:508-519 | the first file of the smallest id that most files have, and nothing for an empty tree |
| Origins.SelectOrigin | dedup.c:204-282 | the decision that fits the description |
| Deduplication.Totals.Replace | dedup.c:326-341 | the state and the result of the replacement that the mode asks for |
| Deduplication.Totals.Treat | dedup.c:293-369 | the new file system, the outcome and the counters for one file |
| Deduplication.Totals.ReplaceAll | dedup.c:288-370 | the file system and the counters after the loop over the group |
| Deduplication.Totals.Deduplicate | dedup.c:204-373 | the file system and the counters after one group |
| Deduplication.Totals.DeduplicateAll | dedup.c:778-780 | the file system and the counters after all groups |
| Accounting.CountersAreBytes | dedup.c:290-370 | the counters are the sizes of the files with the outcomes that count |
| Accounting.OutcomesAreExplained | dedup.c:293-369 | every file has exactly one outcome; the verdict depends on the metadata of the first phase alone |
| Accounting.EveryByteIsAccounted | dedup.c:290-370 | saved, already saved, lost to immutable files and failures, and the origin add up to the group, for any sizes |
| Accounting.GroupIsAccounted | dedup.c:225-370 | with equal sizes, unless all files are compressed and distinct, saved plus already saved plus the lost files make up all files but one |
| Accounting.DryRunPredicts | dedup.c:319-324 | a dry run leaves the file system alone and counts what a real run counts in which all replacements take; otherwise the difference is exactly the sizes of the files that failed |
| Accounting.OptimalIffMostEligible | dedup.c:218-317 | in clone mode, for every group and any origin: no other leaves fewer files to replace if and only if no clone id in the group has more files that may be replaced than its own |
| Accounting.OriginIsOptimal | dedup.c:218-282 | so the chosen origin is optimal among single-link files that may be changed |
| Accounting.ImmutableFilesMislead | dedup.c:218-282 | with immutable files the origin chosen need not be optimal |
| Accounting.HardLinksMislead | dedup.c:209-216 | nor with a hard-linked file beside single-link clones of each other |
| Outcomes.OutcomeTells | dedup.c:326-369 | for a file attempted: it failed exactly when some call did not work; it is done exactly when all worked and, in clone mode, the id was taken; a clone with another id is counted as shared exactly when it has no bytes of its own; and a file that is done is a clone, a hard link or a symbolic link of the origin |
| Outcomes.LoopCounts | dedup.c:290-370 | the two counters of the loop are the sizes of the files to be replaced whose replacement works, and of those that share already, are hard-linked and not forced, or became clones under another id |
| Outcomes.DoneStays | dedup.c:326-369 | a file that is done shares with the origin until the end of the loop, whatever fails later |
| Outcomes.SavedOnce | dedup.c:297-310 | with metadata taken anew, a file that is done is no regular file or is skipped as one that shares, even by force |
| Outcomes.UndecidedIsLeft | dedup.c:225-275 | a group of clones, and one of compressed files without clones, is left as it is, and what it counts |
| Outcomes.PhaseCounts | dedup.c:778-800 | the two numbers printed are those sizes over all groups, whatever fails |
| Idempotence.SameChoice | dedup.c:204-282 | the decision depends on link counts, flags and clone ids alone |
| Idempotence.OriginIdWins | map.c:508-519 | when clones are counted again, the id of the first origin has the largest count and wins ties |
| Idempotence.LinkedSettles | dedup.c:209-216 | with hard links the second run takes the same origin and replaces nothing |
| Idempotence.SingleSettles | dedup.c:218-282 | without them the second run finds one id, or nothing changed, or an origin with the same id, and replaces nothing |
| SecondRun.OthersRefreshAlike | clone.c:264 | replacing one single-link file changes neither metadata nor link count of any other |
| SecondRun.FirstRunRebuilds | dedup.c:290-370 | after a run in which all replacements take, metadata taken anew has the id of the origin for the files replaced and is otherwise as before |
| SecondRun.SecondRunReplacesNothing | dedup.c:204-373 | in clone mode, a second run on one group in the same order replaces no file and saves nothing |
| SecondRun.BytesAreConserved | dedup.c:225-370 | with equal sizes, the second run finds already saved what the first run saved or found already saved |
| SecondPhase.RunningAgainReplacesNothing | dedup.c:778-780 | the same for the whole second phase over any number of groups |
| AnyOrder.ChoosableIff | dedup.c:204-282 | which files some order of a group makes the origin: the most linked; without links those with the leading clone id, or any that is not compressed where no two are clones |
| AnyOrder.QuietInAnyOrderIff | dedup.c:204-317 | in clone mode no order of a group leads to a replacement if and only if no file that may be replaced differs in clone id from one that some order makes the origin |
| SteadyGroups.SteadyIff | dedup.c:204-370 | the same told from the first run alone: its group before the run and the origin it chose |
| SteadyGroups.SecondRunInAnyOrder | README.md:34-37 | after a run in which every replacement takes, a second run skips every file, whatever the order of the group and the calls, if and only if the first run found it steady |
| SteadyGroups.LinkedOrderMatters | dedup.c:209-216 | two files with equally many links: in the other order a second run takes the other one and replaces a third file again |
| SteadyGroups.ImmutableOrderMatters | dedup.c:251-262 | two files of which one is immutable: in the other order that one is the origin, and the other is replaced |
| Resurvey.PhaseKeepsFiles | dedup.c:778-780 | in clone mode, whatever fails, every regular file is still there, on its device and with its bytes |
| Resurvey.SurveyedAgain | dedup.c:103-117 | so metadata taken anew describes the same bytes, under the same digests |
| Resurvey.WalkedAgain | dedup.c:103-117 | a second walk that reports the same files gives the records of the first, taken anew, in its own order |
| Resurvey.DigestsStay | map.c:247-290 | and every file has the digest that it had, since the bytes are the same |
| Resurvey.SerialRefreshed | dedup.c:745-747 | and the first phase, meeting the files in the same order, makes the same lists of them |
| ProgramTwice.SerialProgramTwice | README.md:34-37 | both phases with a thread count of zero, run twice with walks that report the same files truthfully and in the same order, on any number of devices: the second run replaces and saves nothing, and finds already saved all that the first saved or found already saved |
| ProgramTwice.ProgramTwiceReplacesNothing | README.md:34-37 | both phases run twice with any schedules, the second walk reporting the same files and taking the lists in any order, equal files being on one device: if every group was steady in the first run, the second replaces and saves nothing |
| ProgramTwice.QuietTwiceIff | README.md:34-37 | after a first run with any schedule, the second finds nothing to replace in whatever order its walk reports the files if and only if every group was steady |
| ProgramTwice.SingleAndMutableIsAllSteady | README.md:34-37 | which every group is whose files have one link and may be changed |
| ProgramTwice.SerialListIsGroup | dedup.c:118-145 | where a digest belongs to one bucket, the list of a serial run is its group in the order in which the files were met |
| ProgramTwice.Arrange | dedup.c:118-145 | and every order of the group is that of some order of the files |
| PhaseTwo.AttemptTouchesOne | dedup.c:326-341 | whatever fails, one attempt changes no other regular file |
| PhaseTwo.AttemptKeepsBytes | dedup.c:326-341 | one attempt keeps what every name reads if and only if its calls are harmless: in clone mode always, with links unless the unlink works and the link is not made, and hard links are not made between devices |
| PhaseTwo.ThroughKeepsBytes | dedup.c:290-370 | the loop over one group keeps what every name reads when the calls for every file attempted are harmless, whichever file is the origin |
| PhaseTwo.ThroughLoses | dedup.c:290-370 | and a file for which they are not is gone at the end of the loop |
| PhaseTwo.PhaseTouches | dedup.c:778-780 | whatever fails, the second phase touches no regular file but those attempted |
| PhaseTwo.ImmutableIsLeft | dedup.c:312-317 | a file with an immutable flag of the user or the system is left as it is, in every mode, even by force, and whatever fails |
| PhaseTwo.PhaseKeepsBytesIff | dedup.c:778-780 | over all groups in any order, every name reads what it read before if and only if the calls for every file attempted are harmless, and so always in clone mode and in a dry run |
| PhaseTwo.PhaseReadsNothingElse | dedup.c:778-780 | in every mode and whatever fails, a name that can be read afterwards does not read other bytes than before: what is lost is missing |
| PhaseTwo.LinksNeedOneDevice | clone.c:279-288 | over all groups, when every unlink and link that can work does, all bytes are kept exactly when every file attempted is on the device of its origin |
| PhaseTwo.EveryStepKeepsBytes | dedup.c:778-780 | in clone mode the same holds at every state in between, after every system call of every replacement |
| PhaseTwo.PhaseKeepsLinks | dedup.c:297-302 | unless forced, two names of one inode before are two names of one inode afterwards, in every mode and whatever fails |
| WholeRun.ListsAreSound | dedup.c:118-145 | the lists of a first phase at rest, on any number of devices, are groups of different names with equal bytes, and no name is in two |
| WholeRun.ProgramKeepsBytes | dedup.c:644-780 | for a truthful walk, every schedule at the join, any number of devices and every order of the lists: in clone mode every name reads what it read before, whichever calls fail; with links exactly when the calls for every file attempted are harmless, which for hard links that otherwise work means on the device of its origin; no name ever reads other bytes than before; and, unless forced, shared inodes stay shared |
| WholeRun.SerialProgramKeepsBytes | dedup.c:745-780 | the same with a thread count of zero |
| WholeRun.SecondDeviceLosesAFile | clone.c:279-288 | in link mode, with two equal files on each of two devices and every call working that can, the last file is lost |

## Left out

- Replacing.SymlinkKeepsBytesIff: the chain of links that a name follows may be as long as it needs to be; the kernel's limit on it is not modelled, here or in `Exists`.
- FileSystem.ExistsIffArrives: a directory is there through the names in it; empty directories, and symbolic links among the directories of a path, are not modelled.
- PathChars.PathRelativeTo: requires that the text fits in `PATH_MAX`, because clone.c:353-360 does not check it; so does `Write`.
- Volumes.Volume.ReplaceWithSymlink: what happens when the text overruns the buffer is not defined; here no link is then made.
- PhaseTwo.PhaseTouches: speaks of regular files; of symbolic links it is proved that they read the same bytes, not that they are the same links, since a dangling one at a staging name may go.
- PathChars.TextLeadsToDst: paths are canonical, as realpath(3) returns them; relative or uncanonical texts and symbolic links among the directories are not modelled.
- DedupContexts.DedupContext.DedupWork: requires a queued entry or `done`, because the loop would poll for ever otherwise; polling is a step of the machine with threads.
- ALists.AList.Ensure: requires a positive capacity when it has to grow, because doubling zero does not end; so does `Add`. The callers start with 2 or 8.
- ProtocolGroups.EqualFilesAreGrouped: assumes distinct paths and a digest without collisions, because origins are excluded by record and lists are keyed by the digest.
- ProtocolProgress.EveryRunCanFinish: some continuation reaches the end; that the threads are scheduled so is up to the scheduler. Before `done` is set a worker may poll an empty queue for as long as the producer is not given its turn.
- SecondRun.SecondRunReplacesNothing: keeps the order of the group, and so do `BytesAreConserved` and `RunningAgainReplacesNothing`; `SecondRunInAnyOrder` and `QuietTwiceIff` are about every order. In another order the bytes already saved need not add up, since an immutable file may count as cloned in one order and as lost in another.
- ProgramTwice.ProgramTwiceReplacesNothing: needs equal files on one device, because on several the first file of all devices but one is on no list (`ListMissesOnePerBucket`), and another order lists it; `SerialProgramTwice` does not need it. That the second walk reports the same files is assumed.
- Volumes.Volume.ReplaceWithClone: the two writability tests are given by the script, and restoring the time of the parent directory changes nothing that is modelled.
- Visited.VisitedTree.FindOrCreateLastNode: the levels above the last-character nodes are maps held by value, rebuilt along the path; the last-character nodes are objects that change in place.
- Visited.VisitedTree.Insert: a record is a value, so the digest that the source fills in through its pointer is returned as `filled`.
- Deduplication.Totals.Deduplicate: the byte counters are unbounded and do not wrap at the width of `size_t`.
- The inside of `rbtree(3)` and `STAILQ`: a map, or an ascending sequence where the order counts, and a sequence.
- `mmap`, CommonCrypto, `getattrlist`: a digest per path that may be missing, and clone id, private size and flags as fields of the inode.
- Survey.OpenedIsRecorded: that the walk reports regular files that are not empty, truthfully and none twice, is assumed; which entries `main` passes over (dedup.c:660-725) is not modelled.
- `fts(3)`, `getopt_long(3)`, volume capabilities, the number of processors: the producer starts from a sequence of entries.
- The filter for staging names at dedup.c:719-725: it looks at the start of the whole path, so nothing rests on it.
- Other programs: nothing else changes the files between the first phase and the second, or between two runs.
- The `force` field: no option sets it, and both its values are modelled.
- Threads that cannot be created (dedup.c:648-655): the number of workers is fixed before the run.
- ProtocolCounts.CountsAtJoin: the count depends on the order of the visits, since a file is compared with the one that came first.
- Messages, how progress is displayed, sizes for humans, `usage`; the sections that print are in the machine for their locks alone.
- Allocation and the functions that free; `alist_dup` and `alist_trim`, which are empty; the FreeBSD branch of `genfile_clone`.

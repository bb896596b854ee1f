# Verification of the seminar programs

A Dafny model of the programs of this repository whose correctness is not visible in any one
function, with proofs of what they are for. `dafny verify dfyconfig.toml` checks all of it.

* **The shared stack** (`StackSpec`, `StackMachine`, `StackSafety`, `StackLinearizability`,
  `StackProgress`, `StackModes`, `StackWitness`, `StackBuffer`). Any number of processes, each with a program counter, run the
  `semop`s, semaphore reads and slot accesses of `push`, `pop` and `set_wait` one at a time in any
  order. Whatever wait modes they mix, the lock excludes, the tokens add up and every slot index is in
  bounds. Unless one of them waits without a limit, the slots behave as one atomic LIFO stack. A mode
  stays in force from one `set_wait` to the next.
* **The file transfer over signals** (`TransferSpec`, `TransferFiles`, `TransferMachine`,
  `TransferProof`, `TransferTheorems`, `TransferRivals`, `TransferSignals`, `TransferWitness`). A receiver and any number of rival senders exchange standard
  signals through mailboxes with one slot for each signal number, where a second instance is lost
  (section 2.4.1 of POSIX.1-2017 System Interfaces). Nothing is lost between the accepted pair and
  the destination ends up equal to the source; a rival that comes too late is killed.
* **The watch table of the backup daemon** (`ListPointer`, `Murmur`, `HashTable`, `WatchTable`): nodes
  with real `next` and `prev` pointers, lists of them, a table of lists over MurmurHash2. The whole
  is one list of bindings in the order they were set, and it closes every descriptor once.
* **The backups** (`Paths`, `Directories`, `FileSystem`, `BackupSpec`, `Backup`, `BackupRun`, `CreateDirectories`).
  `Disk` is a map from paths to inodes; its system calls fail whenever they like, except that on a
  disk that is `reliable` they fail only for what the files are. `Directories` says which directory a
  path names, and so what the textual check of the two paths is worth. A backup copies the tree and nothing
  else, and the inotify backup also watches every directory of it once, by a descriptor of its own.
* **The daemon's main loop** (`DaemonLoop`, `DaemonHistory`): what any sequence of signals can do to the
  mode, the wait set, the alarm and the flag that asks for a full backup, and which backups it calls for.
* **The command parser of pipe** (`PipeParser`), which cuts a text up in place in two passes, and
  **BIZZBUZZ** (`BizzBuzz`, `BizzBuzzWords`, `BizzBuzzRun`), which rewrites the numbers in a file of any length by
  what divides them, block by block.

Protocols are functions from a state and a step to a state, and theorems speak of every run. Objects that
a program changes in place are classes, whose methods are proved against functions, about which
the theorems are. `hide` statements only keep solver time down.

## Where the code does not do what it says

* The timed wait of the stack never succeeds: after the timeout the caller takes semaphore 0
  while it holds it (shared_stack/stack.c:239-250, 347-358). `TimedWaitCanOnlyFail` and `TimedRelockHangs`
  say so for every run, and `TimedRelockHappens` is a run where it comes to that.
* A waiting `pop` with `wait_val == 0` takes its token before it has the lock, so that a push can overwrite the
  value it is about to read: `WaitingPopLosesValue` is a run in which it returns the poison of an unused slot
  and a pushed value is gone.
* `check_include_directory` compares texts. On plain paths (not the root, no slash at the end, no empty
  component, no `.` or `..`, both absolute or both relative) it separates the source from the version
  directory exactly when source and destination differ (`CheckSeparates`); it always lets equal ones
  pass (`EqualPassesCheck`). It never sees that a destination lies in the root, or in a source whose path
  ends in a slash, nor that a relative one lies in an absolute source (`RootIsNeverSeen`,
  `TrailingSlashIsNeverSeen`, `MixedPathsAreNotSeen`). Of directories that lie apart it refuses exactly those
  where one path first occurs strictly inside the other, in front of a slash (`CheckRefusesApart`).
* A sender whose file is a multiple of 8 long queues an empty signal behind the last word. The
  receiver may already be gone, so that sender need not end (`MessageCounts`, `RunsEndComplete`); with any
  file of eight bytes it can come to that (`SenderNeedNotEnd`).
* No file of 2^31 bytes or more gets its size through the handshake: only sizes within 2^31 of 2^64, which no file
  has, would (`SizeSurvives`).
* After a new directory has been set in inotify mode, a full backup follows when the two directories are
  the same and an incremental one on the old watches when they differ; the log text says the
  opposite (daemon/src/daemon/main.c:147-154, 186-193; `NewDirectoryIsIndexed`). A stopped daemon goes on making inotify backups
  whenever a signal reaches it (`StoppedStillCopies`). `NewSourceIsNotIndexed` and `StoppedDaemonCopies` are runs
  in which this happens.
* The digit state of BIZZBUZZ is cleared only for a word that white space follows within its block, and
  then only the part of the word in that block is looked at. So the last word of a file without a final
  line end may come out wrong (`1 3` stays as it is, `LastWordCanBeWrong`), and so may a word that crosses
  the end of a block of 4096 bytes (`CrossingWordCanBeWrong`, `StoppedNumberCanBeWrong`). `OutputIsRewrite`
  says for every file when the output is right: exactly when the program judges each word as its digits alone
  deserve. `JudgedExactly` says which words those are, and `RewriteExactly` puts the two together: in one block
  (`WordInOneBlock`), cut with white space behind the last part in its block (`LastPartDecides`, `PartOfNumber`),
  a number cut that ends with a block or the file (`NumberCutAtEnd`, `StopsExactly`), and any other such word
  (`OtherCutAtEnd`). White space at the end of every block and of the file is enough (`NoWordAtBlockEnd`).

## Model

| member | source | states |
|---|---|---|
| StackSpec.ReplayExtends | shared_stack/stack.h:53-66 | a sequential history one operation longer is legal exactly when the shorter one is and the response is that of a bounded LIFO stack |
| StackSpec.ReplayConserves | shared_stack/stack.h:53-57 | a legal history stays within the bound, and what was pushed is what is still there plus what was popped |
| StackSafety.InitInv | shared_stack/stack.c:421-432 | the semaphore values and poisoned slots of a new stack satisfy the invariant |
| StackSafety.StepKeepsInv | shared_stack/stack.c:186-402 | no step of any process in any wait mode faults, and each keeps mutual exclusion, token conservation and index bounds |
| StackSafety.NextKeepsInv | shared_stack/stack.c:186-402 | the same for attaching, calling and returning |
| StackSafety.RunKeepsInv | shared_stack/stack.c:186-402 | the invariant holds in every world of every run |
| StackSafety.MutualExclusion | shared_stack/stack.c:191-192 | in every run and mix of wait modes sem 0 plus the number of lock holders is 1, through the release, wait and second acquisition of the waiting branches |
| StackSafety.TokensConserved | shared_stack/stack.c:208-228 | count + empty + tokens in flight = size in every run, so the semaphores stay within the size and no slot access leaves the segment |
| StackLinearizability.StepRefines | shared_stack/stack.c:186-402 | unless somebody sets wait_val to 0, each step is a step, or none, of an atomic LIFO stack under the same label; a timed wait that fails does so at its last check |
| StackLinearizability.RunRefinesAtomic | shared_stack/stack.c:186-402 | every run in which nobody sets wait_val to 0 is a run of the atomic stack with the same calls and returns |
| StackLinearizability.FreeLockShowsStack | shared_stack/stack.c:277-289 | whenever sem 0 is free the slots below sem 1 are the stack, the others are POISON, and count + empty = size |
| StackLinearizability.HistoryReplays | shared_stack/stack.c:277-289 | the operations, in the order in which they took effect, are a legal sequential history that leaves what is in the slots |
| StackLinearizability.CallsTakeEffectOnce | shared_stack/stack.c:186-402 | each process's calls and answers are, one for one and in order, its part of that history; only its last call may still be waiting |
| StackLinearizability.Linearizable | shared_stack/stack.c:186-402 | both together, for every run of the default and timed modes in any mix |
| StackLinearizability.ValuesConserved | shared_stack/stack.c:277-289 | no value is lost, invented or doubled by any interleaving of such operations |
| StackProgress.RankFalls | shared_stack/stack.c:186-402 | in every wait mode a step brings its process nearer to the end of its operation |
| StackProgress.WorkIsBounded | shared_stack/stack.c:186-402 | in every run at most 13 steps are taken for each call, so nothing spins |
| StackProgress.HolderNeverBlocked | shared_stack/stack.c:194-203 | in the default mode the lock holder can always move: what its check saw stays true |
| StackProgress.NeverStuck | shared_stack/stack.c:283-289 | in the default mode no reachable state with an unfinished operation is a deadlock |
| StackProgress.StuckOnlyAtRelock | shared_stack/stack.c:239-250 | when timed waits are mixed in, a state with an unfinished operation is stuck only if a process is at its second acquisition of sem 0 |
| StackProgress.AloneFinishes | shared_stack/stack.c:186-402 | a process that holds the lock or finds it free finishes within its rank, having done what the sequential operation does |
| StackProgress.UncontendedMeetsSpec | shared_stack/stack.c:385-401 | an operation left alone returns what the sequential stack returns, and leaves it in the slots |
| StackProgress.TimedWaitCanOnlyFail | shared_stack/stack.c:232-250 | a timed push or pop that had to wait is waiting or on its way to return -1, for the rest of the run |
| StackProgress.TimedRelockHangs | shared_stack/stack.c:340-358 | one that finds room after the timeout stays at its second acquisition of sem 0 for ever, with the lock |
| StackModes.ModesFollowCalls | shared_stack/stack.c:496-516 | in every run `wait_val` of a process is what its last set_wait asked for, as soon as that has written it, the default mode at first; only the timed mode is ever on a timed path, only the endless one on an endless path, and the endless one never fails |
| StackModes.PathsFollowMode | shared_stack/stack.c:305-313 | so a push or pop called while the mode last set is the default never waits, and none called in the endless mode fails |
| StackModes.FailsAtOnceByDefault | shared_stack/stack.c:205-209 | at its check for room or content a process turns to failing only in the default mode, and in that mode it does not turn to waiting |
| StackModes.PushWithToken | shared_stack/stack.c:208-229 | a waiting push with the only token, left alone, stores its value on top |
| StackModes.PopWithToken | shared_stack/stack.c:316-336 | a waiting pop with the only token, left alone, returns the value its token stands for and poisons the slot |
| StackModes.WaiterMeetsSpec | shared_stack/stack.c:208-229 | in every run and mix of modes, a push or pop with wait_val 0 that has, or can take, the only token in flight does when left alone what the sequential stack does |
| StackWitness.TimedRelockHappens | shared_stack/stack.c:340-358 | a run of two processes that comes to such an acquisition, with the value the pop waited for in the stack |
| StackWitness.WaitingPopLosesValue | shared_stack/stack.c:313-336 | with wait_val 0, for all values, a run in which both of two pushes and the pop that waited return, the pop has the poison and the first value is gone |
| StackBuffer.SharedStack.constructor | shared_stack/stack.c:82-85 | a new stack is empty and poisoned |
| StackBuffer.SharedStack.Push | shared_stack/stack.c:186-292 | an undisturbed push does to the slots what the sequential one does, and fails exactly on a full stack |
| StackBuffer.SharedStack.Pop | shared_stack/stack.c:294-402 | the same for pop, which fails exactly on an empty stack and poisons the slot |
| TransferSpec.SizeSurvives | signals/receiver.c:224 | the int of the handshake gives back the size exactly when it is below 2^31, or within 2^31 of 2^64, which no file reaches |
| TransferSpec.RoundExtendsPrefix | signals/receiver.c:242-264 | storing the sender's word, or its tail of 0 to 7 bytes, extends the part of the destination that agrees with the source |
| TransferFiles.ReceivedFile.constructor | signals/receiver.c:62 | no sender has been accepted yet |
| TransferFiles.ReceivedFile.HandlerUsr1 | signals/receiver.c:217-240 | accepts the first queued size and no other, and resizes the destination to it |
| TransferFiles.ReceivedFile.HandlerUsr2 | signals/receiver.c:242-264 | writes a word or the missing tail at the index, for signals of the accepted sender only |
| TransferSignals.FirstQueuedAccepted | signals/receiver.c:217-240 | of any sequence of SIGUSR1 the first one that was queued is accepted, with its sender and size, and no other |
| TransferSignals.FilledInOrder | signals/receiver.c:242-264 | over any sequence of SIGUSR2 the destination is filled with the words of the accepted sender, in order, cut off at the size |
| TransferFiles.SendedFile.constructor | signals/sender.c:152-158 | sending starts at index 0 |
| TransferFiles.SendedFile.NextValue | signals/sender.c:160-183 | the next word, or the last 0 to 7 bytes padded with zeros |
| TransferProof.StepKeepsInv | signals/receiver.c:81-122 | every step of receiver, accepted sender or rival keeps the two programs in step |
| TransferTheorems.RunKeepsInv | signals/receiver.c:81-122 | so does every run |
| TransferTheorems.ExactTransfer | signals/receiver.c:101-122 | in every run the destination agrees with the accepted sender's file below the index, and is that file when the receive loop has ended, tail included |
| TransferTheorems.NothingDropped | signals/sender.c:160-197 | no data signal and no acknowledgement between the accepted pair ever finds its slot taken, and at most one is outstanding |
| TransferTheorems.SessionStays | signals/receiver.c:217-224 | the accepted sender and the size never change |
| TransferTheorems.SingleSession | signals/receiver.c:81-116 | only one sender is ever acknowledged, sends data or gets past the handshake; the receiver's SIGTERM never reaches it; the first loop never consumes a data signal |
| TransferTheorems.MessageCounts | signals/sender.c:160-197 | at most size/8 + 1 data signals are sent and ceil(size/8) consumed; they match for a sender that is done, or that failed only at its final SIGTERM; when 8 divides the size the receiver had everything before the last, empty, one |
| TransferTheorems.MeasureFalls | signals/sender.c:160-197 | every step of the accepted pair uses up a bounded measure, and no step of a rival gives it back |
| TransferTheorems.SessionTerminates | signals/sender.c:160-197 | after the handshake the pair takes at most 4 (size/8) + 9 steps in any schedule |
| TransferTheorems.SessionNeverStuck | signals/receiver.c:101-122 | until the receiver is done, it or its sender can go on |
| TransferTheorems.RunsEndComplete | signals/receiver.c:101-129 | a run that accepted a sender and can go no further has transferred the whole file; unless 8 divides the size the sender has sent it all and is done, or has exited because the receiver was gone before its final SIGTERM |
| TransferRivals.RunKeepsOrder | signals/receiver.c:81-122 | in every run a size that waits at the receiver comes from a sender that waits for its answer, and SIGTERM comes from the receiver alone and to rivals alone |
| TransferRivals.StaysTurnedAway | signals/sender.c:250-261 | in every run a rival that has been turned away stays so, with SIGTERM on its way or ended by it |
| TransferRivals.RivalTurnedAway | signals/receiver.c:111-112 | in every run, a sender whose size the receiver takes while a transfer is running is sent SIGTERM by the receiver's next step and has been killed by it whenever nothing can move any more |
| TransferWitness.SenderNeedNotEnd | signals/sender.c:183-197 | for every file of eight bytes, a run after which the receiver has ended with the file, the sender waits for an acknowledgement, and nothing can move |
| TransferWitness.RivalIsKilled | signals/sender.c:250-261 | for every file of eight bytes, a run in which a second sender comes during the transfer and is killed |
| ListPointer.List.constructor | daemon/src/hashtable/list_pointer.c:3-15 | a new list is empty |
| ListPointer.List.FindElement | daemon/src/hashtable/list_pointer.c:62-74 | the node at a position counted from 1, stopping at the ends |
| ListPointer.List.FindValue | daemon/src/hashtable/list_pointer.c:76-93 | the oldest binding of a key, or null when there is none |
| ListPointer.List.InsertFirst | daemon/src/hashtable/list_pointer.c:95-112 | a list of one binding |
| ListPointer.List.InsertBegin | daemon/src/hashtable/list_pointer.c:174-197 | puts a binding in front and keeps head, tail, prev, next and size consistent |
| ListPointer.List.InsertEnd | daemon/src/hashtable/list_pointer.c:199-222 | appends a binding and keeps them consistent |
| ListPointer.List.InsertBefore | daemon/src/hashtable/list_pointer.c:114-142 | inserts before the k-th binding |
| ListPointer.List.InsertAfter | daemon/src/hashtable/list_pointer.c:144-172 | inserts after the k-th binding |
| ListPointer.List.Delete | daemon/src/hashtable/list_pointer.c:267-307 | removes a node from wherever it is and closes its descriptor |
| ListPointer.List.DeleteElement | daemon/src/hashtable/list_pointer.c:224-265 | removes the k-th binding and closes its descriptor |
| ListPointer.List.Clear | daemon/src/hashtable/list_pointer.c:32-60 | closes every descriptor once, from the tail to the head |
| ListPointer.SpliceLinks | daemon/src/hashtable/list_pointer.c:127-141 | pointing two neighbours at a node between them makes a consistent longer chain |
| ListPointer.UnlinkLinks | daemon/src/hashtable/list_pointer.c:267-297 | joining the neighbours of a node, or ending the chain there, makes a consistent shorter one |
| Murmur.MurmurHash2 | daemon/src/hashtable/hashtable.c:77-124 | the loop over words and the fall-through switch compute the recursive hash of the key, in 32-bit arithmetic |
| Murmur.OneByteApart | daemon/src/hashtable/hashtable.c:87-123 | every byte counts: two keys of the same length, any length, that differ as bytes in one position have different hashes |
| Murmur.HashOfAbc | daemon/src/hashtable/hashtable.c:107-123 | the hash of "abc", all of it in the switch, is 0x13577c9b |
| Murmur.HashOfAbcd | daemon/src/hashtable/hashtable.c:90-105 | the hash of "abcd", one turn of the loop, is 0x26873021 |
| WatchTable.RunConserves | daemon/src/hashtable/hashtable.c:46-73 | over any run, the descriptors inserted are those still bound plus those closed |
| WatchTable.EachClosedOnce | daemon/src/hashtable/hashtable.c:18-33 | descriptors that are distinct are closed at most once, and after the final clear exactly once |
| WatchTable.SetKeepsOldest | daemon/src/hashtable/hashtable.c:46-55 | setting a bound key does not change what get finds |
| WatchTable.RemoveUncovers | daemon/src/hashtable/hashtable.c:57-63 | removing a key uncovers its next binding and hides no other key |
| WatchTable.LookupIsOldestLive | daemon/src/hashtable/hashtable.c:35-73 | after any operations get finds the oldest descriptor that was set for the key and has not been removed or cleared, or 0 |
| HashTable.BucketAppend | daemon/src/hashtable/hashtable.c:46-55 | appending to the list appends to one bucket |
| HashTable.BucketFinds | daemon/src/hashtable/hashtable.c:35-44 | a key is found in its bucket exactly when it is in the list, as the same binding |
| HashTable.BucketRemove | daemon/src/hashtable/hashtable.c:57-63 | removing the oldest binding of a key from the list removes the oldest from its bucket and nothing elsewhere |
| HashTable.AllBuckets | daemon/src/hashtable/hashtable.c:65-73 | the buckets together hold what the list holds |
| HashTable.Table.constructor | daemon/src/hashtable/hashtable.c:3-16 | a new table of any size is the empty list |
| HashTable.Table.GetValue | daemon/src/hashtable/hashtable.c:35-44 | the oldest live binding of the key, or 0 |
| HashTable.Table.SetValue | daemon/src/hashtable/hashtable.c:46-55 | appends a binding to the one list and returns the hash; a table of size 0 stays as it is |
| HashTable.Table.Remove | daemon/src/hashtable/hashtable.c:57-63 | deletes the oldest binding of the key and closes the descriptor get would have found |
| HashTable.Table.Clear | daemon/src/hashtable/hashtable.c:65-73 | empties the table and closes exactly the descriptors in it |
| HashTable.Table.Destroy | daemon/src/hashtable/hashtable.c:18-33 | after it, closed is all that was ever inserted |
| Paths.FindIsFirst | daemon/src/daemon/backup.c:325-326 | strstr finds the first occurrence, or none when there is none |
| Paths.CheckSeesNesting | daemon/src/daemon/backup.c:323-332 | when the check passes, neither text continues the other behind a slash |
| Paths.CheckPassesExactly | daemon/src/daemon/backup.c:323-332 | the check passes exactly when that holds and neither text first occurs strictly inside the other in front of a slash |
| Paths.EqualPassesCheck | daemon/src/daemon/backup.c:323-332 | it lets every pair of equal paths pass |
| Directories.PlainNesting | daemon/src/daemon/backup.c:323-332 | on plain paths one text continues the other behind a slash exactly when the directory lies in the other, and the texts are equal exactly when the directories are |
| Directories.PlainApart | daemon/src/daemon/backup.c:323-332 | plain paths lie apart as texts exactly when their directories do |
| Directories.DotsResolve | daemon/src/daemon/backup.c:313-332 | a dot or an empty component names the directory itself, two dots the one it lies in, and the root lies in itself |
| Directories.CheckSeparates | daemon/src/daemon/backup.c:313-332 | on plain paths, when the check passes, source and new version directory lie apart exactly when source and destination differ |
| Directories.CheckRefusesApart | daemon/src/daemon/backup.c:323-332 | of plain paths to directories that lie apart it refuses exactly those where one first occurs strictly inside the other in front of a slash |
| Directories.CheckCanRefuseApart | daemon/src/daemon/backup.c:323-332 | two such paths |
| Directories.RootIsNeverSeen | daemon/src/daemon/backup.c:323-332 | with the root as source every plain absolute destination passes, although the version directory lies in the source |
| Directories.TrailingSlashIsNeverSeen | daemon/src/daemon/backup.c:323-332 | so does every destination inside a source whose path ends in a slash |
| Directories.MixedPathsAreNotSeen | daemon/src/daemon/backup.c:323-332 | and a relative destination inside an absolute source |
| FileSystem.Disk.CopyFile | daemon/src/daemon/backup.c:209-266 | on success the destination has the source's bytes, whatever read returns at a time; nothing else changes; on a reliable disk a new name can be filled |
| FileSystem.Disk.CopyLink | daemon/src/daemon/backup.c:268-302 | on success the same link, nothing else changed |
| FileSystem.Disk.CopyEntry | daemon/src/daemon/backup.c:71-120 | a FIFO, regular file or link is copied with its mode, contents or target; anything else is passed over |
| FileSystem.Disk.Watch | daemon/src/daemon/backup.c:430-446 | a descriptor that was not open now watches the directory, or nothing has changed |
| BackupSpec.FirstComponent | daemon/src/daemon/backup.c:70-170 | what lies below a directory lies below one of its entries |
| BackupSpec.EntryDone | daemon/src/daemon/backup.c:79-146 | copying one more entry extends the part of the tree that is copied exactly |
| BackupSpec.DirDone | daemon/src/daemon/backup.c:124-146 | making one more directory and copying its entries does too |
| BackupSpec.AllDone | daemon/src/daemon/backup.c:66-183 | when every entry is done the copy is exact |
| BackupSpec.SourceUnchanged | daemon/src/daemon/backup.c:46-183 | a copy leaves everything in the source as it was |
| Backup.EveryTreeIsBounded | daemon/src/daemon/backup.c:140-145 | the recursion ends on every tree |
| Backup.BackupTree | daemon/src/daemon/backup.c:46-183 | for plain paths that lie apart, a backup that returns 0 into an empty directory leaves there exactly the directories, files, links and FIFOs of the source; it only ever writes below the destination; on a reliable disk it does return 0 |
| Backup.BackupEntry | daemon/src/daemon/backup.c:70-170 | the same for one entry, with its subtree |
| Backup.BackupInotifyFull | daemon/src/daemon/backup.c:407-564 | the same, and the bindings added to the table are the directories of the source tree, each once, each to a new descriptor that watches it; no two are the same and no other has been opened, even when it fails |
| Backup.WatchEntry | daemon/src/daemon/backup.c:443-548 | the same for one entry, with the descriptors opened for its subtree |
| Backup.DistinctClosedOnce | daemon/src/daemon/backup.c:336 | of bindings whose descriptors are distinct, clearing the table closes each descriptor once |
| Backup.RefilledInStep | daemon/src/daemon/backup.c:336-376 | clearing the table and filling it again leaves open exactly the descriptors bound, each watching its key |
| Backup.RemoveInStep | daemon/src/daemon/backup.c:617-619 | so does removing a key that is bound |
| BackupRun.CheckDst | daemon/src/daemon/backup.c:23-44 | on success the destination is a directory, made if it was not there |
| BackupRun.Prepare | daemon/src/daemon/main.c:69-93 | makes both directories, gives the version directory the source's mode, and changes nothing else |
| BackupRun.ClassicBackup | daemon/src/daemon/main.c:58-107 | for plain paths: ignored exactly when the check fails; otherwise the version directory lies apart from the source; a shutdown comes before anything is written into it, and whatever was copied, it is there; on completion into a new version directory that directory is the source tree as it was; the source is unchanged in every case; on a reliable disk it completes |
| BackupRun.FullInotifyBackup | daemon/src/daemon/backup.c:334-405 | the same, and the table, cleared first with what was bound closed, watches every directory of the source tree once and nothing else; whatever the outcome, its bindings are the descriptors opened, each watching its key, and if only bound ones were open before so it is afterwards |
| CreateDirectories.SlashesInStep | daemon/src/daemon/backup.c:779-792 | in two names with the same tail the slashes follow at the same distances |
| CreateDirectories.CursorsInStep | daemon/src/daemon/backup.c:779-792 | so the two cursors of the loop always stand at the same offset of the relative name |
| CreateDirectories.Extend | daemon/src/daemon/backup.c:784-785 | a zeroed buffer that held a prefix of the name holds the longer one after strncpy, as a C string |
| CreateDirectories.MakeDirectory | daemon/src/daemon/backup.c:784-789 | a turn of the loop asks for exactly the growing prefixes and makes the directory with the source's mode |
| CreateDirectories.CreateDirectories | daemon/src/daemon/backup.c:769-796 | only directories on the way to the new name appear, with the modes of the source's; on a reliable disk it succeeds when the source's directories are there, and then every proper ancestor below the destination exists |
| DaemonLoop.StepKeepsSafe | daemon/src/daemon/main.c:52-280 | every event keeps the wait set in line with mode and power, the interval positive, an alarm set or pending and SIGCHLD pending in inotify mode |
| DaemonLoop.ModeKeeps | daemon/src/daemon/main.c:200-238 | whatever mode is asked for, SIGALRM is then in the wait set exactly in a running classic mode and SIGCHLD exactly in a running inotify mode |
| DaemonLoop.PowerKeeps | daemon/src/daemon/main.c:248-265 | so they are after the daemon has been stopped or started |
| DaemonLoop.DispatchKeeps | daemon/src/daemon/main.c:56-273 | every case of the switch leaves the wait set in line, the interval positive and the alarm set or pending |
| DaemonLoop.EveryRunIsSafe | daemon/src/daemon/main.c:52-280 | that holds after any sequence of signals until shutdown |
| DaemonLoop.BackupsGoOn | daemon/src/daemon/main.c:54-60 | a running daemon always has its next backup signal before it, and a stopped one takes neither |
| DaemonLoop.TurnKeepsOrder | daemon/src/daemon/main.c:200-280 | a turn keeps the order of switches, full and incremental backups |
| DaemonLoop.EveryRunIsInOrder | daemon/src/daemon/main.c:200-280 | a switch into inotify mode is followed by a full backup at once, and before every incremental backup there was a full one since the switch |
| DaemonLoop.OneSettingEach | daemon/src/daemon/main.c:56-273 | each signal changes its own setting and no other |
| DaemonLoop.SettingsFollowSignals | daemon/src/daemon/main.c:110-265 | after any events the mode is the one last asked for, the power follows the number of SIGINTs, the interval is the last positive one and the directories are the last ones read |
| DaemonLoop.SwitchesUndone | daemon/src/daemon/main.c:200-265 | stopping and starting restores the state; going to inotify mode and back by any other value restores the wait set |
| DaemonLoop.ModeSetWhileStopped | daemon/src/daemon/main.c:200-265 | a mode set while the daemon is stopped takes effect as if it had been running |
| DaemonLoop.NewDirectoryIsIndexed | daemon/src/daemon/main.c:125-198 | in inotify mode the backup of a turn with a new directory is full exactly when the directories are then the same |
| DaemonLoop.NewSourceIsNotIndexed | daemon/src/daemon/main.c:125-198 | a run in which the daemon is told to watch another directory and makes no full backup of it |
| DaemonLoop.StoppedStillCopies | daemon/src/daemon/main.c:275-280 | in inotify mode every turn ends with a backup, stopped or not; in classic mode none does |
| DaemonLoop.StoppedDaemonCopies | daemon/src/daemon/main.c:275-280 | a run in which a stopped daemon makes two backups |
| DaemonHistory.TurnDoes | daemon/src/daemon/main.c:54-280 | what one turn adds: a classic backup of the directories exactly at a SIGALRM at which they pass the check, with the alarm set again; a switch exactly at a new mode; an inotify backup in inotify mode, full exactly after a switch or a new directory that equals the other |
| DaemonHistory.DeedsFollowSignals | daemon/src/daemon/main.c:52-280 | after any events all backups made, of which directories, the switches, the alarm and whether the daemon has ended are given by the signals taken alone |
| DaemonHistory.ClassicBackupsCounted | daemon/src/daemon/main.c:58-107 | after any events there have been as many classic backups as SIGALRMs were taken while neither text of the directories continued or first occurred inside the other as the check sees it |
| DaemonHistory.AlarmMakesBackup | daemon/src/daemon/main.c:58-107 | in running classic mode, with directories that pass, the alarm going off makes exactly one backup of them |
| DaemonLoop.Daemon.constructor | daemon/src/daemon/main.c:34-50 | the state before the loop |
| DaemonLoop.Daemon.HandleSignal | daemon/src/daemon/main.c:54-280 | one whole turn of the loop is the step that the theorems are about |
| DaemonLoop.Daemon.Serve | daemon/src/daemon/main.c:52-281 | the loop over all events ends where the theorems say |
| PipeParser.SplitThenJoin | pipe/parser.c:73-91 | the segments between bars have no bar in them and joined by bars are the text |
| PipeParser.JoinThenSplit | pipe/parser.c:73-91 | bar-free segments joined by bars are read back |
| PipeParser.WordsReadBack | pipe/parser.c:133-153 | words written with a space and any more white space between them are read back |
| PipeParser.EveryTextIsWoven | pipe/parser.c:133-153 | every trimmed command is its words with such gaps between: nothing but gaps is lost |
| PipeParser.StrChr | pipe/parser.c:112 | where the character first is in the C string, or null |
| PipeParser.SkipSpaces | pipe/parser.c:115 | passes over exactly the leading white space |
| PipeParser.CountTokens | pipe/parser.c:73-91 | the number of segments, or 0 for a text without a bar |
| PipeParser.GetArgcCmd | pipe/parser.c:133-153 | the number of words of the command |
| PipeParser.GetArgvCmd | pipe/parser.c:155-193 | the second pass finds exactly the words counted by the first, as C strings in the buffer with a null pointer behind them; only separators of this command become NUL |
| PipeParser.PlacingPointersInText | pipe/parser.c:93-131 | for every command of the text, words and null pointer as a pure split gives them; writes for one command never alter another's words |
| PipeParser.ParseText | pipe/parser.c:6-19 | the same from the count on; a text without a bar is refused and left as it was |
| BizzBuzz.SumModThree | BIZZBUZZ/main.c:283-290 | a number of any length and its digit sum leave the same rest by 3 |
| BizzBuzz.LastModFive | BIZZBUZZ/main.c:293-295 | a number and its last digit leave the same rest by 5 |
| BizzBuzz.DigitsDecide | BIZZBUZZ/main.c:292-296 | what the digit state says of a word from a clear start is what its value, of either sign, divided by 3, 5 and 15 says |
| BizzBuzz.DecimalReadBack | BIZZBUZZ/main.c:277-290 | every integer of either sign is read back from its decimal form, with the sign in front |
| BizzBuzz.IntegersRewritten | BIZZBUZZ/main.c:259-297 | what is put for the decimal form of any integer is what its rests by 3, 5 and 15 say |
| BizzBuzz.OutputIsRewrite | BIZZBUZZ/main.c:93-212 | for every file the output is the specified rewriting exactly when every word is judged as it is from a clear digit state |
| BizzBuzz.WordInOneBlock | BIZZBUZZ/main.c:259-297 | a word within one block is judged right if white space follows within the block; at the end of the block or file, exactly when the digit state left by the word before is harmless to it |
| BizzBuzz.LastPartDecides | BIZZBUZZ/main.c:148-158 | of a word that crosses the end of a block and is followed by white space, only the part in the last block counts |
| BizzBuzz.PartOfNumber | BIZZBUZZ/main.c:263-296 | for a number that is right exactly when both the whole and the last part, or neither, are multiples of 3 |
| BizzBuzz.StrStays | BIZZBUZZ/main.c:155-158 | once a part has come to Str, because it is no number or one that nothing is to be put in place of, a word that ends with a block or the file keeps that verdict |
| BizzBuzzWords.CutAtEnd | BIZZBUZZ/main.c:148-158 | of any word that ends with its block or with the file the last part decides, unless the program stops before it |
| BizzBuzzWords.NumberGoesOn | BIZZBUZZ/main.c:283-290 | a number continued by digits has the type that the digits have in the state it leaves |
| BizzBuzzWords.StopsExactly | BIZZBUZZ/main.c:155-158 | the program stops in a number exactly when an end of a block has in front of it the sign alone, or a part of the number that, with the digit state added, is no multiple of 3 and ends in neither 0 nor 5 |
| BizzBuzzWords.NumberCutAtEnd | BIZZBUZZ/main.c:148-173 | a number that ends with its block or the file is judged right exactly when there is such an end of a block in it and nothing is to be put in its place, or there is none and the state before is harmless |
| BizzBuzzWords.OtherCutAtEnd | BIZZBUZZ/main.c:148-173 | another word that ends so is judged right unless all its parts are numbers, the program does not stop in it, and the last part is one to replace |
| BizzBuzzWords.JudgedExactly | BIZZBUZZ/main.c:148-173 | when any word at any place of a file is judged right, by where it is cut, its value and the state before it |
| BizzBuzzWords.RewriteExactly | BIZZBUZZ/main.c:93-212 | for every file the output is the specified rewriting exactly when every word is of that kind |
| BizzBuzzWords.StoppedNumberCanBeWrong | BIZZBUZZ/main.c:148-173 | the number 15, cut behind the 1 at the end of a file, comes out as it is |
| BizzBuzz.NoWordAtBlockEnd | BIZZBUZZ/main.c:93-212 | when every block, the last included, ends in white space every word is judged right |
| BizzBuzz.CrossingWordCanBeWrong | BIZZBUZZ/main.c:148-158 | the number 12 with the end of a block between its digits comes out as it is |
| BizzBuzz.LastWordCanBeWrong | BIZZBUZZ/main.c:263-270 | a file without a final line end whose last word comes out wrong |
| BizzBuzzRun.FindWord | BIZZBUZZ/main.c:214-255 | the white space, the whole word, or the unfinished word at the start of what is left of a block |
| BizzBuzzRun.Rewriter.constructor | BIZZBUZZ/main.c:259-262 | nothing read, nothing written, the digit state as declared |
| BizzBuzzRun.Rewriter.AnalyseWord | BIZZBUZZ/main.c:259-297 | the type by digit sum and last digit, and the digit state left behind, on top of the old state for a part that ends with its block |
| BizzBuzzRun.Rewriter.PrintWord | BIZZBUZZ/main.c:301-395 | appends what stands for the word, or its own bytes read again from the file |
| BizzBuzzRun.Rewriter.TakeWord | BIZZBUZZ/main.c:148-189 | for every file, a turn of the inner loop keeps offset_file at the first byte not printed and the output, with what is owed for the word that is not finished, right |
| BizzBuzzRun.Rewriter.FinishWord | BIZZBUZZ/main.c:128-146 | a word that ended with the last block is printed when this one starts with white space |
| BizzBuzzRun.Rewriter.PrintBizzbuzz | BIZZBUZZ/main.c:93-212 | for every file the output is the one that the theorems are about, and so the wanted rewriting exactly when every word, by its cuts, its value and the state before it, comes out right |

## Left out

* The shared stack: in runs in which somebody sets `wait_val` to 0, LIFO order does not hold
  (`WaitingPopLosesValue`) and freedom from deadlock is not claimed; only the safety laws are. Not
  modelled: attaching and detaching (they depend on kernel attach counts), `mark_destruct`,
  `stack_dump`, `set_wait` with invalid arguments (it returns with the lock held), a failing `semop`.
- StackBuffer.SharedStack.Push: covers a call that nobody disturbs; calls that interleave are the transition system's.
- StackBuffer.SharedStack.Pop: the same.
* The transfer: SIGINT, the death of a process, stray signals from others, `mmap` and `truncate`
  failing for other reasons than the size, timing output. An orderly end of the sender is not claimed
  when 8 divides the size. The members of `union sigval` are two cases, not overlapping bytes.
* Lists and tables: allocation failure, `list_pointer_graph`, the return code of `close`.
- ListPointer.List.InsertFirst: does not speak of nodes the list had before, which the program leaks.
- ListPointer.List.InsertBefore: positions for which the program would follow the head's null `prev` are excluded.
- HashTable.Table.Remove: the key must be bound, because the program dereferences what it found without a test.
* Backups: `backup_inotify_inc`, which looks at the first event of each read only, and inotify itself;
  symbolic links on the way to a file or in the place of a destination; snprintf cutting off paths of 4096
  characters or more; the date format (only that it has no slash); syslog.
- Backup.BackupTree: the paths must be plain and lie apart; the recursion would not end if the destination lay in the source. The argument `bound` only makes the recursion finite and every tree has one.
- FileSystem.Disk.Mkdir: gives the new directory the whole mode asked for. mkdir need not set the set-user-ID, set-group-ID and sticky bits (Linux drops the first two), so for a directory below the top that has them the copied mode is the permission bits only.
- BackupRun.ClassicBackup: for plain paths that differ; equal ones, the root, paths with a slash at the end and mixed ones can pass the check with the version directory inside the source, and the copy then goes into itself without end.
- BackupRun.FullInotifyBackup: the same, and no change to the source while it runs.
- CreateDirectories.CreateDirectories: both names end in the same relative name and are shorter than the buffers.
* The main loop: what the backups do to the disk is `BackupRun`'s; here only that they are called. A blocked
  and ignored SIGCHLD stays pending, as on Linux. `daemonize`, the pid file, the FIFO, the log and the
  controller are not modelled.
* The parser: reading the file and allocation; a text is what comes before the first NUL.
  `daemon/src/daemon/parser.c` is a near-copy of it that is not built. `pipe/pipe.c` starts the commands and
  connects them, which is the kernel's work; the class tasks are separate exercises that share no code or
  state with these programs.
* BIZZBUZZ: what opening and closing files return. `find_word` and `anylise_word` look at one byte behind
  their text before they test its length; the model tests first.

# Verified models of Redis internals and of the chatbot around it

This project models the hardest parts of the vendored Redis 8.4.1 sources and two algorithms of the chatbot that ships
with them, and proves what they promise, for every input and over every run.

**Append-only file** (`aof.c`). `Bytes` and `Resp` are the stream format; `AofLoader` is the loader; `AofRecovery` says
what it makes of a log cut at any byte. `AofMeaning` gives a log its meaning. `AofManifest`, `AofProtocol` and
`AofCrashSafety` are the multi-part protocol as one step system over disk, manifest, buffer and child, at the
granularity of system calls: a crash after any step leaves files that load to exactly the commands written. `AofRestart`
says what a crash inside a transaction means for what follows. `AofWriter` is the flush with its four outcomes.
`AofRewrite` and `AofDataset` take a dataset to commands and back, and `AofConcrete` and `AofHeld` put that under
the protocol.

**Access control** (`acl.c`). `AclRules` says what a rule overwrites and why dropping superseded rules is harmless;
`AclText` is the string edited in place; `AclSelector` and `AclReplay` are the selector, whose string always regenerates
its bitmap; `AclPubsub` is the revocation of subscriptions.

**Background workers** (`bio.c`): `Bio`, a state machine over the atomic steps of three workers and the main thread.

**Blocking** (`blocked.c`): `BlockedIndex` and `Blocked`, the two-sided index, its counts, and the queue of ready keys
drained while it is refilled.

**Linked lists** (`adlist.c`): `AdList`, heap nodes behind an abstract sequence.

**Bitmaps** (`bitops.c`): `BitField`, `BitFieldOverflow` and `BitFieldCommand` (BITFIELD), `BitCount` and `BitRange`
(BITCOUNT), `BitPos` and `BitSearch` (BITPOS), `BitOp` (BITOP), each against one bit at a time.

**The chatbot.** `Json` and `Sse` are the reply streamed from `services.py` to `widget.js`; `RankFusion` is
reciprocal-rank fusion in `utils.py`. `Basics`, `Distinct` and `Bitmap` are shared.

## What turned out not to hold

Each of these has a lemma or method with a failing input and a statement of exactly when the property does hold.

- Flushing keeps file and buffer equal to everything fed only while the descriptor is at the end of the file. A file
  opened by a rewrite has no O_APPEND (aof.c:824), and a short write undone by `ftruncate` leaves its position behind
  (`AofWriter.AppendOnlyFile.FlushAppendOnlyFile`, `AofWriter.GapAfterUndoneWrite`).
- A recovered file is a complete log unless the cut fell inside a command of an open transaction, or the MULTI rolled back
  was nested in another: then a MULTI stays, and what is appended later is queued behind it
  (`AofRecovery.RecoveredLogIsComplete`, `AofRecovery.CutInsideTransaction`). After a restart the log agrees with the server
  on every continuation if and only if no transaction stayed open (`AofRestart.AgreesExactly`); otherwise the next EXEC
  executes the old transaction too (`AofRestart.FedAfterRestart`), and a rewrite started before that leaves files that do
  not load (`AofRestart.RewriteOverOpenTransaction`).
- BITFIELD SET with OVERFLOW SAT clamps a signed value only down to 2^(bits-1) - 2^63; below that it stores the maximum
  (`BitFieldOverflow.SignedSetExact`, `BitFieldOverflow.SatSetsMaximum`).
- A BITFIELD command that counts no change has changed no bit, but it can have created or lengthened the key: exactly when
  room is needed and every write is refused on the key as it is (`BitFieldCommand.BitfieldGeneric`, `BitFieldCommand.CreatedUncounted`).
- The widget shows the text that was saved only if the reply did not fail: a failure is worded differently on the two
  sides (`Sse.EndToEnd`).
- Chunks found by both searches come first only up to a limit of thirty (`RankFusion.ExactLimit`).
- Recomputing a selector from its rules does not always keep the ALLCOMMANDS flag: it comes back when the rule that
  took a command away has been superseded (`AclReplay.FlagComesBack`, exact condition in `AclReplay.Selector.Recompute`).
  Every decision stays the same (`AclReplay.Selector.CheckCommand`).

The comment at blocked.c:326-334 says that a client of the wrong type is moved to the end of its list. The code leaves
it in place, and so does the model.

## Premises

- AOF protocol: the forced flush before a rewrite empties the buffer, persisting the manifest is all or nothing
  (`AofCrashSafety.HalfPersistedBaseIsLost` shows why), writes land at the end of the file, and a rewrite starts outside
  any transaction of the log (`AofRestart.RewriteOverOpenTransaction` shows why) in a process that did not load an open
  one: in such a process the dataset in memory need not be what the log means, and a rewrite would write the former. The
  protocol is proved for every server whose child writes a file that loads to the dataset in memory when it was forked;
  `AofConcrete` shows that the rewriter does, and `AofHeld` that it always has a dataset it can walk.
- ACL: a fixed command table with lower-case names, distinct ids below 1023, and no category called "all"; rule texts
  without blanks and quotes; for pub/sub, a client with subscriptions is a pub/sub client and its subscriptions were
  allowed before.
- Background workers: one main thread submits and drains.
- Blocking: re-running a command is a script, which touches the blocking state of its own client only and may signal
  any keys; the callback of a module defers its unblocking.
- Bytes of the append-only file are `char` values: there are more of these than bytes, so what holds for every text
  holds for every byte string. A byte in BITOP is the set of its bits. Scores of rank fusion are exact reals.

## Model

| member | source | states |
|---|---|---|
| Resp.CatAppendOnlyGenericCommand | redis-stable/src/aof.c:1357-1380 | The command is appended as a RESP array of bulk strings, arbitrary bytes included. |
| Resp.RecordRoundTrip | redis-stable/src/aof.c:1597-1647 | Every command a C caller can hand over, followed by anything, is read back as itself and leaves exactly what follows. |
| Resp.CutRecord | redis-stable/src/aof.c:1597-1647 | A command cut at any byte is an unexpected end of file: never a shorter command, never a format error. |
| Resp.RespIsSound | redis-stable/src/aof.c:1357-1380 | The two facts together, for all commands: the format the recovery and crash-safety results are proved for. |
| AofLoader.ReadArguments | redis-stable/src/aof.c:1618-1647 | The argument loop reads `argc` items in a row and stops at the first that cannot be read. |
| AofLoader.LoadSingleAppendOnlyFile | redis-stable/src/aof.c:1581-1772 | The loop with its gotos computes `Load`: status, commands executed, and the file left on disk, for every byte string and configuration. |
| AofLoader.PlainReplay | redis-stable/src/aof.c:1662-1685 | Without transactions the commands of a log are executed one by one, in order. |
| AofRecovery.CompleteIsExact | redis-stable/src/aof.c:1581-1647 | The number of complete commands in a prefix is exact: they fit, the next one does not. |
| AofRecovery.LoadWholeLog | redis-stable/src/aof.c:1581-1740 | A log without an open transaction executes itself, whatever the configuration, and the file is not touched. |
| AofRecovery.LoadCutLog | redis-stable/src/aof.c:1581-1740 | A log cut at any byte: commands executed, status and bytes left on disk, with open transactions rolled back as the code does. |
| AofRecovery.LoadCutPlainLog | redis-stable/src/aof.c:1702-1740 | Without MULTI: a prefix of the commands is executed and the truncated file is exactly its encoding. |
| AofRecovery.RecoveredLogIsComplete | redis-stable/src/aof.c:1702-1740 | The recovered file has no open transaction if and only if none was open at the cut, or the cut fell on a command boundary and the MULTI cut away was not nested. |
| AofRecovery.CutInsideTransaction | redis-stable/src/aof.c:1702-1740 | A cut inside the EXEC of a transaction leaves a file that ends in an open MULTI. |
| AofRecovery.OpenSinceLastMulti | redis-stable/src/aof.c:1660-1711 | An open transaction was opened by the last MULTI and nothing has been executed since. |
| AofMeaning.PinnedRun | redis-stable/src/aof.c:1425-1432 | A log in which SELECT comes before every command that depends on the database has the same effect from every database. |
| AofMeaning.PinnedReplay | redis-stable/src/aof.c:1425-1432 | What the fake client executes of such a log is again such a log. |
| AofMeaning.SplitMeaning | redis-stable/src/aof.c:1456-1476 | Replaying a log in two files, each from database 0, means the same as replaying it in one. |
| AofManifest.MarkRewrittenIncrAofAsHistory | redis-stable/src/aof.c:506-536 | All INCR entries but the current one become HISTORY entries, in the same order. |
| AofManifest.NewIncrShape | redis-stable/src/aof.c:468-478 | A new INCR name is not in use and the manifest stays well shaped. |
| AofManifest.RewriteShape | redis-stable/src/aof.c:440-466 | After a rewrite only the new BASE and the current INCR are live, and the BASE name is new. |
| AofManifest.HistoryIsNotLive | redis-stable/src/aof.c:682-706 | Deleting HISTORY files never touches a live file. |
| AofCrashSafety.KeepFeed | redis-stable/src/aof.c:1409-1448 | Feeding a command, with its SELECT, keeps the crash-safety invariant. |
| AofCrashSafety.FeedIsPinned | redis-stable/src/aof.c:1425-1432 | Everything fed to an INCR file comes after a SELECT of that file. |
| AofCrashSafety.KeepWrite | redis-stable/src/aof.c:1218-1321 | A write of any number of bytes keeps the invariant. |
| AofCrashSafety.KeepUndoWrite | redis-stable/src/aof.c:1263-1275 | A short write undone by `ftruncate` keeps the invariant. |
| AofCrashSafety.KeepOpenIncr | redis-stable/src/aof.c:804-832 | Creating the new INCR file keeps the invariant. |
| AofCrashSafety.KeepPersistIncr | redis-stable/src/aof.c:832-842 | Persisting the manifest with the new INCR, or failing to, keeps the invariant. |
| AofCrashSafety.KeepSwitchFd | redis-stable/src/aof.c:843-868 | Switching descriptor and manifest in memory keeps the invariant. |
| AofCrashSafety.KeepFork | redis-stable/src/aof.c:2596-2664 | Forking the child, or failing to, keeps the invariant; the snapshot is everything fed so far. |
| AofCrashSafety.KeepChildExits | redis-stable/src/aof.c:2882-2901 | The end of the child, with or without success, keeps the invariant. |
| AofCrashSafety.SnapshotIsLive | redis-stable/src/aof.c:2596-2664 | The dataset the child was forked with is what the log meant then. |
| AofCrashSafety.LiveIsMeaning | redis-stable/src/aof.c:1409-1448 | Unless the process loaded an open transaction, what it loaded and then executed is what the log means. |
| AofCrashSafety.KeepRenameBase | redis-stable/src/aof.c:2770-2796 | Renaming the rewritten file to the new BASE name keeps the invariant. |
| AofCrashSafety.KeepPersistBase | redis-stable/src/aof.c:2831-2852 | Persisting the manifest with the new BASE, or failing and removing the file, keeps the invariant. |
| AofCrashSafety.KeepDeleteHistory | redis-stable/src/aof.c:682-706 | Deleting HISTORY files keeps the invariant. |
| AofCrashSafety.KeepCrashAndRestart | redis-stable/src/aof.c:1775-1898 | A crash in any state, followed by a load that truncates the last INCR, gives a state of the same invariant, also when it fell inside a transaction. |
| AofCrashSafety.KeepStep | redis-stable/src/aof.c:2753-2913 | Every step of the protocol keeps the invariant. |
| AofCrashSafety.RunOk | redis-stable/src/aof.c:727-782 | Every state of every run satisfies the invariant. |
| AofCrashSafety.GoodManifestRecovers | redis-stable/src/aof.c:1775-1898 | BASE, then the INCR files, load to exactly the dataset of the commands completely written. |
| AofCrashSafety.CrashSafe | redis-stable/src/aof.c:1775-1898 | In every state of every run what is on disk loads, to exactly the dataset of the commands completely written; to everything fed when nothing is buffered. |
| AofCrashSafety.HalfPersistedBaseIsLost | redis-stable/src/aof.c:584-600 | Why the manifest must be persisted all or nothing: if the rename happened but an error was reported, loading would fail. |
| AofRestart.RestartOpens | redis-stable/src/aof.c:1702-1740 | A restart executes what was executed of the durable commands; a transaction is open after it exactly when it was torn, or its rolled back MULTI was nested. |
| AofRestart.FedAfterRestart | redis-stable/src/aof.c:1775-1898 | For every sequence of commands fed and written after a restart, exactly what the next load executes: what was durable, then what the restarted server executed; or, if a transaction stayed open, nothing up to the next EXEC, and with it the commands of the old transaction too. |
| AofRestart.PlainAfterRestart | redis-stable/src/aof.c:1775-1898 | Plain commands fed after a restart are executed if and only if no transaction stayed open over the crash. |
| AofRestart.AgreesExactly | redis-stable/src/aof.c:1775-1898 | The log agrees with the restarted server on every continuation if and only if no transaction stayed open over the crash. |
| AofRestart.LoadsWhatIsInMemory | redis-stable/src/aof.c:1775-1898 | In every state of every run of a process that did not load an open transaction, with nothing buffered, the files load to exactly the dataset in memory. |
| AofRestart.MayCrash | redis-stable/src/aof.c:1775-1898 | A crash and restart is possible in every state of every run. |
| AofRestart.RewriteOverOpenTransaction | redis-stable/src/aof.c:2596-2664 | Why a rewrite must start outside a transaction of the log: a new INCR file opened inside one leaves files that do not load. |
| AofConcrete.RedisIsValid | redis-stable/src/aof.c:1357-1380 | The concrete dataset, commands, format and BASE loader form a world the protocol results are about. |
| AofConcrete.HoldsUnique | redis-stable/src/aof.c:2425-2507 | The entries of the databases determine the dataset. |
| AofConcrete.RewriteIsExact | redis-stable/src/aof.c:2425-2507 | The rewritten text of a dataset, loaded as a BASE file, gives exactly that dataset. |
| AofConcrete.RewriteInChild | redis-stable/src/aof.c:2632-2648 | What the rewriter writes lets the child exit with success as the protocol asks: its file loads to the dataset in memory when it was forked. |
| AofHeld.Held | redis-stable/src/aof.c:2425-2507 | Every dataset within the limits can be held as entries in a form the rewriter accepts. |
| AofHeld.MemoryIsHeld | redis-stable/src/aof.c:2425-2507 | The dataset in memory of the concrete server, whatever it loaded and has fed within the limits, can be held for its rewrite. |
| AofConcrete.RedisIsCrashSafe | redis-stable/src/aof.c:1775-1898 | Crash safety of the concrete server. |
| AofWriter.AppendOnlyFile.constructor | redis-stable/src/aof.c:727-782 | An opened file has nothing buffered and its recorded size is the length of the file. |
| AofWriter.AppendOnlyFile.FeedAppendOnlyFile | redis-stable/src/aof.c:1409-1448 | Exactly the annotation, the SELECT if the database changed, and the command are buffered; conservation is kept. |
| AofWriter.AppendOnlyFile.AofWrite | redis-stable/src/aof.c:1109-1126 | The retry loop writes the first bytes of the buffer, as many as the system takes before an error, at the position of the descriptor. |
| AofWriter.AppendOnlyFile.TryFsync | redis-stable/src/aof.c:1323-1354 | Under `always`, unless suppressed by a child, a return means that the fsynced offset is the size. |
| AofWriter.AppendOnlyFile.WriteBuffer | redis-stable/src/aof.c:1218-1321 | The four outcomes of a write: file, buffer, size and exit for each. |
| AofWriter.AppendOnlyFile.FlushAppendOnlyFile | redis-stable/src/aof.c:1147-1355 | File followed by buffer stays everything fed, and the recorded size the length of the file, if and only if the descriptor was at the end of the file or no byte was kept. |
| AofWriter.GapAfterUndoneWrite | redis-stable/src/aof.c:804-830 | Without O_APPEND, a short write undone and then repeated leaves a zero byte in the file, whatever file and buffer hold. |
| AofWriter.Appended | redis-stable/src/aof.c:1218-1321 | Moving bytes from buffer to file keeps their concatenation exactly when the write has no gap. |
| AofRewrite.EmitItems | redis-stable/src/aof.c:1920-1991 | The loop shared by the rewriters starts a command every 64 items, for as many items as are left. |
| AofRewrite.EmittedIsLog | redis-stable/src/aof.c:1995-2072 | Every header counts exactly the arguments that follow it, so the text emitted is a log. |
| AofRewrite.GroupedFlatten | redis-stable/src/aof.c:1995-2072 | Arguments taken apart again by width are the items. |
| AofRewrite.ChunkedInserts | redis-stable/src/aof.c:1920-1991 | Chunking does not matter: the commands insert the items one by one, in order. |
| AofDataset.ItemsBuildValue | redis-stable/src/aof.c:2104-2130 | Inserting the items of a list, set, sorted set or hash one by one builds its value. |
| AofDataset.ObjectCommandsBuild | redis-stable/src/aof.c:2389-2423 | The commands of an object, run on an absent key, rebuild its value. |
| AofDataset.RunEntry | redis-stable/src/aof.c:2453-2476 | The commands of a key store its value and its expiry, and nothing else. |
| AofDataset.RunDataset | redis-stable/src/aof.c:2425-2507 | Running all the commands completes the dataset, database by database. |
| AofDataset.RewrittenBaseLoads | redis-stable/src/aof.c:2425-2507 | The rewritten file, loaded strictly on an empty server, gives back the dataset: values, expiries, and nothing more. |
| AofDataset.RewriteObject | redis-stable/src/aof.c:2389-2423 | The text written for a key is the encoding of its commands. |
| AofDataset.RewriteDatabase | redis-stable/src/aof.c:2443-2499 | The text written for a database is its SELECT and the commands of its keys. |
| AofDataset.RewriteAppendOnlyFileRio | redis-stable/src/aof.c:2425-2507 | The text written is the encoding of the commands of all databases that are not empty. |
| AclRules.SupersedesOverwrites | redis-stable/src/acl.c:571-613 | A rule that supersedes another overwrites every bit and first argument the other one wrote. |
| AclRules.DropSuperseded | redis-stable/src/acl.c:617-625 | Dropping superseded rules and adding the new one grants what adding it alone does: the last writer wins. |
| AclRules.WithoutReduced | redis-stable/src/acl.c:571-613 | No rule left in the list is superseded by a later one. |
| AclRules.WithoutNothing | redis-stable/src/acl.c:571-613 | A rule that supersedes nothing drops nothing. |
| AclText.MatchesIsSupersedes | redis-stable/src/acl.c:597-600 | The comparison of prefixes is "the same rule, or a subcommand or first argument of it". |
| AclText.RemoveCommandRule | redis-stable/src/acl.c:571-613 | The scan of the string with its `memmove` leaves exactly the text of the rules not superseded, with no stray space. |
| AclText.SplitJoin | redis-stable/src/acl.c:682-697 | Splitting the stored string gives back its rules. |
| AclText.KeptTexts | redis-stable/src/acl.c:571-613 | Editing the text is editing the list of rules. |
| AclText.TextSnoc | redis-stable/src/acl.c:617-625 | Appending a rule to the text is appending it to the list. |
| AclSelector.SetSubBitsIs | redis-stable/src/acl.c:629-649 | Setting the bits of all subcommands changes exactly their bits, and ALLCOMMANDS as `ACLSetSelectorCommandBit` does. |
| AclSelector.ChangePermIs | redis-stable/src/acl.c:629-649 | Changing a command changes exactly its bits and those of its subcommands, and forgets its first arguments. |
| AclSelector.CmdsInCategoryIs | redis-stable/src/acl.c:651-668 | A category changes exactly the bits and first arguments of its commands and subcommands. |
| AclSelector.ApplyWrites | redis-stable/src/acl.c:1034-1209 | Every rule overwrites exactly the bits and first arguments it is about, with the value it says. |
| AclSelector.ApplyOk | redis-stable/src/acl.c:557-569 | ALLCOMMANDS is set only when every bit is set; only plain commands have first arguments. |
| AclSelector.FlagAfter | redis-stable/src/acl.c:557-569 | A rule takes ALLCOMMANDS away exactly when it takes some command away, and no rule gives it back. |
| AclSelector.ReservedUnwritten | redis-stable/src/acl.c:1542-1550 | No rule writes the reserved bit. |
| AclSelector.StepFollows | redis-stable/src/acl.c:1034-1209 | Applying a rule and dropping what it supersedes keeps permissions and rules in step. |
| AclSelector.SameGrants | redis-stable/src/acl.c:757-810 | Two selectors that follow the same rules from the same start grant the same things. |
| AclSelector.ParseValid | redis-stable/src/acl.c:1126-1209 | Whatever is accepted as a command rule is a rule the table knows. |
| AclReplay.ParseStored | redis-stable/src/acl.c:682-697 | Reading the text of a stored rule gives that rule. |
| AclReplay.NotAll | redis-stable/src/acl.c:617-625 | No stored rule reads as `+@all` or `-@all`. |
| AclReplay.StepKeeps | redis-stable/src/acl.c:1034-1209 | An accepted rule keeps the shape, the reduced list, the correspondence and the reserved bit. |
| AclReplay.ReplayNext | redis-stable/src/acl.c:693-697 | Replaying a reduced list rebuilds it, one rule at a time. |
| AclReplay.Selector.constructor | redis-stable/src/acl.c:345-362 | A new selector is valid and grants nothing. |
| AclReplay.Selector.ChangeCommandPerm | redis-stable/src/acl.c:629-649 | The bit, the subcommands, the first arguments of a command. |
| AclReplay.Selector.SetSubsOfCategory | redis-stable/src/acl.c:651-668 | The subcommands of a category. |
| AclReplay.Selector.SetBitsForCategory | redis-stable/src/acl.c:651-668 | The commands of a category and their subcommands. |
| AclReplay.Selector.AddAllowedFirstArg | redis-stable/src/acl.c:942-968 | A first argument already there, up to case, is not added again. |
| AclReplay.Selector.UpdateCommandRules | redis-stable/src/acl.c:617-625 | String and list of rules lose what the new rule supersedes and gain the new rule. |
| AclReplay.Selector.SetSelector | redis-stable/src/acl.c:1034-1209 | Every operation keeps bitmap, first arguments and rule string in step; a rejected one changes nothing. |
| AclReplay.Selector.ApplyStored | redis-stable/src/acl.c:693-697 | Replaying stored rules on a fresh selector reproduces the list of rules, hence the string; the flag is set exactly when the start is `+@all` and no rule takes a command away. |
| AclReplay.Selector.Describe | redis-stable/src/acl.c:757-810 | The text printed, replayed on a fresh selector, gives the same bitmap: the panic is unreachable. |
| AclReplay.Selector.Recompute | redis-stable/src/acl.c:670-702 | Recomputing changes neither bitmap, nor string, nor first arguments up to case; the ALLCOMMANDS flag is kept if and only if it was set, or the rules do not start from `+@all`, or one of them takes a command away. |
| AclReplay.FlagComesBack | redis-stable/src/acl.c:670-702 | For every table and command: after `+@all`, taking the command away and giving it back, every bit is set without the flag, and recomputing sets it. |
| AclReplay.Selector.CheckCommand | redis-stable/src/acl.c:1691-1716 | The ALLCOMMANDS short cut decides as the bit test would; a command is allowed by its bit or by its first argument. |
| AclReplay.SubcommandHasNoArgs | redis-stable/src/acl.c:1706-1714 | A subcommand has no first arguments, so the argument read is never missing. |
| AclReplay.CommandIds.constructor | redis-stable/src/acl.c:1527-1552 | No ids are given yet. |
| AclReplay.CommandIds.GetCommandId | redis-stable/src/acl.c:1527-1552 | The same id for the same name up to case, different ids for different names, never the reserved one. |
| AclPubsub.CheckChannelAgainstList | redis-stable/src/acl.c:1649-1666 | A channel is allowed if a stored pattern matches it; a pattern if it is stored literally. |
| AclPubsub.UserCheckChannelPerm | redis-stable/src/acl.c:1823-1843 | A user allows what one of their selectors allows. |
| AclPubsub.SearchByAddress | redis-stable/src/acl.c:1938-1944 | The upcoming list has no match method, so patterns are found by address. |
| AclPubsub.PatternsAllow | redis-stable/src/acl.c:1901-1954 | Without an all-channels selector the list of patterns allows exactly what the user allows. |
| AclPubsub.KeptAllows | redis-stable/src/acl.c:1927-1951 | If all old patterns are in the new list, the new user allows what the old one did. |
| AclPubsub.GetUpcomingChannelList | redis-stable/src/acl.c:1901-1954 | No list: the new user allows all the old one did. A list: it allows exactly what the new user allows. |
| AclPubsub.ShouldKill | redis-stable/src/acl.c:1958-2004 | A pub/sub client is killed exactly when one of its patterns, channels or shard channels is denied. |
| AclPubsub.KillPubsubClientsIfNeeded | redis-stable/src/acl.c:2006-2032 | Exactly the clients of the user that the new rules no longer allow are disconnected. |
| AclPubsub.StringSetUser | redis-stable/src/acl.c:2097-2152 | All or nothing; and every client left has only subscriptions the user now allows. |
| Bio.KeepStep | redis-stable/src/bio.c:257-370 | Every atomic step of workers and main thread keeps the invariant. |
| Bio.Safety | redis-stable/src/bio.c:257-370 | The invariant holds in every state of every run. |
| Bio.ItemsSafety | redis-stable/src/bio.c:344-356 | The completion items of a worker are, in order, its completion requests that took effect, in every state of every run. |
| Bio.KeepItems | redis-stable/src/bio.c:344-356 | Every step keeps that order. |
| Bio.NoLostWakeup | redis-stable/src/bio.c:416-445 | A completion in the list, with nobody on the way to the pipe or the list, leaves a byte to read, even if a write failed on a full pipe. |
| Bio.NobodyStuck | redis-stable/src/bio.c:281-294 | A worker with a job queued can step; a sleeping drainer waits for such a worker. |
| Bio.OrderAndCounters | redis-stable/src/bio.c:181-189 | Finished jobs are a prefix of submitted jobs, the rest is queued, and each counter is the number of queued jobs of its type, the running one included. |
| Bio.DrainReturns | redis-stable/src/bio.c:383-395 | `bioDrainWorker` can return only when all that was submitted before it began has finished. |
| Bio.CallbacksInOrder | redis-stable/src/bio.c:437-443 | The callbacks of a worker are, in order and once each, the completion requests among its first jobs, after all earlier jobs. |
| Bio.AllCalledBack | redis-stable/src/bio.c:416-445 | When no job is queued, the pipe is empty and the main thread is not reading it, the completion list is empty and every completion request has been called back. |
| BlockedIndex.AddOk | redis-stable/src/blocked.c:388-441 | Linking a client and a key on both sides, with the count of the key, keeps the index. |
| BlockedIndex.ReleaseOk | redis-stable/src/blocked.c:536-569 | Releasing an entry finds the list and the count it needs, and keeps the index. |
| BlockedIndex.CountMinus | redis-stable/src/blocked.c:536-569 | Taking a client off a list lowers the count by its own wish only. |
| BlockedIndex.CountBlocked | redis-stable/src/blocked.c:74-87 | Blocking a client keeps both counters exact. |
| BlockedIndex.CountUnblocked | redis-stable/src/blocked.c:184-215 | Unblocking a client keeps both counters exact. |
| Blocked.Server.constructor | redis-stable/src/blocked.c:61-72 | A new server has nobody blocked and nothing ready. |
| Blocked.Server.Connect | redis-stable/src/blocked.c:61-72 | A client starts with the initial blocking state. |
| Blocked.Server.BlockClient | redis-stable/src/blocked.c:74-87 | The client gets its type and the counters stay exact. |
| Blocked.Server.BlockForKeys | redis-stable/src/blocked.c:388-441 | Repeated keys count once, the client goes to the tail of every list, and the server stays valid. |
| Blocked.Server.ReleaseBlockedEntry | redis-stable/src/blocked.c:536-569 | List and count of the key lose the client; an empty list and a zero count are removed. |
| Blocked.Server.UnblockClientWaitingData | redis-stable/src/blocked.c:443-457 | The client leaves every list and no other client moves. |
| Blocked.Server.QueueClientForReprocessing | redis-stable/src/blocked.c:173-180 | A client is queued at most once. |
| Blocked.Server.UnblockClient | redis-stable/src/blocked.c:184-215 | The client leaves every list and loses its type; the server stays valid. |
| Blocked.Server.UnblockClientWithReply | redis-stable/src/blocked.c:738-757 | As unblocking, and the pending command is not run again. |
| Blocked.Server.SignalKeyAsReady | redis-stable/src/blocked.c:476-523 | A key is marked, and queued at the end if it was not yet, exactly when some client could be served by it. |
| Blocked.WaiterExists | redis-stable/src/blocked.c:476-523 | A key has a list exactly when a client waits for it, and a count exactly when one wants to hear of its deletion. |
| Blocked.NobodyBlocked | redis-stable/src/blocked.c:476-523 | The counters are zero exactly when no client is blocked on that type or by a module. |
| Blocked.QueueReady | redis-stable/src/blocked.c:505-522 | Queueing a key not yet marked keeps queue and marks in step. |
| Blocked.TakeReady | redis-stable/src/blocked.c:361-369 | Taking a key off the batch keeps them in step, so a key signalled during its own pass is queued again. |
| Blocked.Server.UnblockClientOnKey | redis-stable/src/blocked.c:666-708 | The client leaves every list, runs its command again, and is at the tail of the lists it blocks on again or queued for its next command; keys signalled are queued behind the others. |
| Blocked.Server.VisitWaiter | redis-stable/src/blocked.c:597-616 | One turn: the waiter is served if the key holds its type, it belongs to a module, or it waits for the deletion; its state, the list and the ready queue afterwards. |
| Blocked.PassStep | redis-stable/src/blocked.c:582-618 | The next node fetched before a client is served is the next of the initial waiters. |
| Blocked.Server.HandleClientsBlockedOnKey | redis-stable/src/blocked.c:582-618 | One pass visits exactly the initial waiters, once each, in blocking order; those passed over keep their order, those that block again follow; every client visited is as its visit left it, no other changed, and the ready queue only grew. |
| Blocked.Server.DrainBatch | redis-stable/src/blocked.c:361-375 | Each key of a batch gets one pass, in order, and every key signalled meanwhile stays queued. |
| Blocked.Server.HandleClientsBlockedOnKeys | redis-stable/src/blocked.c:335-379 | The passes made are, in order, one for each key queued at the start and one for each time a key was queued during the drain: none is lost, none is left. A call from within returns at once and changes nothing. |
| AdList.List.constructor | redis-stable/src/adlist.c:22-34 | A new list is empty. |
| AdList.List.Empty | redis-stable/src/adlist.c:37-52 | Walking `len` nodes removes them all. |
| AdList.List.AddNodeHead | redis-stable/src/adlist.c:76-86 | A fresh node with the value is put first. |
| AdList.List.LinkNodeHead | redis-stable/src/adlist.c:90-100 | The node is put first. |
| AdList.List.AddNodeTail | redis-stable/src/adlist.c:109-119 | A fresh node with the value is put last. |
| AdList.List.LinkNodeTail | redis-stable/src/adlist.c:123-134 | The node is put last. |
| AdList.List.InsertNode | redis-stable/src/adlist.c:136-163 | A fresh node is put just before or after the given one. |
| AdList.List.UnlinkNode | redis-stable/src/adlist.c:179-193 | Exactly that node leaves the list and loses its links. |
| AdList.HandOut | redis-stable/src/adlist.c:242-252 | The node a traversal hands out next is the next of the initial ones, and its successor was fetched before it could be deleted. |
| AdList.Dup | redis-stable/src/adlist.c:263-297 | A fresh list of fresh nodes with the copied values, or null as soon as one copy fails; the original is not touched. |
| AdList.List.SearchKey | redis-stable/src/adlist.c:308-326 | The first node whose value matches. |
| AdList.List.Index | redis-stable/src/adlist.c:333-345 | The node at the index, from the tail for a negative one; null out of range. |
| AdList.List.RotateTailToHead | redis-stable/src/adlist.c:348-360 | The last node becomes the first. |
| AdList.List.RotateHeadToTail | redis-stable/src/adlist.c:363-375 | The first node becomes the last. |
| AdList.List.Join | redis-stable/src/adlist.c:379-395 | The other list moves to the end and is left empty. |
| AdList.TraverseDeleting | redis-stable/src/adlist.c:218-252 | A traversal that deletes any of the nodes it is handed visits every element once, in order, and leaves the others. |
| BitField.SetUnsignedBitfield | redis-stable/src/bitops.c:498-511 | The field holds the value modulo its width and no other bit changes. |
| BitField.GetUnsignedBitfield | redis-stable/src/bitops.c:518-530 | The number in the field. |
| BitField.GetSignedBitfield | redis-stable/src/bitops.c:532-552 | The two's complement number in the field. |
| BitField.ReadBack | redis-stable/src/bitops.c:498-530 | Writing then reading gives the value modulo 2^bits. |
| BitField.SignedBack | redis-stable/src/bitops.c:513-552 | A signed value that fits comes back as itself. |
| BitField.CopyReads | redis-stable/src/bitops.c:1909-1941 | The nine bytes copied read as the string padded with zeros without end. |
| BitField.GetBitfield | redis-stable/src/bitops.c:1909-1941 | GET on a string of any length, or none, signed or not. |
| BitFieldOverflow.UnsignedExact | redis-stable/src/bitops.c:577-612 | Overflow is reported if and only if the exact sum does not fit; WRAP reduces it, SAT clamps it. |
| BitFieldOverflow.UnsignedSetExact | redis-stable/src/bitops.c:1889-1895 | The same for SET of every 64-bit argument. |
| BitFieldOverflow.SignedExact | redis-stable/src/bitops.c:614-667 | Overflow is reported if and only if the exact sum does not fit; WRAP reduces it, SAT clamps it. |
| BitFieldOverflow.SignedSetExact | redis-stable/src/bitops.c:1854-1860 | SET of every 64-bit argument: WRAP is exact; SAT clamps if and only if the argument is at least 2^(bits-1) - 2^63, and stores the maximum below that. |
| BitFieldOverflow.SatSetsMaximum | redis-stable/src/bitops.c:614-667 | The smallest 64-bit number, saturated into a signed byte, becomes 127. |
| BitFieldOverflow.ExecSigned | redis-stable/src/bitops.c:1842-1874 | SET and INCRBY: reply, number stored and no other bit changed; nothing at all changed on FAIL. |
| BitFieldOverflow.ExecUnsigned | redis-stable/src/bitops.c:1875-1908 | The same for unsigned fields. |
| BitFieldCommand.Execute | redis-stable/src/bitops.c:1828-1942 | One operation: its reply, that only its field changes, and whether it counts as a change. |
| BitFieldCommand.HighestWrite | redis-stable/src/bitops.c:1777-1780 | The highest bit written, and whether the command only reads. |
| BitFieldCommand.LookupStringForBitCommand | redis-stable/src/bitops.c:782-807 | Room up to the farthest bit, and not a bit changed. |
| BitFieldCommand.BitfieldGeneric | redis-stable/src/bitops.c:1801-1959 | The whole command: every operation acts on what those before it left, with the replies and the number of changes; with none counted no bit has changed, and the string is longer if and only if room was needed and every write is refused on the key as it was. |
| BitFieldCommand.IdleFromInputs | redis-stable/src/bitops.c:1862-1907 | Every operation turns out to be a GET or refused if and only if every write is refused on the string the command started from. |
| BitFieldCommand.Unchanged | redis-stable/src/bitops.c:1869-1870 | Operations that do not count as changes change no bit. |
| BitFieldCommand.CreatedUncounted | redis-stable/src/bitops.c:1945-1957 | A refused SET on a missing key creates it although no change is counted. |
| BitCount.TableIsOnes | redis-stable/src/bitops.c:50-59 | The byte table counts the set bits. |
| BitCount.ValueAdd | redis-stable/src/bitops.c:136-142 | Bit vectors add as the numbers they hold, as long as these stay in a byte. |
| BitCount.WordOnes | redis-stable/src/bitops.c:122-142 | The SWAR steps leave in each byte of a word the number of bits set in it. |
| BitCount.Gather | redis-stable/src/bitops.c:136-142 | The multiplication gathers the four bytes of the sum; exact because 7 * 32 = 224 fits a byte. |
| BitCount.CountBlock | redis-stable/src/bitops.c:108-143 | Twenty-eight bytes at once. |
| BitCount.CountPopcnt | redis-stable/src/bitops.c:83-104 | Thirty-two bytes at once with POPCNT. |
| BitCount.Popcount | redis-stable/src/bitops.c:65-150 | The set bits of the string, for every address, with or without POPCNT. |
| BitRange.BytesRange | redis-stable/src/bitops.c:1534-1538 | The set bits of bytes are those of their range of bit positions. |
| BitRange.EdgesOff | redis-stable/src/bitops.c:1534-1550 | The bits of whole bytes less those outside the range are the bits of the range. |
| BitRange.CountOutside | redis-stable/src/bitops.c:1540-1550 | The masks select exactly the bits outside the range. |
| BitRange.Normalise | redis-stable/src/bitops.c:1495-1500 | Negative indices count from the end, and both are clipped. |
| BitRange.BitcountCommand | redis-stable/src/bitops.c:1457-1551 | The number of set bits of the range, in bytes or bits, missing key included, for every address. |
| BitPos.LoadWord | redis-stable/src/bitops.c:433-448 | The word holds the next eight bytes, first one most significant, padded with zeros. |
| BitPos.ScanWord | redis-stable/src/bitops.c:457-475 | The scan of the word finds its first match; the panic after the loop is unreachable. |
| BitPos.RedisBitpos | redis-stable/src/bitops.c:390-475 | The least matching bit, for every address; clear bits go on past the end, set bits give -1. |
| BitSearch.SearchByte | redis-stable/src/bitops.c:1652-1662 | Searching a masked byte is searching its part of the range. |
| BitSearch.Search | redis-stable/src/bitops.c:1646-1692 | First byte, whole bytes, last byte: the least match of the range. |
| BitSearch.BitposCommand | redis-stable/src/bitops.c:1554-1692 | BITPOS is the least matching bit of the range; -1 if none, or one past the end for clear bits without an explicit end. |
| BitOp.MeaningInWords | redis-stable/src/bitops.c:1374-1403 | AND is "set in all", OR "set in some", ONE "set in exactly one" of the zero-padded sources. |
| BitOp.StepOk | redis-stable/src/bitops.c:1350-1413 | One source more: what the three bytes of the loop say of each bit. |
| BitOp.FinishOk | redis-stable/src/bitops.c:1414-1433 | The early exits are right: further sources could not change the result. |
| BitOp.ComputeByte | redis-stable/src/bitops.c:1344-1433 | The byte loop gives the meaning of the operation, bit by bit. |
| BitOp.WordNext | redis-stable/src/bitops.c:1212-1340 | One source more in a word block; ONE keeps parity and common bits apart. |
| BitOp.WordClosed | redis-stable/src/bitops.c:1311-1340 | Clearing the common bits at the end of a block gives the same as clearing them source by source. |
| BitOp.FoldBlock | redis-stable/src/bitops.c:1212-1340 | A block is folded in place, source by source, with the common bits cleared at the end, and nothing else changes. |
| BitOp.Combine | redis-stable/src/bitops.c:1275-1310 | The second pass of DIFF, DIFF1 and ANDOR combines the disjunction with the first source. |
| BitOp.WordPass | redis-stable/src/bitops.c:1189-1340 | The fast path leaves right bytes up to where it stops. |
| BitOp.BitopCommand | redis-stable/src/bitops.c:1112-1433 | With or without the fast path the result is as long as the longest source and right in every bit, for all eight operations; an empty result deletes the destination. |
| Json.EscapedIsPlain | backend/conversations/services.py:188-218 | Escaped text never holds a raw line break or any byte outside printable ASCII. |
| Json.StringBack | frontend/public/widget.js:355-365 | What Python escaped, JavaScript reads as the UTF-16 form of the same text, surrogates included. |
| Json.DumpBack | frontend/public/widget.js:355-365 | The member of a dumped object is read back. |
| Sse.SplitMore | frontend/public/widget.js:341-347 | Text that arrives later only goes on the last part of the split. |
| Sse.HandleResponse | frontend/public/widget.js:324-394 | What the widget ends with depends only on the text received, not on how it was cut. |
| Sse.StreamResponse | backend/conversations/services.py:164-231 | One event per chunk with content, and the text saved; a failure is the last of both. |
| Sse.SplitEvents | frontend/public/widget.js:341-347 | The stream comes apart into exactly the events sent. |
| Sse.OnBodies | frontend/public/widget.js:349-392 | The events of a reply show exactly its text. |
| Sse.ErrorIsShown | frontend/public/widget.js:367-377 | A failure adds the widget's own words to what is shown and nothing to the reply kept. |
| Sse.EndToEnd | frontend/public/widget.js:324-410 | For every reply and every cut of the stream, the text shown is the text saved if and only if the reply did not fail. |
| RankFusion.AddShares | backend/ai_services/utils.py:244-265 | One loop over results: each chunk once, in order of insertion, each with its share added. |
| RankFusion.Accumulate | backend/ai_services/utils.py:238-265 | Both loops: every chunk found, with the sum of its shares. |
| RankFusion.Fuse | backend/ai_services/utils.py:238-277 | The result is the best `limit` of the fused list. |
| RankFusion.SortedIs | backend/ai_services/utils.py:267-268 | The sort is a permutation in descending order. |
| RankFusion.SortedNoDup | backend/ai_services/utils.py:267-268 | Distinct chunks stay distinct. |
| RankFusion.BestIs | backend/ai_services/utils.py:267-277 | Distinct chunks in descending score, as many as asked for or as there are, each with its exact score, and none left out scores higher. |
| RankFusion.BothComeFirst | backend/ai_services/utils.py:238-277 | Up to a limit of thirty, every chunk found by both searches comes before every chunk found by one. |
| RankFusion.LastByBothLoses | backend/ai_services/utils.py:238-277 | For every larger limit there are results for which it does not. |
| RankFusion.ExactLimit | backend/ai_services/utils.py:238-277 | The ordering holds for all results if and only if the limit is at most thirty. |

## Left out

- AofLoader.LoadSingleAppendOnlyFile: does not model an RDB preamble, an argument count beyond the range of int, modules or the serving of clients while loading; reads are those of a file that does not change.
- AofCrashSafety.CrashSafe: AOF on from the start; the switch from off to on through AOF_WAIT_REWRITE and its temporary INCR file is not modelled.
- AofWriter.AppendOnlyFile.FlushAppendOnlyFile: replication offsets, latency samples and log lines are not modelled.
- AofDataset.RewriteObject: streams, hashes with field expiry and module values are not modelled.
- AofConcrete.RedisIsCrashSafe: as CrashSafe, for the commands the rewriter emits.
- AofHeld.MemoryIsHeld: for logs that select existing databases and set expiry times within a long long, which the server checks.
- AofConcrete.RedisIsValid: commands other than those the rewriter emits change nothing in the concrete server.
- AofDataset.RewriteAppendOnlyFileRio: streams, hashes with field expiry, module values, functions, timestamps and slots being trimmed are not modelled; a write never fails.
- AofManifest: the text of the manifest file, its parser and start and end offsets are not modelled.
- AclReplay.Selector.SetSelector: key and channel patterns and flags are reported as not being command rules; a text with a blank is not considered.
- AclReplay.Selector.CheckCommand: the key and channel checks after the command check are not modelled.
- AclPubsub.StringSetUser: an existing user; the parsing of modifiers is a parameter and creating a user is not modelled.
- ACL files, passwords, the log and the description of a whole user: parsing and printing without a shared invariant.
- Pub/sub clients are compared by value, and disconnecting is leaving the list of clients.
- Bio: the effect of a job (closing, fsync, freeing) is one step; thread creation and killing are not modelled.
- Blocked.Server.HandleClientsBlockedOnKeys: termination is for scripts of finite length, which every run has.
- Blocked: processing the input buffers of queued clients, timeouts, WAIT, SHUTDOWN and client pause only add members of the same kind.
- AdList.List.Index: does not model LONG_MIN, whose negation overflows in the source.
- AdList: memory is not freed; a node that leaves a list loses its links.
- BitCount.Popcount: the AVX2, AVX512 and AArch64 variants are not modelled, nor the limit on the length of a string.
- BitRange.BitcountCommand: argument parsing and type errors are not modelled.
- BitSearch.BitposCommand: argument parsing and type errors are not modelled.
- BitFieldCommand.BitfieldGeneric: argument parsing, type errors, keyspace events and the limit on the length of a string are not modelled.
- BitOp.BitopCommand: the AVX2 path and type errors are not modelled.
- BitOp.FoldBlock: a word is handled as its eight bytes.
- BitOp.WordPass: a word is handled as its eight bytes.
- BitFieldOverflow.ExecSigned: one operation on a string already long enough; BitFieldCommand.BitfieldGeneric grows it and counts changes.
- BitFieldOverflow.ExecUnsigned: one operation on a string already long enough; BitFieldCommand.BitfieldGeneric grows it and counts changes.
- Json.DumpBack: reading is modelled for the two layouts of one member that the server writes, not for JSON in general.
- Sse.HandleResponse: the stream is ASCII, so decoding it is the identity; scrolling, the typing indicator and network errors are not modelled.
- RankFusion.Fuse: floating-point rounding is not modelled; the two searches are parameters.
- split_text, the Django views, models and services, the React front end, and the other Redis files: wrappers around libraries, or code without a property that spans operations.

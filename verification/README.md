# Verified models of pi-engineering's protocols

Dafny models of the parts of pi-engineering whose correctness does not show in any single function: the
journaled artifact store, the multi-process bootstrap of its lock domain, paged UTF-8 reading, the runtime
cache and its shutdown, the dependency order of requirements, the agent progress supervisor and its
fingerprints, the fenced adapter, the weekly session report and the table-driven CRC. Each protocol is a
machine over its atomic steps and the theorems are about every run of it; each class follows the fields its
source updates and is proved against a specification function.

`dafny verify dfyconfig.toml` checks the whole project.

## Layout

| file | what it holds |
|---|---|
| `Common.dfy` | options, bytes, and the digest taken as injective |
| `JournalDisk.dfy` | one key's files on a disk that may lose any subset of unsynced directory operations in a crash |
| `Journal.dfy` | journal entries, validation, the replay plan, and what survives a crash at each point of it |
| `JournalFragile.dfy` | a journal whose rename is not durable yet, replayed over, and what a crash leaves of it |
| `JournalProtocol.dfy`, `JournalReads.dfy` | one lock-holding writer, any number of lock-free readers, process deaths and system crashes, and when a read must succeed |
| `JournalLimits.dfy` | the situations the protocol does not cover, each with its exact condition |
| `ArtifactFiles.dfy` | the store's write operations as a class whose calls are runs of that protocol |
| `StoreScan.dfy`, `StoreCrash.dfy` | opening the store over all its keys, and after which crashes it still opens |
| `LockBootstrap.dfy`, `LockRecovery.dfy`, `LockProgress.dfy` | any number of openers agreeing on one lock directory, each able to stop anywhere, which roots a lone opener can open, and exactly when one among many fails |
| `LockDurability.dfy`, `LockCrash.dfy`, `LockLoss.dfy` | the same openers on a root whose names are durable only once synced, and exactly which states a system crash can spoil |
| `Utf8.dfy`, `CodeUnits.dfy`, `Paging.dfy`, `PageReader.dfy` | the decoder, what its UTF-16 units denote, where a byte string may be cut, the checkpoint index, and paged reads |
| `RuntimeCache.dfy`, `RuntimeServe.dfy` | callers, opens and shutdowns interleaving over the two runtime maps, and which callers must be served |
| `DependencyOrder.dfy` | the depth-first order over requirements |
| `Progress.dfy`, `ProgressPairs.dfy` | the metrics window and the loop verdict, and what they count in terms of tools, arguments and results |
| `Supervisor.dfy`, `SupervisorReports.dfy`, `Forewarning.dfy` | reports and preventions over whole runs |
| `Fnv.dfy`, `FnvLaws.dfy` | the fingerprint hash |
| `PathForm.dfy`, `PathLaws.dfy`, `PathTwice.dfy` | the canonical path form, what it makes of roots, home prefixes and URIs, and which inputs need a second pass |
| `Fencing.dfy`, `FencingLimits.dfy`, `AutoSpecAdapter.dfy` | overlapping submit, observe and cancel calls, exactly when one takes a mission back, and the adapter's sections as runs of that machine |
| `Ledger.dfy`, `SessionReport.dfy`, `SessionCounts.dfy`, `ProviderTable.dfy` | accounts kept by week, the report's counters and what each of them counts, and the object that counts by provider |
| `Crc32.dfy`, `CrcLaws.dfy` | the table-driven checksum against the shift register, its polynomial and its residue |

## What the code does not promise, and exactly when it does

- A process that dies between renaming its journal and syncing the directory leaves a journal that another
  process may replay; a system crash during that replay can then lose the journal but keep the new content
  file (`JournalLimits.TearingRun`), after which every access to the key fails (`JournalLimits.TornForever`).
  A reachable state survives every crash whole if and only if no replay operation that changes something is
  pending over a journal not yet durable (`JournalProtocol.AtomicIff`); that never arises when no process dies
  in that window (`JournalProtocol.OrderlyRuns`). Reads, immutability and dispatch need no such condition.
- Torn files or a rejected journal under one key can close the whole store, because opening it looks at every
  key. A torn pair does so exactly when its content has not the recorded size, which opening alone checks
  (`StoreCrash.TornOpensIff`). However many keys there are, the store opens after every crash if and only if no
  key has a pending replay that deletes or changes the size over a journal not yet durable, and none was torn
  that way before (`StoreCrash.StoreOpensIff`).
- `put` under an id of the reserved immutable shape publishes a journal that validation always rejects, and
  every later operation on the key fails. It happens if and only if the id has that shape
  (`JournalLimits.ReservedPutWedges`, `JournalLimits.WedgedForever`).
- Two ids use disjoint files if and only if neither is the other followed by `.txn`
  (`JournalLimits.FileNamesDisjointIff`).
- An opener among others can fail although the lock domain is sound (`LockProgress.LateClaimFails`). It fails if and
  only if, having found no domain record, it finds at its next access the marker of a claim made after another
  claim was published (`LockProgress.FailsIff`); every other opener returns, after at most 27 accesses
  (`LockProgress.Returns`), and a lone one always does (`LockBootstrap.LoneOpenerSucceeds`). A system crash may leave other roots: a lone opener can open a root if
  and only if its domain record, its marker, or the absence of both fits the directory found
  (`LockRecovery.OpensIff`).
- Openers act on names another opener has not synced yet. Every crash leaves a root that can be opened if and
  only if the domain record is durable, or no change of the marker is waiting for a sync and a visible record
  found the directory durably in place (`LockCrash.CrashOpensIff`). One opener alone already passes through a
  state in which that fails, after linking its marker (`LockLoss.Claims`), and two can lose the record after the
  marker is gone (`LockLoss.LostRecordRun`). When nobody moves while a sync is outstanding, every state without
  one is safe (`LockCrash.PromptRecoverable`).
- Path canonicalisation is documented as idempotent. It is if and only if the first result neither starts with
  `~/` nor lies under the root again (`PathForm.IdempotentIff`, counterexamples `PathForm.TwiceDiffers` and
  `PathForm.TwiceUnderRoot`); for the input, if and only if what is left without the root is no URI under the
  root and does not resolve to segments that begin with a tilde directory or with the parts of the root
  (`PathTwice.TwiceIff`).
- A caller that joined a successful open can be refused without any shutdown since it asked: the open is one that an
  earlier shutdown failed to close and left in place (`RuntimeServe.JoinsUnclosed`). A caller is refused only for
  that, for a shutdown since it read its generation, or because the open it awaited was rejected
  (`RuntimeServe.ThrewOnlyIf`); in all other cases it is served (`RuntimeServe.Served`).
- Calls are told apart by tool and arguments joined with a blank. Two different tools can be confused if and only if
  the name of one begins with the other's followed by a blank (`ProgressPairs.ToolsCollideIff`); over tools without
  a blank, calls are counted as pairs (`ProgressPairs.DistinctPairs`).
- The adapter checks fencing before it awaits the backend. A submission's receipt takes the mission back if and
  only if the last write of the mission that returned in between left a holder the receipt is behind
  (`FencingLimits.SubmitGoesBackIff`). A cancel checks the run's record rather than the mission: it takes the
  mission back if and only if such a write overtook it, or the record had already diverged from the mission's
  holder when it was checked (`FencingLimits.CancelGoesBackIff`). Both happen (`FencingLimits.OverlapGoesBack`,
  `FencingLimits.DivergedGoesBack`), and one key delivered twice at once is submitted twice
  (`FencingLimits.OverlapAsksTwice`). When writes to one mission do not overlap, the holder never goes back
  (`Fencing.HolderNeverGoesBack`).
- Cuts are counted per provider in a plain object, so a week's counts are right if and only if no provider cut in
  it is named like a member of `Object.prototype` (`ProviderTable.ProvidersCountedIff`).
- A run may be stopped for repetition before the loop was ever reported. Every such stop is preceded by a report
  if and only if one action fewer already satisfies the no-progress or the repeated-call rule, or repetition can
  stop no run at all (`Forewarning.ForewarnedIff`); the default thresholds qualify.
- Two missions can share a delivery key if and only if one mission id is the other followed by a colon and
  anything (`FencingLimits.KeysCollideIff`).

## Model

| member | source | states |
|---|---|---|
| `JournalDisk.CrashAfter` | src/artifacts/ArtifactStore.ts:1280-1306 | a crash after one more rename or unlink leaves what a crash before it could leave, with or without that operation applied |
| `JournalDisk.CrashKeeps` | src/artifacts/ArtifactStore.ts:1280-1306 | every image a crash could leave stays possible after an unsynced operation, and so does that image with the operation applied |
| `Journal.DecideValid` | src/artifacts/ArtifactStore.ts:1308-1328 | a transaction that an allowed operation decides to commit passes the validation recovery will apply to it |
| `Journal.ReplayStep` | src/artifacts/ArtifactStore.ts:1330-1361 | executing the next primitive of a replay moves to the next proved point of it, from any point |
| `Journal.ReplayPointValue` | src/artifacts/ArtifactStore.ts:1330-1361 | at every point of a replay the key logically holds the journaled value, whatever the two data files say |
| `Journal.ReplayToEnd` | src/artifacts/ArtifactStore.ts:1330-1361 | a replay resumed at any of its points runs to its end |
| `Journal.RestImages` | src/artifacts/ArtifactStore.ts:1280-1306 | with no journal in play a crash never changes the content, the metadata or the value |
| `Journal.JournaledImages` | src/artifacts/ArtifactStore.ts:1330-1361 | with a durable journal every crash image is recoverable and holds the journaled value |
| `JournalFragile.FragileImages` | src/artifacts/ArtifactStore.ts:1363-1367 | before any sync has reached a journal, replayed over or not, a crash leaves exactly the old value, exactly the new one, or files no access accepts, the last only if a replay that changes the content had begun |
| `JournalFragile.EarlyStep` | src/artifacts/ArtifactStore.ts:1330-1361 | replaying a journal that is not durable keeps it visible until the replay's first sync, which makes it durable |
| `JournalFragile.Tears` | src/artifacts/ArtifactStore.ts:1330-1361 | once such a replay has begun and changes something, some crash tears the pair |
| `Journal.RecoveryCompletes` | src/artifacts/ArtifactStore.ts:1330-1361 | recovery from any recoverable image removes the journal and leaves a consistent pair of files holding the same value |
| `JournalProtocol.StepInv` | src/artifacts/ArtifactStore.ts:1280-1367 | every step of writers, readers, process deaths and crashes keeps the protocol invariant |
| `JournalProtocol.RunInv` | src/artifacts/ArtifactStore.ts:1280-1367 | the invariant holds in every state of every run |
| `JournalProtocol.CrashAtomicity` | src/artifacts/ArtifactStore.ts:1280-1367 | after a crash at any step of any run, losing any subset of unsynced operations, recovery leaves exactly the value held or exactly the one held under a journal not yet durable, unless a replay was under way over such a journal or the files were torn before |
| `JournalProtocol.AtomicIff` | src/artifacts/ArtifactStore.ts:1280-1367 | in every reachable state that is not torn, every crash leaves old or new if and only if no replay operation that changes something is pending over a journal not yet durable |
| `JournalProtocol.OrderlyRuns` | src/artifacts/ArtifactStore.ts:1280-1306 | over runs in which no process dies between renaming its journal and syncing the directory, no state is exposed and nothing is ever torn |
| `JournalProtocol.HeldChanges` | src/artifacts/ArtifactStore.ts:1363-1367 | the value of a key changes only when a journal is published, to the journaled value, or when a crash loses a journal not yet durable, back to the value under it or to torn files |
| `JournalProtocol.CrashesKeepValue` | src/artifacts/ArtifactStore.ts:1330-1361 | from a crash on, through any number of further crashes, deaths and interrupted recoveries, the key holds what that crash left it until a new journal is published |
| `JournalProtocol.LinearizableRead` | src/artifacts/ArtifactStore.ts:1145-1186 | in every run, with deaths and crashes anywhere, a lock-free read that returns gives a value or absence that the key held at some instant during that read |
| `JournalReads.UndisturbedRead` | src/artifacts/ArtifactStore.ts:1145-1186 | in every run, a read during which no file changes is over after at most five accesses and returns the value or absence the key holds, unless a journal is visible or the files are torn; a verification read returns if the key also holds an artifact |
| `JournalReads.FailedOnlyIf` | src/artifacts/ArtifactStore.ts:1145-1186 | a read of content fails only over a journal or torn files at its start, or when a file changed or the system stopped during it |
| `JournalProtocol.ReturnedValid` | src/artifacts/ArtifactStore.ts:1130-1133 | a read that returns content returns content of the recorded size and digest |
| `JournalProtocol.Immutability` | src/artifacts/ArtifactStore.ts:1512-1551 | once an immutable artifact is held and its journal is durable, its metadata and content are held in every later state, across writes, deletes, deaths, crashes and reopening |
| `JournalProtocol.KnownMetaHolds` | src/artifacts/ArtifactStore.ts:1145-1174 | whenever a reader has read immutable metadata, the key durably holds that artifact, and still does |
| `JournalProtocol.VerifiedAtDispatch` | src/artifacts/ArtifactStore.ts:1673-1725 | an immutable artifact a verification read returned is still the held value at any later moment, so also at dispatch |
| `JournalLimits.DurableReplayAtomic` | src/artifacts/ArtifactStore.ts:1330-1361 | a replay of a durable journal is atomic under a crash at each of its points |
| `JournalLimits.UnsyncedReplayAtomicIff` | src/artifacts/ArtifactStore.ts:1363-1367 | a replay of a journal whose rename is not synced is atomic at each of its points if and only if it puts the content the key already has |
| `JournalLimits.TornForever` | src/artifacts/ArtifactStore.ts:1145-1186 | torn files stay as they are in every run: no write commits, no read returns, nothing on disk changes |
| `JournalLimits.TornIsDamaged` | src/artifacts/ArtifactStore.ts:1145-1186 | every reachable torn state is one in which that holds |
| `JournalLimits.TearingRun` | src/artifacts/ArtifactStore.ts:1280-1367 | a run of one death, one replay and one crash that tears a first put |
| `JournalLimits.WedgedForever` | src/artifacts/ArtifactStore.ts:1308-1328 | once an invalid journal is durable it stays, and every later read and lookup of the key fails, in every run |
| `JournalLimits.ReservedPutWedges` | src/artifacts/ArtifactStore.ts:1483-1510 | put publishes an invalid journal if and only if the id has the reserved immutable shape, and a valid one otherwise |
| `JournalLimits.FileNamesDisjointIff` | src/artifacts/ArtifactStore.ts:1076-1086 | two ids have disjoint file names if and only if neither is the other with the journal suffix appended |
| `ArtifactFiles.ArtifactFiles.Open` | src/artifacts/ArtifactStore.ts:1406-1481 | opening replays a journal found, keeps the held value, marks the key immutable exactly when it holds an immutable artifact, and fails exactly when the files found do not let the store open, which they then do not change |
| `ArtifactFiles.ArtifactFiles.WriteAtomic` | src/artifacts/ArtifactStore.ts:1280-1306 | replacing a file applies exactly that change and leaves nothing unsynced, as two steps of the protocol |
| `ArtifactFiles.ArtifactFiles.ReplayPut` | src/artifacts/ArtifactStore.ts:1330-1361 | replaying a put installs the content and then the metadata and leaves only the journal to remove |
| `ArtifactFiles.ArtifactFiles.ReplayDelete` | src/artifacts/ArtifactStore.ts:1330-1361 | replaying a delete removes both files and leaves only the journal to remove |
| `ArtifactFiles.ArtifactFiles.RemoveJournal` | src/artifacts/ArtifactStore.ts:1330-1361 | removing the journal changes no data file and is synced |
| `ArtifactFiles.ArtifactFiles.RecoverTransaction` | src/artifacts/ArtifactStore.ts:1330-1361 | recovery keeps the held value, removes any journal and leaves a consistent pair, as a run of the protocol; torn files stay as they are |
| `ArtifactFiles.ArtifactFiles.CommitTransaction` | src/artifacts/ArtifactStore.ts:1363-1367 | publishing and replaying a transaction makes the key hold its value and leaves no journal |
| `ArtifactFiles.ArtifactFiles.LockAndRecover` | src/artifacts/ArtifactStore.ts:1483-1510 | under the lock recovery runs first, keeps the value, and the durable read gives exactly the held value, or throws exactly over torn files |
| `ArtifactFiles.ArtifactFiles.Put` | src/artifacts/ArtifactStore.ts:1483-1510 | put stores exactly when no immutable artifact is held and the files are not torn, the new pair replaces the old one, and otherwise nothing changes; the steps extend a valid run |
| `ArtifactFiles.ArtifactFiles.PutImmutable` | src/artifacts/ArtifactStore.ts:1512-1551 | putImmutable stores exactly when the content-addressed key is empty and not torn, and then the key is known immutable; otherwise nothing changes |
| `ArtifactFiles.ArtifactFiles.Delete` | src/artifacts/ArtifactStore.ts:1727-1750 | delete removes exactly a held mutable artifact that is not torn and otherwise changes nothing |
| `ArtifactFiles.VerifyAndDispatch` | src/artifacts/ArtifactStore.ts:1673-1725 | dispatch is called if and only if the two lists have one length and every reference is an immutable artifact whose bytes hash to the supplied value |
| `StoreScan.Store.RecoverJournals` | src/artifacts/ArtifactStore.ts:1432-1443 | in any order, the journals of one category are replayed if and only if all of them are valid; other categories are untouched |
| `StoreScan.Look` | src/artifacts/ArtifactStore.ts:1451-1476 | in any order, the pairs are accepted if and only if each is absent, or has valid metadata and content of the recorded size, and then exactly the immutable keys are known |
| `StoreScan.Store.Scan` | src/artifacts/ArtifactStore.ts:1406-1481 | the store opens if and only if every key's files let it; it keeps every key's value either way, and when it opens no journal is left and the immutable keys are known |
| `StoreCrash.RecoveredByReplay` | src/artifacts/ArtifactStore.ts:1330-1361 | what opening makes of a recoverable key's files is what the protocol's replay leaves |
| `StoreCrash.TornOpensIff` | src/artifacts/ArtifactStore.ts:1459-1465 | over torn files the store opens if and only if valid metadata records the size of the content though not its digest |
| `StoreCrash.FragileTornOpensIff` | src/artifacts/ArtifactStore.ts:1330-1361 | a pair torn by a replay over an undurable journal lets the store open if and only if the journal replaces content by other content of the same size |
| `StoreCrash.KeyOpensIff` | src/artifacts/ArtifactStore.ts:1406-1481 | in every reachable state of a key, every crash leaves files over which the store opens if and only if no replay that deletes or changes the size is pending over an undurable journal, or the key was torn and its size fits |
| `StoreCrash.StoreOpensIff` | src/artifacts/ArtifactStore.ts:1406-1481 | for any number of keys at any points of their protocols, the store opens after every crash if and only if that holds of each key |
| `StoreCrash.OrderlyOpens` | src/artifacts/ArtifactStore.ts:1280-1306 | without a death between a journal's rename and its sync, every crash leaves files over which the store opens |
| `LockBootstrap.OwnStep` | src/artifacts/ArtifactStore.ts:444-687 | each filesystem call of an opener keeps the shared and its own invariant and changes shared names only in the permitted ways |
| `LockBootstrap.Stable` | src/artifacts/ArtifactStore.ts:444-687 | no permitted change by one opener breaks what another relies on |
| `LockBootstrap.StepInv` | src/artifacts/ArtifactStore.ts:444-687 | every step of every opener, and every opener that stops, keeps the invariant of all of them |
| `LockBootstrap.RunInv` | src/artifacts/ArtifactStore.ts:444-687 | the invariant holds in every state of every run of any number of openers |
| `LockBootstrap.DomainPermanent` | src/artifacts/ArtifactStore.ts:951-985 | once published the domain record never changes, and once named the lock directory is never another inode |
| `LockBootstrap.Agreement` | src/artifacts/ArtifactStore.ts:444-687 | any two openers that return, at any two times, return the same record, which is the published one and names the lock directory |
| `LockBootstrap.MarkerOnlyAfterDomain` | src/artifacts/ArtifactStore.ts:707-748 | the bootstrap marker is removed or replaced only after the domain record exists |
| `LockBootstrap.FailureOnlyAfterSuccess` | src/artifacts/ArtifactStore.ts:540-618 | an opener fails only after the domain is published, and the unproven-without-marker and disappeared errors never occur |
| `LockProgress.WaitFree` | src/artifacts/ArtifactStore.ts:444-687 | however any number of openers interleave, an opener has returned or failed after at most 27 accesses |
| `LockProgress.FailsIff` | src/artifacts/ArtifactStore.ts:444-687 | in every run, an opener that came to its end failed if and only if, having found no domain record, it found at its next access the marker of a claim while the domain record already named another |
| `LockProgress.Returns` | src/artifacts/ArtifactStore.ts:444-687 | an opener that has made 27 accesses without that has returned |
| `LockProgress.LateClaimFails` | src/artifacts/ArtifactStore.ts:572-594 | a run of three openers in which that happens: the third throws that the path was substituted although the domain is published and sound |
| `LockProgress.NothingLeft` | src/artifacts/ArtifactStore.ts:488-511 | in every run an opener that returned has no staging directory left, and every token file lies in the lock directory or in one still staged |
| `LockProgress.ForeignMarkerBack` | src/artifacts/ArtifactStore.ts:727-742 | a marker moved away that is not the expected one is put back, and nothing else has changed |
| `LockBootstrap.LoneOpenerSucceeds` | src/artifacts/ArtifactStore.ts:444-687 | from every reachable state, also one left by openers that crashed, an opener running alone returns within 24 calls, with the published record if there was one, and no marker is left |
| `LockBootstrap.AloneSucceeds` | src/artifacts/ArtifactStore.ts:778-828 | a rank that falls with every call bounds how long an undisturbed opener takes to return a settled domain |
| `LockBootstrap.AloneKeepsDomain` | src/artifacts/ArtifactStore.ts:987-1000 | an opener running alone never changes a published domain |
| `LockRecovery.OpensIff` | src/artifacts/ArtifactStore.ts:444-687 | over any root whatever, also one a system crash left, a lone opener returns the domain within 24 calls if and only if the domain record names the directory with its token, or without one the marker's directory is staged or in place, or there is neither record nor directory; otherwise it throws |
| `LockRecovery.LostRecord` | src/artifacts/ArtifactStore.ts:449-511 | in every reachable state with a record and no marker, losing the record leaves a root that refuses every later opener as unproven |
| `LockDurability.IssuedIs` | src/artifacts/ArtifactStore.ts:444-687 | the change recorded as unsynced is exactly what each call does to the names in the root |
| `LockDurability.RootStepInv` | src/artifacts/ArtifactStore.ts:444-687 | every call and every sync keeps the invariant that ties the visible root to the synced one and to what is pending |
| `LockDurability.RootRunInv` | src/artifacts/ArtifactStore.ts:444-687 | it holds in every state of every run of any number of openers |
| `LockCrash.KeptPlace` | src/artifacts/ArtifactStore.ts:592-594 | a crash keeps the renaming of the staged directory whole or loses it whole |
| `LockCrash.CrashOpensIff` | src/artifacts/ArtifactStore.ts:444-687 | in every reachable state, every crash leaves a root that can be opened if and only if the domain record is durable, or no change of the marker is unsynced and a visible record has its directory durably in place |
| `LockCrash.PromptRecoverable` | src/artifacts/ArtifactStore.ts:973-984 | when no opener moves while another's sync is outstanding, every state without an outstanding sync leaves only roots that can be opened |
| `LockLoss.Claims` | src/artifacts/ArtifactStore.ts:778-805 | one opener alone reaches a state that a crash can make impossible to open: its marker linked and not yet synced |
| `LockLoss.LostRecordRun` | src/artifacts/ArtifactStore.ts:707-748 | a run of two openers and a crash that keeps the removal of the marker and loses the record, after which every opener throws that the lock root is unproven |
| `Utf8.CompleteUtf8Prefix` | src/artifacts/ArtifactStore.ts:79-87 | for every byte string, bytes are held back if and only if the string ends in an unfinished sequence, and then exactly that sequence, of at most three bytes; the split is safe |
| `Utf8.SafeSplitIsClean` | src/artifacts/ArtifactStore.ts:79-87 | at a safe split decoding restarts cleanly whatever bytes follow |
| `Utf8.DecodeDistributes` | src/artifacts/ArtifactStore.ts:79-87 | at a clean cut, decoding the whole is decoding the two parts and concatenating, malformed input included |
| `CodeUnits.RoundTrip` | src/artifacts/ArtifactStore.ts:1573-1583 | the UTF-16 units decoded from the UTF-8 encoding of any scalar values, read as single units and surrogate pairs, denote those values |
| `CodeUnits.DecodeRead` | src/artifacts/ArtifactStore.ts:1237 | for every byte string, malformed too, the units denote the decoder's scalar values and are sixteen bits wide |
| `CodeUnits.WellFormedStep` | src/artifacts/ArtifactStore.ts:1237 | a well-formed character decodes to itself whatever follows |
| `CodeUnits.MalformedStep` | src/artifacts/ArtifactStore.ts:1237 | where no character is complete, the longest beginning that is part of one, or a single byte, becomes one U+FFFD |
| `CodeUnits.EveryStep` | src/artifacts/ArtifactStore.ts:1237 | every byte string begins with one of the two, so these steps decode it |
| `Paging.DecodePiecewise` | src/artifacts/ArtifactStore.ts:1209-1278 | the decoder has the one property the index relies on: it distributes over clean cuts |
| `Paging.CutAdvance` | src/artifacts/ArtifactStore.ts:1209-1246 | extending a checkpoint by a safe prefix of what was read gives a checkpoint again, with the decoded text extended by that prefix |
| `Paging.CheckpointBound` | src/artifacts/ArtifactStore.ts:1209-1246 | checkpoints a stride apart number at most 1024 for a file of any size |
| `Paging.DecodeChunk` | src/artifacts/ArtifactStore.ts:1209-1246 | one read of any length moves to a later position, decodes a piece, and keeps the bytes not yet decodable pending |
| `Paging.PageIndex` | src/artifacts/ArtifactStore.ts:1209-1246 | every checkpoint maps a byte offset to the number of UTF-16 units before it, checkpoints are a stride and less than one read more apart and reach the end, there are at most 1025, the index is refused if the digest differs, and built if reads return data and it agrees |
| `Paging.FindCheckpoint` | src/artifacts/ArtifactStore.ts:1248-1278 | the chosen checkpoint is valid and is the last one not past the requested start |
| `Paging.ReadIndexedSlice` | src/artifacts/ArtifactStore.ts:1248-1278 | for every byte string, index, start, limit and chunking the result is the slice of the fully decoded text |
| `PageReader.PageReader.Remember` | src/artifacts/ArtifactStore.ts:1590-1629 | a used index becomes the newest of at most 16 distinct entries |
| `PageReader.PageReader.IndexFor` | src/artifacts/ArtifactStore.ts:1590-1629 | the index used is one for this key, this file signature and its digest, cached or rebuilt, and is then the newest entry; it exists when the file is undisturbed and its digest agrees; on failure the key is forgotten |
| `PageReader.PageReader.ReadSlice` | src/artifacts/ArtifactStore.ts:1590-1629 | a returned page is the requested slice of the decoded file with the next offset after it, and is returned only if the size and digest agree and the file was unchanged; it is returned whenever nothing disturbs the read |
| `PageReader.PageReader.ReadAll` | src/artifacts/ArtifactStore.ts:1590-1629 | following the next offset from zero until an empty page terminates and concatenates to exactly the decoded text, however the reads of each page are chunked |
| `RuntimeCache.StepInv` | extensions/index.ts:390-510 | every atomic section between awaits, of callers, opens and the shutdown, keeps the invariant |
| `RuntimeCache.RunInv` | extensions/index.ts:390-510 | the invariant holds in every state of every interleaving |
| `RuntimeCache.OneRuntimePerRepository` | extensions/index.ts:390-510 | no repository ever has two unclosed runtimes |
| `RuntimeCache.UnclosedReachable` | extensions/index.ts:642-687 | every unclosed runtime is in a map or in the running shutdown, and during a shutdown the shutdown itself holds it |
| `RuntimeCache.NothingPublishedInFlight` | extensions/index.ts:390-510 | while a shutdown is in flight no open and no runtime is published |
| `RuntimeCache.ResolvedShutdownClosesAll` | extensions/index.ts:642-687 | a shutdown that resolves leaves both maps empty and every runtime closed |
| `RuntimeCache.ReturnedRuntimeIsOpen` | extensions/index.ts:390-510 | a runtime handed to a caller is unclosed and is the one of the caller's repository |
| `RuntimeServe.ThrewOnlyIf` | extensions/index.ts:390-411 | in every run, a caller that resumes and throws had a shutdown start since it read its generation, or awaited an open that was rejected, or joined one that an earlier shutdown failed to close |
| `RuntimeServe.Served` | extensions/index.ts:390-411 | in every run, a caller without these that awaited an open, or finds a cached runtime, gets that runtime, unclosed and of its repository |
| `RuntimeServe.JoinsUnclosed` | extensions/index.ts:642-687 | a run in which the third reason alone refuses a caller |
| `RuntimeServe.WaitsForShutdown` | extensions/index.ts:391 | a caller that arrives during a shutdown does nothing until it is over |
| `DependencyOrder.DependencyOrder.Visit` | src/bar/cluster.ts:72-103 | a visit terminates, restores the stack, only extends the order and the unresolved set, and places or reports the node |
| `DependencyOrder.StackCycle` | src/bar/cluster.ts:72-103 | a dependency found on the stack lies on a cycle |
| `DependencyOrder.DefectsReported` | src/bar/cluster.ts:72-103 | an order with these properties reports every missing id and at least one node of every cycle |
| `DependencyOrder.DependencyOrder.BuildDependencyOrder` | src/bar/cluster.ts:72-103 | every known id is listed once, each edge to a known dependency has it earlier or unresolved, each unresolved id is missing or on a cycle, and nothing is unresolved if and only if the graph is closed and acyclic |
| `Progress.ProgressEvaluator.constructor` | src/aps/progress.ts:30-33 | a new evaluator has seen nothing and keeps at least two actions |
| `Progress.ProgressEvaluator.Record` | src/aps/progress.ts:36-39 | the window is always the last actions of the whole run, as many as the history size |
| `Progress.ProgressEvaluator.CountRepeats` | src/aps/progress.ts:97-110 | the counted turns are the trailing run of equal fingerprints |
| `Progress.ProgressEvaluator.CountStale` | src/aps/progress.ts:112-122 | the counts are the occurrences of each fingerprint, and the stale count is the number of actions repeating the last result of their call |
| `Progress.ProgressEvaluator.MeasureStall` | src/aps/progress.ts:139-151 | the stall is the longest tail of non-mutating actions by artifact roles, with the number of different calls in it |
| `ProgressPairs.StallPairs` | src/aps/progress.ts:139-151 | over every run, the distinct count reported with a stall is the number of different pairs of tool and arguments in its tail |
| `ProgressPairs.StalledTailIs` | src/aps/progress.ts:139-151 | that tail is the longest, within the window, of actions by an implementer, debugger or integrator with a tool other than write, edit and worker_result |
| `ProgressPairs.DistinctPairs` | src/aps/progress.ts:149 | for tools without a blank, different joined calls are as many as different pairs |
| `ProgressPairs.ToolsCollideIff` | src/aps/progress.ts:149 | two tools can give one joined call if and only if one name begins with the other's and a blank |
| `ProgressPairs.StaleIs` | src/aps/progress.ts:112-122 | the stale count is the number of actions whose latest earlier action with the same tool and arguments returned the same result |
| `ProgressPairs.VerdictIs` | src/aps/progress.ts:53-70 | the verdict, told from trailing fingerprints, occurrences and such actions alone |
| `Progress.ProgressEvaluator.ComputeVector` | src/aps/progress.ts:94-162 | the evicting window computes the metrics of the last actions of the whole run |
| `Progress.ProgressEvaluator.LastActionIsStale` | src/aps/progress.ts:78-91 | true exactly when the latest earlier action with the same tool and arguments returned the same result |
| `Progress.ProgressEvaluator.Classify` | src/aps/progress.ts:53-70 | the verdict is that of the last actions of the whole run, in the order of the three rules |
| `Progress.RepeatsIff` | src/aps/progress.ts:97-110 | at least n repeats if and only if the history ends in n + 1 actions with one fingerprint |
| `Progress.StallIff` | src/aps/progress.ts:139-151 | a stall of at least n if and only if the last n actions are non-mutating and by artifact roles |
| `Progress.Pigeonhole` | src/aps/progress.ts:139-151 | among n actions over at most d different calls some call occurs at least n/d times |
| `Supervisor.AgentProgressSupervisor.Observe` | src/aps/supervisor.ts:162-268 | the state after an action is that of the whole run with the action appended, and the answers say whether an event was emitted and whether the run was prevented by it |
| `Supervisor.TriggerExact` | src/aps/supervisor.ts:175-185 | the windowed counters ask for prevention exactly when the whole run is repeating or stalling in the sense of the thresholds, the window being large enough |
| `Supervisor.FiredIff` | src/aps/supervisor.ts:179-185 | prevention has fired if and only if it is enabled and some prefix of the run is repeating or stalling |
| `Supervisor.PreventedOnce` | src/aps/supervisor.ts:179-186 | a run has one prevented event if prevention fired and none otherwise |
| `Supervisor.PreventionJustified` | src/aps/supervisor.ts:162-185 | a prevention means the run ends in N + 1 actions with one fingerprint, or in a stall of at least S actions of which, with D calls allowed, one call makes up at least a D-th |
| `ProgressPairs.StallJustified` | src/aps/supervisor.ts:175-185 | behind every prevention for a stall is a tail of enough such actions over few enough pairs of tool and arguments |
| `ProgressPairs.WideStallRuns` | src/aps/supervisor.ts:175-178 | a stall over more pairs than allowed is never prevented as one |
| `ProgressPairs.DefaultStops` | src/aps/types.ts:292-298 | with the default thresholds a run has been stopped if and only if at some point its last five actions had one fingerprint, or its last forty were idle and the idle tail in the window of fifty was over at most six pairs |
| `Supervisor.LoopReported` | src/aps/supervisor.ts:236-248 | unless the action is the prevented one, a loop verdict means a candidate event for its session and fingerprint is on record |
| `SupervisorReports.EventsAre` | src/aps/supervisor.ts:162-268 | the events of every run, action by action: a prevention for the first excess only, and a loop candidate exactly when the session's latest unprevented action was not a loop over the same fingerprint, so a loop that returns after progress is reported again |
| `Supervisor.WarningFirst` | src/aps/supervisor.ts:179-268 | when one action fewer than prevention needs satisfies the no-progress or the repeated-call rule, a prevention for repetition is preceded by a candidate event with the same fingerprint |
| `Forewarning.ForewarnedIff` | src/aps/supervisor.ts:179-268 | over all runs, every prevention for repetition is preceded by a report of that loop if and only if the thresholds warn, prevention is off, or the window is too small to show the repetition |
| `Forewarning.SilentPrevention` | src/aps/supervisor.ts:175-234 | for every other configuration, a run whose first event is a prevention for repetition |
| `Forewarning.RepetitionJudged` | src/aps/supervisor.ts:163-183 | a history that only repeats one fingerprint, with no stale result and no stall, is judged and prevented by its length alone |
| `Supervisor.DefaultsForewarn` | src/aps/types.ts:190-194 | with the default thresholds an action is never excessive by repetition unless the one before it was already judged the same loop |
| `Supervisor.NoDuplicateReport` | src/aps/supervisor.ts:236-245 | two consecutive candidate events of a session share a fingerprint only if between their actions the session did something that is not a loop |
| `Fnv.StepUnstep` | src/aps/fingerprint.ts:161-164 | for each byte no two 64-bit states step to the same one: the step can be undone |
| `Fnv.UnstepStep` | src/aps/fingerprint.ts:161-164 | for each byte every 64-bit state is stepped to, so the step is a bijection |
| `Fnv.StepByte` | src/aps/fingerprint.ts:161-164 | from one state, different bytes lead to different states |
| `Fnv.SuffixCollision` | src/aps/fingerprint.ts:158-166 | inputs with a common suffix collide if and only if their prefixes do |
| `Fnv.OneByteApart` | src/aps/fingerprint.ts:158-166 | inputs that differ in exactly one byte never collide |
| `Fnv.HexRoundTrip` | src/aps/fingerprint.ts:165 | the output is always sixteen lower-case hexadecimal digits and the hash can be read back from it |
| `Fnv.Fnv1a64` | src/aps/fingerprint.ts:158-166 | the loop returns sixteen hexadecimal digits whose value is the hash of the bytes |
| `FnvLaws.SmallHashes` | src/aps/fingerprint.ts:158-166 | the hash of nothing is the 64-bit offset basis, and of one byte the basis exclusive-or the byte, times the 64-bit prime |
| `FnvLaws.NextByte` | src/aps/fingerprint.ts:161-164 | a further byte is taken by exclusive or before the multiplication, modulo two to the 64 |
| `FnvLaws.XorBits` | src/aps/fingerprint.ts:162 | the exclusive or of two numbers has the bits in which they differ |
| `PathForm.NormalizePathLike` | src/aps/fingerprint.ts:104-126 | the loop over the parts computes the specified canonical form for every input and root |
| `PathForm.NormalizeCanonical` | src/aps/fingerprint.ts:104-126 | every result is a dot, a URI, or segments between single slashes none of which is empty, a dot, two dots, untrimmed or with runs of white space |
| `PathForm.IdempotentIff` | src/aps/fingerprint.ts:104-126 | for every input and root, normalizing the result again changes nothing if and only if the result is a dot, or neither starts with a home prefix nor lies under the root |
| `PathForm.TwiceDiffers` | src/aps/fingerprint.ts:114 | a slash, a tilde directory and any proper segment need two passes |
| `PathForm.TwiceUnderRoot` | src/aps/fingerprint.ts:106-112 | under a relative root, a path that repeats the root needs two passes |
| `PathForm.SlashRootedIff` | src/aps/fingerprint.ts:104-126 | with no root or one that starts at a slash, normalizing is idempotent if and only if the result does not start with a home prefix |
| `PathTwice.TwiceIff` | src/aps/fingerprint.ts:104-126 | told from the input: a second pass changes something if and only if the text without the root is a URI under the root, or resolves to segments that begin with a tilde directory or with the parts of the root |
| `PathTwice.UnderIff` | src/aps/fingerprint.ts:106-112 | a canonical path lies under a prefix if and only if the prefix, cut at its slashes, begins its segments |
| `PathTwice.HomeIff` | src/aps/fingerprint.ts:114 | a canonical path starts with the home prefix if and only if the first of several segments is a tilde |
| `PathForm.UnrootedShort` | src/aps/fingerprint.ts:115-125 | the canonical form is never longer than the input, except that nothing becomes a dot |
| `PathForm.CanonicalDirectory` | src/aps/fingerprint.ts:115-125 | replacing a directory by its canonical form does not change what a path below it resolves to |
| `PathForm.ParentCancels` | src/aps/fingerprint.ts:119-122 | entering a directory and leaving it is no step anywhere in a path, and the root is its own parent |
| `PathLaws.StripsRoot` | src/aps/fingerprint.ts:106-112 | for every tidy root, also one starting at a slash, the root becomes a dot and a path under it is treated as that path alone |
| `PathLaws.UnderRootIff` | src/aps/fingerprint.ts:106-112 | a canonical path comes back from under the root if and only if it does not start with a home prefix |
| `PathLaws.OutsideRoot` | src/aps/fingerprint.ts:106-112 | a path that only begins with the letters of the root keeps them |
| `PathLaws.TrailingSlash` | src/aps/fingerprint.ts:107 | a slash at the end of the root makes no difference |
| `PathLaws.HomeStripped` | src/aps/fingerprint.ts:114 | a canonical path loses a home prefix |
| `PathLaws.Backslashes` | src/aps/fingerprint.ts:105 | backslashes mean slashes |
| `PathLaws.UriKept` | src/aps/fingerprint.ts:113 | anything that starts with a scheme, a colon and two slashes is left as it is |
| `Fencing.FencingOrder` | src/adapters/Adapters.ts:94-97 | not being stale is a partial order on owners in which one token has one owner |
| `Fencing.FencingTotal` | src/adapters/Adapters.ts:94-97 | of two owners with different tokens exactly the one with the lower is stale against the other, and with one token two owners are stale against each other |
| `AutoSpecAdapter.ConcreteAutoSpecAdapter.SubmitBegin` | src/adapters/AutoSpecAdapter.ts:139-150 | as a step of the machine: a submission is answered without the backend if and only if its key was ever handed out, with the id last handed out for it; otherwise it is refused if and only if the mission has a holder with a higher token, or with the same token and another owner; otherwise it is asked for exactly once |
| `AutoSpecAdapter.ConcreteAutoSpecAdapter.SubmitEnd` | src/adapters/AutoSpecAdapter.ts:153-165 | as a step of the machine: the receipt's key, run and mission holder agree, and no other key, run, mission or earlier record changes |
| `AutoSpecAdapter.ConcreteAutoSpecAdapter.ObserveBegin` | src/adapters/AutoSpecAdapter.ts:169-172 | a caller is refused if and only if the run is known and its holder has a higher token, or the same token and another owner |
| `AutoSpecAdapter.ConcreteAutoSpecAdapter.ObserveEnd` | src/adapters/AutoSpecAdapter.ts:173-192 | the sequence reported for a known run exceeds every one reported for it before, and no key, run or holder changes |
| `AutoSpecAdapter.ConcreteAutoSpecAdapter.CancelBegin` | src/adapters/AutoSpecAdapter.ts:196-197 | a caller is refused if and only if the run is known and its holder has a higher token, or the same token and another owner |
| `AutoSpecAdapter.ConcreteAutoSpecAdapter.CancelEnd` | src/adapters/AutoSpecAdapter.ts:198-203 | only a successful cancel of a known run moves a holder: that run's and its mission's, to the caller |
| `AutoSpecAdapter.KeysHanded` | src/adapters/AutoSpecAdapter.ts:138-166 | in every run the recorded keys are exactly those some caller was handed an id for |
| `AutoSpecAdapter.LastHanded` | src/adapters/AutoSpecAdapter.ts:138-166 | in every run the id recorded for a key is the one last handed out for it |
| `AutoSpecAdapter.AskedIff` | src/adapters/AutoSpecAdapter.ts:139-150 | in every run a submission under an unrecorded key changes nothing if the mission is held with a higher token or by another owner with the same one, and otherwise is asked for |
| `AutoSpecAdapter.TakesOver` | src/adapters/AutoSpecAdapter.ts:139-165 | in every run a submission by an owner with a higher token is asked for, and when its receipt returns that owner holds the mission and the run |
| `AutoSpecAdapter.PassesIff` | src/adapters/AutoSpecAdapter.ts:168-197 | in every run an observation or cancel passes its check exactly when the run is unknown or its holder has a lower token or is the caller |
| `Fencing.ObserveMovesNoHolder` | src/adapters/AutoSpecAdapter.ts:168-193 | observing moves neither any run's nor any mission's holder |
| `Fencing.RedeliveryAndSequence` | src/adapters/AutoSpecAdapter.ts:138-193 | however calls overlap, a key that was handed out is never submitted to the backend again, and observations of one registered run carry strictly increasing sequence numbers |
| `Fencing.StepInv` | src/adapters/AutoSpecAdapter.ts:138-204 | when writes to one mission do not overlap, every step keeps the invariant and no mission's holder goes back |
| `Fencing.HolderNeverGoesBack` | src/adapters/AutoSpecAdapter.ts:138-204 | over such a run a mission's token never decreases and two owners never hold it with one token |
| `Fencing.SameHandle` | src/adapters/AutoSpecAdapter.ts:138-166 | over such a run all handles given out for a key are equal and only the first delivery started work |
| `FencingLimits.SubmitGoesBackIff` | src/adapters/AutoSpecAdapter.ts:143-165 | whatever overlaps, a submission's receipt takes the mission back if and only if the last write of the mission that returned since it was asked left a holder the receipt is behind |
| `FencingLimits.CancelGoesBackIff` | src/adapters/AutoSpecAdapter.ts:195-204 | whatever overlaps, a successful cancel takes the mission back if and only if the last write since its check left a holder the caller is behind, or there was none and the record it was checked against had diverged from a mission holder the caller is behind |
| `FencingLimits.DivergedGoesBack` | src/adapters/AutoSpecAdapter.ts:195-204 | a run in which, with nothing else in flight, an older owner's cancel passes its check and takes the mission back |
| `FencingLimits.OverlapGoesBack` | src/adapters/AutoSpecAdapter.ts:143-165 | two overlapping submissions give a run in which the older owner takes the mission back |
| `FencingLimits.OverlapAsksTwice` | src/adapters/AutoSpecAdapter.ts:139-152 | one key delivered twice at once is submitted to the backend twice |
| `FencingLimits.KeysCollideIff` | src/adapters/AutoSpecAdapter.ts:139 | two missions can share a delivery key if and only if one mission id is the other followed by a colon and more |
| `SessionReport.MondayOf` | scripts/pi-session-report.ts:73-77 | the result is a Monday and the moment lies in the seven days from it |
| `SessionReport.Report.CountCut` | scripts/pi-session-report.ts:138-150 | the cut counters gain exactly this cut: early, near the idle bound, slow to recover, and its provider |
| `SessionReport.Report.CountStall` | scripts/pi-session-report.ts:193-198 | the stall counters gain one stall and one kind of resumption exactly when ten minutes of silence follow |
| `SessionReport.Report.CountOutcome` | scripts/pi-session-report.ts:179-189 | the failure counters gain one error, its outcome, and a spent budget at exactly the fourth error in a row |
| `SessionReport.Report.Accumulate` | scripts/pi-session-report.ts:152-201 | each week gains exactly what the session's messages of that week contribute, plus one session, and other weeks are unchanged |
| `SessionCounts.ReportCounts` | scripts/pi-session-report.ts:138-201 | in every week of every report each counter is the number of messages of that week that meet its condition, written out in roles, flags, gaps and the next message |
| `SessionCounts.SessionsCounted` | scripts/pi-session-report.ts:152-201 | the sessions of a week are those with a message in it |
| `SessionReport.ReportOrder` | scripts/pi-session-report.ts:215-219 | two reports over the same sessions in any order are equal, week by week and counter by counter |
| `SessionReport.ReportBalanced` | scripts/pi-session-report.ts:138-201 | in every week of every report errors are recoverable, after output or final; stalls are resumed by a person, automatically or not at all, and are at most the errors that are not final; cuts are the sum over providers and bound the finer cut counters |
| `ProviderTable.WeekCutsAre` | scripts/pi-session-report.ts:138-142 | the providers a week's report holds are those of the cuts counted into its object, session by session |
| `ProviderTable.ProvidersCountedIff` | scripts/pi-session-report.ts:138-142 | in every week of every report, the plain object holds exactly the providers with their numbers of cuts if and only if none of them is named like a member of `Object.prototype`, such as `constructor` or `__proto__` |
| `SessionReport.BudgetsCovered` | scripts/pi-session-report.ts:175-181 | in every report, over all weeks together, four times the spent budgets is at most the errors |
| `Ledger.EnteredCommutes` | scripts/pi-session-report.ts:152-201 | for any commutative addition, entering two books of dated entries in either order gives the same weeks |
| `Ledger.FoldOrder` | scripts/pi-session-report.ts:215-219 | steps that commute pairwise may be taken in any order |
| `Ledger.GrandIs` | scripts/pi-session-report.ts:152-201 | the weeks' totals of a session add up to the total of all its messages: nothing is lost or counted twice |
| `Crc32.ShiftXor` | scripts/vision-delegation-spike.ts:112-116 | the bit step is linear over exclusive or |
| `Crc32.Lookup` | scripts/vision-delegation-spike.ts:117-121 | one table lookup and one shift by w places equal w bit steps, for every register |
| `Crc32.BuildTable` | scripts/vision-delegation-spike.ts:112-116 | every entry is the result of shifting its index through the register |
| `Crc32.Compute` | scripts/vision-delegation-spike.ts:117-121 | the table-driven loop computes what the register computes fed bit by bit |
| `Crc32.Crc32` | scripts/vision-delegation-spike.ts:112-121 | for every byte sequence the result is the bit-serial CRC of section 5.5 of the PNG Specification |
| `Crc32.BurstDetected` | scripts/vision-delegation-spike.ts:117-121 | any change within four consecutive bytes, whatever surrounds them, changes the checksum |
| `CrcLaws.PolynomialIs` | scripts/vision-delegation-spike.ts:114 | the register divides by x^32 + x^26 + x^23 + x^22 + x^16 + x^12 + x^11 + x^10 + x^8 + x^7 + x^5 + x^4 + x^2 + x + 1 |
| `CrcLaws.TrailerIff` | scripts/vision-delegation-spike.ts:112-121 | four bytes after any message give the fixed residue if and only if they are its checksum, lowest byte first |
| `CrcLaws.EmptySum` | scripts/vision-delegation-spike.ts:118-120 | the checksum of nothing is zero: the initial value and the final complement cancel |
| `CrcLaws.OnesSum` | scripts/vision-delegation-spike.ts:118-120 | four bytes of ones empty the register, so their checksum is all ones |

## Left out

- Directory handles, inode pinning, ownership, mode and symlink checks, and the path fallback on macOS: facts of the operating system rather than protocol logic.
- The legacy "prepared" marker and the backfill of old metadata: compatibility paths with timing waits.
- The exclusive file lock, SHA-256, JSON and UUIDs are taken as mutual exclusion, injectivity, a round trip and freshness.
- Openers that run on after a system crash of the lock bootstrap together; LockCrash states what one crash leaves of every run, and LockRecovery what a lone opener makes of any root.
- StoreScan.Store.Scan: the keys' file names are taken as disjoint, which JournalLimits.FileNamesDisjointIff makes exact; categories that vanish or are links are not modelled.
- Journal entries hold content and the metadata the protocol depends on; creation times, URIs and the in-memory index with its listing functions are not modelled.
- PageReader.PageReader.ReadSlice: requires that a file signature determines the file's content; the source re-reads the signature after the read but cannot see content changed under an unchanged signature.
- Two memory identities for one repository, and a seeding step that throws, in the runtime cache; the rest of the extension is commands and display.
- The sorting of requirement ids before the depth-first search and of `unresolved` after it; the theorems hold for every order of the ids, and `unresolved` is a set.
- Event timestamps, identifiers, notices, persistence and the incident bridge of the supervisor, and the recovery, escalation and rollout tables of the same package.
- The strategy families, argument canonicalisation and result summaries behind a fingerprint; the hash is proved on bytes and the actions carry their canonical texts.
- AutoSpecAdapter.ConcreteAutoSpecAdapter.ObserveEnd: run records are named by their place in a sequence instead of by reference, so that a call in flight can hold one that was replaced; the mapping of lifecycle states is left out.
- The backends of the adapter, with their timers and promise races.
- The text classifiers of the session report are answers carried by each message, weeks are numbered by the day of their Monday, and the counters of a week are grouped; parsing, filtering by date and rendering are left out.
- SessionReport.ReportBalanced: counts cuts per provider in a multiset; the source uses a plain object, which counts correctly exactly under the condition of ProviderTable.ProvidersCountedIff.
- The clustering of root causes beside the dependency order, and the other scripts, the control server and the installer.

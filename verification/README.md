# Lenovmail: a verified model of its synchronisation and delivery core

Lenovmail keeps a local copy of remote mailboxes (IMAP and Microsoft Graph) and sends mail from a
shared queue. This project models the protocol-like parts of it and proves what they keep over
every run. Each module follows one source component:

| module | component |
|---|---|
| `Store` | message identity, placements, orphan purge of one account's tables |
| `ImapServer` | a mailbox as a client sees it, changing between any two commands, and the command replies |
| `Identity` | what marks a mail, and which placements share a message row |
| `ImapSync` | the IMAP sync cycle of one folder, its cursor and rollback |
| `ImapRuns` | runs of an account: cycles, body backfills and local removals of all its folders on shared tables |
| `ImapIdentity` | which IMAP placements share a row, over every run |
| `ImapWitnesses` | concrete runs of one folder: where promises fail, and where their hypotheses hold |
| `GraphSync` | the Graph delta cycle with restart on an expired token |
| `GraphRuns` | runs of a Graph account, and which of its items share a row |
| `Threads` | conversation threads kept as merged components |
| `Outbox` | claim, send and stale release with concurrent and dying jobs |
| `SendLimit` | the hourly allowance of an agent token |
| `ImapPool` | the connection pool and its quota |
| `SyncLock` | the per-account Redis lock |
| `Janitor` | quarantine, recovery and retirement of accounts |
| `Paging`, `Base64` | keyset cursors and the run of pages they give |
| `Mining` | greedy span claiming of mined values |
| `MimeParts` | MIME part numbering and extraction |
| `Util` | decimal text, ordered listings, counting |

How the model is built:

- Code that changes tables or objects in place is a class whose methods are proved equal to a
  specification function on an abstract value; runs are sequences of those functions, and the main
  results are lemmas about every run.
- A server is a function from time to mailbox. A cycle reads it at one instant per command, so
  appends, expunges and flag changes fall between any two commands; only that UIDVALIDITY is constant
  while a folder is selected is assumed of a cycle that succeeds. One instant at which a command
  or the commit fails stands for a rolled-back cycle.
- Concurrency is interleaving: one step per committed transaction, or per stretch of code between
  two suspension points. Deaths, lost replies, failing bodies and expiring keys are steps.
- Clocks are numbers. SHA-256 is an injective constructor. Timestamps and ids in cursors are
  written and read by a codec of which only the round trip, ASCII text and a stamp without a bar
  are assumed.

Results where the code keeps a promise only under a condition. Each of these states the condition
exactly, as an if and only if:

- `Outbox.ApproveKeepsInvIff`: `approve` does not look at the old status; it is safe exactly for a
  row that was not sent and that no live job holds. `Outbox.ApprovingSentRowResends` and
  `Outbox.ApprovingHeldRowDoubles` show what happens otherwise.
- `Outbox.NoDoubleHoldIff` and `Outbox.BoundedRedeliveryIff`: rows have one holder and redelivery is
  bounded exactly when jobs live no longer than the claim timeout; the job timeout is a setting.
- `SendLimit.WindowBoundIff`: rows are dated by the start of their database transaction, which may
  precede the check. The allowance holds exactly for windows that are shorter than an hour by at
  least that skew.
- `SyncLock.ExclusionIff`: cycles exclude each other exactly when every cycle ends strictly before
  the lifetime of the key, which equals the default job timeout.
- `Paging.CompleteIff`: the folder join repeats a message that is placed twice while the page is
  trimmed after repetitions are dropped, and the cursor falls back to the sent date while the ordering
  does not. Paging ends and lists everything, for every page size, exactly when only the last row
  repeats and no other row has a row of the listing between its place and that of its cursor.
  `Paging.LoopsForever` shows a listing that never ends.
- `Threads.PartitionKeptIff`, and `Threads.ComponentsIff` over runs: a call keeps threads and
  components the same exactly when, with the new references, the messages it leaves together with its
  own message, or without it, are still connected. Calls that drop no reference always do; the header
  pass of a later cycle may drop some (src/lenovmail/sync/store.py, lines 691-700).
- `ImapSync.FlagsKeptIff`: whatever tables a cycle starts from, it keeps stored flags current exactly
  when it stores no UIDVALIDITY, or reads flags if it stores a MODSEQ, or fetches as new every unchanged
  mail that the old MODSEQ did not cover. `ImapWitnesses.FlagsGoStale` is a run in which it does not.
- `ImapSync.QuietCycleConverges`: a refresh cycle on a quiet server always ends with the server's UIDs,
  and with its flags exactly when those it does not read were right; without CONDSTORE it reads all.
- `Threads.CountersKeptIff`, and `Threads.CountersIff` over runs: thread counters stay exact, and no
  thread empty, exactly when a call's message leaves no thread that the call does not merge. A message
  without Message-ID and references leaves its thread on every call.
- `ImapRuns.BackfillKeepsIdentityIff`: the body backfill selects the folder without comparing
  UIDVALIDITY. A row keeps the hash of its Message-ID, whatever mailbox the fetch finds, exactly when
  the UIDVALIDITY is that of the placement; `ImapWitnesses.StaleFetchLosesRow` is a run that loses a row
  otherwise. What a row has stored under a Message-ID is safe either
  way (`ImapRuns.ResetKeepsStoredContent`).

## Model

| member | source | states |
|---|---|---|
| `ImapRuns.NoMessageSkipped` | src/lenovmail/sync/imap_sync.py:232-332 | in every reachable state of an account, whatever arrives or is expunged between commands, however many cycles roll back and whatever its other folders do, a message still on the server under the stored UIDVALIDITY with a UID below the stored `uidnext` has its placement |
| `ImapRuns.RunKeepsCursorSound` | src/lenovmail/sync/imap_sync.py:232-332 | the inductive invariant behind it holds for every folder at every later time of every run, together with the consistency of the tables |
| `ImapSync.CycleKeepsCursorSound` | src/lenovmail/sync/imap_sync.py:237-309 | one successful cycle keeps the cursor invariant although the cursor is older than both SEARCH results and deletion detection may remove what the cycle just placed |
| `ImapRuns.CondstoreFlagsNeverStale` | src/lenovmail/sync/imap_sync.py:263-302 | when the server always serves CONDSTORE with a positive HIGHESTMODSEQ, a placement whose server MODSEQ is within the stored one mirrors the server: each of the columns seen, flagged, answered, draft and deleted holds if and only if some server flag is its IMAP name in any case of letters |
| `ImapSync.FlagsKeptIff` | src/lenovmail/sync/imap_sync.py:237-302 | for a given cursor, request and server, a cycle keeps the flag invariant of every valid table state if and only if no UIDVALIDITY is stated, or flags are read when a MODSEQ is stored, or every mail unchanged since SELECT is fetched as new or covered by the old stored MODSEQ |
| `ImapSync.CycleKeepsFlagsSound` | src/lenovmail/sync/imap_sync.py:263-302 | under that condition a cycle keeps the invariant whatever changes during it |
| `ImapRuns.RunKeepsFlagsSound` | src/lenovmail/sync/imap_sync.py:263-302 | the flag invariant of a folder over every run of its account whose cycles of that folder meet the exact condition |
| `ImapSync.UnreadFlagsStayStale` | src/lenovmail/sync/imap_sync.py:263-271 | a stale placement of an unchanged mail that the cycle neither reads nor fetches is stale afterwards within the stored MODSEQ |
| `ImapWitnesses.FlagsGoStale` | src/lenovmail/sync/imap_sync.py:263-302 | a run from an unsynchronised folder that ends with stale flags: HIGHESTMODSEQ is stated on a connection without CONDSTORE and flags are refreshed every second cycle |
| `ImapSync.QuietCycleConverges` | src/lenovmail/sync/imap_sync.py:255-298 | a refresh cycle on an unchanging server leaves exactly the server's UIDs, whatever flags were stored, and columns that mirror the server's flags one by one if and only if those of the mails it does not ask about (placed, not new, within the stored MODSEQ of the CONDSTORE branch) did |
| `ImapSync.StartingOverConverges` | src/lenovmail/sync/imap_sync.py:218-298 | a forced cycle, a first one, or one that finds a new UIDVALIDITY leaves UIDs and mirrored flags of an unchanging server whatever tables and cursor were before |
| `ImapSync.OnlyChangesAreRead` | src/lenovmail/sync/imap_sync.py:263-271 | otherwise, with CONDSTORE and a stored MODSEQ, a cycle does not touch the flags of an old mail that did not change since that MODSEQ |
| `ImapRuns.WindowConverges` | src/lenovmail/sync/imap_sync.py:255-303 | any stretch of a run with `max(flag_refresh_every, 1)` successful cycles holds one that detects deletions; if the server is quiet during it and states its UIDVALIDITY, the folder's UIDs are then the server's, and its columns mirror the server's flags exactly under that condition, which holds if the cycle runs without CONDSTORE, if the server always serves CONDSTORE with a positive HIGHESTMODSEQ, or if the cycles before it met the condition of `FlagsKeptIff` |
| `ImapSync.ResetKeepsContent` | src/lenovmail/sync/imap_sync.py:237-298 | after a UIDVALIDITY change a message of the new enumeration still there at the end lands on an old row if and only if that row has the message's hash, and then row id, body state and body are unchanged |
| `ImapRuns.ResetKeepsStoredContent` | src/lenovmail/sync/imap_sync.py:237-298 | over every run, whenever bodies were fetched: a row that records Message-ID x keeps row id, body state and body through a UIDVALIDITY change if a mail with x is in the new enumeration and still there at the end, and that mail is placed on it |
| `ImapRuns.RunKeepsNamed` | src/lenovmail/sync/store.py:563-592 | in every state of every run a row that records a Message-ID has its hash |
| `ImapRuns.ResetLosesNothing` | src/lenovmail/sync/imap_sync.py:237-298 | over every run whose bodies are fetched under the UIDVALIDITY of their placements: a mail with Message-ID x placed on a row before a reset, and found under a new UID and still there at the end of the resetting cycle, is placed on the same row with the same body state and body; Message-IDs are assumed not to be `folder:uid` handles or fetched contents |
| `ImapWitnesses.ResetHappens` | src/lenovmail/sync/imap_sync.py:237-298 | a concrete run through a new UIDVALIDITY that meets these hypotheses, with the mail on the row it was on |
| `ImapWitnesses.StaleFetchLosesRow` | src/lenovmail/sync/imap_sync.py:394-449 | a concrete run that misses only the one on fetches: a body fetched after the mailbox was recreated and before the next cycle gives the row to another mail, and the mail ends on another row |
| `ImapRuns.RunKeepsIds` | src/lenovmail/sync/normalize.py:219-222 | over such runs the row of every placement of a mail with Message-ID x has the hash of x, through header passes, backfills, merges and removals in all folders, and that of a mail without one has no Message-ID's hash; which of those share a row is said by `ImapIdentity.RowsAreShared` |
| `ImapIdentity.RowsAreShared` | src/lenovmail/sync/store.py:90-100 | over every run whose bodies are fetched under the UIDVALIDITY of their placements, two placements share a row only if they are one slot, or the mails have one non-empty Message-ID, or neither has one and bodies with one text were fetched for both; with one non-empty Message-ID they do share it. Message-IDs, `folder:uid` handles and body texts are assumed to be different kinds of text |
| `ImapIdentity.RunKeepsMarks` | src/lenovmail/sync/imap_sync.py:96-124 | the invariant behind it: each placement is on the row of its Message-ID, or else of its handle or its fetched text |
| `GraphRuns.RowsAreShared` | src/lenovmail/sync/graph_sync.py:122-140 | the same over every run of Graph cycles, body fetches and removals in all folders of an account, for folder ids without a colon |
| `Identity.SharersMatch` | src/lenovmail/sync/store.py:90-100 | placements of marked mails on one row have one Message-ID, or were both fetched with one text |
| `Identity.StoredMarks` | src/lenovmail/sync/store.py:492-592 | storing a fetched body keeps the marks of every placement, those that merge included |
| `ImapRuns.BackfillKeepsIdentityIff` | src/lenovmail/sync/imap_sync.py:394-449 | a body fetch keeps the Message-ID hash of its row, whatever mailbox it finds, if and only if the UIDVALIDITY is still that of the placement |
| `ImapRuns.BackfillBears` | src/lenovmail/sync/store.py:563-579 | storing a body under the identity of its mail moves no other placement from or to a Message-ID's hash, merges included |
| `ImapSync.SlotAfterCycle` | src/lenovmail/sync/imap_sync.py:237-298 | a cycle leaves the placements of other folders as they are, and each placement of its own comes from a header reply or is an old one with an untouched row |
| `ImapRuns.ForgetKeeps` | src/lenovmail/sync/actions.py:144-159 | removing the placements of moved or deleted messages takes exactly these and keeps the rows of all others |
| `ImapSync.ResetForgetsOldUids` | src/lenovmail/sync/imap_sync.py:237-298 | every placement of the folder after the change was answered by this cycle under a UID of the new enumeration |
| `ImapSync.HeaderPassExact` | src/lenovmail/sync/imap_sync.py:274-292 | the chunked header pass places every UID still present with flags and row hash of the record of its reply, leaves vanished ones and every other slot alone, and keeps all rows; `ReplyConveys` says what such a record holds |
| `ImapSync.RecordsExact` | src/lenovmail/sync/imap_sync.py:96-124 | the records of a reply are those of the asked UIDs that are present, each once |
| `ImapSync.ReplyConveys` | src/lenovmail/sync/imap_sync.py:96-124 | each record has its UID, the Message-ID, columns that mirror the flags of the mail, its MODSEQ exactly with CONDSTORE, and the hash of a non-empty Message-ID or else of a text that is the folder, a colon and the decimal UID |
| `Util.DecimalStands` | src/lenovmail/sync/store.py:94-100 | decimal texts read back as the number, in digits and without a leading zero |
| `ImapSync.RecordsAcceptable` | src/lenovmail/sync/imap_sync.py:277-283 | no statement of the cycle asks for one slot twice, so Postgres never rejects it |
| `ImapSync.PlannedPlacement` | src/lenovmail/sync/imap_sync.py:255-298 | for each UID, whether it is placed after the cycle and whether its flags come from the header reply, the flag pass, or the old placement |
| `ImapSync.FolderSync.SyncFolder` | src/lenovmail/sync/imap_sync.py:204-332 | the method commits exactly the planned result when no command fails and counts the pass; otherwise tables and cursor are what they were and only the folder is marked failed |
| `ImapSync.FolderSync.Scan` | src/lenovmail/sync/imap_sync.py:232-264 | SELECT, reset, both SEARCHes and the choice between the flag branches agree with the plan |
| `ImapSync.FolderSync.Open` | src/lenovmail/sync/imap_sync.py:237-253 | the wipe on a changed UIDVALIDITY and what counts as a full cycle |
| `ImapSync.FolderSync.FetchHeaders` | src/lenovmail/sync/imap_sync.py:274-292 | the chunk loop does the whole header pass, or reports the failing command |
| `ImapSync.FolderSync.Finish` | src/lenovmail/sync/imap_sync.py:294-307 | deletion detection and the new cursor fields |
| `ImapServer.EventsEvolve` | src/lenovmail/providers/imap_ops.py:137-161 | appends, expunges and flag changes by the RFC rules give what a client may conclude between two moments: ascending UIDs, no reuse, a newer MODSEQ for every change |
| `ImapServer.HistoryLater` | src/lenovmail/providers/imap_ops.py:137-161 | over any server history two moments are related by such changes or by a greater UIDVALIDITY |
| `ImapServer.SearchUidsSince` | src/lenovmail/providers/imap_ops.py:154-161 | exactly the UIDs from `first` on, in order, although the range reply always contains the last message |
| `ImapServer.FlagsOfExact` | src/lenovmail/providers/imap_ops.py:206-237 | the chunked flag map carries for each UID flags answered at some instant of the fetch, and misses none that answers throughout |
| `ImapServer.FetchFlags` | src/lenovmail/providers/imap_ops.py:206-237 | the chunk loop merges the replies in order, or stops at the failing command |
| `Store.IdentityOverRuns` | src/lenovmail/sync/store.py:103-530 | over any run of store operations hashes are unique and no placement dangles, and after deletion detection no message is without placement |
| `Store.EnsureHashConserves` | src/lenovmail/sync/store.py:492-530 | merging into a twin conserves every placement with slot, flags and modseq, drops at most the merged row, and ends on the row with the desired hash |
| `Store.PurgeExact` | src/lenovmail/sync/store.py:367-375 | the purge deletes exactly the messages without placement and touches nothing else |
| `Store.AddRowsKeeps` | src/lenovmail/sync/store.py:103-170 | every record's hash is known afterwards, old rows are untouched, new rows are those of records |
| `Store.UpsertBatchExact` | src/lenovmail/sync/store.py:103-247 | each record's slot points to the row with its hash and has its flags and modseq; other slots are as before |
| `Store.PlaceAllExact` | src/lenovmail/sync/store.py:190-247 | a batch without repeated slots is written in full and changes nothing else |
| `Store.MailStore.UpsertMessages` | src/lenovmail/sync/store.py:103-170 | the returned map names for each hash the one row that carries it; old rows stay, and each new one has the hash and Message-ID of a record and no body |
| `Store.MailStore.UpsertPlacements` | src/lenovmail/sync/store.py:173-247 | writes all placements and counts the kept records, or rejects a batch that repeats a slot |
| `Store.GroupFlags` | src/lenovmail/sync/store.py:306-314 | one group per combination of flag columns, together holding every UID |
| `Store.MailStore.ApplyFlagsByUid` | src/lenovmail/sync/store.py:290-331 | the columns of every placement of a listed UID mirror the flags given for it, one by one; modseq, message and all other placements are as before, and the count is that of the placements touched |
| `Store.ColumnsMirror` | src/lenovmail/sync/store.py:50-62 | a column holds if and only if some flag is its IMAP name letter by letter in either case, and no other columns do this |
| `Store.StoredContent` | src/lenovmail/sync/store.py:492-592 | after a body is stored the placement is on a row with the hash of its non-empty Message-ID or else of the text, that Message-ID, state and body; every other row is as it was, and only the row it was on may be gone |
| `Store.MailStore.DeleteMissingPlacements` | src/lenovmail/sync/store.py:428-489 | deletes the folder's UIDs and items the server lacks, then the orphans; the count is the drop in placements |
| `Store.MailStore.RemovePlacements` | src/lenovmail/sync/store.py:378-400 | deletes the listed non-empty items and the orphans, nothing for an empty list |
| `Store.MailStore.EnsureDedupHash` | src/lenovmail/sync/store.py:492-530 | the branches agree with the merge whose conservation is proved |
| `GraphSync.DeltaReplayRefines` | src/lenovmail/sync/graph_sync.py:278-354 | over any run of full, incremental and restarted cycles, failures, body writes, local removals of items gone from the server and operations on other folders, each successful cycle leaves the folder's item-to-(seen, draft) map equal to the snapshot its last reply describes; which reply that is, is said by `ExpiredLinkRestarts` and `FullCycleLists` |
| `GraphSync.ExpiredLinkRestarts` | src/lenovmail/sync/graph_sync.py:173-178 | from a stored link whose first answer is a request error with status 410 or one of the four codes, the cycle succeeds if and only if the answer without a link is a delta that lists no changed item twice, and then the folder is exactly what that answer lists |
| `GraphSync.OtherErrorsFail` | src/lenovmail/sync/graph_sync.py:293-304 | any other error, and any error without a link, leaves tables and link as they were and marks the folder failed |
| `GraphSync.FullCycleLists` | src/lenovmail/sync/graph_sync.py:285-347 | a cycle without a link, or asked to start over, succeeds if and only if the answer is such a delta, and then the folder is what it lists |
| `GraphSync.CycleStoresLink` | src/lenovmail/sync/graph_sync.py:293-354 | a successful cycle stores the link of the deciding answer unless it is empty, and counts the pass |
| `GraphSync.ReplyConveys` | src/lenovmail/sync/graph_sync.py:122-159 | the records written are the changed items with an id, each with its Message-ID, read and draft, no other flag, neither UID nor MODSEQ, and the hash of the Message-ID or of folder, colon and item id |
| `GraphSync.CycleReachesSnapshot` | src/lenovmail/sync/graph_sync.py:293-354 | one successful cycle reaches that snapshot from a sound link |
| `GraphSync.AppliedIsSnapshot` | src/lenovmail/sync/graph_sync.py:306-347 | applying changed and removed items turns the base into the described snapshot, and a full reply prunes what it does not mention |
| `GraphSync.RunKeepsLinkSound` | src/lenovmail/sync/graph_sync.py:278-354 | while a delta link is stored the folder equals the snapshot the link stands for, without the items removed locally |
| `GraphSync.ForgetContents` | src/lenovmail/sync/actions.py:144-159 | the local removal after a move or deletion takes exactly the named items out of the folder |
| `GraphSync.ForeignKeepsContents` | src/lenovmail/sync/store.py:103-530 | store operations on other folders leave the folder's item map alone |
| `GraphSync.CountsBalance` | src/lenovmail/sync/graph_sync.py:309-347 | placements after = placements before + added - removed |
| `GraphSync.BackfillKeepsContents` | src/lenovmail/sync/store.py:492-530 | storing bodies and merging twins changes no folder's item map |
| `GraphSync.GraphFolderSync.SyncFolder` | src/lenovmail/sync/graph_sync.py:266-402 | the method succeeds if and only if the deciding answer (the one without a link exactly when the first says the link expired) is a delta that lists no changed item twice; it then stores that answer's link and counts added, updated and removed as the balance needs, and otherwise restores everything and marks the folder failed |
| `GraphSync.GraphFolderSync.CountAdded` | src/lenovmail/sync/graph_sync.py:311-328 | counts the changed items the folder did not have |
| `Threads.ThreadsAreComponents` | src/lenovmail/sync/threads.py:25-134 | over any run whose reference sets only grow, two messages share a thread if and only if a chain of shared references in the account links them; what the references are is said by `HoldsWhatWasBrought` |
| `Threads.SharedReferenceJoins` | src/lenovmail/sync/threads.py:84-134 | over any run: if the last call of one message and a later call of another in its account bring the same text, the two share a thread after it. A call brings x if one of its references, or its Message-ID, is x between white space, with x not empty and white at neither end |
| `Threads.HoldsWhatWasBrought` | src/lenovmail/sync/threads.py:118-131 | over any run a message holds exactly the texts its last call brought, and has a thread |
| `Threads.ArrivalOrderIsIrrelevant` | src/lenovmail/sync/threads.py:72-134 | two runs that end with the same references give the same partition, in whatever order and with whatever subjects messages came |
| `Threads.PartitionKeptIff` | src/lenovmail/sync/threads.py:72-134 | a call keeps threads equal to components if and only if, with its references replaced, the messages of the old thread are connected to the call's message when that thread matches, and to one another when it does not |
| `Threads.ComponentsIff` | src/lenovmail/sync/threads.py:72-134 | over a run, threads are the components in every state if and only if every call meets that condition |
| `Threads.GrowsStaysTogether` | src/lenovmail/sync/threads.py:118-131 | a call that drops no reference meets it |
| `Threads.DroppedReferencesKeepThread` | src/lenovmail/sync/threads.py:118-131 | a family that does not: a call that gives up every shared reference leaves its message in a thread it is no longer connected to |
| `Threads.DroppedReferencesExample` | src/lenovmail/sync/threads.py:118-131 | a concrete such call on a correctly partitioned pair of messages |
| `Threads.RunKeepsPartition` | src/lenovmail/sync/threads.py:72-134 | the invariant: threads are the classes of connected messages |
| `Threads.ThreadsAreBalanced` | src/lenovmail/sync/threads.py:39-69 | with fixed non-empty Message-IDs every thread's count is that of its messages, its last date is the date of one of them and no other is later, no thread is empty or mixes accounts, and a call puts its message into the thread of an earliest message that holds a text it brings, or else into a new thread |
| `Threads.SubjectAfter` | src/lenovmail/sync/threads.py:94-115 | a new thread has the subject of the call; an old one keeps its subject, or gets that of the call if it had none and the new one is not empty |
| `Threads.SubjectStays` | src/lenovmail/sync/threads.py:94-115 | over any run the subject of a thread never changes once it is set, and ids of merged threads never come back |
| `Threads.CountersKeptIff` | src/lenovmail/sync/threads.py:58-134 | from exact counters, a call keeps every thread's count and last date exact and no thread empty if and only if the thread its message is in, if any, is among those it matches |
| `Threads.CountersIff` | src/lenovmail/sync/threads.py:58-134 | over a run, counters are exact in every state if and only if every call meets that condition |
| `Threads.AfterExact` | src/lenovmail/sync/threads.py:92-134 | what one call does to every message, reference and thread |
| `Threads.ThreadStore.AssignThread` | src/lenovmail/sync/threads.py:72-134 | the method takes one of the specified steps; the message holds exactly what the call brings and is in the thread of an earliest message that holds some of it, or in a new one |
| `Threads.ThreadStore.ThreadsReferencedBy` | src/lenovmail/sync/threads.py:25-43 | the matching threads, each once, an earliest one first |
| `Threads.ThreadStore.RewriteRefs` | src/lenovmail/sync/threads.py:118-131 | the rows are exactly what the call brings, each once, with the message's own id first |
| `Outbox.NoDoubleHoldIff` | src/lenovmail/sync/outbox.py:291-356 | with any number of senders, no two live jobs hold one row in any reachable state if and only if jobs live at most the claim timeout |
| `Outbox.BoundedRedeliveryIff` | src/lenovmail/sync/outbox.py:264-356 | acceptances exceed the unrecorded ones by at most one in every reachable state if and only if jobs live at most the claim timeout |
| `Outbox.NoDoubleHold` | src/lenovmail/sync/outbox.py:291-356 | under that lifetime no two live jobs hold one row at any point of a run |
| `Outbox.BoundedRedelivery` | src/lenovmail/sync/outbox.py:264-356 | a row is accepted by the provider at most once more than its acceptances went unrecorded, and exactly that often once it is sent |
| `Outbox.NothingSentBeforeApproval` | src/lenovmail/sync/outbox.py:120-150 | a row that needs approval is accepted only after `approve` |
| `Outbox.ApproveKeepsInvIff` | src/lenovmail/sync/outbox.py:145-150 | `approve` keeps these promises if and only if the row is not sent and no live job holds it |
| `Outbox.ApprovingSentRowResends` | src/lenovmail/sync/outbox.py:145-150 | approving a sent row allows a second acceptance with nothing unrecorded |
| `Outbox.ApprovingHeldRowDoubles` | src/lenovmail/sync/outbox.py:145-150 | from a state that runs reach, approving a row held by a live job lets a second job hold it |
| `Outbox.SentRowIsReached` | src/lenovmail/sync/outbox.py:264-332 | runs reach such rows |
| `Outbox.RunKeepsInv` | src/lenovmail/sync/outbox.py:264-356 | the protocol invariant: one holder per row, every hold under a claim taken in the job's life, every acceptance accounted for |
| `Outbox.PermanentIsFinal` | src/lenovmail/sync/outbox.py:275-288 | over every run: after a permanent failure, and until an approval of the row, it stays failed, no job can claim it, and the provider accepts it no more |
| `Outbox.TransientIsRetried` | src/lenovmail/sync/outbox.py:275-288 | after a transient failure any job between rows can claim the row at once |
| `Outbox.ApprovalFrees` | src/lenovmail/sync/outbox.py:145-150 | so it can after an approval of a row that waits, is queued or failed; attempts stay |
| `Outbox.AttemptsAreFailures` | src/lenovmail/sync/outbox.py:275-288 | in every reachable state the attempts of a row are the failures reported for it so far, lost replies included |
| `Outbox.TimesAreEvents` | src/lenovmail/sync/outbox.py:120-356 | in every reachable state the lock of a row is the time of its last claim unless that was released for being more than 900 s old, the sent time is that of its last recorded delivery, and creation time and approval need are those of its queueing |
| `Outbox.OutboxTable.SendPending` | src/lenovmail/sync/outbox.py:291-332 | releases stale claims, claims the oldest queued rows, counts the sent, and each claimed row ends as its outcome says: sent when accepted, queued again after a transient failure, failed after a permanent one, with attempts and times accordingly |
| `Outbox.OutboxTable.ClaimOldest` | src/lenovmail/sync/outbox.py:300-322 | claims up to the limit, oldest first, leaving no older queued row behind |
| `Outbox.OutboxTable.SendOne` | src/lenovmail/sync/outbox.py:264-288 | an accepted row is sent now, a transient failure queues it again and a permanent one fails it, each failure counts as an attempt, and nothing else of the row changes |
| `Outbox.OutboxTable.ReleaseStaleClaims` | src/lenovmail/sync/outbox.py:335-356 | exactly the stale claims return to the queue |
| `SendLimit.WindowBound` | src/lenovmail/sync/outbox.py:53-66 | with at most k requests between check and insert, no window that fits the hour with the dating skew holds more than limit + k - 1 rows |
| `SendLimit.WindowBoundIff` | src/lenovmail/sync/outbox.py:53-66 | the bound holds for windows of a length if and only if length plus skew is at most an hour |
| `SendLimit.BoundIsReached` | src/lenovmail/sync/outbox.py:53-66 | limit + k - 1 is reached, so the bound is the best possible |
| `SendLimit.SkewExceedsBound` | src/lenovmail/sync/outbox.py:128-140 | a run that exceeds the bound as soon as window and skew do not fit the hour |
| `SendLimit.FailureLeavesNoTrace` | src/lenovmail/sync/outbox.py:53-66 | a request that passed the check and fails before its insert uses up nothing |
| `ImapPool.PoolIsSafe` | src/lenovmail/providers/imap_pool.py:209-285 | for any interleaving, idle connections and those of borrowers never exceed `max_connections`, no connection is idle twice, idle and borrowed, or shared, permits come home, and none is lost sight of |
| `ImapPool.DiscardedStaysOut` | src/lenovmail/providers/imap_pool.py:237-278 | a connection told to close is never idle or lent again |
| `ImapPool.BrokenStaysOut` | src/lenovmail/providers/imap_pool.py:237-278 | a connection on which a body or a probe failed is told to close and is never idle or lent again, over any interleaving |
| `ImapPool.ClosedStaysOut` | src/lenovmail/providers/imap_pool.py:280-285 | so is every connection that `close` finds idle |
| `ImapPool.ReturnedIsLentNext` | src/lenovmail/providers/imap_pool.py:237-278 | a connection whose body ended well goes on top of an open pool, its permit comes home and the next borrower probes it; a closed pool has it closed |
| `ImapPool.LeavesUnserved` | src/lenovmail/providers/imap_pool.py:237-251 | over any interleaving a borrower goes away without a connection only through a failed connect or a probe that raised something other than a connection error; dead idle connections make it try the next |
| `ImapPool.NothingIdleAfterClose` | src/lenovmail/providers/imap_pool.py:253-285 | after `close` nothing is ever idle again |
| `ImapPool.ReturnAlwaysFits` | src/lenovmail/providers/imap_pool.py:253-258 | the room check on return never fails, so only a closed pool turns a connection away |
| `ImapPool.StepKeepsInv` | src/lenovmail/providers/imap_pool.py:237-285 | every step of every borrower keeps quota, exclusiveness and accounting |
| `ImapPool.ConnectionPool.Acquire` | src/lenovmail/providers/imap_pool.py:237-251 | undisturbed, the most recently returned live connection is lent, the dead ones above it go, and a new one is opened only if none is alive |
| `ImapPool.ConnectionPool.PopIdle` | src/lenovmail/providers/imap_pool.py:239-242 | the locked section takes the state machine's step |
| `ImapPool.ConnectionPool.PutBack` | src/lenovmail/providers/imap_pool.py:253-258 | the locked section takes the state machine's step and tells whether the connection was kept |
| `ImapPool.ConnectionPool.CloseAll` | src/lenovmail/providers/imap_pool.py:280-285 | the locked section empties the stack and hands out what is to be closed |
| `SyncLock.ExclusionIff` | src/lenovmail/workers/tasks.py:362-408 | at most one cycle runs in every reachable state if and only if cycles end strictly within the key's lifetime |
| `SyncLock.ReleasesOwnKey` | src/lenovmail/workers/tasks.py:368-408 | a finishing cycle deletes the key it set itself, and a caller that steps aside changes nothing |
| `SyncLock.BlockedAtMostTtl` | src/lenovmail/workers/tasks.py:368-378 | a killed holder blocks the account for at most the lifetime of the key |
| `SyncLock.Redis.SyncAccount` | src/lenovmail/workers/tasks.py:353-408 | an undisturbed job is skipped exactly when the key is held and otherwise leaves no key behind |
| `Janitor.RetirementIff` | src/lenovmail/maintenance.py:170-207 | a sweep disables or deletes an account if and only if the provider rejects it now and had rejected it at least the grace period ago with no activation since |
| `Janitor.StampIsJustified` | src/lenovmail/maintenance.py:180-194 | `invalid_since` is the earliest rejection since the account was last active, in every reachable state |
| `Janitor.ActiveHasNoStamp` | src/lenovmail/providers/accounts.py:116-131 | an active account has no `invalid_since` |
| `Janitor.StatusIsLastWritten` | src/lenovmail/maintenance.py:170-207 | in every reachable state the status is the one last written: by the sync path, by the owner (a new password makes it active, whatever else was chosen), or by a sweep of a quarantined account, which recovers it on a valid verdict, retires it on a rejection after the grace period, and otherwise leaves it |
| `Janitor.AccountTable.SweepAccounts` | src/lenovmail/maintenance.py:136-210 | exactly the batch is changed, each account by its own step, and the report counts what happened |
| `Paging.CompleteIff` | src/lenovmail/sync/queries.py:29-129 | for any listing of rows with distinct ids, following cursors ends with every matching row listed once in order, for every page size, if and only if no row but the last is joined twice and no row but the last has a row of the listing, itself included, between its place and that of its cursor |
| `Paging.PagesAreComplete` | src/lenovmail/sync/queries.py:110-129 | under that condition every run of pages lists rows in strictly descending order, each once, all of them when it finishes, in at most as many requests as rows |
| `Paging.CanFinish` | src/lenovmail/sync/queries.py:110-129 | under that condition every listing can be read to its end |
| `Paging.LoopsForever` | src/lenovmail/sync/queries.py:29-129 | without it a listing may never end: a row with only a sent date after its creation gives back its own page for ever |
| `Paging.DatedIsResumable` | src/lenovmail/sync/queries.py:29-33 | rows with an internal date, or no sent date, always meet the cursor half of the condition |
| `Paging.CursorFaithfulIff` | src/lenovmail/sync/queries.py:29-33 | a row's cursor selects exactly the rows after it, among all possible rows, if and only if the row has an internal date, lacks a sent date, or was created at it |
| `Paging.CursorRoundTrip` | src/lenovmail/sync/queries.py:29-42 | decoding an encoded cursor gives back stamp and id, through version, separators and stripped padding, and the text is never empty |
| `Base64.RoundTrip` | src/lenovmail/sync/queries.py:33-38 | stripping the padding and restoring it from the length loses nothing, for every byte string |
| `Base64.DecodeOfEncode` | src/lenovmail/sync/queries.py:33-38 | decoding undoes encoding (section 5 of RFC 4648) |
| `Base64.EncodeSpells` | src/lenovmail/sync/queries.py:29-38 | each four characters and their three bytes are one number, in base 64 over the URL-safe alphabet and in base 256, and pads stand exactly for missing bytes |
| `Paging.OrderBySorts` | src/lenovmail/sync/queries.py:122-124 | the order is descending by date and id and keeps every row as often |
| `Paging.OrderWhere` | src/lenovmail/sync/queries.py:110-124 | selecting below the cursor before sorting is selecting from the sorted listing |
| `Paging.PageProgress` | src/lenovmail/sync/queries.py:126-129 | if only the last row repeats, one page either exhausts what remains or shows its first rows and leaves the rest |
| `Paging.NewestFirst` | src/lenovmail/sync/queries.py:110-129 | every page, wherever it starts, shows matching rows older than its cursor, newest first with ties by descending id, where a row is dated by its internal date or else its creation, and leaves out none that is newer than one it shows |
| `Paging.DecodeExact` | src/lenovmail/sync/queries.py:36-42 | a cursor is read if and only if its text is base64 of a version 1, a stamp and an id with bars between |
| `Paging.ListMessages` | src/lenovmail/sync/queries.py:110-129 | the step-by-step query gives the specified page, at most `limit` rows, or nothing exactly when a non-empty cursor cannot be read |
| `Mining.MinedIsHonest` | src/lenovmail/sync/mining.py:207-231 | claimed spans are disjoint, every candidate is claimed or overlaps a claim, values are texts of claimed spans, no (kind, value) repeats, kinds come in `VALUE_KINDS` order |
| `Mining.EveryFindIsHeeded` | src/lenovmail/sync/mining.py:107-231 | in the text made of subject, line break and the first 20000 characters of the body, every span a finder reports has its value reported, or finds twenty of its kind reported, or shares a character with such a span of a kind whose turn (links, codes, keys, promotions) is not later; a blank text gives nothing |
| `Mining.EveryValueWasFound` | src/lenovmail/sync/mining.py:207-231 | every reported value was given by a finder of its kind for that text, with its confidence |
| `Mining.ClaimsAreGreedy` | src/lenovmail/sync/mining.py:139-225 | the claims are the one choice in which a candidate is chosen exactly when no chosen earlier one overlaps it |
| `Mining.GreedyExists` | src/lenovmail/sync/mining.py:221-225 | such a choice always exists |
| `Mining.KeptIsDigest` | src/lenovmail/sync/mining.py:226-229 | per kind at most twenty values, none twice, each from the first claim that carried it, in that order, and none left out while there is room |
| `Mining.MineValues` | src/lenovmail/sync/mining.py:207-231 | the loops over kinds and finds compute that result from spans, seen and per-kind lists |
| `Mining.TriggerDistance` | src/lenovmail/sync/mining.py:117-136 | the smallest gap to a trigger in the window, at most 80, absent only without triggers, and with `before_only` only triggers that end before the candidate |
| `Mining.GapIsLeast` | src/lenovmail/sync/mining.py:117-136 | a gap is the least distance between a position of the candidate and one of the trigger, ends included |
| `MimeParts.WalkIsExact` | src/lenovmail/sync/normalize.py:174-181 | the walk gives every leaf of the tree once, in document order, under the text of its address, and no two leaves the same text |
| `MimeParts.ExtractPart` | src/lenovmail/sync/normalize.py:139-157 | a leaf's path yields that leaf's decoded content, or else its raw text, with its content type; any other string yields nothing |
| `MimeParts.TextInjective` | src/lenovmail/sync/normalize.py:174-181 | dotted numbering is unambiguous for addresses of any depth |
| `MimeParts.PathSpells` | src/lenovmail/sync/normalize.py:174-181 | a message of one part has path 1, and a deeper path is that of the parent, a dot and the decimal position |
| `Util.DecimalInjective` | src/lenovmail/sync/normalize.py:174-181 | two numbers have the same decimal text only if they are equal |

## Left out

- IMAP, SMTP, Graph and MSAL traffic, TLS, retries and backoff: represented by server replies, outcomes and failures.
- Postgres, Redis, SQLAlchemy sessions, encryption of delta links, blobs, the full-text index: tables are maps and a committed transaction is one step; search rows, snippets, addresses and subjects of messages are not modelled.
- Statistics, `SyncRun` rows, log lines and published events of a sync cycle, except the counters of the Graph cycle.
- Thread assignment inside the sync cycles (`assign_subject_thread`, `attach_thread`): threads are modelled by runs of `assign_thread` on their own.
- Mail content is fixed: a UID under one UIDVALIDITY and a Graph item id always give the same Message-ID and body text in the results about shared rows (`Identity`, `ImapIdentity`, `GraphRuns`). Graph folder ids are assumed to hold no colon.
- One account's database: the twin lookup of `ensure_dedup_hash` has no account filter, and accounts sharing a digest are not modelled.
- Local flag edits that are still to be written to the server: the IMAP and Graph results speak of runs without them. Moves and deletions by the user are the removal of placements of messages the server no longer has under that UID or item id; a Graph item id that was removed is assumed not to come back, as ids change on a move.
- Servers that answer a FETCH for only some of the UIDs still present, and unsolicited FETCH data: excluded by hypothesis.
- `flag` of Graph items: the delta query does not select it, so the Graph results track seen and draft.
- Graph paging inside one delta response, folder lists and folder roles.
- Message-IDs that parse differently from ENVELOPE and from the MIME header: one text per mail is assumed.
- Folders that are added or removed while an account runs: a run has a fixed set of folders.
- Records that carry both a UID and a Graph item: no caller builds one.
- Thread counters after an orphan purge or a twin merge: the code does not refresh them there.
- The positions of references after the message's own id: `sorted` order is not modelled, only that each occurs once.
- White space outside ASCII in `strip`, and letters outside ASCII in flag names.
- Job lifetimes: how long a sender job may live is a parameter of the outbox results.
- Overlapping steps of one account: a run commits one cycle, backfill or removal after the other. The resync after an action (src/lenovmail/sync/actions.py, lines 243-258) and body backfill jobs run outside the sync lock and may overlap a cycle.
- `send_pending` under SKIP LOCKED: the protocol lets a job claim any set of queued rows, which covers oldest-first claims beside locked rows.
- Cancellation inside the pool's `_acquire`, capability detection, the registry of pools and the dedicated IDLE connection.
- Redis being absent or unreachable when the sync lock is taken, and the `sync:queued:` marker.
- Janitor batches: which quarantined accounts a sweep picks and their fairness; token and audit clean-up; a check that overlaps other writes to the same account.
- Python's lenient base64 decoding of foreign characters and UTF-8 beyond ASCII in a cursor: both are treated as unreadable.
- Filters of a message listing, search and serialisation: a listing starts from the rows that FROM and WHERE yield.
- Regular expressions of the mining finders, lower-casing, URL trimming and masking: finder results and trigger positions are inputs.
- MIME parsing, charsets and sanitising: the part tree and decoded contents are inputs.
- The HTTP routes, MCP tools, command line, web interface, migrations and autoconfiguration: plumbing, or only easy properties.

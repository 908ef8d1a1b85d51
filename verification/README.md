# Beskar: a verified model of its core protocols

Beskar is an OCI registry with plugins for YUM, static files and mirrors. This project models the parts of it whose
correctness is a matter of whole runs, and proves what they promise: the event pipeline that survives crashes, the
concurrency protocols under it, the two mirror synchronisations, routing and membership, agreement on a certificate
authority, the manifest cache, image assembly, the walk over primary.xml and the generation of repository metadata.

One module per component. Protocols are step relations in which every mutex section, atomic operation, channel operation,
database access and bucket write is one step; `Runs` has the vocabulary of runs and inductive invariants. Objects that change in
place are classes whose methods are proved to make exactly these steps, or to compute the function that the theorems are
about. Hash functions, compression, XML encoding and version order are arbitrary functions; where a result needs
injectivity, it says so.

Where the code does not keep what its design suggests, the model follows the code, and a theorem says exactly when it does:

- Storing an id again while its row is pending is harmless exactly for families of events that never leave one file in different
  states; otherwise a crash can lose an update (`StoredAgain.LawfulIff`).
- An event whose payload does not parse is skipped, and exactly such events keep their rows (`StaticGuarantees.CrashConsistency`).
- `AddLog` opens its database before it takes its reference; handle use is safe exactly in programs without such a method
  (`SqliteHandle.SafeIffReferenceFirst`).
- A removal by id is mirrored exactly when it affects at most one row (`MirroredDb.RemovalMirroredIff`); otherwise a restart undoes it.
- Removing the local file of a database loses changes exactly when a helper has still to push (`SharedEviction.EvictionLosesIff`): its
  push then replaces the object by one without a row.
- Events can be left in the queue without a wakeup exactly once Stopped is set (`EventQueue.WakeupLostIffStopped`), and a
  producer panics on the closed channel exactly if it was on its way then (`EventQueue.SignalPanicsIff`).
- `SyncArtifactReset` makes a waiter close its channel twice exactly when somebody waits (`SyncArtifacts.ResetSafeIff`), and a
  waiter can be cut off from its result exactly when its name was in flight (`SyncArtifacts.RegistrationCutOffIff`). A second
  outcome deadlocks sender and waiter exactly when the waiter has given up on the first (`SyncArtifacts.SecondOutcomeStuckIff`).
- A stop lets a repository get two live handlers; `StartBarrier.TwoLiveIff` says from which states that can happen.
- Mirroring a YUM repository converges exactly when no two upstream packages share a tag (`YumConvergence.Convergence`), and mirroring
  a tree exactly when no two names do (`MirrorTree.TreeConvergesIff`).
- The filter of the YUM synchronisation counts without the mutex its workers count under, and the count can fall short exactly when
  a package that is missing is listed before one that is not (`YumProgress.CounterFallsShortIff`).
- A mirrored tree has upstream's contents, and not only its names, exactly when no file that both sides know has changed
  (`MirrorTree.ContentConvergesIff`): a changed file is never fetched again (`MirrorTree.ChangedFileStays`, `MirrorTree.OneChangedFile`).
- A link that upstream drops goes exactly when a deleted name happens to have its tag (`MirrorTree.DroppedLinkGoneIff`).
- A crash of the YUM handler leaves a stale index exactly when it comes with no event row left and the index still to be pushed
  (`YumIndex.IndexStaleIff`, `YumIndex.WindowIsLast`).
- A plugin's live addresses are routed to exactly when they have distinct host names (`Membership.RefinesIff`).
- Members agree on a CA exactly when no two different ones were generated (`CaAgreement.AgreementIff`), so outside Kubernetes they
  may disagree as soon as there are two (`CaAgreement.ElsewhereAgreesIff`).
- A delete leaves the cache coherent exactly when the cache removed the entry (`ManifestCache.DeleteCoherentIff`).
- A stream layer's entry describes one content exactly when nothing was read after Close (`OciImage.DescriptorExactIff`).
- A checksum is read exactly when it is not empty or no other text follows it in its package (`PrimaryWalk.ChecksumReadIff`).
- The blobs of the metadata are those their digests name exactly when files of one name have one content
  (`Repomd.BlobsIntactIff`); extra metadata may take a generated file's name.

## Model

| member | source | states |
|---|---|---|
| `StaticTables.EffectIdempotent` | internal/plugins/static/pkg/staticrepository/file.go:21-85 | delivering an event a second time in a row changes neither the files table nor the history its triggers write |
| `StaticTables.ApplyAllMeans` | internal/plugins/static/pkg/staticdb/repository.go:49-107 | after any events the files table has, for every tag, what the last event acting on it left, and nothing else; the history has one entry, with old name, old id and new id, per replacement by another id and per deletion of a file that was there, in order |
| `StaticTables.StandingMeans` | internal/plugins/static/pkg/staticrepository/file.go:21-85 | a file stands as its last event says if that is a Put whose payload parses as a static file with its layer, and not otherwise |
| `StaticTables.UpsertMeans` | internal/plugins/static/pkg/staticdb/status.go:47-83 | storing an event replaces, in its place, the row with its digest and action, and appends if there is none |
| `StaticTables.DeleteMeans` | internal/plugins/static/pkg/staticdb/status.go:85-115 | removing an event takes out exactly the rows with its digest and action |
| `StaticTables.UpsertFresh` | internal/plugins/static/pkg/staticdb/status.go:47-83 | storing an event under a new id appends its row, so the table is in order of acceptance |
| `StaticTables.DeleteAt` | internal/plugins/static/pkg/staticdb/status.go:85-115 | removing an event takes out its row and no other, and keeps ids distinct |
| `StaticGuarantees.CrashConsistency` | internal/plugins/static/pkg/staticrepository/handler.go:46-244 | for every interleaving and any number of crashes, once nothing is left to do bucket and local repository are every accepted event applied exactly once in order, history included, and only unparsable events keep rows |
| `StaticGuarantees.BucketMeans` | internal/plugins/static/pkg/staticrepository/handler.go:46-244 | so, in terms of the accepted events alone, each file in the bucket is as the last accepted event acting on it says, absent if that is a deletion or there is none, and the history is exactly that of the replacements and deletions |
| `StaticGuarantees.BucketIsPrefix` | internal/plugins/static/pkg/staticrepository/handler.go:206-244 | at every moment of every run the bucket's repository is a prefix of the accepted events applied in order, and the rest is at the end of the bucket's event table |
| `StaticGuarantees.AcceptanceIsDurable` | internal/plugins/static/pkg/staticrepository/handler.go:46-68 | acceptance is never taken back, and an event that QueueEvent has stored is accepted in every later state |
| `StaticGuarantees.Drain` | internal/plugins/static/pkg/staticrepository/handler.go:162-244 | from every reachable state the handler's own steps lead to an empty pipeline without losing the event in flight |
| `StaticGuarantees.EveryRunDrains` | internal/plugins/static/pkg/staticrepository/handler.go:162-244 | every run extends, without another crash or event, to one whose bucket holds all accepted events and the one in flight, once each and in order |
| `StaticPipeline.StepKeeps` | internal/plugins/static/pkg/staticrepository/handler.go:46-244 | every step keeps the invariant: one head event at most is between its effect and its removal, and the durable rows are the malformed ones and those not dealt with |
| `StaticPipeline.ApplyKeeps` | internal/plugins/static/pkg/staticrepository/file.go:21-85 | applying the head of the batch, perhaps for the second time, gives the repository after that many accepted events |
| `StaticPipeline.PushKeeps` | internal/plugins/static/pkg/staticdb/status.go:47-115 | whichever thread pushes the event table also makes the other thread's pending insertion or removal durable, and the count of finished events moves exactly in the latter case |
| `StaticPipeline.RestartKeeps` | internal/plugins/static/pkg/staticrepository/handler.go:162-204 | after a crash the rows replayed in insertion order are skipped malformed events followed by all accepted events not dealt with |
| `StaticHandler.Handler.QueueEvent` | internal/plugins/static/pkg/staticrepository/handler.go:46-68 | stores durably, then queues: the producer's steps, and with store unset only the queue changes |
| `StaticHandler.Handler.Start` | internal/plugins/static/pkg/staticrepository/handler.go:162-204 | from the bucket alone, the restart step: both databases pulled, every row queued in order |
| `StaticHandler.Handler.AddOrRemoveFile` | internal/plugins/static/pkg/staticrepository/database.go:32-66 | the upsert or delete with the history its triggers write, then the push: every other file unchanged, a mirrored table stays mirrored, the bucket knows of the file what the event says, nothing is written if no row is touched, and the same event again changes nothing |
| `StaticHandler.Handler.ProcessEvents` | internal/plugins/static/pkg/staticrepository/handler.go:206-244 | one pass makes only the consumer's steps, empties the queue and applies the whole batch in order |
| `StaticHandler.ApplyFromAppends` | internal/plugins/static/pkg/staticrepository/handler.go:206-244 | a batch on top of applied events gives the events applied one after the other |
| `StoredAgain.LawfulIff` | internal/plugins/static/pkg/staticrepository/handler.go:46-244 | for every family of events whose ids tell them apart, every run that stores them at will, pending or not, ends with the accepted events applied in order if and only if no two events of the family leave one file in different states |
| `StoredAgain.OwedIsPending` | internal/plugins/static/pkg/staticrepository/handler.go:46-244 | without such a conflict, at every moment of every run an accepted upload whose file the bucket lacks is still in both event tables and still to be processed |
| `StoredAgain.AgreeingIsLawful` | internal/plugins/static/pkg/staticrepository/handler.go:46-244 | without such a conflict every run that comes to rest ends with the accepted events applied in order |
| `StoredAgain.PendingIdLosesUpdate` | internal/plugins/static/pkg/staticdb/status.go:47-83 | for any two conflicting events, storing an upload again while its row is pending, and a crash, leave the bucket different from the accepted events applied in order |
| `StoredAgain.ApplyAllFills` | internal/plugins/static/pkg/staticrepository/file.go:21-85 | agreeing events applied in any order put exactly their rows and write no history |
| `SqliteHandle.CounterAndHandle` | internal/pkg/sqlite/db.go:68-153 | in every interleaving the reference count is the number of threads inside a section; without open-before-reference methods no thread in its use phase sees a missing or closed database |
| `SqliteHandle.OpenFirstIsUnsafe` | internal/plugins/static/pkg/staticdb/log.go:52-84 | one method that opens before it references has an interleaving that leaves it without a database |
| `SqliteHandle.SafeIffReferenceFirst` | internal/pkg/sqlite/db.go:68-153 | every interleaving is safe if and only if every method references first |
| `MirroredDb.SqliteDb.Open` | internal/pkg/sqlite/db.go:68-112 | an unset handle is set on the local file, pulled from the bucket if it is missing |
| `MirroredDb.SqliteDb.Sync` | internal/pkg/sqlite/db.go:118-135 | the bucket object becomes the local file; a missing file is an error that still commits an object without a row |
| `MirroredDb.SqliteDb.Close` | internal/pkg/sqlite/db.go:137-153 | closes exactly an open handle nobody references, removes the local file exactly then if asked, and never touches the bucket |
| `MirroredDb.SqliteDb.Add` | internal/plugins/yum/pkg/yumrepository/database.go:45-58 | upsert by key, push, close: local file and bucket both hold the row |
| `MirroredDb.SqliteDb.RemoveById` | internal/plugins/yum/pkg/yumdb/repository.go:109-131 | all rows with the id go; true, and a push, exactly if there was one |
| `MirroredDb.RemovalMirroredIff` | internal/plugins/yum/pkg/yumrepository/database.go:60-75 | a removal leaves the bucket in step if and only if the id named at most one row |
| `MirroredDb.AtMostOneAffected` | internal/plugins/yum/pkg/yumdb/repository.go:69-107 | if an id always comes with one key, it never names two rows |
| `MirroredDb.DurableRoundTrip` | internal/plugins/yum/pkg/yumrepository/database.go:13-107 | after every history of helper calls, closes, reopens, sections of other threads and restarts, reading and pulling afresh both show the plain table of that history |
| `MirroredDb.RowMeans` | internal/plugins/yum/pkg/yumdb/repository.go:69-131 | after any changes a row is under a key exactly if some change put it and no later one put another there or dropped the key or the row's id |
| `MirroredDb.ShownMeans` | internal/plugins/yum/pkg/yumrepository/database.go:13-107 | the same for what readers and fresh pulls see after every history of calls |
| `MirroredDb.SectionProtects` | internal/pkg/sqlite/db.go:137-153 | over every history, while some thread is inside a section an open handle stays open and its file stays, whatever is called |
| `MirroredDb.CloseIff` | internal/pkg/sqlite/db.go:137-153 | a close clears the handle if and only if it is set and nobody is inside, and removes the file if and only if it does and was asked to |
| `MirroredDb.SharedIdComesBack` | internal/plugins/yum/pkg/yumdb/repository.go:109-131 | two rows under one id: removed locally, back after a restart |
| `SharedDb.ConcurrentRoundTrip` | internal/plugins/yum/pkg/yumrepository/database.go:13-107 | in every interleaving of helpers of any number of threads, with the file removed whenever no push is due, readers see all changes so far, and so does a fresh pull whenever no push is due, in particular when no helper runs |
| `SharedEviction.EvictionLosesIff` | internal/pkg/sqlite/db.go:118-153 | after a Close that removes the local file, the helpers can reach a state where none runs and the bucket lacks changes, if and only if a push was due and there was something to lose |
| `SharedDb.UnpushedChangesNothing` | internal/plugins/yum/pkg/yumrepository/database.go:60-75 | a removal that is not mirrored removed nothing |
| `SharedDb.PushesIff` | internal/plugins/yum/pkg/yumrepository/database.go:45-75 | a helper mirrors every row it puts, and a removal if and only if exactly one row had the id |
| `EventQueue.NoLostWakeup` | internal/pkg/repository/handler.go:97-125 | in every interleaving, dequeued batches followed by the queue are the enqueue history, and until a stop a non-empty queue has a token, a producer about to signal or a consumer about to dequeue |
| `EventQueue.ResignalIsRedundant` | internal/plugins/static/pkg/staticrepository/handler.go:162-204 | whenever the run loop signals itself for a non-empty queue, a wakeup is due anyway |
| `EventQueue.EveryEventIsDelivered` | internal/pkg/repository/handler.go:97-125 | until a stop, from every reachable state the threads on their way hand out all events in order |
| `EventQueue.WakeupLostIffStopped` | internal/pkg/repository/handler.go:127-141 | from a reachable state, without a further stop, events can be left in the queue with no wakeup due if and only if Stopped is set |
| `EventQueue.SignalPanicsIff` | internal/plugins/static/pkg/staticrepository/handler.go:106-107 | without new producers and without a further stop, a signal on the closed channel can panic if and only if Stopped is set and a producer has appended and not yet signalled |
| `EventQueue.RepoHandler.EnqueueEvent` | internal/pkg/repository/handler.go:97-103 | append, then signal: the two producer steps |
| `EventQueue.RepoHandler.DequeueEvents` | internal/pkg/repository/handler.go:105-112 | takes all events in order, after which all that was enqueued has been handed out |
| `EventQueue.RepoHandler.EventQueueUpdate` | internal/pkg/repository/handler.go:120-125 | the slot is full afterwards, whether or not it was |
| `SyncArtifacts.ResultDelivery` | internal/pkg/repository/handler.go:208-246 | with distinct names in flight, one outcome per registration and no reset under a waiter, no interleaving panics or blocks a sender, and a waiter returns the one outcome sent to it, about its own artifact |
| `SyncArtifacts.ResetSafeIff` | internal/pkg/repository/handler.go:248-255 | after a reset some continuation panics if and only if somebody was in the table |
| `SyncArtifacts.RegistrationCutOffIff` | internal/pkg/repository/handler.go:208-246 | after a registration some continuation leaves the new waiter with no outcome able to reach it, if and only if its name was in flight |
| `SyncArtifacts.SecondOutcomeStuckIff` | internal/pkg/repository/handler.go:222-246 | a second outcome blocks its sender, who holds the lock, for good if and only if the first is still in the slot and the waiter is leaving |
| `SyncArtifacts.SelfReportStuckIff` | internal/plugins/yum/pkg/yumrepository/sync.go:171-180 | a waiter that reports a failed push to itself is stuck for good if and only if its slot is taken already |
| `StartBarrier.OneStartedHandler` | internal/pkg/repository/manager.go:42-74 | in every interleaving each handler is started at most once and a call returns only a handler of its own repository whose Start has returned; until a stop there is one handler per repository |
| `StartBarrier.EveryGetReturns` | internal/pkg/repository/manager.go:42-74 | until a stop, every call in progress can be brought to its return with its repository's handler |
| `StartBarrier.StarterFinishes` | internal/pkg/repository/manager.go:57-74 | the call that inserted a handler starts it, opens the barrier and returns without help |
| `StartBarrier.Manager.Get` | internal/pkg/repository/manager.go:42-74 | a call that need not wait makes the protocol's steps and returns the ready handler that was there, or a new one started once if that was stopped or missing |
| `StartBarrier.TwoLiveIff` | internal/pkg/repository/manager.go:36-74 | without a further stop two live handlers of one repository are within reach if and only if a stopped handler's cleanup is due, a call that saw a stopped handler is about to insert, or a live handler has lost its entry |
| `StartBarrier.StopExposes` | internal/pkg/repository/handler.go:137-141 | nothing is exposed until a stop, and every first stop exposes |
| `YumConvergence.Convergence` | internal/plugins/yum/pkg/yumrepository/sync.go:72-258 | every schedule that ends without error leaves exactly the upstream ids in the table if and only if no two upstream packages share a tag; the counter is the number of entries less the increments the filter overwrote |
| `YumProgress.CounterFallsShortIff` | internal/plugins/yum/pkg/yumrepository/sync.go:87-94 | with distinct ids and tags upstream, some schedule ends without error with fewer packages counted than listed if and only if a package the table lacks is listed before one it has |
| `YumConvergence.RemovalsAreSafe` | internal/plugins/yum/pkg/yumrepository/sync.go:208-258 | at every moment, also after an error return with threads left behind, no upstream or overridden id has been deleted as stale, deletion starts only when every upstream package is there, and every removal finds its row |
| `YumConvergence.ConvergedIsInjective` | internal/plugins/yum/pkg/yumdb/repository.go:69-107 | a table keyed by tag that holds the upstream ids shows that their tags are distinct |
| `YumProgress.CanFinish` | internal/plugins/yum/pkg/yumrepository/sync.go:72-258 | from wherever a schedule without failures has got to, a successful end can be reached |
| `YumSync.StoreKeeps` | internal/plugins/yum/pkg/yumrepository/sync.go:105-196 | storing a package over another one with its tag leaves every other entry's row and never leaves the overridden id among the stale ones |
| `YumConvergence.RowsAreAccounted` | internal/plugins/yum/pkg/yumrepository/sync.go:72-258 | at every moment each id the table started with is still there, or was overridden by a package with its tag, or was removed as stale |
| `YumConvergence.FailureIsFinal` | internal/plugins/yum/pkg/yumrepository/sync.go:199-258 | once a worker has failed, or a removal did not find its row, no schedule ends without error |
| `YumConvergence.RefusedIff` | internal/plugins/yum/pkg/yumrepository/sync.go:217-222 | a removal does not find its row if and only if no row has the id |
| `YumPipeline.ChangesAreIdempotent` | internal/plugins/yum/pkg/yumrepository/package.go:27-84 | upserts by key and removals by id, replayed, change nothing more |
| `YumPipeline.BothTablesConsistent` | internal/plugins/yum/pkg/yumrepository/handler.go:468-522 | for every interleaving and any number of crashes, once nothing is left to do the metadata and the repository table, here and in the bucket, are every accepted event that parses applied exactly once in order |
| `YumPipeline.MetadataMeans` | internal/plugins/yum/pkg/yumrepository/handler.go:468-522 | so, in terms of the accepted events alone, a metadata row is in the bucket if and only if an event put it and no later one put another under its key or removed it |
| `YumIndex.IndexFollows` | internal/plugins/yum/pkg/yumrepository/handler.go:468-522 | in every run in which no crash loses the index, whenever nothing is left to do the published index is that of the metadata of all accepted events |
| `YumIndex.IndexStaleIff` | internal/plugins/yum/pkg/yumrepository/handler.go:508-522 | after a crash the handler can come to rest, without a new event, with an index that is not that of the metadata table, if and only if the event table was empty and the index not fresh at the crash |
| `YumIndex.WindowIsLast` | internal/plugins/yum/pkg/yumrepository/handler.go:508-522 | such a crash comes between the removal of a batch's last event and the push of the index, with no event waiting |
| `YumIndex.EveryChangeOpensWindow` | internal/plugins/yum/pkg/yumrepository/handler.go:468-522 | every event that changes the metadata can be followed by such a crash and leave a stale index at rest |
| `Rendezvous.NodeHash.Add` | pkg/rv/rv.go:56-88 | puts a node if its host name is absent and sorts by seed |
| `Rendezvous.NodeHash.Remove` | pkg/rv/rv.go:90-131 | overwrites with the last node, cuts and sorts |
| `Rendezvous.NodeHash.Get` | pkg/rv/rv.go:134-150 | the first node of the list whose seed hashes the key highest, none if and only if all hash it to zero |
| `Rendezvous.AddKeepsNodes` | pkg/rv/rv.go:56-88 | whatever the seeds, adding gives exactly the old nodes and the new one if its name was absent, sorted |
| `Rendezvous.RemoveKeepsNodes` | pkg/rv/rv.go:90-131 | whatever the seeds, swapping, cutting and sorting removes exactly the node with that name |
| `Rendezvous.SortSorts` | pkg/rv/rv.go:68-70 | the sort gives a sorted permutation |
| `Rendezvous.OwnerIsOwner` | pkg/rv/rv.go:134-150 | on a sorted list Get returns the node of largest non-zero hash, ties to the lowest seed, or none if all hashes are zero |
| `Rendezvous.OwnerUnique` | pkg/rv/rv.go:134-150 | with distinct seeds there is only one such node |
| `Rendezvous.GetMeans` | pkg/rv/rv.go:19-150 | over every history of hosts with distinct seeds, a key goes to the address of the member whose seed hashes it highest above zero, ties to the lowest seed, and nowhere if and only if all hash it to zero |
| `Rendezvous.HistoryRepresents` | pkg/rv/rv.go:56-131 | after every history the list is the membership map, each host once, in seed order |
| `Rendezvous.HistoryIndependentIff` | pkg/rv/rv.go:56-150 | any two histories with the same membership give the same list, hence the same owners, if and only if the hosts' seeds are distinct |
| `Rendezvous.RemoveDisturbsOwnKeysOnly` | pkg/rv/rv.go:90-150 | for every key and reachable list, removing a host changes the owner only of its own keys |
| `Rendezvous.AddTakesOrLeaves` | pkg/rv/rv.go:56-150 | for every key and reachable list, adding a host leaves the owner or makes it the new node |
| `Membership.PluginManager.Register` | internal/pkg/beskar/plugin.go:128-183 | creates or upgrades the plugin and adds the node, with every early error exit and what it leaves behind |
| `Membership.PluginManager.Unregister` | internal/pkg/beskar/plugin.go:185-198 | removes the node only for the incarnation that is registered |
| `Membership.LiveMeans` | internal/pkg/beskar/plugin.go:128-198 | an address is live under a name if and only if its last registration had that name and was not followed by a leave of that name |
| `Membership.InvHolds` | internal/pkg/beskar/plugin.go:128-198 | with distinct host names, after every order of events each plugin's nodes and the node table are exactly the live addresses |
| `Membership.RefinesIff` | internal/pkg/beskar/plugin.go:128-198 | over every order of events each plugin routes to exactly the live addresses, if and only if no two addresses of one plugin share a host name |
| `Membership.StaleLeave` | internal/pkg/beskar/plugin.go:185-198 | a leave of any other incarnation changes nothing |
| `Membership.SharedHostname` | internal/pkg/beskar/plugin.go:175-182 | a second address under a taken host name is live and not routed to |
| `Membership.VersionNeverDecreases` | internal/pkg/beskar/plugin.go:149-172 | a known plugin stays known and later has the same version or a newer one |
| `Membership.VersionIsNewest` | internal/pkg/beskar/plugin.go:138-172 | a plugin is known if and only if some registration of it was answered with rules that compile; its version is then the newest that any answered registration has carried since, and its media types are those of the first that carried it |
| `Membership.RegistersIff` | internal/pkg/beskar/plugin.go:128-172 | a registration goes through if and only if the node answers, and its rules compile or the plugin is known and not older |
| `CaAgreement.NodeDelegate.LocalState` | internal/pkg/gossip/member_delegate.go:78-84 | the local state if there is one, on joins only |
| `CaAgreement.NodeDelegate.MergeRemoteState` | internal/pkg/gossip/member_delegate.go:86-93 | the first state received fills the remote state and an empty local one; later ones are ignored |
| `CaAgreement.StatesAreWriteOnce` | internal/pkg/gossip/member_delegate.go:78-93 | in every run a member's local state, remote state and chosen CA never change once set |
| `CaAgreement.OneCaEverywhere` | internal/pkg/gossip/member_delegate.go:78-93 | with one generated CA, every state held, in flight or in use is that CA |
| `CaAgreement.AgreementIff` | internal/pkg/beskar/registry.go:232-286 | all members that finish, those with peers having joined first, agree in every run if and only if no two different CAs were generated |
| `CaAgreement.TwoOrigins` | internal/pkg/gossip/member.go:28-69 | two members with different generated CAs join each other, merge each other's and finish with swapped CAs |
| `CaAgreement.ElsewhereAgreesIff` | internal/pkg/gossip/peer.go:87-99 | outside Kubernetes all agree in every run if and only if all generated the same CA |
| `CaAgreement.KubernetesAgrees` | internal/pkg/gossip/peer.go:87-99 | in Kubernetes, if at most one member finds no peers, all that finish use its CA |
| `CaAgreement.KubernetesFinishes` | internal/pkg/gossip/peer.go:87-99 | the one member without peers has its own CA from the start, and wherever a run has got to, all members can still be brought to finish with it |
| `CaAgreement.KubernetesFinishesIff` | internal/pkg/gossip/peer.go:87-99 | in Kubernetes some run lets all members finish if and only if some member found no peers |
| `CaAgreement.UsersHaveJoined` | internal/pkg/gossip/member.go:61-68 | a member that found peers uses a CA only after its join has returned |
| `ManifestCache.SplitInvertsIff` | internal/pkg/beskar/cache.go:91-140 | splitting a cache key at the first '@' gives back name and digest if and only if the name has no '@' and the digest is not empty |
| `ManifestCache.SameKey` | internal/pkg/beskar/cache.go:20-22 | names without '@' never share a key |
| `ManifestCache.ManifestServiceWrapper.GetManifest` | internal/pkg/beskar/repository_middleware.go:81-100 | a hit from the cache, a miss from the store under the split key; what is found is cached under name@digest and no other entry changes |
| `ManifestCache.ManifestServiceWrapper.PutManifest` | internal/pkg/beskar/repository_middleware.go:102-128 | stores under the digest, then caches under name@digest, and reports a failed cache write |
| `ManifestCache.ManifestServiceWrapper.DeleteManifest` | internal/pkg/beskar/repository_middleware.go:130-152 | reads through the cache, deletes from the store what was found, then removes it from the cache, and reports a failed removal |
| `ManifestCache.ReadIsPlain` | internal/pkg/beskar/repository_middleware.go:81-100 | through a coherent cache, here or at a peer, a read gives what the store holds |
| `ManifestCache.DeleteCoherentIff` | internal/pkg/beskar/repository_middleware.go:130-152 | a delete leaves the cache coherent if and only if the cache removed the entry or there was nothing to delete |
| `ManifestCache.ExecIsPlain` | internal/pkg/beskar/repository_middleware.go:81-152 | one request through a coherent cache leaves the bare service's store and gives its answer, a Put whose cache write fails excepted, and leaves the cache coherent |
| `ManifestCache.CacheIsTransparent` | internal/pkg/beskar/repository_middleware.go:81-152 | over every serial history with arbitrary evictions and failing cache writes, store and answers are those of a bare service that knows of no cache, but for the failure reported for a Put that could not be cached |
| `ManifestCache.FailedRemovalServesDeleted` | internal/pkg/beskar/repository_middleware.go:130-152 | after a delete whose cache removal fails, the manifest is still served |
| `OciImage.ImageBuilder.AddLayer` | pkg/oras/image.go:66-102 | a stream goes to the pending list, a file to manifest and map or, if it has no digest, nowhere |
| `OciImage.ImageBuilder.CloseLayer` | pkg/oras/layer.go:240-249 | the stream's descriptor is now that of its content, the next Digest takes it off the pending list, and no other stream changes |
| `OciImage.ImageBuilder.Digest` | pkg/oras/image.go:153-182 | the backward loop with in-place removal moves exactly the closed streams, and reports a digest if and only if none stays |
| `OciImage.DrainMoves` | pkg/oras/image.go:158-168 | draining loses no layer and adds none twice, as multisets |
| `OciImage.LayersAreConserved` | pkg/oras/image.go:66-182 | after every sequence of calls each accepted layer is in exactly one of manifest and pending list, pending streams keep their order, and the map has the manifest's digests |
| `OciImage.DigestReports` | pkg/oras/image.go:153-182 | a digest is reported if and only if every pending stream is closed, and exactly open streams stay |
| `OciImage.ManifestIsFaithful` | pkg/oras/image.go:80-102 | every manifest entry describes its own layer, and the map finds for each digest a layer entered under it |
| `OciImage.DescriptorExactIff` | pkg/oras/layer.go:196-249 | a drained stream's entry describes one content if and only if nothing was read after Close |
| `OciImage.StreamsMean` | pkg/oras/layer.go:196-249 | after every sequence of calls a stream has the media type it was made with, all bytes read from it since, and the hash of those read at its last close |
| `OciImage.DrainedEntryMeans` | pkg/oras/layer.go:221-249 | a closed stream is described by the number of all bytes read until it is drained and the hash of those read until its last close |
| `OciImage.DrainAppends` | pkg/oras/image.go:158-168 | Digest appends one entry per closed pending stream, the last added first, and changes no earlier entry |
| `MirrorTree.Diff` | internal/plugins/mirror/pkg/mirrorrepository/mirrorsync.go:93-119 | the remote files whose names are not local and the local ones whose names are not remote, in order |
| `MirrorTree.MissingMeans` | internal/plugins/mirror/pkg/mirrorrepository/mirrorsync.go:99-116 | such a list holds exactly the files with an unknown name |
| `MirrorTree.DeletesWaitForPushes` | internal/plugins/mirror/pkg/mirrorrepository/mirrorsync.go:223-331 | in every schedule, although workers add themselves to the wait group, no delete starts before every file was dispatched and every push is over |
| `MirrorTree.TreeConverges` | internal/plugins/mirror/pkg/mirrorrepository/mirrorsync.go:121-334 | with distinct tags, every schedule that ends without error leaves exactly the remote names but the failed ones, new rows as upstream lists them, kept rows unchanged |
| `MirrorTree.ContentConvergesIff` | internal/plugins/mirror/pkg/mirrorrepository/mirrorsync.go:93-334 | without failed pushes, and with one upstream file per name, the rows are in the end exactly the files upstream lists if and only if no two names share a tag and no file known to both sides has changed |
| `MirrorTree.ChangedFileStays` | internal/plugins/mirror/pkg/mirrorrepository/mirrorsync.go:93-119 | a file that changed upstream keeps its old row through every run that ends, and the new one is nowhere |
| `MirrorTree.OneChangedFile` | internal/plugins/mirror/pkg/mirrorrepository/mirrorsync.go:93-119 | a tree of one changed file has such a run |
| `MirrorTree.TreeConvergesIff` | internal/plugins/mirror/pkg/mirrorrepository/mirrorsync.go:121-334 | without failed pushes the names converge if and only if no two names, local or remote, share a tag |
| `MirrorTree.UntouchedRowsStay` | internal/plugins/mirror/pkg/mirrorrepository/database.go:49-83 | rows under tags the plan has no key for, such as other configs' rows, are there unchanged at every moment |
| `MirrorTree.FiledUnder` | internal/plugins/mirror/pkg/mirrorrepository/mirrorsync.go:198-311 | a directory, and a file whose push succeeds, is filed under the tag of its reference, a link under that of its plain name, and no other row is touched |
| `MirrorTree.NotFiled` | internal/plugins/mirror/pkg/mirrorrepository/mirrorsync.go:223-232 | a failed push, or a file of another kind, writes nothing |
| `MirrorTree.OnlyRegularPushed` | internal/plugins/mirror/pkg/mirrorrepository/mirrorsync.go:262-264 | in every run workers push only regular files of the plan |
| `MirrorTree.DroppedLinkGoneIff` | internal/plugins/mirror/pkg/mirrorrepository/mirrorsync.go:286-331 | the tag of a link that upstream dropped is gone in the end if and only if some deleted name has it as its file tag |
| `MirrorTree.CanEnd` | internal/plugins/mirror/pkg/mirrorrepository/mirrorsync.go:234-334 | with a worker, or nothing to push, every schedule without a database error can still reach its end |
| `MirrorTree.CanEndIff` | internal/plugins/mirror/pkg/mirrorrepository/mirrorsync.go:252-264 | a synchronisation can end if and only if it has a worker or no regular file to push |
| `PrimaryWalk.CountRoundTripIff` | internal/plugins/yum/pkg/yummeta/primary.go:101-110 | the count written into a header is read back if and only if it fits 32 bits, and is an error otherwise |
| `PrimaryWalk.SignedParse` | internal/plugins/yum/pkg/yummeta/primary.go:104-108 | a sign may precede the digits, and 32 bits bound the value on both sides |
| `PrimaryWalk.DigitsIff` | internal/plugins/yum/pkg/yummeta/primary.go:104-108 | a number parses if and only if it is a non-empty string of digits |
| `PrimaryWalk.CheckType` | internal/plugins/yum/pkg/yummeta/primary.go:88-94 | the first type attribute that is not sha256 |
| `PrimaryWalk.ReadHref` | internal/plugins/yum/pkg/yummeta/primary.go:95-100 | the last href attribute, or the value before |
| `PrimaryWalk.ReadCount` | internal/plugins/yum/pkg/yummeta/primary.go:101-110 | the last packages attribute, or an error if one does not parse |
| `PrimaryWalk.WalkPrimaryPackages` | internal/plugins/yum/pkg/yummeta/primary.go:67-125 | the token loop makes the calls, and returns the error, of reading token by token until the first error |
| `PrimaryWalk.BadTypeIff` | internal/plugins/yum/pkg/yummeta/primary.go:88-94 | a checksum is refused if and only if it has a type other than sha256 |
| `PrimaryWalk.BadTypeIsFirst` | internal/plugins/yum/pkg/yummeta/primary.go:90-94 | the type reported is the first one that is not sha256 |
| `PrimaryWalk.HrefIsLast` | internal/plugins/yum/pkg/yummeta/primary.go:96-100 | the last href attribute wins, and without one the value stays |
| `PrimaryWalk.CountMeans` | internal/plugins/yum/pkg/yummeta/primary.go:102-110 | the last packages attribute wins, and it is an error if and only if one of them does not parse |
| `PrimaryWalk.EntryRead` | internal/plugins/yum/pkg/yummeta/primary.go:82-123 | a package element is reported with its own checksum and location, and an empty one where it has none, whatever came before it |
| `PrimaryWalk.HeaderlessCount` | internal/plugins/yum/pkg/yummeta/primary.go:68-72 | without a header the packages are reported with a count of zero |
| `PrimaryWalk.FirstErrorEnds` | internal/plugins/yum/pkg/yummeta/primary.go:74-111 | the first decoder error, checksum of another type or count that does not parse ends the walk with its error and the calls made before it |
| `PrimaryWalk.DocumentCutOff` | internal/plugins/yum/pkg/yummeta/primary.go:74-111 | a document cut off by such an error has its packages reported in order, and nothing else |
| `PrimaryWalk.WalkInverts` | internal/plugins/yum/pkg/yummeta/primary.go:67-125 | for every list of packages rendered with arbitrary other elements and text around and inside, the walk reports exactly that list in order, each with the header's count, and succeeds |
| `PrimaryWalk.WalkStopsAtRefusal` | internal/plugins/yum/pkg/yummeta/primary.go:112-117 | the first refused report is the last one made, and the walk returns its error |
| `PrimaryWalk.ChecksumReadIff` | internal/plugins/yum/pkg/yummeta/primary.go:118-122 | a package with one checksum is reported with its text if and only if that is not empty or no text follows in the package |
| `Repomd.MetaXML.Write` | internal/plugins/yum/pkg/yumrepository/repomd.go:50-94 | hashes, counters and file get the same bytes, compressed and not |
| `Repomd.MetaXML.Add` | internal/plugins/yum/pkg/yumrepository/repomd.go:108-111 | a fragment is written whole, an empty one not at all |
| `Repomd.MetaXML.Save` | internal/plugins/yum/pkg/yumrepository/repomd.go:113-120 | after the footer and the compressor's rest, the counted checksum and size are those of the file |
| `Repomd.TextOf` | internal/plugins/yum/pkg/yumrepository/repomd.go:108-120 | the uncompressed text is the header, every fragment in order, and the footer |
| `Repomd.MainUnpacks` | internal/plugins/yum/pkg/yumrepository/repomd.go:61-74 | a finished file unpacks to its text |
| `Repomd.HeaderHolds` | internal/plugins/yum/pkg/yumrepository/repomd.go:126-132 | the header holds the count between the two parts of its format, where it can be read back |
| `Repomd.WriteMains` | internal/plugins/yum/pkg/yumrepository/package.go:100-135 | the three files hold the fragments of every package walked, under a header with the count taken before, and the counters and hashes kept while writing are those of file and text |
| `Repomd.Push` | internal/plugins/yum/pkg/yumrepository/repomd.go:286-475 | index, layers and files of the three files, from their counters, and of the extra metadata, later files replacing earlier ones of the same name |
| `Repomd.GenerateAndPushMetadata` | internal/plugins/yum/pkg/yumrepository/package.go:86-148 | publishes measured files of exactly the packages walked, with the count taken before the walk |
| `Repomd.BaseOfHref` | internal/plugins/yum/pkg/yumrepository/repomd.go:141-146 | the last element of an href is the layer title |
| `Repomd.BaseCases` | internal/plugins/yum/pkg/yumrepository/repomd.go:451 | an empty path, the root, and slashes at the end |
| `Repomd.MainEntryConsistentIff` | internal/plugins/yum/pkg/yumrepository/repomd.go:311-363 | a generated file's layer has its entry's checksum and size and the base of its href as title, and the entry describes file and text if and only if the counters and hash inputs kept while writing are theirs |
| `Repomd.MainEntryConsistent` | internal/plugins/yum/pkg/yumrepository/repomd.go:311-363 | the entry of a written file describes it, and a pushed layer has its checksum as digest, its size, and the base of its href as title |
| `Repomd.ThreeFilesConsistent` | internal/plugins/yum/pkg/yumrepository/repomd.go:50-475 | so for primary, filelists and other of every table, each with the text of all packages walked |
| `Repomd.HeaderAgreesIff` | internal/plugins/yum/pkg/yumrepository/package.go:100-135 | whatever helpers change between the count and the walk, the header announces the number of fragments if and only if as many new names were put as rows were dropped |
| `Repomd.ExtraEntryConsistentIff` | internal/plugins/yum/pkg/yumrepository/repomd.go:412-449 | an extra entry repeats kind, checksums, sizes and name of its record; its layer is titled with the base of its href, and has the entry's checksum and size if and only if those were recorded for its data |
| `Repomd.BlobsIntactIff` | internal/plugins/yum/pkg/yumrepository/repomd.go:412-470 | every pushed blob has its layer's digest and size if and only if files written under one name have one content |
| `Repomd.DirectoryHasLast` | internal/plugins/yum/pkg/yumrepository/repomd.go:412-416 | a file holds what was written to it last |
| `Repomd.IndexIsFinal` | internal/plugins/yum/pkg/yumrepository/repomd.go:452-470 | the index layer pushes the final list of entries, whatever the extra metadata is called |

## Left out

- Failed or partial bucket and database writes inside the pipeline: a push or database access succeeds or the process crashes.
- Concurrent QueueEvent calls of one handler: they are serialised; store order and queue order could otherwise differ.
- Repository deletion, handler cleanup and the Stop branch of the run loop: a stop is modelled as a restart only.
- Timestamps: upload times, history creation times, repomd timestamps.
- md5, murmur3, sha256, gob, lz4, gzip, XML lexing and encoding, and semantic version order: arbitrary functions, with injectivity or transitivity where a result states it.
- EventQueue.EveryEventIsDelivered: states that delivery is always possible, not that a fair scheduler forces it; likewise StaticGuarantees.Drain, StartBarrier.EveryGetReturns, YumProgress.CanFinish and MirrorTree.CanEnd.
- YumSync: GPG checks, timeouts, the download semaphore and the upstream metadata refresh of sync.go; every error is one abort step, after which the threads under way go on.
- YumConvergence.Convergence: the filter's delete from the map of stale ids is one step, although it is not guarded; Go leaves what concurrent map accesses do undefined.
- SharedDb.ConcurrentRoundTrip: crashes between the steps of a helper are the event pipeline's matter and not repeated here.
- MirroredDb.SqliteDb.Sync: an object without a row stands for the empty object of a failed push, which has not even tables.
- YumPipeline.BothTablesConsistent: an event's effect is a function of the event; a package that fails validation, whose event is removed all the same, counts as one without effect. Storing and removing an event are one step each, StaticPipeline takes those apart. Mirrored repositories, which publish no index of their own, are YumSync's matter.
- Layer annotations and platforms, AddConfig and image indexes: they would add only copied fields.
- OciImage.ImageBuilder.AddLayer: stream layers are numbers into a table instead of heap objects, so that aliasing of one stream by two images is not captured.
- MirrorTree.TreeConverges: for trees of files and directories; symbolic links are filed and removed under different tags, see DroppedLinkGoneIff.
- generateFileReference and path cleaning: part of the arbitrary function from names to tags.
- Mirror API deletes, resolveSymlinks, rsync and web crawling syncs: they bypass the mirrored helpers or are foreign code.
- The sqlite database layers of the repomd push and sqliterepo_c: foreign code.
- Repomd.GenerateAndPushMetadata: the fixed header and footer texts are a parameter, and extra metadata file names contain no '/'.
- The distributed cache's peers, AddPeer and RemovePeer: one map that may lose entries at any time.
- Rendezvous onUpdateFunc and getNodes: the only caller passes no function.
- The SyncArtifact timeout and context: giving up is possible at any time.
- TLS, access control, the Rego router, HTTP proxying, Kubernetes discovery, memberlist internals, the OSTree plugin, configuration and command line: input and output, or code that is not part of this model.

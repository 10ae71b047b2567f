# A verified model of the mskdsp control and data paths

These Dafny modules model the stateful cores of the gateway and prove what they keep: the DataCenter
bus with its command lanes, subscriptions and saved state, the logic-expression parser of Calc, the
route-snapshot sanitizer, the crash-safe host transactions for the ordinary network and for
updates, the DL/T 645 codec and point table, and the control sequences of the orchestrator.
`dafny verify dfyconfig.toml` checks the whole project.

## How it is laid out

| module | what it covers |
|---|---|
| `CommandLane` | ticketed command lanes: the protocol over all interleavings, and the object with 64-bit counters |
| `DataCenterModel`, `DataCenterPublish`, `DataCenterInvariant` | the bus as a value, its operations, what every run keeps |
| `DataCenterEffects`, `DataCenterRequests` | what each operation does, told by requests, routes and fields alone |
| `DataCenterRename`, `DataCenterRestore`, `DataCenterRestart`, `DataCenterSubscription` | changes of key, saving, restarting, runs with restarts, snapshot plus stream |
| `DataCenterRoutes`, `DataCenterConfig`, `DataCenterCore` | the loops of the core and the object whose methods refine the operations |
| `LogicExpression`, `LogicSamples`, `CalcItem` | grammar, tokenizer, descent, the mutable parser; what some sentences mean; acceptance and evaluation of an item |
| `RouteSnapshot` | the sanitizer, editing an array in place |
| `OrdinaryNetworkModel`, `OrdinaryNetworkRuns`, `OrdinaryNetwork`, `OrdinaryNetworkCalls` | the ordinary-network transaction: the host, what a run can do, the methods that stay within that, sequences of calls |
| `UpdateTask`, `UpdateTaskRuns` | the update task, with failures and deaths between any two steps; the order of the steps of its runs |
| `Base64`, `Dlt645Frame`, `Bcd`, `PointTable`, `PointRules`, `DataIdentifiers` | the DL/T 645 codec and its point table |
| `RequestPath`, `SequenceCalls` | the call path in a request id, the recursion guard and the execution locks |
| `ControlSequence`, `ControlExecution` | what a running sequence may do, and the step, retry and polling loops that stay within it |
| `Arithmetic`, `Decimals`, `Wrappers` | division, digits, small types |

Where the source changes an object or a buffer in place, a class or an array does so here, and each
method is proved against a function on values; the properties are lemmas about those functions
and about runs of them. Concurrency is a state machine in which every region under a mutex, or
every access to a persisted file, is one step.

## Where the code does less than one might expect

Each of these is proved, with the exact condition where there is one.

- A tag table that is created by appending does not prune routes. A route can then have a tag its
  table lacks, and while it has one the state store refuses every save (`StepAdmits`, `AppendStrands`).
- After the 32-bit connection ids are exhausted and the last one is deleted, a restart starts giving
  out ids again (`RestartKeepsSpent`, `RestartGivesOutAgain`). A connection that could not
  be saved is forgotten by a restart, and its id is given out again (`UnsavedIdComesBack`).
- A stored command result and the deletion of a source connection change a subscriber's values
  without anything being published for it (`ServedCoherent`, `StoreBreaksCoherence`,
  `DeleteBreaksCoherence`).
- If the final write of an ordinary-network change takes effect and is still reported as failed, and
  the rollback then stops after it has touched the old interface's DNS settings, those settings are
  no longer on record. `CanLose` says for which states and configurations: some run of such a call
  loses them (`LosesSettings`), and no run of any other does (`Apply`). A record also goes stale when
  its interface disappears and comes back with other settings (`ReconfiguredKeepsInv`), and clearing
  the configuration then brings the old ones back (`StaleSettingsComeBack`).
- `reconcile` reads a task's phase before it asks whether its unit is active, so it can overwrite a
  result written in between, `succeeded` included (`StaleReconcileOverwrites`). Its `failed` means
  untouched exactly if no installer started since that reading (`FailedByReconcileIff`).
- Item lengths of a block are added in 32 bits, so a block whose items add up to 2^32 or more can be
  accepted (`TilesIffNoWrap`, `WrappingBlockIsValid`).
- The point table compares data identifiers as text, so points that spell one identifier in upper and
  in lower case are not compared (`OctetsApartIff`, `TwoSpellingsAreAccepted`).
- A workflow whose name contains the path marker is never found in a path, so the recursion guard
  does not see it (`RecursionDetectedIff`) and admits it inside itself at every depth unless the path its
  name spells reaches the limit (`MarkerNameRecursesIff`). The execution locks still keep calls that
  wait for each other distinct (`WaitingCallsDiffer`), so such a call waits in vain (`SelfCallWaits`);
  what is lost is the limit of 32 levels (`AnyDepthIsReached`).

## Model

| member | source | states |
|---|---|---|
| `CommandLane.NextInv` | src/DataCenter/DataCenterGrpcService.cc:352-386 | every step of any interleaving of taking a ticket, starting a lease, giving up and releasing keeps the lane invariant |
| `CommandLane.RunInv` | src/DataCenter/DataCenterGrpcService.cc:423-464 | the invariant holds at every moment of every run |
| `CommandLane.Safety` | src/DataCenter/DataCenterGrpcService.cc:352-386 | at most one active lease; leases granted in strictly increasing ticket order; cancelled tickets strictly between the served and the next one; the smallest outstanding ticket is the one being served; no cancelled ticket is ever granted |
| `CommandLane.GrantableIffFirst` | src/DataCenter/DataCenterGrpcService.cc:436-459 | a waiting ticket can be granted exactly when no live ticket is in front of it, and given up exactly when there is one |
| `CommandLane.AheadShrinks` | src/DataCenter/DataCenterGrpcService.cc:366-386 | nothing overtakes: a step takes exactly the released or cancelled ticket out of those ahead of a waiter and never adds one |
| `CommandLane.CommandLane.ReserveCommandTicket` | src/DataCenter/DataCenterGrpcService.cc:423-426 | the 64-bit counters refine the protocol while fewer than 2^64 tickets are outstanding |
| `CommandLane.CommandLane.SkipCancelled` | src/DataCenter/DataCenterGrpcService.cc:373-376 | the skipping loop ends at the first ticket that is not cancelled and forgets exactly those it passed |
| `CommandLane.CommandLane.PollCommandTicket` | src/DataCenter/DataCenterGrpcService.cc:436-464 | one turn of the waiting loop: a lease exactly when the number is up, otherwise a cancellation exactly when asked to stop |
| `CommandLane.CommandLane.Release` | src/DataCenter/DataCenterGrpcService.cc:367-385 | releasing refines the protocol step; the defensive branch for a lease that is not at the head is never taken |
| `DataCenterInvariant.StepInv` | src/DataCenter/DataCenterCoreConnection.cc:124-321 | every public operation keeps: the two connection maps are inverse, tag tables and routes name registered connections with non-empty tags, caches name live sources with distinct sequence numbers |
| `DataCenterInvariant.RunInv` | src/DataCenter/DataCenterCoreConnection.cc:124-321 | the invariant and, until exhaustion, freshness of the next id hold after any run of operations |
| `DataCenterInvariant.PublishFailsOnlyFor` | src/DataCenter/DataCenterCorePublish.cc:70-82 | the "destination not registered" branch of Publish is unreachable: it fails exactly for a malformed request, an unknown source or an exhausted sequence |
| `DataCenterInvariant.IdsAreNeverReused` | src/DataCenter/DataCenterCoreConnection.cc:143-154 | an id that was used and given up is never given out again |
| `DataCenterInvariant.CreateIsFresh` | src/DataCenter/DataCenterCoreConnection.cc:147-154 | the search for a free id succeeds at once: a new connection gets exactly the next id |
| `DataCenterInvariant.StepTargetsLive` | src/DataCenter/DataCenterCorePublish.cc:329-368 | every operation keeps cached destinations alive, exactly except a stored command whose target is gone |
| `DataCenterInvariant.OverlayCases` | src/DataCenter/DataCenterCorePublish.cc:96-110 | what the destination cache holds after a log of updates was written into it |
| `DataCenterPublish.BatchIsSequential` | src/DataCenter/DataCenterCorePublish.cc:115-224 | a batch succeeds exactly when its points would one by one, with the same caches, sequence numbers and concatenated updates |
| `DataCenterPublish.OverlayConcat` | src/DataCenter/DataCenterCorePublish.cc:218-221 | writing two logs after each other is writing their concatenation |
| `DataCenterEffects.PublishAnswers` | src/DataCenter/DataCenterCorePublish.cc:44-82 | which publishes fail, and with which code |
| `DataCenterEffects.BatchAnswers` | src/DataCenter/DataCenterCorePublish.cc:121-166 | which batches fail, and with which code: the first reason in this order that any of its points gives |
| `DataCenterEffects.PublishSends` | src/DataCenter/DataCenterCorePublish.cc:96-110 | an update is sent exactly if it carries the point along a route that starts at the key of its connection and its tag: source and destination ids and tags, value, quality, and the time of the point or the clock; no two go to one endpoint |
| `DataCenterEffects.PublishWrites` | src/DataCenter/DataCenterCorePublish.cc:83-110 | the source has the point with the next sequence number, every destination its update, and nothing else has changed |
| `DataCenterEffects.BatchSends` | src/DataCenter/DataCenterCorePublish.cc:172-212 | a batch sends exactly what its points carry along their routes |
| `DataCenterEffects.BatchWrites` | src/DataCenter/DataCenterCorePublish.cc:214-221 | after a batch every source has the last of its points there, numbered by its place, every destination the update of the last point that reaches it, and nothing else has changed |
| `DataCenterRequests.ResolvesWhatItNames` | src/DataCenter/DataCenterCore.cc:80-130 | an endpoint request resolves to what it names, by key before id; malformed and unknown ones get their codes |
| `DataCenterRequests.Creates` | src/DataCenter/DataCenterCoreConnection.cc:124-165 | the connection with the key is found, or created under the first free id with nothing else changed; when it fails, no id is left |
| `DataCenterRequests.Renames` | src/DataCenter/DataCenterCoreConnection.cc:167-221 | the connection has the new key, its tag table and both ends of its routes with it, and nothing else has changed; which failure gets which code |
| `DataCenterRequests.Upserts` | src/DataCenter/DataCenterCoreConnection.cc:282-334 | the same for the upsert that changes a key |
| `DataCenterRequests.Deletes` | src/DataCenter/DataCenterCoreConnection.cc:223-280 | without the connection there is neither its table, nor a route at either end, nor a cached value it sent or received; everything else is as it was |
| `DataCenterRequests.TagsBecome` | src/DataCenter/DataCenterCoreConnTags.cc:39-69 | replacing leaves exactly the tags of the request and the routes they allow; appending keeps the old tags and every route |
| `DataCenterRequests.RoutesUpserted` | src/DataCenter/DataCenterCoreRoutes.cc:10-40 | all requests or none: exactly the named routes, and when appending also the old ones |
| `DataCenterRequests.RoutesDeleted` | src/DataCenter/DataCenterCoreRoutes.cc:42-70 | all requests or none: exactly the named routes are gone |
| `DataCenterRequests.RouteOfCommand` | src/DataCenter/DataCenterCorePublish.cc:226-327 | a command goes to the one destination of its source, under the id of that connection; none and several are told apart |
| `DataCenterRequests.CommandStored` | src/DataCenter/DataCenterCorePublish.cc:329-368 | an accepted command is cached at its target and only there, with value, quality, time and source |
| `DataCenterRename.BothOperationsRekey` | src/DataCenter/DataCenterCoreConnection.cc:197-320 | RenameConnection and key-changing UpsertConnection come to the same state |
| `DataCenterRename.RoutesOneToOne` | src/DataCenter/DataCenterCoreConnection.cc:10-32 | a change of key carries every route over and merges none |
| `DataCenterRename.SameUpdates` | src/DataCenter/DataCenterCorePublish.cc:96-110 | an update is sent after the change exactly when it was before |
| `DataCenterRename.PublishCommutes` | src/DataCenter/DataCenterCoreConnection.cc:167-221 | publishing by conn_id commutes with a change of key: same success, same caches, same multiset of updates |
| `DataCenterRename.PublishAllCommutes` | src/DataCenter/DataCenterCoreConnection.cc:167-221 | the same for any number of publishes |
| `DataCenterRename.RenameBack` | src/DataCenter/DataCenterCoreConnection.cc:202-220 | taking the old key back restores the state exactly |
| `DataCenterRestore.RestoreInv` | src/DataCenter/DataCenterGrpcService.cc:617-631 | start-up ends in a state with the invariant whatever was saved; its next id is fresh exactly unless the saved registry holds the last id and yet names a next one |
| `DataCenterRestore.RestoreOfDump` | src/DataCenter/DataCenterGrpcService.cc:617-631 | restoring a dump, listed in any order, gives the same connections and tag tables, the same routes exactly when the tables admit them, the same next id exactly when ids are not exhausted or the last one is in use |
| `DataCenterRestore.DumpValidIffTagsAdmit` | src/DataCenter/DataCenterStateStore.cc:133-151 | the state store accepts a dump exactly when the tag tables admit the routes |
| `DataCenterRestore.StepAdmits` | src/DataCenter/DataCenterCoreConnTags.cc:39-69 | an operation keeps tables and routes in agreement exactly unless it creates a table by appending while a route has a tag that the table lacks |
| `DataCenterRestore.RunAdmits` | src/DataCenter/DataCenterCoreConnTags.cc:39-69 | runs that create tables only by replacing never lose that agreement |
| `DataCenterRestore.SavedAndRestored` | src/DataCenter/DataCenterGrpcService.cc:554-631 | every state of such a run from the empty core can be saved, and a restart brings back connections, tables, routes and, before exhaustion, the next id |
| `DataCenterRestart.LifeKept` | src/DataCenter/DataCenterGrpcService.cc:554-631 | over operations with saves that may fail and restarts from whatever was saved last, at every moment: the core keeps its invariant, the file restarts to a sound core, and a current file to the present configuration |
| `DataCenterRestart.WhatIsWritten` | src/DataCenter/DataCenterGrpcService.cc:678-717 | values are never written; asking for a known connection writes only what a failed save has left pending; everything else that configures is saved or left pending |
| `DataCenterRestart.CurrentFileRestarts` | src/DataCenter/DataCenterGrpcService.cc:554-631 | a restart from a file that holds the present configuration keeps ids, keys, tables and routes, and the next id exactly unless the ids are exhausted and the last one is free |
| `DataCenterRestart.EverySaveRestarts` | src/DataCenter/DataCenterGrpcService.cc:562-590 | in a life in which no table is created by appending, the store never refuses a state |
| `DataCenterRestart.SurvivesIff` | src/DataCenter/DataCenterGrpcService.cc:617-631 | a restart keeps spent ids out of use exactly if its next id is not below the one before and it brings back no deleted connection |
| `DataCenterRestart.RestartKeepsSpent` | src/DataCenter/DataCenterGrpcService.cc:617-631 | from a current file that is so exactly unless the ids are exhausted and the last one is free |
| `DataCenterRestart.UnsavedIdComesBack` | src/DataCenter/DataCenterGrpcService.cc:562-590 | a life in which a connection cannot be saved and a restart gives its id to another one |
| `DataCenterRestart.IdsAreNeverReusedOverRestarts` | src/DataCenter/DataCenterCoreConnection.cc:143-154 | over any number of restarts of which each keeps spent ids out of use, whatever was saved when, an id that was used and given up is never given out again |
| `DataCenterRestart.RestartGivesOutAgain` | src/DataCenter/DataCenterGrpcService.cc:617-631 | a run from the empty core that exhausts the ids, after which a restart gives out the first one again |
| `DataCenterRestart.AppendStrands` | src/DataCenter/DataCenterCoreConnTags.cc:54-67 | a run from the empty core in which creating a table by appending leaves a state that every dump of is refused by the store |
| `DataCenterRoutes.RewriteConnectionKeyReferences` | src/DataCenter/DataCenterCoreConnection.cc:10-32 | the rewritten map holds exactly the moved routes, merged per source |
| `DataCenterRoutes.EraseEndpoints` | src/DataCenter/DataCenterCoreConnection.cc:240-260 | exactly the routes with a bad endpoint go, and no source is left without destinations |
| `DataCenterRoutes.AddRoutes` | src/DataCenter/DataCenterCoreRoutes.cc:10-40 | all-or-nothing: succeeds exactly when every request resolves and is admitted, and then adds exactly those routes |
| `DataCenterRoutes.RemoveRoutes` | src/DataCenter/DataCenterCoreRoutes.cc:42-67 | succeeds exactly when every request resolves, and then removes exactly those routes, dropping emptied sources |
| `DataCenterRoutes.RelDetermines` | src/DataCenter/DataCenterCoreRoutes.cc:16-19 | a route map without empty sets is determined by the routes it holds |
| `DataCenterConfig.ReadConnections` | src/DataCenter/DataCenterCoreConnection.cc:57-82 | accepts exactly well-formed registries without repeated ids or keys, and builds both maps and the highest id |
| `DataCenterConfig.ReadTables` | src/DataCenter/DataCenterCoreConnTags.cc:100-119 | accepts exactly tables of registered connections without empty tags, merging tables of one key |
| `DataCenterConfig.ListConnections` | src/DataCenter/DataCenterCoreConnection.cc:104-122 | lists every connection exactly once |
| `DataCenterConfig.ListTables` | src/DataCenter/DataCenterCoreConnTags.cc:131-161 | lists every tag table once, with its tags, empty tables included |
| `DataCenterConfig.ListRoutes` | src/DataCenter/DataCenterCoreRoutes.cc:69-108 | lists exactly the matching routes, each once |
| `DataCenterConfig.FilterMeans` | src/DataCenter/DataCenterCoreRoutes.cc:69-94 | a route is listed if each end is of the connection asked for, if any is, and has the tag asked for, if any |
| `DataCenterConfig.ValidateState` | src/DataCenter/DataCenterStateStore.cc:133-151 | true exactly for a valid saved state |
| `DataCenterConfig.ValidateConnections` | src/DataCenter/DataCenterStateStore.cc:35-62 | true exactly for named connections with distinct non-zero ids and distinct keys |
| `DataCenterConfig.ValidateConnTags` | src/DataCenter/DataCenterStateStore.cc:64-96 | accepts exactly distinct tables of known connections with distinct non-empty tags |
| `DataCenterConfig.ValidateRouteEndpoint` | src/DataCenter/DataCenterStateStore.cc:98-116 | true exactly for a named endpoint of a known connection whose table, if any, lists its tag |
| `DataCenterCore.Core.GetOrCreateConnection` | src/DataCenter/DataCenterCoreConnection.cc:124-165 | the object refines the operation and keeps the invariant; on failure nothing changes |
| `DataCenterCore.Core.RenameConnection` | src/DataCenter/DataCenterCoreConnection.cc:167-221 | refines the operation; the failure after the first mutation is unreachable |
| `DataCenterCore.Core.UpsertConnection` | src/DataCenter/DataCenterCoreConnection.cc:282-321 | refines the operation and keeps the invariant |
| `DataCenterCore.Core.DeleteConnection` | src/DataCenter/DataCenterCoreConnection.cc:223-280 | refines the operation: connection, tables, routes and both caches forget it |
| `DataCenterCore.Core.ForgetConnection` | src/DataCenter/DataCenterCoreConnection.cc:262-277 | the two erasing loops drop exactly the cached values that name the connection |
| `DataCenterCore.Core.UpsertConnTags` | src/DataCenter/DataCenterCoreConnTags.cc:39-69 | refines the operation; only replacing prunes routes |
| `DataCenterCore.Core.PruneRoutesRejectedByConnTags` | src/DataCenter/DataCenterCoreConnTags.cc:11-37 | drops exactly the routes with a tag the table refuses |
| `DataCenterCore.Core.ReplaceConnTagsConfig` | src/DataCenter/DataCenterCoreConnTags.cc:99-129 | pruning table by table, in any order, leaves exactly the routes all tables admit |
| `DataCenterCore.Core.UpsertRoutes` | src/DataCenter/DataCenterCoreRoutes.cc:10-40 | refines the operation and keeps the invariant |
| `DataCenterCore.Core.DeleteRoutes` | src/DataCenter/DataCenterCoreRoutes.cc:42-67 | refines the operation and keeps the invariant |
| `DataCenterCore.Core.ReplaceRoutesConfig` | src/DataCenter/DataCenterCoreRoutes.cc:110-137 | the routes become exactly those of the configuration, or nothing changes |
| `DataCenterCore.Core.Publish` | src/DataCenter/DataCenterCorePublish.cc:42-113 | the in-place loops refine the operation for any hash order; on failure nothing changes |
| `DataCenterCore.Core.BatchPublish` | src/DataCenter/DataCenterCorePublish.cc:115-224 | the two-phase loops refine the batch operation; on failure nothing changes |
| `DataCenterCore.Core.StoreAcceptedCommand` | src/DataCenter/DataCenterCorePublish.cc:329-368 | refines the operation and keeps the invariant |
| `DataCenterCore.Core.ResolveCommandRoute` | src/DataCenter/DataCenterCorePublish.cc:226-327 | a command has a target exactly when its source has one destination; "target unavailable" is unreachable |
| `DataCenterCore.Core.GetLatest` | src/DataCenter/DataCenterCorePublish.cc:370-409 | returns every cached value of the connection that passes the filter, once |
| `DataCenterCore.Core.DumpState` | src/DataCenter/DataCenterCoreConnection.cc:104-122 | lists the whole state: connections, tables, routes and next id |
| `DataCenterCore.Core.ReplaceConnectionsConfig` | src/DataCenter/DataCenterCoreConnection.cc:56-102 | both maps and the next id are those of the configuration, or nothing changes |
| `DataCenterCore.Core.Restore` | src/DataCenter/DataCenterGrpcService.cc:617-631 | the started core has the invariant and the state the saved one restores to |
| `DataCenterSubscription.RunKeeps` | src/DataCenter/DataCenterGrpcService.cc:486-521 | in every run every queue is the end, at most 10000 long, of what was published for its subscriber; delivered, dropped and queued add up; deliveries are in order |
| `DataCenterSubscription.SnapshotPlusStreamIsLatest` | src/DataCenter/DataCenterGrpcService.cc:1357-1428 | for an undisturbed subscription without drops, the snapshot overlaid with what was delivered and then what is queued is exactly GetLatest |
| `DataCenterSubscription.ServedCoherent` | src/DataCenter/DataCenterGrpcService.cc:936-979 | an operation keeps a subscriber coherent exactly unless it changes its values without publishing: a stored command, or deleting a source connection |
| `DataCenterSubscription.StoreBreaksCoherence` | src/DataCenter/DataCenterCorePublish.cc:329-368 | a state reached by a run in which storing a command leaves a subscriber without the value GetLatest returns |
| `DataCenterSubscription.DeleteBreaksCoherence` | src/DataCenter/DataCenterCoreConnection.cc:262-277 | after that, deleting the source connection leaves a subscriber with a value GetLatest no longer returns |
| `DataCenterSubscription.EnqueueAllKeeps` | src/DataCenter/DataCenterGrpcService.cc:486-521 | enqueueing any updates keeps the queue invariant |
| `DataCenterSubscription.ClosedIffFinished` | src/DataCenter/DataCenterGrpcService.cc:486-521 | over every run: a subscription is closed exactly if its caller left or its connection was deleted since it was made, and from then on neither queue nor stream changes |
| `DataCenterSubscription.DropsNothingIff` | src/DataCenter/DataCenterGrpcService.cc:486-521 | over every run: a subscription has lost nothing exactly if at no moment since it was made more than 10000 of the updates published for it were undelivered |
| `DataCenterSubscription.Subscriber.Enqueue` | src/DataCenter/DataCenterGrpcService.cc:486-521 | the update is appended, without a drop below 10000 waiting ones and for the oldest one at 10000; a closed subscriber takes nothing |
| `DataCenterSubscription.Subscriber.Next` | src/DataCenter/DataCenterGrpcService.cc:1407-1428 | the stream takes the oldest update, and nothing once closed |
| `DataCenterSubscription.MatchSubscribers` | src/DataCenter/DataCenterGrpcService.cc:466-484 | exactly the subscribers of the connection whose filter is empty or has the tag |
| `OrdinaryNetwork.Apply` | script/network/ordinary_network.py:334-393 | a call does nothing but what its relation of possible runs allows; after any mix of failed commands and a crash anywhere, every interface has its original DNS settings or a correct record of them, unless CanLose held before the call; what belongs to others is untouched; success puts the configuration in force and everything else back; a completed rollback restores the previous state; without a failing command the configuration is applied exactly if CanApply held before the call, and one failing command is rolled back |
| `OrdinaryNetworkRuns.LosesSettings` | script/network/ordinary_network.py:370-391 | the converse: whenever CanLose holds before a call, some run of the call loses the settings of the old interface |
| `OrdinaryNetworkCalls.LosesIff` | script/network/ordinary_network.py:334-393 | some possible run of a call loses settings exactly when CanLose holds before it |
| `OrdinaryNetworkCalls.CallsKeepInv` | script/network/ordinary_network.py:334-393 | over any sequence of calls, each with failures and a crash anywhere, and of interfaces that come, go and are given other settings: every available interface has its original settings or they are on record, as long as CanLose held before no call and no record was made stale |
| `OrdinaryNetworkModel.ReconfiguredKeepsInv` | script/network/ordinary_network.py:203-214 | an interface that appears with new settings keeps the invariant exactly unless other settings are on record for it |
| `OrdinaryNetworkRuns.StaleSettingsComeBack` | script/network/ordinary_network.py:203-214 | then clearing the configuration can succeed and gives the interface the recorded settings, whatever it has in the meantime |
| `OrdinaryNetwork.Attempt` | script/network/ordinary_network.py:370-382 | the journalled part never loses a record and never touches others' resources; done means in force |
| `OrdinaryNetwork.Rollback` | script/network/ordinary_network.py:383-389 | a completed rollback restores the previous file and configuration; an incomplete one exposes only the old interface, only if it is not on record, and only if its original settings differ from ours |
| `OrdinaryNetwork.Prepare` | script/network/ordinary_network.py:362-369 | settings are only recorded when they are the original ones, and the journal is written before anything else |
| `OrdinaryNetwork.RemoveRoutes` | script/network/ordinary_network.py:192-200 | deletes exactly this program's rules and routes, or refuses before the first if any other is in the way |
| `OrdinaryNetwork.RestoreDns` | script/network/ordinary_network.py:203-214 | restores every available recorded interface and touches no other |
| `OrdinaryNetwork.Install` | script/network/ordinary_network.py:247-258 | installs routes, rules and DNS settings; with a record in place the invariant holds throughout |
| `OrdinaryNetwork.Resources` | script/network/ordinary_network.py:163-189 | succeeds only if every rule of our priorities and every route of our table is ours |
| `OrdinaryNetwork.CheckLocked` | script/network/ordinary_network.py:320-331 | reports applied exactly if everything is installed and on record, unless a command fails or the resources cannot be compared |
| `OrdinaryNetwork.PlanRepair` | script/network/ordinary_network.py:261-306 | the listed plan is the one proved to converge, and only for a table without foreign entries |
| `OrdinaryNetworkModel.RepairConverges` | script/network/ordinary_network.py:261-306 | the plan is empty exactly when everything is installed, and carrying it out installs everything |
| `OrdinaryNetworkModel.InstalledMeans` | script/network/ordinary_network.py:247-258 | what is installed, item by item: both rules and no others with their priorities, the route to the gateway and the default route, and the DNS settings |
| `OrdinaryNetwork.RepairInPlace` | script/network/ordinary_network.py:345-352 | repairing keeps the invariant at every step; done means in force |
| `UpdateTask.NextInv` | script/update/lower_update_task.py:711-894 | every step of submit, schedule, reconcile, close and run, with failing writes and deaths anywhere, keeps the invariant |
| `UpdateTask.TraceInv` | script/update/lower_update_task.py:711-894 | the invariant holds at every moment of every interleaving |
| `UpdateTask.AtMostOnce` | script/update/lower_update_task.py:770-777 | a task's installer starts at most once, never for a closed task, and not at all if its run or a close wrote failed |
| `UpdateTask.InstallerStartsSafely` | script/update/lower_update_task.py:809-825 | an installer starts only alone, under the execution lock, with a backup of the present content and the image pin in place |
| `UpdateTask.FailedMeansUntouched` | script/update/lower_update_task.py:842-843 | when a run writes failed, modules and configuration are as it found them |
| `UpdateTask.RolledBackMeansRestored` | script/update/lower_update_task.py:845-862 | when a run writes rolled_back, modules and configuration equal the backup, which is what it found |
| `UpdateTask.ClosedStays` | script/update/lower_update_task.py:1009-1065 | a closed record is final |
| `UpdateTask.FailedByReconcileIff` | script/update/lower_update_task.py:711-720 | over every interleaving: when reconciling writes failed, the task has installed nothing exactly if no installer of it was started since the reconciling process read the record |
| `UpdateTask.InterruptedWhereItStopped` | script/update/lower_update_task.py:711-720 | reconcile only writes for a task without an active unit, and a record that did not change since it was read is not terminal |
| `UpdateTask.StaleReconcileOverwrites` | script/update/lower_update_task.py:711-720 | an interleaving from the empty system in which reconcile turns succeeded into failed because it read the phase before it asked for the unit |
| `UpdateTaskRuns.StepsInOrder` | script/update/lower_update_task.py:780-873 | over every interleaving: what a run that has begun can do next is exactly what the last step by which it decided leads to, told by the steps alone |
| `UpdateTaskRuns.SucceededMeansChecked` | script/update/lower_update_task.py:820-838 | succeeded is only written by a run whose installer was started, ended well and was followed by a passed check, in this order |
| `UpdateTaskRuns.FailureIsRolledBack` | script/update/lower_update_task.py:844-846 | after an installer that could not start or ended badly, or a failed check, the run takes no step but writing rolling_back, unless it dies |
| `UpdateTaskRuns.FailureNeverSucceeds` | script/update/lower_update_task.py:838-846 | and it never writes succeeded |
| `UpdateTaskRuns.TraceSecures` | script/update/lower_update_task.py:806-821 | the backup and the pinned image are there while a run installs or restores, and as long as the last it saved is that it was installing or restoring, or gave up restoring |
| `UpdateTaskRuns.BeginsIff` | script/update/lower_update_task.py:761-769 | a scheduled run begins exactly if nobody holds the execution lock and its task is accepted and not begun |
| `UpdateTaskRuns.NewTaskIff` | script/update/lower_update_task.py:733-751 | a new task is accepted exactly if its id is new and the active task has a result that needs no repair |
| `UpdateTaskRuns.ScheduledWhenAccepted` | script/update/lower_update_task.py:711-758 | a run is only scheduled for a task without one, found with its record as accepted |
| `UpdateTaskRuns.ReconcileDecides` | script/update/lower_update_task.py:711-720 | what reconciling goes on to do with the phase it read |
| `UpdateTaskRuns.ActiveBlocks` | script/update/lower_update_task.py:744-750 | while an unfinished task is the active one, and after it could not be rolled back, no new task is accepted |
| `UpdateTaskRuns.ClosableIff` | script/update/lower_update_task.py:1009-1065 | closing goes ahead exactly if nobody else is being admitted, nothing runs, every task has a result and none waits for repair, and the id is new or closed already |
| `UpdateTaskRuns.ClosedWhenSettled` | script/update/lower_update_task.py:1009-1065 | a task is closed only while nothing runs, no installer is active, and every task has a result and none waits for repair |
| `LogicExpression.EvaluateIffSentence` | src/Calc/CalcLogicExpression.cc:14-85 | a text evaluates to a value exactly when it is a sentence of the grammar within all limits with that value |
| `LogicExpression.SentenceUnique` | src/Calc/CalcLogicExpression.cc:47-71 | a text has at most one reading |
| `LogicExpression.AcceptanceIgnoresValues` | src/Calc/CalcLogicExpression.cc:14-23 | acceptance depends only on the text and the number of inputs |
| `LogicExpression.TokenizeIffReads` | src/Calc/CalcLogicExpression.cc:28-45 | the tokenizer returns exactly the token sequence the text reads as |
| `LogicExpression.ParseSound` | src/Calc/CalcLogicExpression.cc:47-85 | whatever the descent returns is a derivation, within the depth limit, of the tokens consumed |
| `LogicExpression.ParseComplete` | src/Calc/CalcLogicExpression.cc:47-85 | every derivation within the limits is found, wherever it stops |
| `LogicExpression.AliasRoundTrip` | src/Calc/CalcLogicExpression.cc:75-80 | aliases and input numbers are in bijection: the name of a number has that number |
| `LogicExpression.AliasUnique` | src/Calc/CalcLogicExpression.cc:75-80 | every upper-case word is the alias of exactly its number |
| `LogicExpression.KeywordsAreNotAliases` | src/Calc/CalcLogicExpression.cc:28-45 | no alias of the 256 inputs is an operator word |
| `LogicSamples.SymbolsMean` | src/Calc/CalcLogicExpression.cc:28-45 | one sentence with all four symbols is A or (B differs from (C and not D)), for all inputs: which symbol is which operator, and how tightly each binds |
| `LogicSamples.WordsMean` | src/Calc/CalcLogicExpression.cc:28-45 | the same spelled with keywords in upper, lower and mixed case |
| `LogicSamples.GroupsMean` | src/Calc/CalcLogicExpression.cc:28-45 | parentheses come first |
| `LogicSamples.NestingLimit` | src/Calc/CalcLogicExpression.cc:62-71 | negations may be nested 64 deep and no deeper, and each inverts |
| `LogicSamples.AliasesGoOn` | src/Calc/CalcLogicExpression.cc:28-45 | after Z comes AA, and the last input is IV |
| `LogicExpression.LogicParser.Next` | src/Calc/CalcLogicExpression.cc:28-45 | moving on consumes exactly one token, skipping spaces |
| `LogicExpression.LogicParser.Or` | src/Calc/CalcLogicExpression.cc:47-51 | the loop over the mutable parser agrees with the descent on tokens and marks exactly the inputs used |
| `LogicExpression.LogicParser.Xor` | src/Calc/CalcLogicExpression.cc:52-56 | as Or, for XOR |
| `LogicExpression.LogicParser.And` | src/Calc/CalcLogicExpression.cc:57-61 | as Or, for AND |
| `LogicExpression.LogicParser.Unary` | src/Calc/CalcLogicExpression.cc:62-85 | operands and nesting agree with the descent; the depth is restored |
| `LogicExpression.LogicParser.LookUp` | src/Calc/CalcLogicExpression.cc:75-80 | the bijective base-26 number of a word, or nothing above the number of inputs |
| `LogicExpression.EvaluateLogicExpression` | src/Calc/CalcLogicExpression.cc:97-106 | the imperative parser computes exactly the evaluation that is characterised by sentences |
| `CalcItem.ValidateItem` | src/Calc/CalcValidation.cc:116-133 | the expression branch accepts exactly well-formed operand lists whose expression is a sentence over that many inputs |
| `CalcItem.AcceptedNeverFails` | src/Calc/CalcGroupManager.cc:581-597 | an accepted expression evaluates on any present booleans, to the value of its only reading |
| `CalcItem.EvaluateItem` | src/Calc/CalcGroupManager.cc:387-422 | an accepted item is published exactly when every operand is a present boolean; it is rejected if an operand cannot be used or is no boolean, and waits, listing exactly the missing ones in order, if nothing else is wrong |
| `CalcItem.InputsAre` | src/Calc/CalcGroupManager.cc:300-320 | an input of the expression is the constant of its operand, or what was received for it last |
| `RouteSnapshot.SanitizeRouteSnapshot` | script/network/networkd_policy.py:109-153 | rejects exactly the malformed snapshots and otherwise clears exactly the status bits of flag bytes, in place and within bounds, for either byte order |
| `RouteSnapshot.SanitizeIdempotent` | script/network/networkd_policy.py:109-153 | a sanitized snapshot is accepted and unchanged by sanitizing again |
| `RouteSnapshot.SanitizedChanges` | script/network/networkd_policy.py:125-150 | a byte changes only if it is the low-order byte of the flag word of a message or at offset 2 of a next hop in a multipath attribute, and then it loses bits 0x01 and 0x10 and nothing else |
| `RouteSnapshot.MessageFlagWhere` | script/network/networkd_policy.py:116-152 | the flag bytes are exactly those places |
| `RouteSnapshot.FlagWordsCleared` | script/network/networkd_policy.py:149-150 | in the 32-bit flag word of every message, read in the byte order of the host, bits 0x01 and 0x10 are cleared and every other bit is kept |
| `RouteSnapshot.SampleSanitized` | script/network/networkd_policy.py:88-152 | a snapshot of one message with a multipath attribute, octet by octet, is accepted and loses the status bits of its message and of its next hop |
| `RouteSnapshot.ClearStatus` | script/network/networkd_policy.py:135-150 | bits 0x01 and 0x10 are cleared and all other bits kept |
| `RouteSnapshot.EditHops` | script/network/networkd_policy.py:125-137 | the next-hop loop edits exactly the flag byte of each hop |
| `RouteSnapshot.EditAttributes` | script/network/networkd_policy.py:116-138 | the attribute loop edits exactly the flags of multipath attributes |
| `RouteSnapshot.EditMessage` | script/network/networkd_policy.py:140-152 | one message: header checks, its flag word, its attributes |
| `RouteSnapshot.MessagesFrame` | script/network/networkd_policy.py:116-152 | editing flag bytes changes neither the structure that is parsed later nor which bytes are flags |
| `Base64.RoundTrip` | src/DLT645/DLT645LinkManager.cc:93-141 | decoding what was encoded gives back every byte string (section 4 of RFC 4648) |
| `Base64.GroupsOfThree` | src/DLT645/DLT645LinkManager.cc:98-108 | which six bits make which character, with zero bits for missing octets and = for characters without any |
| `Base64.Alphabet` | src/DLT645/DLT645LinkManager.cc:94-95 | the alphabet of RFC 4648, character by character |
| `Base64.DecodesKept` | src/DLT645/DLT645LinkManager.cc:122-133 | decoding ignores every character outside the alphabet, and everything from the first = on |
| `Base64.Base64Encode` | src/DLT645/DLT645LinkManager.cc:93-110 | the loop over triples computes the encoding |
| `Base64.Base64Decode` | src/DLT645/DLT645LinkManager.cc:112-141 | the loop with its 32-bit buffer computes the decoding, skipping foreign characters |
| `Dlt645Frame.Checksum` | src/DLT645/DLT645LinkManager.cc:3538-3544 | the octet sum modulo 256, through the 32-bit accumulator |
| `Dlt645Frame.BuildFrame` | src/DLT645/DLT645LinkManager.cc:3523-3536 | the frame of address, control and data (section 5.2 of DL/T 645-2007) |
| `Dlt645Frame.AddressRequest` | src/DLT645/DLT645LinkManager.cc:3523-3536 | the request for the address of a meter, octet by octet |
| `Dlt645Frame.DecodeFrame` | src/DLT645/DLT645LinkManager.cc:3475-3521 | accepts exactly what parses as a frame |
| `Dlt645Frame.BuiltParses` | src/DLT645/DLT645LinkManager.cc:3475-3536 | a built frame decodes to its parts exactly when the address has 6 octets and the data at most 255 |
| `Dlt645Frame.ParsedBuilds` | src/DLT645/DLT645LinkManager.cc:3475-3536 | whatever decodes is rebuilt octet by octet |
| `Dlt645Frame.ExtractFrame` | src/DLT645/DLT645LinkManager.cc:3734-3764 | returns a frame exactly when some slice is one, and then the leftmost |
| `Dlt645Frame.LeftmostUnique` | src/DLT645/DLT645LinkManager.cc:3738-3760 | a byte string has at most one leftmost frame |
| `Dlt645Frame.ParseResponsePayload` | src/DLT645/DLT645LinkManager.cc:3724-3765 | the payload yields the leftmost frame of its decoded octets |
| `Dlt645Frame.EncodedResponse` | src/DLT645/DLT645LinkManager.cc:3724-3765 | for every byte string, parsing its base64 text finds exactly what extraction finds in the string |
| `Dlt645Frame.EmbeddedFrameIsLeftmost` | src/DLT645/DLT645LinkManager.cc:3738-3760 | a built frame inside a stream is the first, and returned, exactly when no other starts before it |
| `Dlt645Frame.EmbeddedInQuietStream` | src/DLT645/DLT645LinkManager.cc:3738-3760 | in particular when no octet in front of it is a start octet |
| `Dlt645Frame.OffsetsUndoEachOther` | src/DLT645/DLT645LinkManager.cc:3546-3562 | adding and subtracting 0x33 in eight bits undo each other |
| `Dlt645Frame.AddOffset33` | src/DLT645/DLT645LinkManager.cc:3546-3553 | 0x33 is added to every data octet in place, in eight bits |
| `Dlt645Frame.SubOffset33` | src/DLT645/DLT645LinkManager.cc:3555-3562 | 0x33 is subtracted from every data octet in place, in eight bits |
| `Bcd.EncodeSigned` | src/DLT645/DLT645LinkManager.cc:3426-3467 | n octets encode an integer exactly when its magnitude is below 8 times 10^(2n-1); the result means that integer and is not all FF |
| `Bcd.DecodeSigned` | src/DLT645/DLT645LinkManager.cc:2980-3094 | a value exactly when the octets hold digits that the decimal type takes, and then the number they mean; refused if it does not take them; "not connected" exactly for all FF |
| `Bcd.DecodeUndoesEncode` | src/DLT645/DLT645LinkManager.cc:3065-3094 | decoding what was encoded gives the number back exactly when the decimal type takes its digits |
| `Bcd.Examples` | src/DLT645/DLT645LinkManager.cc:3426-3467 | 1234 is 34 12 and -1234 is 34 92: low octet first, the top bit set for negative numbers |
| `Bcd.MeansUnique` | src/DLT645/DLT645LinkManager.cc:3065-3094 | octets mean at most one number |
| `Bcd.EncodingUnique` | src/DLT645/DLT645LinkManager.cc:3426-3467 | a non-zero number has at most one encoding of a given length |
| `Bcd.MeansInRange` | src/DLT645/DLT645LinkManager.cc:3451-3456 | no octets mean a number outside the encodable range |
| `Bcd.EncodeBcd` | src/DLT645/DLT645LinkManager.cc:3260-3273 | digits packed two by two, a zero in front of an odd number of them |
| `PointTable.UpsertKeepsInv` | src/DLT645/DLT645PointTable.cc:72-110 | every upsert, successful or not, keeps: indexes consistent, points of one identifier text different bits of equal length, blocks sound, a tag in at most one block and in agreement with its point |
| `PointRules.RefusedIff` | src/DLT645/DLT645PointTable.cc:423-499 | a valid point is refused exactly if its tag has another data identifier, another point of its identifier is no bit, lies at the same place or is of another length, or a block item of its tag is defined otherwise |
| `PointRules.BlockRefusedIff` | src/DLT645/DLT645PointTable.cc:507-569 | a valid block is refused exactly if its identifier is taken, two of its items have one tag, or one is in a block already or is defined otherwise as a point |
| `PointRules.PointsLieApart` | src/DLT645/DLT645PointTable.cc:433-456 | in every table two points of one data identifier are bits at different places of values of one length |
| `PointRules.UpsertLeaves` | src/DLT645/DLT645PointTable.cc:70-107 | a successful upsert leaves for every tag its last request, field by field, and the new blocks, item by item, after those there; an invalid request changes nothing but a table that is to be replaced |
| `DataIdentifiers.ParseDi` | src/DLT645/DLT645PointTable.cc:400-416 | accepts exactly eight hexadecimal digits and gives their four octets, low octet first |
| `DataIdentifiers.LowOctetFirst` | src/DLT645/DLT645PointTable.cc:399-421 | one identifier with digits and letters of both cases, octet by octet |
| `DataIdentifiers.SameOctetsIff` | src/DLT645/DLT645PointTable.cc:400-416 | two identifier texts stand for the same octets exactly if they differ in upper and lower case only |
| `DataIdentifiers.OctetsApartIff` | src/DLT645/DLT645PointTable.cc:418-455 | points of one identifier on the wire are different bits of equal length exactly if those that spell it differently are |
| `DataIdentifiers.InsertKeepsOctetsApart` | src/DLT645/DLT645PointTable.cc:418-455 | inserting a point keeps that exactly if the points already there that spell its identifier differently are compatible with it |
| `DataIdentifiers.TwoSpellingsAreAccepted` | src/DLT645/DLT645PointTable.cc:418-455 | two points of one identifier that are no bits, spelled differently, are accepted |
| `PointTable.ExportImport` | src/DLT645/DLT645PointTable.cc:157-228 | exporting and importing with replace succeeds for any order of points and over any table, and rebuilds the table up to the order within a data identifier |
| `PointTable.TilesIffNoWrap` | src/DLT645/DLT645PointTable.cc:375-385 | the items tile their block exactly, exactly when their lengths add up to less than 2^32 |
| `PointTable.WrappingBlockIsValid` | src/DLT645/DLT645PointTable.cc:375-385 | a block of 5 bytes whose items add up to 2^32 + 5 is accepted |
| `PointTable.TiledOnce` | src/DLT645/DLT645PointTable.cc:528-575 | in a tiled block every byte belongs to exactly one item |
| `PointTable.InsertPointKeepsInv` | src/DLT645/DLT645PointTable.cc:418-506 | inserting a point that passes the checks keeps the invariant |
| `PointTable.InsertBlockKeepsInv` | src/DLT645/DLT645PointTable.cc:508-602 | inserting a block that passes the checks keeps the invariant |
| `PointTable.IndexesFollow` | src/DLT645/DLT645PointTable.cc:490-494 | points and blocks determine every other index |
| `PointTable.PointTable.InsertOrUpdatePoint` | src/DLT645/DLT645PointTable.cc:418-506 | succeeds exactly when the point fits, and then stores and indexes it; otherwise nothing changes |
| `PointTable.PointTable.FitsWith` | src/DLT645/DLT645PointTable.cc:431-455 | true exactly when the point is a different bit of the same length as every other point of its data identifier |
| `PointTable.PointTable.InsertOrUpdateBlock` | src/DLT645/DLT645PointTable.cc:508-602 | succeeds exactly when the block and all its items fit; otherwise nothing changes |
| `PointTable.PointTable.BuildItems` | src/DLT645/DLT645PointTable.cc:525-575 | lays the items out from offset 0 in 32 bits, exactly when all fit |
| `PointTable.PointTable.Upsert` | src/DLT645/DLT645PointTable.cc:72-110 | validates everything first, then inserts one by one; the partial table of a failed upsert still has the invariant |
| `PointTable.PointTable.ToProto` | src/DLT645/DLT645PointTable.cc:157-228 | lists every point once and the blocks in order |
| `RequestPath.SplitMadeIff` | src/ControlOrchestrator/ControlOrchestratorManager.cc:38-77 | splitting a made id gives back base and path, for every base, exactly when no name contains the marker |
| `RequestPath.SplitIsMarkerFree` | src/ControlOrchestrator/ControlOrchestratorManager.cc:38-68 | the names that come out of an id never contain the marker |
| `RequestPath.ChainsAreShortAndDistinct` | src/ControlOrchestrator/ControlOrchestratorManager.cc:281-296 | every chain of nested sequences with marker-free names has pairwise distinct names and at most 32 levels |
| `RequestPath.RecursionDetectedIff` | src/ControlOrchestrator/ControlOrchestratorManager.cc:289-296 | a sequence that calls itself is detected exactly when its name does not contain the marker |
| `RequestPath.MarkerNameRecursesIff` | src/ControlOrchestrator/ControlOrchestratorManager.cc:281-296 | the guard admits a sequence whose name contains the marker inside itself at every depth exactly if the path its own name spells is shorter than the limit; otherwise it admits nothing that sequence calls |
| `SequenceCalls.RunInv` | src/ControlOrchestrator/ControlOrchestratorManager.cc:298-326 | at every moment of every run of calls, the calls that hold an execution lock are of different sequences |
| `SequenceCalls.HoldsUntilItEnds` | src/ControlOrchestrator/ControlOrchestratorManager.cc:308-326 | a call holds the lock of its sequence from its start until it ends |
| `SequenceCalls.WaitingCallsDiffer` | src/ControlOrchestrator/ControlOrchestratorManager.cc:281-326 | calls that wait for each other are of different sequences, whatever their names; and at most 32 if no name contains the marker |
| `SequenceCalls.SelfCallWaits` | src/ControlOrchestrator/ControlOrchestratorManager.cc:289-326 | a sequence with such a name that is called from itself passes the guard but does not run while its caller does |
| `SequenceCalls.MarkerNamesNest` | src/ControlOrchestrator/ControlOrchestratorManager.cc:281-326 | whatever different names with the marker there are, each short of the limit, some run has a call of each waiting for the next |
| `SequenceCalls.AnyDepthIsReached` | src/ControlOrchestrator/ControlOrchestratorManager.cc:281-326 | so for every n some run has n calls that wait for each other |
| `RequestPath.MarkerNameRecursesForever` | src/ControlOrchestrator/ControlOrchestratorManager.cc:281-296 | the bare marker is such a name: the guard admits it under its own id |
| `RequestPath.MakeRequestId` | src/ControlOrchestrator/ControlOrchestratorManager.cc:70-77 | the appending loop builds base, marker and length-prefixed names |
| `RequestPath.SplitRequestId` | src/ControlOrchestrator/ControlOrchestratorManager.cc:38-68 | the cursor loop takes the id apart at its last marker |
| `ControlSequence.ValidateWorkflowConfig` | src/ControlOrchestrator/ControlOrchestratorStore.cc:20-88 | true exactly for 1 to 8 valid steps with distinct names, none using the trigger point, at most 100 retries |
| `ControlSequence.ValidIffNothingWrong` | src/ControlOrchestrator/ControlOrchestratorStore.cc:20-88 | everything that can be wrong with a configuration, and that nothing else is refused |
| `ControlSequence.SentAtMost` | src/ControlOrchestrator/ControlOrchestratorManager.cc:354-360 | no step's command is sent more than 1 + max_retries times |
| `ControlSequence.SentInOrder` | src/ControlOrchestrator/ControlOrchestratorManager.cc:342-410 | commands go out in step order, only when every earlier step was accepted and, where required, its status point was read with the expected value after the command, and after the pause between; a retry only after an accepted attempt and its wait, and while no attempt of the step was verified |
| `ControlSequence.ReadingFollowsItsCommand` | src/ControlOrchestrator/ControlOrchestratorManager.cc:436-475 | every reading belongs to its attempt: the attempt was accepted before it and no command was sent in between |
| `ControlSequence.RequestIdsDiffer` | src/ControlOrchestrator/ControlOrchestratorManager.cc:402-406 | no two commands of a call have one request id: the numbers of step and attempt can be read off it |
| `ControlSequence.CommandsAre` | src/ControlOrchestrator/ControlOrchestratorManager.cc:370-391 | what every command sent asks for, and of whom: the step's own source or the internal one of a triggered sequence, the value of the step or the trigger, at most the step's timeout |
| `ControlExecution.RunSteps` | src/ControlOrchestrator/ControlOrchestratorManager.cc:342-536 | for every environment: accepted exactly when every step was completed, that is accepted and, where required, read back with the expected value; otherwise the failed step f is reported, with f or f-1 executed steps according to whether its command was accepted, and one of the four reasons it may have |
| `ControlExecution.RunStep` | src/ControlOrchestrator/ControlOrchestratorManager.cc:353-500 | one step: executed exactly when a command was accepted, passed only if completed, and failed only for the deadline, a missing trigger value, a refused command, or the last allowed attempt accepted and not verified |
| `ControlExecution.RetriesAreMade` | src/ControlOrchestrator/ControlOrchestratorManager.cc:357-362 | a step that fails without a deadline although every command sent for it was accepted has made all its retries, and its one attempt if it does not retry |
| `ControlExecution.Attempt` | src/ControlOrchestrator/ControlOrchestratorManager.cc:360-500 | one attempt: the command, its source, value, timeout and request id; done exactly when it was accepted and, where required, a reading after it had the expected value |
| `ControlExecution.Verify` | src/ControlOrchestrator/ControlOrchestratorManager.cc:436-475 | verified exactly when a reading made in this call gave the status point its expected value; nothing but readings of that point and one poll interval after each happens, none after the first that met it, and it gives up only when the time for it is over |
| `ControlExecution.ExecuteSequence` | src/ControlOrchestrator/ControlOrchestratorManager.cc:262-537 | nothing is sent unless the recursion guard admits the call; accepted exactly when every step was completed; which calls end with which error |
| `ControlExecution.ExecuteTriggeredCommand` | src/ControlOrchestrator/ControlOrchestratorManager.cc:539-615 | answers accepted exactly if one sequence is triggered by the source and it completed all steps; no route for none, ambiguous for several |

## Left out

- CommandLane.CommandLane.ReserveCommandTicket: requires fewer than 2^64 - 1 outstanding tickets; with more, the 64-bit numbers of two live tickets would coincide.
- UpdateTask.NextInv: tasks are steps of a state machine on values rather than an object, because several processes act between any two of its file accesses; the business container's own writes to its configuration while it runs are not modelled.
- UpdateTask.InstallerStartsSafely: a unit that stops takes its installer with it, as the service manager's control group does; units in the middle of stopping are not modelled.
- UpdateTask.RolledBackMeansRestored: the previous.json pointer and the images it names are not part of the state.
- UpdateTaskRuns.TraceSecures: that a later success removes the material of the task previous.json named before is not modelled.
- OrdinaryNetwork.Apply: the states between calls are those this program writes; a state file edited by hand is not considered, nor are JSON field names, the two spellings of the main table and of the suppress attribute, or address parsing.
- ControlExecution.ExecuteSequence: the lock of a sequence and the environment's answers are arbitrary; texts of reasons and log lines are not modelled.
- ControlExecution.Verify: that time goes on while the program sleeps is assumed of the environment.
- DataCenterCore.Core.ReplaceConnectionsConfig: is only proved to keep the invariant as part of start-up, which is where the source calls it.
- DataCenterCore.Core.DumpState: the source sorts what it lists; lists come in hash order here, and restoring does not depend on it.
- DataCenterCore.Core.ResolveCommandRoute: the numeric echo of the requested value is not modelled, only that an unreadable decimal is refused.
- DataCenterInvariant.StepTargetsLive: cached destinations may be dead after a stored command, as stated there.
- PointTable.PointTable.Upsert: which of the possible status codes a refusal carries is not modelled.
- Bcd.EncodeSigned: the fixed-point value is already rounded to an integer, and the 20-digit decimal type behind it is not part of this model.
- CalcItem.EvaluateItem: the combination of qualities and timestamps of the inputs, and operators other than the logic expression.
- RouteSnapshot.SanitizeRouteSnapshot: the commands that later write the snapshot back.
- Decimal20 arithmetic and the quality rules of DataCenterQuality.hpp are not part of this model; both appear as opaque values that parse or do not.
- gRPC channels, deadlines and watcher threads, SQLite, files, sockets, docker, systemd, `ip` and `resolvectl`: only their effects on the modelled state and their failures.
- Throughput buckets, log texts, route hashes and the reference counts of the DLT645 archive.
- BoardIO, DeviceInfo, ModbusTCP, IEC104 and the configuration pushers.

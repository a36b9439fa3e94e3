# Verified model of the object gateway's add-ons

The program sits in front of a Ceph object gateway. It moves objects in batches, sends bucket
notifications to queues and topics, keeps a registry of NFS exports that a daemon applies to each
host, hands permissions down a path, and searches object metadata. This project models the logic of
these parts in Dafny and proves what they promise, over every input, every schedule and every place
where a process may stop. `dafny verify dfyconfig.toml` checks all of it.

**Moving objects** (`Move*.dfy`). The worker pool is a step relation over the position of the
handler, the jobs channel, every goroutine, the results channel and the object store. A schedule is
any sequence of enabled steps; what S3 answers is a fault plan with one entry per call that a job can
make, so that quantifying over plans covers every behaviour of S3. No job is lost or duplicated, no
send ever waits, every schedule ends, and with pairwise distinct sources and destinations the final
store and the response are those of a sequential run. `MoveSafety` tells exactly which requests can
make an object's content vanish from the store, and which can leave it at neither place of the job
that was to move it, for one worker and for several. `MoveWorker` is the loop body as code.

**Notification rules** (`Wildcard`, `FilterPattern`, `RulesIndex`, `RulesMaps`, `RulesMapBuilder`,
`Configuration`). Filter rules become a wildcard pattern, a configuration becomes an index from event
to pattern to resources. `RulesIndex` is the index as a value, proved equal to scanning the
configuration. `RulesMaps` and `RulesMapBuilder` build it the way the program does, with slices over
shared arrays into which appends write, and are proved to compute that value.

**Queues and names** (`Arn`, `EventQueue`, `Deliveries`, `Messaging`). Producers push to message lists
and hand out tasks for the endpoints of topics, a consumer reads a batch and trims in two separate
calls. What is sent, and what is dropped and when, is told exactly.

**NFS exports** (`Export*.dfy`). `ExportList` and `ExportListParse` show that a text edited by
substring replacement and read by a regular expression is a sequence of users. `ExportRegistry` gives
a handler as the sequence of states after each of its writing calls; `ExportHandlers` is the code that
produces it, `ExportRuns` says what every serial run keeps. `ExportUpdater` is the daemon, and
`ExportSystem` runs handlers and daemon passes together, and `ExportPolls` adds the times by which a
poll decides whether it passes.

**Permissions** (`Permissions`). The recursive walk that lets new nodes inherit.

**Metadata queries** (`Query*.dfy`, `MetadataSearch`). The query text is cut by a leftmost-first
regular expression, read as a condition on documents, and compiled to a filter tree whose bounds are
texts. The tree has an evaluator, and selects what the condition says for exactly the queries named
by `Exact`; `QueryMeaning` writes out what that is, field by field.

## Assumptions

- An S3 call is atomic and a failing call has no effect; keys are opaque; a copy source is read as
  bucket and key split at the first slash; deleting a missing object succeeds; copying an object onto
  itself is refused, because the request does not replace its metadata.
- Handlers of the export registry run one after another. A call that writes to RADOS is atomic, and
  the process may stop between any two.
- A user is created only when not exported yet, and comes with at least one key.
- Reloading makes the NFS server enable every listed export and disable none.
- Receives from one queue do not overlap; pushes may fall anywhere.
- A panic ends the call it happens in.
- The region in a resource name holds no colon.
- Elasticsearch compares instants and numbers as such; its wildcard query knows `*` and `?`, as the
  vendored client documents, and the backslash of Lucene, which makes the next character stand for
  itself and is an ordinary character at the end of the pattern.
- The vendored matcher is documented to know only `*`, but its code also lets `?` stand for one
  character, and panics when it meets one at the end of the name; the model follows the code.
- Behaviour of vendored code is taken from it: event expansion
  (`vendor/github.com/minio/minio/pkg/event/name.go`), the wildcard matcher
  (`vendor/github.com/minio/minio/pkg/wildcard/match.go`), when a node counts as initialised
  (`vendor/github.com/ceph/go-ceph/rgw/rgw.go`), attribute buffers and empty values
  (`vendor/github.com/ceph/go-ceph/rados/ioctx.go`).

## What the proofs found

- A move whose rollback succeeds is reported as failed with neither code nor message, and deletes an
  object that was at the destination before (`MoveOutcome.EndOfMove`).
- A request in which one job's destination is the source or destination of another can destroy an
  object (`MoveSafety.KeptExactlyWhenNoClash`). One source with two destinations cannot, but the job
  that comes second finds its object at neither of its places (`MoveSafety.SafeExactlyWhenNoConflict`).
- A filter with a question mark makes the matcher panic on names that run out before it, the suffix
  `?x` for one on every name that does not match. One such filter keeps every resource of the bucket
  from getting the event (`FilterPattern.MarkedSuffixNeverSaysNo`, `RulesIndex.IndexPanics`,
  `Messaging.Broker.SendEvent`).
- A push between the two calls of a receive is dropped exactly when the receive had found fewer
  messages than it asked for (`EventQueue.NothingLostExactlyWhen`).
- An update of a user without an export, and a creation when all ids are held, store the id -1
  (`ExportRuns.IdsExactly`).
- The daemon disables by id. An export that got the id of a former one before the next pass is
  disabled with it, and so is one that was renamed (`ExportSystem.ReuseExample`,
  `ExportSystem.RenameExample`).
- A change of the list that gets no later time than the local copy is not seen, and exports that were
  to be disabled while the bus was down stay enabled until the list changes again
  (`ExportPolls.ChangeMetExactlyWhen`, `ExportPolls.BusDownMetExactlyWhen`).
- In a query value with a star, the search engine takes `?` for a wildcard and a backslash for an
  escape, although both stand for themselves without a star; a duration such as `5|` is accepted, and
  the search engine cannot read the filter (`QueryFilter.FaithfulExactlyWhen`).
- The expression cuts `size<=` into `size`, `<` and `=`, and the field of a custom query reaches up to
  the last operator of its first word (`QuerySyntax.RoundTripExactlyWhen`).

## Model

| member | source | states |
|---|---|---|
| `MoveProtocol.StepConserves` | pkg/controllers/objects.go:115-187 | each step of the handler or of a goroutine keeps every job in exactly one place: unsent, in the jobs channel, in a worker's hands, in the results channel or collected |
| `MoveProtocol.RunsConserve` | pkg/controllers/objects.go:112-187 | over every run no job is lost, duplicated or invented |
| `MoveProtocol.SourceMeaning` | pkg/controllers/objects.go:140-142 | the source is the bucket and key whose text with a slash between is the copy source, the bucket ending at the first slash |
| `MoveProgress.SendsNeverBlock` | pkg/controllers/objects.go:115-116 | with both channels as large as the request, no send to either ever waits |
| `MoveProgress.StuckExactlyWhenFinal` | pkg/controllers/objects.go:118-172 | a reachable state has no enabled step if and only if all results are collected and all goroutines have left their loops |
| `MoveProgress.RunsAreBounded` | pkg/controllers/objects.go:118-172 | a measure falls on every step, so a run is no longer than what the measure has fallen by |
| `MoveProgress.EveryRunEnds` | pkg/controllers/objects.go:118-172 | no schedule is longer than seven steps per object, one per goroutine and one more, for the empty request too |
| `MoveProgress.CanFinish` | pkg/controllers/objects.go:118-172 | from every reachable state some schedule completes the response |
| `MoveOutcome.StepKeepsData` | pkg/controllers/objects.go:120-157 | with distinct sources and destinations each step keeps: unfinished jobs see their own locations as they were or as their own copy left them, finished ones as if they had run alone, all other locations as they were |
| `MoveOutcome.JobProgress` | pkg/controllers/objects.go:133-156 | in every reachable state a job's two locations are untouched, copied, or as after the whole job |
| `MoveOutcome.MovesAreSafe` | pkg/controllers/objects.go:133-156 | in every reachable state each job's original content is at its source or at its destination |
| `MoveOutcome.RunsEqualSequential` | pkg/controllers/objects.go:118-187 | every finished run leaves the store of the sequential run in request order and reports the same multiset of results |
| `MoveOutcome.EndOfMove` | pkg/controllers/objects.go:133-156 | at the end: success means only at the destination, a failed copy, which includes one of an object onto itself, or a rolled-back delete still at the source, a failed rollback at both; and the response says so |
| `MoveResponse.CollectResults` | pkg/controllers/objects.go:167-187 | for every four texts, there are as many error entries with them as failed results with exactly this source, destination, code and message, and as many moved entries as successes with these names |
| `MoveResponse.ResponseTells` | pkg/controllers/objects.go:112-189 | at the end of every run each job is under Moved or under Error as S3 answered: with the copy's own code and message, as an invalid request for a move onto itself, as NoSuchKey for a missing source, with the rollback's code and message, or with neither after a rollback |
| `MoveResponse.ResponseCoversRequest` | pkg/controllers/objects.go:112-189 | for every schedule and every behaviour of S3 the response lists each requested item exactly once |
| `MoveResponse.ScheduleIndependence` | pkg/controllers/objects.go:118-187 | final store, Moved and Error as multisets depend on the calls' outcomes only, not on interleaving or number of workers |
| `MoveSafety.SequentialIsARun` | pkg/controllers/objects.go:118-165 | running the jobs in request order is one of the schedules |
| `MoveKeeps.StepKeeps` | pkg/controllers/objects.go:120-157 | without clashes each step keeps: a requested source is as it was, or deleted with its content at the destination of a job, which no other job touches |
| `MoveKeeps.NothingVanishes` | pkg/controllers/objects.go:133-156 | without clashes no reachable state has lost the content of a requested source, for any number of workers |
| `MoveKeeps.OwnPlacesKept` | pkg/controllers/objects.go:133-156 | without conflicts each content is at its own job's source or destination in every reachable state |
| `MoveSafety.ChainDestroys` | pkg/controllers/objects.go:133-144 | a job whose destination is the source of another can overwrite what the other is to move |
| `MoveSafety.OverwriteDestroys` | pkg/controllers/objects.go:133-144 | of two sources moved to one destination the first can be overwritten |
| `MoveSafety.DuplicateDestroys` | pkg/controllers/objects.go:133-153 | the same move requested twice can delete source and destination when two workers interleave |
| `MoveSafety.KeptExactlyWhenNoClash` | pkg/controllers/objects.go:118-187 | for any request and number of workers: the content of every requested source stays in the store, over all stores, outcomes and schedules, if and only if no job's destination is touched by another job, one worker being allowed to repeat a move |
| `MoveSafety.SplitMisplaces` | pkg/controllers/objects.go:133-144 | one source moved to two destinations: the content is at one of them, and the other job finds it at neither of its places |
| `MoveSafety.SafeExactlyWhenNoConflict` | pkg/controllers/objects.go:118-187 | for any request and number of workers: each content is at its own job's source or destination in every reachable state if and only if no two jobs share a place, refused moves of an object onto itself apart, one worker being allowed to repeat a move |
| `MoveWorker.ObjectStore.MoveOne` | pkg/controllers/objects.go:120-157 | the loop body, run alone, has the effect and the result of the job that the protocol takes step by step |
| `MoveWorker.ObjectStore.WorkOff` | pkg/controllers/objects.go:118-159 | a single goroutine computes the sequential store and results |
| `Wildcard.MatchSimpleMeaning` | vendor/github.com/minio/minio/pkg/wildcard/match.go:22-83 | the recursive search says yes exactly when stars can be filled by strings and question marks by single characters, and panics exactly when they cannot but a part of the pattern before a question mark matches the whole name |
| `Wildcard.SearchVerdict` | vendor/github.com/minio/minio/pkg/wildcard/match.go:64-83 | trying stars shortest first, the search never panics before it reaches a match |
| `Wildcard.PanicsOnSomeObjectExactlyWhen` | vendor/github.com/minio/minio/pkg/wildcard/match.go:64-83 | a pattern makes the search panic on the name of some object if and only if it has a question mark behind its first character and something else that is no star |
| `Wildcard.NoMarkNoPanic` | vendor/github.com/minio/minio/pkg/wildcard/match.go:64-83 | without a question mark it never panics |
| `Wildcard.CollapseKeepsMeaning` | pkg/models/configuration.go:121 | one left-to-right replacement of `**` by `*` changes no answer of the matcher on any name, for any run of stars |
| `FilterPattern.NewPattern` | pkg/models/configuration.go:104-124 | the matcher's answer to the pattern: yes for exactly the names that start with the prefix and, without overlap, end with the suffix, a panic for exactly the others on which the pattern is cut short before a question mark |
| `FilterPattern.Pattern` | pkg/models/configuration.go:87-102 | for every object name, the answer to the pattern is that of the value of the prefix rule with no other behind it and of the suffix rule with no other behind it, empty without such a rule |
| `FilterPattern.LastInForce` | pkg/models/configuration.go:87-102 | a rule list sets exactly one value under each name |
| `FilterPattern.PatternMeaning` | pkg/models/configuration.go:104-124 | the same for the pattern as a value, for every prefix and suffix |
| `FilterPattern.FilterMeaning` | pkg/models/configuration.go:87-124 | with the values in force free of wildcards: the filter says yes exactly to names that start with the prefix, end with the suffix, and are long enough for both; no values match everything; never a panic |
| `FilterPattern.MarkedSuffixNeverSaysNo` | pkg/models/configuration.go:104-124 | a suffix that starts with a question mark makes the matcher panic on every name it does not match |
| `FilterPattern.PanicExample` | pkg/models/configuration.go:104-124 | the suffix `?x` makes the matcher panic on the name `ab` |
| `RulesIndex.UnionFound` | pkg/models/configuration.go:257-268 | a union finds what its two parts find, with multiplicity |
| `RulesIndex.PaddingIsHarmless` | pkg/models/configuration.go:136 | the zero names in front of the listed ones cover no event that is set |
| `RulesIndex.SubscriptionFound` | pkg/models/configuration.go:133-143 | a queue's or topic's rules find its resource once per listed event whose expansion has the event, for names that pass its filter |
| `RulesIndex.SumFound` | pkg/models/configuration.go:215-226 | adding rules maps one after the other finds what each of them finds |
| `RulesIndex.IndexIsScan` | pkg/models/configuration.go:215-300 | for every configuration, set event, object name and resource, the patterns of the index that say yes list it as often as the scan of all queues and topics, as a multiset |
| `RulesIndex.ScanCounted` | pkg/models/configuration.go:215-300 | the scan lists a resource once per pair of a queue or topic and one of its listed events that covers the event, if its filter says yes |
| `RulesIndex.ExpandCovers` | vendor/github.com/minio/minio/pkg/event/name.go:43-83 | each name with a star covers exactly the single events whose texts start with its own up to the star, any other name itself |
| `RulesIndex.IndexPanics` | pkg/models/configuration.go:215-300 | some pattern of the index panics exactly when the filter of some queue or topic that lists the event does |
| `RulesMaps.Append` | pkg/models/configuration.go:262 | appending writes into spare room or into a new array, and keeps the elements there were |
| `RulesMaps.Clone` | pkg/models/configuration.go:246-254 | the copy holds the same slices, arrays shared |
| `RulesMaps.Union` | pkg/models/configuration.go:257-268 | the heap result is the value-level union, receiver and argument keep their contents, and the result shares arrays with the receiver only |
| `RulesMapBuilder.Subscribe` | pkg/models/configuration.go:278 | one assignment of add keeps every array with one event and pattern entry |
| `RulesMapBuilder.RulesMap.AddNames` | pkg/models/configuration.go:272-281 | add computes the value-level index over the expansions of the listed names |
| `RulesMapBuilder.RulesMap.Add` | pkg/models/configuration.go:284-288 | Add computes the value-level sum and leaves the added map as it was |
| `Configuration.NewRulesMap` | pkg/models/configuration.go:291-300 | an empty pattern becomes a single star; the map is the index of the names |
| `Configuration.SubscriptionRules` | pkg/models/configuration.go:133-143 | a queue's rules map, padded names included, is the value-level index |
| `Configuration.ConfigRules` | pkg/models/configuration.go:215-226 | the rules map of a configuration is the value-level index, queues before topics |
| `Configuration.Match` | pkg/models/configuration.go:231-243 | whatever order the patterns come in: a panic exactly when one of them panics, and otherwise the matches of the rules as a multiset |
| `Configuration.Lookup` | pkg/controllers/notification.go:264-272 | what a producer looks up for a set event and an object: a panic exactly when the filter of a queue or topic listing a covering event panics on the name, and otherwise each resource as often as there are pairs of its queue or topic, with a filter that says yes, and a listed event covering the event |
| `Arn.RoundTrip` | pkg/models/resource.go:73-107 | parsing a printed name gives service, account and name back if and only if the service is known and account and name are non-empty and colon-free; the printed text is written out |
| `Arn.ParsedPrintsBack` | pkg/models/resource.go:88-107 | whatever parses to a known service is the printed form of the result, possibly with one more part |
| `Arn.SubscriptionRoundTrip` | pkg/models/endpoint.go:32-46 | with a colon-free id appended, both parsers read their part; with any other id both fail |
| `Arn.KeysAgree` | pkg/controllers/queue.go:237 | a producer and a consumer use the same list if and only if it is a queue and account and name are the same |
| `EventQueue.Conservation` | pkg/controllers/queue.go:238-239 | over every run of pushes and receives, delivered then remaining is what there was then the kept pushes, in order |
| `EventQueue.NothingLostExactlyWhen` | pkg/controllers/queue.go:238-239 | everything pushed is delivered or waiting, in order, if and only if no push fell between the calls of a receive that found too few messages |
| `EventQueue.ReceiveWindow` | pkg/controllers/queue.go:238-239 | a receive that got k of m messages drops exactly the first m-k of the pushes between its calls |
| `Messaging.Broker.Deliver` | pkg/controllers/notification.go:272-323 | every list gets the messages sent to it, in order; every task is added once per matched topic and endpoint with its address and the payload of the match, and the tasks of a match stand together in the order of its endpoints |
| `Messaging.Broker.SendEvent` | elastic-notify/main.go:106-172 | unless a filter panics, the event goes once to every match, and each resource is matched once per covering event that a queue or topic with an agreeing filter lists: its list or the tasks of its endpoints grow as counted there; when a filter panics, nobody gets anything |
| `Deliveries.OwnMessagesOnly` | pkg/controllers/notification.go:312-314 | a consumer's list gets the payloads of exactly the matches of its own queue, in the order of the matches |
| `Deliveries.DelegatedCounted` | pkg/controllers/notification.go:315-323 | the tasks of a run of matches count the pairs of a matched topic and one of its endpoints |
| `Deliveries.DelegatedInOrder` | pkg/controllers/notification.go:315-323 | the tasks of a matched topic stand together, in the order of its endpoints |
| `Messaging.Broker.ReceiveMessage` | pkg/controllers/queue.go:213-262 | with any pushes between its two calls: the first messages of the list are answered and taken off, as many as asked, and of the pushes the first ones are lost in place of messages that were missing; a missing queue is answered with nothing first; no other list changes |
| `Messaging.Broker.TakeBatch` | pkg/controllers/queue.go:238-239 | the two calls: what is read, what stays of the list, and which pushes between them are lost |
| `Messaging.ReceivedIs` | pkg/controllers/queue.go:238-239 | that is the run of one receive of the protocol, for every list, size and pushes |
| `Messaging.BatchSizeMeaning` | pkg/controllers/queue.go:228-234 | a number from 1 to 10 asks for so many messages, a larger one for ten, a smaller one or no number for one |
| `ExportList.LinesAlign` | pkg/controllers/ganesha.go:132-134 | inside a list of lines, a line occurs only as a whole line |
| `ExportList.AddRefines` | pkg/controllers/ganesha.go:136-143 | appending a line adds the user at the end of the listed users |
| `ExportList.RemoveRefines` | pkg/controllers/ganesha.go:153-171 | replacing the first occurrence removes exactly the user's first entry, an absent user changes no entry, and the text is never empty |
| `ExportList.RunsRefine` | pkg/controllers/ganesha.go:136-171 | over every run of additions and removals the text shows the sequence of exported users |
| `ExportListParse.ExportedUsers` | nfs/remove_subuser_workaround.go:56-62 | the loop returns the groups of the leftmost non-overlapping matches |
| `ExportListParse.MatchHereMeaning` | nfs/remove_subuser_workaround.go:58 | the matcher finds the group the expression allows, and there is only one |
| `ExportListParse.ParseFindsIds` | nfs/remove_subuser_workaround.go:56-62 | on any list text of the pool the matches are exactly the listed users of the character class, in order |
| `ExportListParse.ReadBack` | pkg/controllers/ganesha.go:136-171 | after any run of edits with users of the class, reading the text gives the sequence of users back |
| `ExportHandlers.Rados.GenerateExportId` | pkg/controllers/ganesha.go:173-199 | returns an id from 1 to 65535 that is the id attribute of no export object, or -1 exactly when each of them is one |
| `ExportHandlers.Rados.AddNfsExport` | pkg/controllers/ganesha.go:65-87 | goes through the states of a creation, call by call, and ends in the last of them |
| `ExportHandlers.Rados.UpdateNfsExport` | pkg/controllers/ganesha.go:231-253 | goes through the states of an update, call by call, and ends in the last of them |
| `ExportHandlers.Rados.RemoveNfsExport` | pkg/controllers/ganesha.go:113-126 | goes through the states of a removal, call by call, and ends in the last of them, in which the user's object and no other is gone |
| `ExportRegistry.CreateFinishes` | pkg/controllers/ganesha.go:65-87 | the whole pool after a creation: the user's own data under the new id as content, both attributes, and the text of the line at the end of the list; without a display name the content only |
| `ExportRegistry.UpdateFinishes` | pkg/controllers/ganesha.go:231-253 | the whole pool after an update: the user, access key and secret key of the first key under the id that the attribute holds, -1 if it holds none, both attributes, and the list as it was |
| `ExportRegistry.StoredIdIsUsed` | pkg/controllers/ganesha.go:201-209 | a stored id in range is seen as used and read back as the number it is |
| `ExportRegistry.StoreId` | pkg/controllers/ganesha.go:225-228 | storing a free or unchanged id keeps ids in range and distinct, storing -1 does not |
| `ExportRegistry.CompleteIdLoads` | pkg/controllers/ganesha.go:201-209 | an update reads the id that the content of the export has |
| `ExportRegistry.ListedIdsDiffer` | pkg/controllers/ganesha.go:211-253 | with good ids, the contents of the listed exports have pairwise different ids in range |
| `ExportRuns.HandlerKeepsListed` | pkg/controllers/ganesha.go:65-126 | after any number of a handler's calls, each listed export has its complete object, with the same id in content and attribute |
| `ExportRuns.StopAnywhere` | pkg/controllers/ganesha.go:65-126 | over every serial run with stops anywhere, the list shows the exported users, and each has its complete object, with the same id in content and attribute |
| `ExportRuns.IdsExactly` | pkg/controllers/ganesha.go:173-253 | all stored ids stay in range and distinct through a handler if and only if it is no creation while exports hold all 65535 ids and no update of a user without export |
| `ExportRuns.IdsStayGood` | pkg/controllers/ganesha.go:173-253 | the same over every serial run, with stops anywhere, for the id attributes |
| `ExportRuns.ServedIdsDiffer` | pkg/controllers/ganesha.go:173-253 | and for the ids in the contents of the listed exports, which the NFS server reads |
| `ExportRuns.UpdateKeepsIds` | pkg/controllers/ganesha.go:231-253 | an update keeps every id and writes the export's own id into its content |
| `ExportRuns.ExhaustedExactly` | pkg/controllers/ganesha.go:173-199 | with distinct ids in range, -1 is returned if and only if 65535 exports hold one |
| `ExportUpdater.Host.GetExport` | nfs/nfs_updater_daemon.go:115-136 | the fifty-byte read loop ends and returns the whole object |
| `ExportUpdater.Host.LoadConfiguredPaths` | nfs/nfs_updater_daemon.go:86-108 | the paths are those of a slash and the display name attribute of an export object, of a hundred bytes at most |
| `ExportUpdater.Host.DisableUnconfigured` | nfs/nfs_updater_daemon.go:229-234 | whatever the order, what is left has no id of an enabled export with an unconfigured path |
| `ExportUpdater.Host.Execute` | nfs/nfs_updater_daemon.go:171-235 | without server, without list object or with a local copy that is there and no older, nothing changes; otherwise the list is copied with its time, what the server reads from the copy is enabled and, if the bus is up, exactly the exports stay whose id no enabled unconfigured export has; when the server reads what the registry lists, the host is reconciled exactly under the condition on ids |
| `ExportUpdater.ConfiguredIsListed` | nfs/nfs_updater_daemon.go:86-108 | in a quiescent registry the configured paths are those of the listed exports |
| `ExportUpdater.FreshIdsReconcile` | nfs/nfs_updater_daemon.go:203-234 | while no enabled export that is no longer configured has the id of a listed one, a pass leaves exactly the configured paths enabled below the root |
| `ExportUpdater.ReconcilesExactlyWhen` | nfs/nfs_updater_daemon.go:203-234 | with no configured path enabled twice: if and only if |
| `ExportSystem.ReuseExample` | nfs/nfs_updater_daemon.go:138-149 | a concrete run: create, enable, remove, create under the same id, and the pass leaves the new export disabled |
| `ExportSystem.RenameExample` | nfs/nfs_updater_daemon.go:138-149 | a concrete run: create, enable, rename, and the pass leaves the new path disabled |
| `ExportSystem.StartIsCoherent` | pkg/controllers/ganesha.go:165-169 | the empty list and a host that has enabled nothing are a start for such runs |
| `ExportSystem.ActCoherent` | pkg/controllers/ganesha.go:65-126 | a handler that takes no id still enabled and renames no export, or a pass, keeps: an enabled export with the id of a listed one is that one |
| `ExportSystem.EveryPassReconciles` | nfs/nfs_updater_daemon.go:171-235 | over every run of such handlers and passes, each pass leaves exactly the configured paths enabled below the root |
| `ExportPolls.Poll` | nfs/nfs_updater_daemon.go:270-273 | one turn of the daemon's loop takes the host where the step of the polls says |
| `ExportPolls.EveryPollReconciles` | nfs/nfs_updater_daemon.go:160-235 | over every run of prudent handlers and polls in which the list is written at later times than the local copy and the bus is up: each poll that finds the server leaves exactly the configured paths enabled below the root, whether it passes or does nothing |
| `ExportPolls.DuePollReconciles` | nfs/nfs_updater_daemon.go:160-235 | over every run, whatever times and bus were: so does a poll that finds the server, the bus and a list newer than the local copy, and it copies the list |
| `ExportPolls.ChangeMetExactlyWhen` | nfs/nfs_updater_daemon.go:160-169 | a handler that writes the list is met by the next poll if and only if the list then has a later time than the local copy, or the configured paths are still the same |
| `ExportPolls.BusDownMetExactlyWhen` | nfs/nfs_updater_daemon.go:220-234 | after a poll that copied the list without the bus, the next one leaves the configured paths if and only if no unconfigured export had been enabled |
| `ExportUpdater.CompletedRunsQuiesce` | pkg/controllers/ganesha.go:65-126 | after every serial run of completed handlers the registry is quiescent |
| `Permissions.FileSystem.InheritNode` | pkg/controllers/ganesha.go:290-307 | a node that is not initialised takes its parent's owner and, a directory, its low nine mode bits; every other node and every other bit stay |
| `Permissions.InheritingMeaning` | vendor/github.com/ceph/go-ceph/rgw/rgw.go:117-122 | in numbers: a node of user 0 and group 0 with low bits 0777, a directory, or 0666, anything else, takes user and group, and a directory the bits 0777; the others are unchanged |
| `Permissions.FileSystem.SetupPermission` | pkg/controllers/ganesha.go:282-316 | ends; initialised nodes are unchanged, every other node on the path has owner, group and, a directory, low mode bits of its nearest initialised ancestor or the bucket, and keeps its other bits |
| `Permissions.WalkGives` | pkg/controllers/ganesha.go:282-316 | user, group and mode that a fresh node ends with, in terms of the nearest node above it that is not fresh, or the bucket |
| `QuerySyntax.TrimMeaning` | pkg/controllers/mdsearch.go:147 | trimming removes white space at both ends, and all of it |
| `QuerySyntax.MatchMeaning` | pkg/controllers/mdsearch.go:146-152 | a trimmed query is cut if and only if some cut fits the expression, and then as the cut that a leftmost-first matcher tries before all other fitting ones |
| `QuerySyntax.OneAlternative` | pkg/controllers/mdsearch.go:146 | at most one alternative of the field group can apply, so only the length of a custom name is a choice |
| `QuerySyntax.PrintThenParse` | pkg/controllers/mdsearch.go:146-152 | for every field and operator, printing and parsing is the identity when the value is non-empty, trimmed, and free of newline and operator characters |
| `QuerySyntax.RoundTripExactlyWhen` | pkg/controllers/mdsearch.go:146-152 | for every field, operator and value, the exact condition: nothing blank or broken at the ends, no equals sign that would extend `<` or `>`, and for a custom field no operator further on in its first word or right behind it |
| `QuerySyntax.ComparisonText` | pkg/controllers/mdsearch.go:146-152 | the texts of the four comparisons, for size and lastmodified |
| `QuerySyntax.EquationText` | pkg/controllers/mdsearch.go:146-152 | the text of an equation, for name, contenttype and etag |
| `QuerySyntax.CustomEquationText` | pkg/controllers/mdsearch.go:146-152 | and for a custom field |
| `QuerySyntax.ParsedField` | pkg/controllers/mdsearch.go:146 | no other field is ever parsed |
| `QueryDates.FormatThenParse` | pkg/controllers/mdsearch.go:213-215 | every date is read back from its text |
| `QueryDates.DurationIsNoDate` | pkg/controllers/mdsearch.go:188-213 | the two readings of a lastmodified value never apply both |
| `QueryDates.DurationMeaning` | pkg/controllers/mdsearch.go:188 | a duration is a positive number as it is printed and one character of the class, the bar included |
| `QueryDates.DateShows` | pkg/controllers/mdsearch.go:213 | which characters of a text give year, month, day, hour and minute of its date |
| `QueryFilter.UnitLengths` | pkg/controllers/mdsearch.go:204-206 | the lengths of the units a duration may have |
| `Decimal.AtoiOnlyDigits` | pkg/controllers/mdsearch.go:251-252 | a text read as a size is digits behind at most one sign |
| `QueryGlob.ReadingsAgreeExactlyWhen` | pkg/controllers/mdsearch.go:166-170 | choosing a wildcard or a term query by the presence of a star gives the promised reading, star as the one wildcard, for exactly the values in which a star comes with no question mark and no backslash but at the very end |
| `QueryGlob.Misread` | pkg/controllers/mdsearch.go:166-170 | for any other value, a text that is selected although the promised reading does not match it |
| `QueryFilter.AgeRangeMeaning` | pkg/controllers/mdsearch.go:188-212 | a bound on the age is the opposite bound on the time, not after now for `<` and `<=`, and cannot be read exactly when the unit is a bar |
| `QueryFilter.CustomMeaning` | pkg/controllers/mdsearch.go:312-324 | one entry of the custom metadata has to satisfy both name and value |
| `QueryMeaning.FilterSelects` | pkg/controllers/mdsearch.go:154-329 | what the filter of each field, operator and value selects, written out for every document and clock: name, content type, etag, custom entry, size, age and time |
| `QueryMeaning.Refusals` | pkg/controllers/mdsearch.go:154-324 | which fields, operators and values are refused, and with which of the complaints |
| `QueryFilter.FaithfulExactlyWhen` | pkg/controllers/mdsearch.go:143-329 | the filter of an accepted query is readable and selects exactly the bucket's objects that satisfy the parsed condition, for all documents and clocks, if and only if the query mixes no star with a question mark or an escaping backslash and has no bar as unit |
| `MetadataSearch.LastModified` | pkg/controllers/mdsearch.go:187-249 | durations and dates become ranges, `==` and other values the three different complaints, the zero time included |
| `MetadataSearch.Search` | pkg/controllers/mdsearch.go:118-329 | from the query text: which queries are refused and with which complaint, and what the filter of an accepted one selects for every document and clock, field by field and operator by operator, in terms of the document; faithful to the condition for exactly the queries for which that is possible |

## Left out

- HTTP, authentication, XML and JSON, database, cache, D-Bus and search clients: only the stores,
  lists and trees they act on are modelled.
- MoveProtocol.RunsConserve: a worker that panics is not modelled. It takes a copy source without a
  slash whose copy S3 nevertheless accepts.
- RulesMaps.Append: how much room a grown array gets is left open, so the result holds for every
  growth policy.
- RulesMapBuilder.RulesMap.AddNames: works on a copy of the map's entries and stores the map
  afterwards; no one else sees the map in between.
- Configuration.Lookup: the configuration is taken as loaded; a bucket without one is the empty one.
- Messaging.Broker.SendEvent: the payload is any function of the resource; request ids, sequencer
  and time stamps are not modelled. The zero event is excluded, as no caller sends it.
- Messaging.Broker.ReceiveMessage: message ids and checksums are left out; a push between the two
  calls to another list does not matter to it and is not modelled.
- Arn.KeysAgree: says nothing about topics, which have no list.
- Overlapping receives and concurrent export handlers: nothing in the code keeps them apart, as the
  two locks have different names and their results are ignored.
- ExportHandlers.Rados.AddNfsExport: the text the template makes of id, name and keys is kept as the
  values that go in; an empty display name panics in the attribute call and ends the handler there.
- ExportUpdater.Host.Execute: times are whole seconds, of the store's clock for the list and of the
  host's for the copy; each disabling call is taken to succeed.
- ExportUpdater.CompletedRunsQuiesce: display names are non-empty and fit the hundred-byte buffer
  of the daemon, and only exported users are updated; the same holds for the runs of ExportSystem.
- Permissions.FileSystem.SetupPermission: every node on the path exists and only the last may be a
  file, as after the upload that triggers the walk.
- The rest of the migration tool, which rewrites export objects by editing their template text.
- QueryDates.FormatThenParse: dates are handed to a calendar that is a parameter; Elasticsearch's
  rounding of bounds that lack seconds is not modelled.
- QueryFilter.FaithfulExactlyWhen: a count of months or years has the length that the clock gives
  it; counts that overflow the search engine's integers are not modelled.
- Paging, the conversion of search results and the response of the search.
- Ops-log naming, access keys, object names from requests, configuration getters, the Celery worker
  and service files: small or bound to I/O, and easy.
- Topic and queue management and `PutBucketNotification`: their meaning rests on database rules that
  are not part of this model.

# Dokja: a verified model of its controllers, stores and text transformations

Dokja runs a local stack of modules for one owner. This project models the parts of it whose correctness spans
several operations, and proves what they promise over every input, every run and every interleaving.

- **Local runtime.** `Planning.dfy` has the dependency plan, `Stopping.dfy` the decision what a stop may stop,
  `Controller.dfy` the controller as one process runs it (ownership, roots, stale marks, the journal),
  `Lifecycle.dfy` the same operations as steps of overlapping workers with the readers/writer lock and the gates, and
  `LifecycleRuns.dfy` what a worker that has closed has done.
  They hold of every inventory whose names and services are distinct, whose dependencies exist and have no cycles;
  the shipped one is shown to be such.
- **Settings and their store.** `Settings.dfy` has the catalogue's parsers and projections, `ConfigurationStore.dfy`
  the compare-and-set on one row shared by many processes, `DatabaseSettings.dfy` the port between the two, and
  `EnvFile.dfy` the legacy `.env` file.
- **Models.** `Downloads.dfy` is the download state machine, `Terminal.dfy` the incremental reader of the engine's
  drawn progress, with the exact condition under which it does not matter how its input is cut.
- **Conversation.** `Realtime.dfy` is the bounded journal of a voice session: order, revisions, consent, budgets.
- **Knowledge.** `Applicability.dfy`, `Proposals.dfy` and `Review.dfy` go from quotations to byte spans, from spans to
  states, and from states and a reviewer's findings to one outcome. `Spelling.dfy`, `Chunker.dfy` and `Boundaries.dfy`
  split documents, `Passages.dfy` locates spans of originals, and `KnowledgeStore.dfy` has the tables, the keyword index
  and the cached matrix.
- **Digest and prediction.** `Digest.dfy` filters, sorts, drops copies, shares places and pages; `Prediction.dfy`
  estimates and scores.

What the source updates in place is a class whose methods, with the source's loops, are proved against a specification
function; what is promised is then proved of that function or of every run of it. `Text.dfy` and `Wrappers.dfy` hold
what several modules share. External calls (the container engine, the model engine, the embedder, SQLite, JSON, hashes,
Unicode tables) are parameters or calls that may fail, with the laws relied on stated as predicates.

Results that differ from what the code's own comments or a reader would expect:

- A chunk can be longer than the limit its docstring names: the tail is added without a new check. The limit holds of
  every document exactly when nothing is ever repeated (`Chunker.LimitHoldsExactlyWhen`), a chunk passes it exactly when
  its tail and its only piece do not fit together (`Chunker.TooLongExactlyWhen`), and the bound that does hold is met
  (`Chunker.ChunksAreShort`, `Chunker.BoundIsMet`).
- A revised message is not checked against the journal's byte limit again (`Realtime.BytesAfterObserving`,
  `Realtime.RevisionMayOutgrow`).
- A value with a no-break space at its end can be written to `.env` and is read back without it
  (`EnvFile.RoundTripExactlyWhenTrimmed`, `EnvFile.UnreadableValue`).
- Stopping a module may take the engine from its own initializer (`Stopping.ShippedInitializerMayLoseItsEngine`);
  `Stopping.SparesAllExactlyWhen` says for every snapshot when all running modules keep what they need.
- A module that someone else brings up while a stop is under way may lose what it needs
  (`Lifecycle.StopsSpareWhatRuns`, `Lifecycle.OutsideMayBeStranded`).
- The engine's progress is read differently when it is cut inside a control sequence longer than 32 bytes or inside
  a text longer than 4096 (`Terminal.SplitInvariance`).

## Model

| member | source | states |
|---|---|---|
| Terminal.SplitInvariance | dokja_services/dokja_runtime/models.go:117-146 | for every stream: the lines read do not depend on how it is cut into writes if and only if every ended text is the same line without what a long wait drops, and no control sequence longer than 32 bytes comes before an ended text |
| Terminal.OrdinaryStreamsMayBeCutAnywhere | dokja_services/dokja_runtime/models.go:112-146 | texts ended within 4096 bytes and sequences of at most 32 bytes: any way of cutting the stream reads the lines of one write |
| Terminal.UnsafeCut | dokja_services/dokja_runtime/models.go:128-143 | a stream that is not safe comes with a place where cutting it in two changes the lines |
| Terminal.Resume | dokja_services/dokja_runtime/models.go:117-146 | stopping after a write and going on from what was held reads what one write of both reads |
| Terminal.EscapeLengthIsExact | dokja_services/dokja_runtime/models.go:107-107 | the greedy pattern finds a sequence at the start exactly when the bytes are one: parameters, intermediates, final byte (section 5.4 of ECMA-48) |
| Terminal.EscapeExtends | dokja_services/dokja_runtime/models.go:130-137 | bytes that arrive later never change a sequence already whole, and complete an unfinished one only with themselves |
| Terminal.RestWaits | dokja_services/dokja_runtime/models.go:119-145 | what a write leaves held reads as nothing yet, and is text no mark has ended once it is longer than 32 bytes |
| Terminal.BreakEndsLine | dokja_services/dokja_runtime/models.go:122-128 | for every text without the bytes 10, 13 and 27: followed by 10 or 13 it is one line, trimmed, and what follows is read on its own |
| Terminal.SequenceEndsLine | dokja_services/dokja_runtime/models.go:122-139 | the same for a text followed by a whole control sequence, given byte by byte (section 5.4 of ECMA-48) |
| Terminal.UnbrokenWaits | dokja_services/dokja_runtime/models.go:119-126 | a text with none of those three bytes reads as nothing and stays held |
| Terminal.UnfinishedSequence | dokja_services/dokja_runtime/models.go:130-137 | an unfinished control sequence waits while shorter than 32 bytes; from then on its escape alone is dropped |
| Terminal.HeldIsLast | dokja_services/dokja_runtime/models.go:142-144 | of what no mark has ended the last 4096 bytes are held |
| Terminal.PullReader.Write | dokja_services/dokja_runtime/models.go:117-146 | the loop over the buffer reads the lines of the specified scan, and holds its rest cut to the last 4096 bytes |
| Terminal.Stream | dokja_services/dokja_runtime/models.go:54-78 | a sequence of writes reads exactly the lines of the pieces |
| Terminal.TrimSpaceTrims | dokja_services/dokja_runtime/models.go:126-126 | trimming the white-space characters at both ends, as bytes of UTF-8, satisfies what the results rely on |
| Terminal.SpaceIsEncoded | dokja_services/dokja_runtime/models.go:126-126 | what the trimming takes at the start of a text is exactly the bytes of a white-space character there (section 3 of RFC 3629) |
| Terminal.SpaceIsEncodedLast | dokja_services/dokja_runtime/models.go:126-126 | the same at the end of a text |
| Lifecycle.OneActivePerModule | dokja_domain/dokja_runtime/runtime.go:217-238 | in every interleaving at most one operation is active per module |
| Lifecycle.StopsRunAlone | dokja_domain/dokja_runtime/runtime.go:304-336 | while a stop has the lock every other operation is still queued |
| Lifecycle.OneStartPerService | dokja_domain/dokja_runtime/runtime.go:415-450 | no two workers are at one service's gate, so none is started or recreated twice at once |
| Lifecycle.StartedAtMostOnce | dokja_domain/dokja_runtime/runtime.go:415-450 | a service that does not stop by itself has at most one successful start until a stop brings it down, whoever else starts it meanwhile, and when one is about to be made it has had none and is not running unless someone else brought it up |
| Lifecycle.StopsSpareWhatRuns | dokja_domain/dokja_runtime/runtime.go:353-403 | under any interleaving of requests, steps, exits and starts from outside, whatever a stop has stopped so far is in no plan of a module running now (the engine's modules aside), unless someone else brought that module up after the stop decided |
| Lifecycle.OutsideMayBeStranded | dokja_domain/dokja_runtime/runtime.go:353-403 | the exception is real: in every run that has stopped something, someone else may bring that module up again, it runs without what was stopped of its plan, and the stop goes on unchanged |
| Lifecycle.SomeWorkerCanStep | dokja_domain/dokja_runtime/runtime.go:217-238 | while an operation is unfinished some worker can step, whatever the world answers |
| Lifecycle.StepsRunOut | dokja_domain/dokja_runtime/runtime.go:304-450 | every step of a worker uses one of finitely many up |
| Lifecycle.RunKeepsInv | dokja_domain/dokja_runtime/runtime.go:217-450 | active entries, lock, gates, start counts and stop decisions stay consistent over every run of requests, steps, exits and starts from outside |
| LifecycleRuns.ClosedIsComplete | dokja_domain/dokja_runtime/runtime.go:304-405 | in every interleaving: a start that closes without a failed or unsaved answer has brought up, recreated or found up every entry of its plan, each in turn and each ready before the next; a stop that closes has brought down exactly what its decision says, or was refused |
| LifecycleRuns.StartBringsUpItsPlan | dokja_domain/dokja_runtime/runtime.go:337-352 | one start by itself from nothing active, with good answers, ends with every service of its plan up in the world |
| LifecycleRuns.StopTakesDownItsShare | dokja_domain/dokja_runtime/runtime.go:353-405 | one stop by itself, with good answers, ends with exactly the services of its decision taken down, last of the plan first, or refused with nothing taken down |
| LifecycleRuns.FailureEndsTheOperation | dokja_domain/dokja_runtime/runtime.go:337-450 | an answer that fails what the worker waits for ends the operation there: its last step releases the lock and touches nothing |
| LifecycleRuns.StartsAreCounted | dokja_domain/dokja_runtime/runtime.go:415-450 | in every run the number of starts that is bounded by one is the number of successful start calls since a stop last left the service down |
| LifecycleRuns.CallLeaves | dokja_domain/dokja_runtime/runtime.go:430-447 | a start or recreate call changes that service alone, up if the call succeeded on a daemon, and takes its mark exactly when it succeeded |
| LifecycleRuns.StopLeaves | dokja_domain/dokja_runtime/runtime.go:383-403 | a stop call leaves that service down unless it failed with the service still running, gives up its ownership exactly when the stop succeeded and was saved, and the name of the module when it succeeded on the named module itself |
| LifecycleRuns.OtherStepsRecord | dokja_domain/dokja_runtime/runtime.go:337-345 | no other step of a worker touches a container or a mark; what it records is the module turned on, the ownership read of it, and the ownership of a service it is about to start |
| Stopping.NeedsCallExactlyWhen | dokja_domain/dokja_runtime/runtime.go:426-429 | the engine is called for a service unless it is unmarked and its container runs, or is the initializer's and has completed; a container that does not exist is down |
| LifecycleRuns.ExitsAndAppearances | dokja_domain/dokja_runtime/runtime.go:361-362 | what the world does by itself, for containers that stop or are started outside this controller: one container changes, and the controller's own records do not |
| Stopping.EveryStopIsSafe | dokja_domain/dokja_runtime/runtime.go:353-403 | after each single stop, wherever a later one fails, no stopped service is in the plan of a module the snapshot shows running and that is not itself stopped |
| Stopping.TailIsSafe | dokja_domain/dokja_runtime/runtime.go:383-404 | the same at every point of the reverse loop |
| Stopping.PrefixIsTail | dokja_domain/dokja_runtime/runtime.go:383-404 | stops cut short by a failure are the stops of a shorter loop |
| Stopping.NeededCoversPlans | dokja_domain/dokja_runtime/runtime.go:357-379 | a needed service brings its whole plan into what is needed |
| Stopping.StoppedExactlyWhen | dokja_domain/dokja_runtime/runtime.go:353-404 | of a plan exactly those are stopped that this controller started, and the named one, unless a running module, not the engine's and not itself a dependency started for this one alone, has them in its plan |
| Stopping.NeededExactlyWhen | dokja_domain/dokja_runtime/runtime.go:357-379 | a service is needed, and stopping its module refused, exactly when such a running module has it in its plan |
| Stopping.NamedModulesStay | dokja_domain/dokja_runtime/runtime.go:361-379 | nothing in the plan of a running module that the owner turned on is stopped for another |
| Stopping.UncountedMayLoseTheirs | dokja_domain/dokja_runtime/runtime.go:361-365 | the engine's own modules are exempt: a configuration in which a running initializer loses its engine, so not every running module is spared |
| Stopping.SparesAllExactlyWhen | dokja_domain/dokja_runtime/runtime.go:353-403 | safe stop of all running modules, the engine's own included: the stops, and every part of them, spare what runs if and only if whatever a running module of the engine that stays needs of this plan stays too, which the snapshot and the records tell before any stop |
| Stopping.ShippedInitializerMayLoseItsEngine | dokja_domain/dokja_runtime/runtime.go:22-40 | in the shipped inventory: stopping memory takes the engine from a running initializer |
| Stopping.AllIsStopped | dokja_domain/dokja_runtime/runtime.go:380-405 | with the whole plan owned or named and nothing else needing it, the stops are the plan in reverse |
| Planning.PlanFor | dokja_domain/dokja_runtime/runtime.go:51-71 | the recursive visits that update one set and one list compute the plan |
| Planning.Planner.VisitModule | dokja_domain/dokja_runtime/runtime.go:55-68 | one visit changes the set and the list as the specification says |
| Planning.PlanIsReachable | dokja_domain/dokja_runtime/runtime.go:51-71 | a plan holds exactly the inventory entries its module reaches |
| Planning.PlanIsDistinct | dokja_domain/dokja_runtime/runtime.go:51-71 | a plan has no repeats, is empty for an unknown name, and ends with the named module |
| Planning.PlanIsOrdered | dokja_domain/dokja_runtime/runtime.go:51-71 | without cycles every dependency stands before its dependents |
| Planning.PlanContainsPlans | dokja_domain/dokja_runtime/runtime.go:51-71 | a plan holds the whole plan of everything in it |
| Planning.PlanIsOneWay | dokja_domain/dokja_runtime/runtime.go:51-71 | without cycles no two modules stand in each other's plans |
| Planning.ListedFirstIsAcyclic | dokja_domain/dokja_runtime/runtime.go:22-40 | an inventory that lists dependencies first has no cycles |
| Planning.ShippedInventoryIsSound | dokja_domain/dokja_runtime/runtime.go:22-40 | the thirteen shipped entries meet every assumption made about an inventory |
| Controller.Operate | dokja_domain/dokja_runtime/settings.go:277-394 | no stale readiness: after any run of operations that do not overlap, restarts included and whatever call fails, every container built from an outdated setting is marked, and the journal holds the marks |
| Controller.Domain.TurnOn | dokja_domain/dokja_runtime/runtime.go:337-352 | a start that succeeds leaves every service of the plan running, or completed if it is the initializer, on the current settings, and adds to what is owned exactly the services it had to start or recreate; when the calls work it succeeds; one that fails leaves every outdated container marked |
| Controller.Domain.StartService | dokja_domain/dokja_runtime/runtime.go:415-450 | one service: recreated when marked, started when it does not run, otherwise let be with the ownership it had; a started or recreated one is owned, in memory and in the journal, and no other service's ownership changes; its mark is cleared once that call has succeeded and before it is ready |
| Controller.Domain.CallEngine | dokja_domain/dokja_runtime/runtime.go:426-446 | the engine call of one start: recreated or started, recorded as owned, its mark cleared and nothing else outdated; with the marks complete it is then current |
| Controller.Domain.TurnOff | dokja_domain/dokja_runtime/runtime.go:353-405 | after each stop made, no stopped service is in the plan of a running module of the snapshot; refused, nothing is stopped; when the calls work it makes all the stops decided and they are no longer owned |
| Controller.Domain.StopPlanned | dokja_domain/dokja_runtime/runtime.go:380-405 | the stops made are a prefix of the decided ones, in reverse plan order, and all of them when the calls work |
| Controller.Domain.StopOne | dokja_domain/dokja_runtime/runtime.go:388-403 | one stop and its record: ownership and the root are given up only when the record is saved |
| Controller.Domain.FindNeeded | dokja_domain/dokja_runtime/runtime.go:357-379 | the services counted modules need, off one status snapshot |
| Controller.Domain.Remember | dokja_domain/dokja_runtime/runtime.go:240-260 | ownership changes in memory only if the journal was saved |
| Controller.Domain.MarkStale | dokja_domain/dokja_runtime/runtime.go:275-291 | the mark stays in memory even when the journal cannot be saved |
| Controller.Domain.MarkReaders | dokja_domain/dokja_runtime/settings.go:356-365 | every reader of a changed setting is marked before anything is recreated |
| Controller.Domain.RecreateOne | dokja_domain/dokja_runtime/settings.go:378-392 | a container is replaced and its mark cleared once it is ready; with success it is up and current; if it fails the mark stays |
| Controller.Domain.RecreateReaders | dokja_domain/dokja_runtime/settings.go:356-394 | after recreating, every outdated container is marked; with success every running reader is up again and current |
| Controller.Domain.SetSettings | dokja_domain/dokja_runtime/settings.go:277-355 | refused changes write nothing, and when the calls work they are refused exactly when one is unacceptable, none is given, or WhatsApp would answer nobody; saved changes outdate their readers only and leave them marked or current; with success every reader that ran is up and current and unmarked, exactly the other readers are marked, and no other mark changes |
| Controller.CheckChanges | dokja_domain/dokja_runtime/settings.go:284-330 | the changes are refused exactly when one is unacceptable, and otherwise give the variables to write and the readers to recreate, in whatever order they come |
| Controller.AcceptableExactlyWhen | dokja_domain/dokja_runtime/settings.go:305-319 | a change is acceptable exactly when the catalogue has a setting of that name that may be changed and its parser takes the value |
| Controller.CheckedIs | dokja_domain/dokja_runtime/settings.go:303-320 | a changed setting's variable gets what its parser made of the value, every other stays, and exactly the readers of changed settings are named |
| Controller.ReturnsExactlyWhen | dokja_domain/dokja_runtime/settings.go:370-378 | a reader that runs is replaced at once, and besides those only the initializer while memory or knowledge run |
| Controller.Domain.Set | dokja_domain/dokja_runtime/runtime.go:209-216 | unknown and internal modules are refused; a start that succeeds leaves the whole plan up, current and owned where it was brought up; a stop makes the decided stops, or is refused and makes none |
| Controller.OnThenOff | dokja_domain/dokja_runtime/runtime.go:209-216 | turning a module on with nothing running, and then off with nothing else running, stops exactly its plan, in reverse |
| Controller.WritingOutdatesReaders | dokja_domain/dokja_runtime/settings.go:277-338 | saved changes outdate only containers of modules named as readers |
| Controller.RebuiltAlone | dokja_domain/dokja_runtime/runtime.go:415-450 | replacing one container with the current settings outdates none |
| Settings.ParseAcceptsItsOutput | dokja_domain/dokja_runtime/settings.go:77-207 | every catalogue parser accepts its own output and leaves it unchanged |
| Settings.ListSettles | dokja_domain/dokja_runtime/settings.go:187-207 | split, normalise, drop repeats and join: parsing a parsed list changes nothing |
| Settings.ListHoldsEachEntryOnce | dokja_domain/dokja_runtime/settings.go:187-207 | a list is refused exactly for a piece that its entry parser refuses; otherwise it keeps, in the order of their first places and once each, what the pieces between the commas give |
| Settings.StoredListParses | dokja_domain/dokja_runtime/settings.go:187-207 | a stored list splits back into its own entries and parses to itself |
| Settings.EntryIsNormal | dokja_domain/dokja_runtime/settings.go:77-124 | every entry parser returns a value it accepts unchanged, safe between commas |
| Settings.EntryAcceptedExactlyWhen | dokja_domain/dokja_runtime/settings.go:77-106 | what each kind of list entry accepts, character by character: channels, feed sources, phone numbers, and groups as digits with single hyphens between them |
| Settings.ConversationAcceptedExactlyWhen | dokja_domain/dokja_runtime/settings.go:108-122 | a named conversation is an alias, its sign and a group or a number, spaces beside the sign dropped; nothing else is one |
| Settings.OnlyMarksAreDropped | dokja_domain/dokja_runtime/settings.go:92-98 | a mark anywhere in a phone number goes and every other character stays where it is |
| Settings.ListOf | dokja_domain/dokja_runtime/settings.go:187-207 | the loop that keeps new entries computes the specified list, or refuses exactly when an entry is refused |
| Settings.NamedConversations | dokja_domain/dokja_runtime/settings.go:125-140 | accepted exactly when no alias and no target repeats |
| Settings.ConversationsExactlyWhen | dokja_domain/dokja_runtime/settings.go:125-140 | named conversations are a list of entries, refused exactly when two of them share an alias or a target |
| Settings.PdfLimitAcceptedExactlyWhen | dokja_domain/dokja_runtime/settings.go:150-161 | nothing, or a number from 1 to 100 with a plus sign and leading zeros allowed, stored without them |
| Settings.TextAcceptedExactlyWhen | dokja_domain/dokja_runtime/settings.go:141-185 | limits, model names and choices: the trimmed text itself, accepted exactly when it is spelled as one |
| Settings.ImportSettings | dokja_domain/dokja_runtime/settings.go:405-434 | one value for every setting, or a refusal exactly when some setting refuses its variable |
| Settings.NewSettings | dokja_domain/dokja_runtime/settings.go:435-455 | no stored value is altered; what the catalogue gained is imported, and nothing else |
| Settings.SettingsVariables | dokja_domain/dokja_runtime/settings.go:456-479 | one variable for every setting, or a refusal exactly when a stored value is unknown or unacceptable |
| Settings.SavingProjectsTheChanges | dokja_domain/dokja_runtime/settings.go:405-479 | importing the shown variables with parsed changes laid over them, and saving that, projects to exactly those variables |
| Settings.ParsedChangesImport | dokja_domain/dokja_runtime/settings.go:417-434 | such an import is refused only where a change gives a fixed setting another value |
| Settings.ShippedCatalogIsSound | dokja_domain/dokja_runtime/settings.go:44-62 | the seventeen shipped settings have different identifiers and variables |
| DatabaseSettings.SettingsPort.Write | dokja_services/dokja_runtime/database_settings.go:89-117 | after a successful write a read shows exactly the earlier variables with the changes laid over them; when the statements work it is refused only for an unknown variable, a value that cannot be imported, or a result out of bounds |
| DatabaseSettings.SettingsPort.Read | dokja_services/dokja_runtime/database_settings.go:79-88 | what is read is the projection of the stored configuration; a complete configuration is not rewritten and, when the statements work, is read whenever it has a projection |
| DatabaseSettings.SettingsPort.Snapshot | dokja_services/dokja_runtime/database_settings.go:38-78 | with nothing stored the whole legacy environment is imported as revision 1; otherwise what is stored stays and only what the catalogue gained since is imported, as one revision more; when the statements work it fails only if there is no such configuration or it is out of bounds |
| DatabaseSettings.ProjectionIsUnique | dokja_domain/dokja_runtime/settings.go:456-479 | a configuration has one projection |
| ConfigurationStore.StoredIsHistory | dokja_store/configuration.go:64-107 | after any interleaving of any processes: revision 1 plus one per successful update, at most one success per revision, values the first snapshot with the successful changes laid over it in order |
| ConfigurationStore.WriteSucceedsIffUnchanged | dokja_store/configuration.go:75-107 | a pending update succeeds exactly when no other has succeeded since it read |
| ConfigurationStore.LaterImportIsIgnored | dokja_store/configuration.go:64-74 | once something is stored an import changes nothing |
| ConfigurationStore.RunIsFaithful | dokja_store/configuration.go:64-107 | every interleaving leaves the row equal to the history it records |
| ConfigurationStore.Database.Update | dokja_store/configuration.go:75-107 | an update writes the next revision with the changes laid over what it read, or nothing; when the statements work it is done, in conflict or refused exactly as the row and the bounds say; done, it is the read step and the write step of the machine on the row it found |
| ConfigurationStore.ReadThenWrite | dokja_store/configuration.go:75-107 | an update nothing comes between is recorded exactly when the row it read has its revision and the result is accepted, and changes nothing otherwise |
| ConfigurationStore.UpdateTakenExactlyWhen | dokja_store/configuration.go:75-107 | after any run, an update no other one comes between is recorded exactly when it names the revision reached and the result is within the bounds, and is then what a reader finds |
| ConfigurationStore.ImportTakenExactlyWhen | dokja_store/configuration.go:64-74 | on an empty key a first snapshot within the bounds is stored and read back, and no other is |
| ConfigurationStore.TextReadsExactlyWhen | dokja_store/configuration.go:21-46 | a stored text is read exactly when it has at most 32768 bytes and holds a version 1 snapshot within the bounds: 64 entries, keys of 128 bytes, values of 4096 |
| ConfigurationStore.Database.Initialize | dokja_store/configuration.go:64-74 | the first snapshot has revision 1; a later one is read back unchanged; out of bounds it fails and writes nothing, and when the statements work nothing else fails it but a row that cannot be read; done, it is the import step of the machine |
| ConfigurationStore.Database.Load | dokja_store/configuration.go:49-63 | a read returns the stored snapshot or fails, never a different one; when the statements work it fails only for a row that cannot be read |
| Downloads.OnePullInFlight | dokja_domain/dokja_runtime/models.go:103-188 | in every interleaving at most one engine pull is in flight; running, the phase and the generation tell exactly which |
| Downloads.EndIsFinal | dokja_domain/dokja_runtime/models.go:134-188 | done, failed or cancelled does not change until a request is accepted |
| Downloads.CancelledEndsQuietly | dokja_domain/dokja_runtime/models.go:134-174 | a cancelled worker's end reports nothing, and only then can the next download start |
| Downloads.RequestStartsExactlyWhen | dokja_domain/dokja_runtime/models.go:103-133 | after any run a request starts a download exactly when it names a model, the engine runs and no pull is in flight, not even a cancelled one; otherwise it changes nothing |
| Downloads.ProgressShows | dokja_domain/dokja_runtime/models.go:136-150 | the live worker's progress shows exactly while its download is pulling, for the four known phases and a percentage from 0 to 100 |
| Downloads.EndIsRecorded | dokja_domain/dokja_runtime/models.go:151-174 | the end of a pull frees the slot; cancelled stays cancelled, otherwise it is done, or failed with the reason its error gives |
| Downloads.CancelReaches | dokja_domain/dokja_runtime/models.go:175-190 | cancelling reaches the live worker while its download is pulling, and changes nothing otherwise |
| Downloads.RunKeepsInv | dokja_domain/dokja_runtime/models.go:103-188 | the fields under the mutex speak of the live worker after any run |
| Downloads.ModelState.PullModel | dokja_domain/dokja_runtime/models.go:103-133 | the request's effect on the guarded fields, and whether it was taken |
| Downloads.ModelState.Report | dokja_domain/dokja_runtime/models.go:140-150 | progress of another generation or of a download that is over is dropped |
| Downloads.ModelState.Finish | dokja_domain/dokja_runtime/models.go:151-174 | how each end of a pull is recorded |
| Downloads.ModelState.CancelPull | dokja_domain/dokja_runtime/models.go:175-190 | cancelling takes effect at once, and once |
| Realtime.ReachableIsOrderly | dokja_domain/dokja_conversation/realtime.go:59-217 | every reachable journal: messages in capture order with different ids, at most 512, every speaker among at most 16 different consenting ones, at most 32 sessions |
| Realtime.StepKeepsInv | dokja_domain/dokja_conversation/realtime.go:59-217 | no operation at any time breaks that |
| Realtime.RunFollows | dokja_domain/dokja_conversation/realtime.go:165-189 | while it is stored a message keeps speaker and capture sequence, its revision never falls and rises by at most one a step, and the same revision is the same message |
| Realtime.StepFollows | dokja_domain/dokja_conversation/realtime.go:165-189 | one step leaves a stored message as it is or moves it to its next revision |
| Realtime.WithdrawnIsGone | dokja_domain/dokja_conversation/realtime.go:119-133 | withdrawing leaves none of the speaker's messages and keeps all others |
| Realtime.RunKeepsGone | dokja_domain/dokja_conversation/realtime.go:95-206 | once withdrawn, nothing the speaker says is kept until they are let in again or the session is started anew |
| Realtime.BytesAfterObserving | dokja_domain/dokja_conversation/realtime.go:190-205 | after an observation the session is within both limits, except exactly when a revision grew a text past them |
| Realtime.ObservationIsRefusedExactlyWhen | dokja_domain/dokja_conversation/realtime.go:138-189 | an acceptable message for a live session of its guild and origin is refused if and only if its speaker may not speak and cannot join, its id is stored under another speaker or place, its revision is stored with other evidence, or its revision is not the next one |
| Realtime.NewMessageIsPlaced | dokja_domain/dokja_conversation/realtime.go:187-205 | an accepted new message stands among the old ones in capture order; the session keeps the longest end of at most 512 messages and 256000 bytes, and the speaker has consented |
| Realtime.RevisionReplaces | dokja_domain/dokja_conversation/realtime.go:181-186 | an accepted revision replaces exactly the message it revises |
| Realtime.RepetitionChangesNothing | dokja_domain/dokja_conversation/realtime.go:165-180 | the same evidence again is accepted and changes nothing |
| Realtime.ConsentIsAnswered | dokja_domain/dokja_conversation/realtime.go:103-137 | joining and withdrawing, told by the session and the speaker: who is refused, and who has consented afterwards |
| Realtime.StartIsAnswered | dokja_domain/dokja_conversation/realtime.go:76-94 | which starts are refused, and what session a start makes |
| Realtime.StopIsAnswered | dokja_domain/dokja_conversation/realtime.go:207-217 | which stops are refused, and that a stop forgets that session and no other |
| Realtime.RevisionMayOutgrow | dokja_domain/dokja_conversation/realtime.go:181-186 | such a run from the empty journal: a start and thirty-three observations, all within the limits, and a revision that is accepted and takes the session past the byte limit, because it is not checked again |
| Realtime.TrimmedIsLongestEnd | dokja_domain/dokja_conversation/realtime.go:194-202 | what is dropped is the oldest, and no more than the two limits ask for |
| Realtime.RepeatedIsKnown | dokja_domain/dokja_conversation/realtime.go:165-180 | evidence that arrives again while stored changes nothing and is no error |
| Realtime.KnownSpeakersHaveConsented | dokja_domain/dokja_conversation/realtime.go:154-178 | returning early on a repetition forgets no new speaker |
| Realtime.VisibleIsLongestEnd | dokja_domain/dokja_conversation/realtime.go:233-249 | a snapshot shows the longest end of a session the budgets left allow |
| Realtime.ShownWithinBudgets | dokja_domain/dokja_conversation/realtime.go:228-252 | all sessions together show at most what the shared budgets allow |
| Realtime.ShownAreEnds | dokja_domain/dokja_conversation/realtime.go:230-252 | each session shown is the stored one with only its newest messages |
| Realtime.ArrangedSorts | dokja_domain/dokja_conversation/realtime.go:193-193 | the sort orders by capture sequence and loses nothing |
| Realtime.ConversationContextEngine.StartSession | dokja_domain/dokja_conversation/realtime.go:76-94 | starting a session: its whole effect and answer |
| Realtime.ConversationContextEngine.ConsentTo | dokja_domain/dokja_conversation/realtime.go:103-137 | consent and withdrawal: the whole effect and answer |
| Realtime.ConversationContextEngine.ObserveMessage | dokja_domain/dokja_conversation/realtime.go:138-206 | one observation: the whole effect and answer |
| Realtime.ConversationContextEngine.Take | dokja_domain/dokja_conversation/realtime.go:151-205 | what an observation does to its session, case by case |
| Realtime.ConversationContextEngine.Evict | dokja_domain/dokja_conversation/realtime.go:194-202 | the running total evicts exactly the specified messages |
| Realtime.ConversationContextEngine.StopSession | dokja_domain/dokja_conversation/realtime.go:207-217 | stopping forgets the session, or nothing when refused |
| Realtime.ConversationContextEngine.Prune | dokja_domain/dokja_conversation/realtime.go:59-65 | exactly the sessions idle for more than fifteen minutes are forgotten |
| Realtime.ConversationContextEngine.Snapshot | dokja_domain/dokja_conversation/realtime.go:218-253 | every live session, the latest touched first, with the messages the shared budgets allow |
| Realtime.ConversationContextEngine.ShowEnd | dokja_domain/dokja_conversation/realtime.go:239-249 | gathering from the end and turning round gives that end in order |
| Applicability.ValidateAssessment | dokja_domain/dokja_knowledge/applicability.go:71-148 | a request is accepted exactly when it is well formed: pins, identifiers, spans, relations, at most 8 and 32 citations, no repeats, known prerequisites |
| Applicability.AssessApplication | dokja_domain/dokja_knowledge/applicability.go:154-264 | an assessment is made exactly of a well-formed request whose sources are unchanged and whose quotations stand at their spans, with the specified states |
| Applicability.AssessedExactlyWhen | dokja_domain/dokja_knowledge/applicability.go:154-264 | an assessment is made if and only if the request is well formed and within its size, every source is loaded as it was pinned, and every quotation stands at its span in the source it names; its states, its three lists in order and its verdict are told by the evidence for and against each claim |
| Applicability.WellFormedIs | dokja_domain/dokja_knowledge/applicability.go:71-148 | what is accepted is exactly: a task within its bounds on one to eight pinned sources, one to sixteen claims of different names, a method resting on one to sixteen of them, at most eight citations each and thirty-two in all, each of a selected source and as long as its span |
| Applicability.ApplicabilityMeans | dokja_domain/dokja_knowledge/applicability.go:217-247 | conditional exactly when the method is cited and every prerequisite has support and nothing against it; blocked exactly when one has only evidence against it |
| Applicability.InStateMembers | dokja_domain/dokja_knowledge/applicability.go:221-235 | the listed prerequisites are exactly those in that state |
| Applicability.CheckCitations | dokja_domain/dokja_knowledge/applicability.go:94-124 | citations are accepted exactly when valid and different, within the running total |
| Applicability.CheckClaims | dokja_domain/dokja_knowledge/applicability.go:125-133 | claims are accepted exactly when each is valid and no identifier repeats |
| Applicability.PrepareTexts | dokja_domain/dokja_knowledge/applicability.go:166-189 | sources are accepted exactly when each is the pinned one with its fingerprint, within the text budgets |
| Applicability.CitationState | dokja_domain/dokja_knowledge/applicability.go:204-218 | the state of a claim from its citations |
| Applicability.SortPrerequisites | dokja_domain/dokja_knowledge/applicability.go:224-235 | the three lists of prerequisites |
| Proposals.AnchorIsExact | dokja_domain/dokja_knowledge/provider_proposal.go:217-235 | a quotation becomes a citation exactly when it stands once in a known source, overlapping occurrences counted, and the citation says where |
| Proposals.AnchorFindsAgain | dokja_domain/dokja_knowledge/provider_proposal.go:217-235 | a citation whose quotation stands once where it says is what its quotation anchors to |
| Proposals.OccursExactlyWhen | dokja_domain/dokja_knowledge/provider_proposal.go:228-230 | a quotation stands at a place exactly when the text is what is before it, the quotation, and what is after it |
| Proposals.IndexIsFirst | dokja_domain/dokja_knowledge/provider_proposal.go:228-230 | the search finds the first occurrence, or there is none |
| Proposals.AnchorQuotes | dokja_domain/dokja_knowledge/provider_proposal.go:217-235 | the loop anchors all quotations or refuses |
| Proposals.IndexObservations | dokja_domain/dokja_knowledge/provider_proposal.go:195-213 | loaded sources are accepted exactly when they are those selected, in the pinned versions |
| Proposals.DecodeProposal | dokja_domain/dokja_knowledge/provider_proposal.go:103-166 | what a reply to this attempt is decoded to, or that it is refused; what is assessed is the reply's own proposal, word for word |
| Proposals.TakenExactlyWhen | dokja_domain/dokja_knowledge/provider_proposal.go:103-166 | a proposal is taken if and only if the reply answers this attempt with one and the request made of it can be assessed: the caller's goal and constraints, every source pinned to the version loaded, the reply's claims and method in order with their own names, statements and prerequisites, one citation for every quotation saying where it stands once |
| Proposals.DeclinedExactlyWhen | dokja_domain/dokja_knowledge/provider_proposal.go:108-128 | clarifying and abstaining are taken if and only if the reply answers this attempt and has no proposal |
| Proposals.AnchoredIsGrounded | dokja_domain/dokja_knowledge/provider_proposal.go:139-160 | what was anchored in the loaded texts never fails to match them afterwards |
| Proposals.TakenProposalsQuoteOnce | dokja_domain/dokja_knowledge/provider_proposal.go:103-166 | a proposal that is taken was assessed on the loaded sources, every quotation standing once in its text |
| Review.AcceptedIsSound | dokja_domain/dokja_knowledge/semantic_review.go:129-317 | end to end: accepted on an assessment of the same request implies every claim judged once and supported, every prerequisite supported and uncontradicted by quotations that stand in the pinned texts, the method cited and supported, every condition covered, no conflict left |
| Review.AcceptedExactlyWhen | dokja_domain/dokja_knowledge/semantic_review.go:286-317 | accepted exactly when the reviewer accepts, the assessment is conditional, all findings are support, every condition is covered and no conflict is left |
| Review.ReviewTakenExactlyWhen | dokja_domain/dokja_knowledge/semantic_review.go:129-317 | a review is taken if and only if the reply is for this task, judges the method and every claim once, names nothing unknown, and its quotations stand once in the sources loaded; recorded are the reply's own conditions, findings and conflicts, the uncovered conditions in order, and the outcome with its codes |
| Review.RejectedExactlyWhen | dokja_domain/dokja_knowledge/semantic_review.go:286-317 | rejected exactly when the reviewer rejects, a prerequisite is contradicted, or the method or a claim it depends on is refuted |
| Review.NeverMilder | dokja_domain/dokja_knowledge/semantic_review.go:286-317 | the outcome is never milder than the reviewer's verdict |
| Review.ValidateFindings | dokja_domain/dokja_knowledge/semantic_review.go:206-224 | deleting from the expected identifiers accepts exactly the replies that judge every claim once |
| Review.SameNames | dokja_domain/dokja_knowledge/semantic_review.go:206-219 | as many different known names as there are claims are those claims, once each |
| Review.AnchorConditions | dokja_domain/dokja_knowledge/semantic_review.go:232-269 | conditions are anchored, and those only covered by the method or a claim it depends on count as covered |
| Review.CheckCoverage | dokja_domain/dokja_knowledge/semantic_review.go:255-262 | coverage by the method or a prerequisite; unknown names are refused |
| Review.CoveredCondition | dokja_domain/dokja_knowledge/semantic_review.go:232-269 | with nothing uncovered, every condition is covered and its quotations stand once |
| Review.ReviewOutcome | dokja_domain/dokja_knowledge/semantic_review.go:286-317 | the outcome and its reason codes, each noted once, rejections first |
| Review.DecodeReview | dokja_domain/dokja_knowledge/semantic_review.go:129-192 | what a reviewer's reply comes to, or that it is refused; its outcome, conditions, findings and conflicts |
| Passages.SourceChunks | dokja_services/dokja_knowledge/passages.py:45-66 | the loop makes exactly the specified chunks |
| Passages.WindowsCover | dokja_services/dokja_knowledge/passages.py:49-65 | windows cover a unit without gaps and are at most 1200 long; each but the last ends at the last space of its second half, or at full length where there is none, and the next starts 150 characters before that end |
| Passages.ChunksAreInOrder | dokja_services/dokja_knowledge/passages.py:45-66 | the chunks come unit after unit and from the start of a unit to its end, none twice |
| Passages.NothingVisibleIsLost | dokja_services/dokja_knowledge/passages.py:56-63 | every visible character of every unit is in the span of some chunk |
| Passages.LocatorsResolve | dokja_services/dokja_knowledge/passages.py:56-91 | every locator resolves against the same original to a slice equal to its chunk's text |
| Passages.ResolvesElsewhereExactlyWhen | dokja_services/dokja_knowledge/passages.py:69-91 | in another original, such as a later version, a chunk's locator resolves if and only if version and format are the same, and the unit is there, long enough, and the same page or chapter |
| Passages.Resolve | dokja_services/dokja_knowledge/passages.py:69-91 | a locator resolves exactly when it names this version and format, a unit that is there, a span inside its text, and that page or chapter |
| Passages.OriginalSource | dokja_services/dokja_knowledge/passages.py:12-42 | 1 to 5000 units are taken exactly when all are valid: pages in their order, chapters at a relative path that never steps up; each keeps its text, the first 300 characters of its caption, its page or its chapter |
| Passages.SafeExactlyWhenInside | dokja_services/dokja_knowledge/passages.py:35-36 | splitting the path at slashes finds two dots exactly when they stand alone between its ends and slashes |
| Passages.PassagesSurviveTheArchive | dokja_domain/dokja_conversation/conversation.go:342-363 | a source that quotes a chunk of an original that was taken in and names a document, with fewer than eight such before it, is in the archive with that chunk's locator and its text verbatim |
| Passages.KeptAreTheFirst | dokja_domain/dokja_conversation/conversation.go:342-363 | the archive is exactly the first eight sources that name a document, in their order, each with its title, reference and excerpt at their longest and its locator if and only if that has the form of one and a span as long as the excerpt |
| Passages.BoundedSources | dokja_domain/dokja_conversation/conversation.go:342-363 | the first eight sources that name a document are kept, a locator only if it fits its text |
| Passages.KeptIsBounded | dokja_domain/dokja_conversation/conversation.go:342-363 | at most eight sources are kept |
| Chunker.ChunkText | dokja_services/dokja_knowledge/chunker.py:23-50 | the loops make exactly the specified chunks |
| Chunker.ChunksSpellTheLines | dokja_services/dokja_knowledge/chunker.py:23-78 | leaving out what each chunk repeats, the chunks spell in order exactly the words of the lines that are no headings, each word under the headings open at its line |
| Chunker.ChunksAreShort | dokja_services/dokja_knowledge/chunker.py:23-50 | when every word fits, no chunk is longer than the limit if nothing is repeated, and otherwise than the limit, the shorter of limit and overlap, and two (the docstring's limit alone is not the bound) |
| Chunker.TooLongExactlyWhen | dokja_services/dokja_knowledge/chunker.py:38-50 | when every word fits, a chunk is longer than the limit if and only if it is a tail and a single piece that do not fit together with the break between them |
| Chunker.LimitHoldsExactlyWhen | dokja_services/dokja_knowledge/chunker.py:23-50 | the docstring's limit holds of every document whose words fit if and only if the overlap or the limit is not positive |
| Chunker.BoundIsMet | dokja_services/dokja_knowledge/chunker.py:8-50 | for every positive limit and overlap a document whose words fit and whose second chunk is as long as the bound: 1352 characters at the shipped 1200 and 150 |
| Chunker.TailPassesTheLimit | dokja_services/dokja_knowledge/chunker.py:38-50 | two paragraphs of one word each that do not fit together: the second chunk is the first word, a break and the second word |
| Boundaries.ChunksStartAnew | dokja_services/dokja_knowledge/chunker.py:23-50 | chunk by chunk: the end of the piece before it if the headings are the same, then its own pieces, a blank line between each two, under its headings; a new chunk starts exactly where the headings change or the next piece does not fit |
| Boundaries.TailIsAfterTheFirstSpace | dokja_services/dokja_knowledge/chunker.py:115-122 | the tail of a short piece is the piece, of a longer one what follows the first space in its last characters, and nothing without one |
| Chunker.StackIsChain | dokja_services/dokja_knowledge/chunker.py:53-78 | the stack of headings is the chain of those that no later heading of the same or a higher rank closes |
| Boundaries.HeadingExactlyWhen | dokja_services/dokja_knowledge/chunker.py:11-11 | a line is a heading if and only if it is spelled as one: one to six hashes, white space, a name, and perhaps white space |
| Boundaries.RunIsOneParagraph | dokja_services/dokja_knowledge/chunker.py:53-78 | a longest run of lines of text is one paragraph, its lines stripped and joined, under the headings open before it; the blank line or heading that ends it adds none |
| Boundaries.NoTextAddsNothing | dokja_services/dokja_knowledge/chunker.py:53-78 | a blank line or a heading after no text adds no paragraph |
| Chunker.ParagraphsSpellTheLines | dokja_services/dokja_knowledge/chunker.py:53-78 | paragraphs spell the words of the lines, in order, under the open headings |
| Chunker.BundlingKeepsPieces | dokja_services/dokja_knowledge/chunker.py:38-49 | gathering pieces into chunks loses no piece, moves none and puts none under another heading |
| Chunker.BundlingRepeats | dokja_services/dokja_knowledge/chunker.py:41-46 | a chunk repeats exactly the end of the last piece of the chunk before it under the same headings, and nothing under others |
| Chunker.TailSpellsTheEnd | dokja_services/dokja_knowledge/chunker.py:115-122 | a tail spells the last words of its piece, none of them cut |
| Chunker.FitWords | dokja_services/dokja_knowledge/chunker.py:81-112 | splitting keeps every word in order; when every word fits so does every piece |
| Boundaries.CutBehindMarks | dokja_services/dokja_knowledge/chunker.py:12-12 | a paragraph is cut into sentences exactly behind marks that white space follows |
| Boundaries.HardSplitPacks | dokja_services/dokja_knowledge/chunker.py:99-112 | a sentence that is too long is packed word by word, each piece as full as the limit allows: the next word does not fit |
| Boundaries.FitPacks | dokja_services/dokja_knowledge/chunker.py:81-96 | a paragraph that is too long is packed the same way of its sentences, those too long in their own pieces |
| Chunker.ReadParagraphs | dokja_services/dokja_knowledge/chunker.py:53-78 | the loop over lines makes exactly the specified paragraphs |
| Chunker.SplitParagraph | dokja_services/dokja_knowledge/chunker.py:81-96 | by sentence and then by word, as specified |
| Chunker.SplitWords | dokja_services/dokja_knowledge/chunker.py:99-112 | by word, as specified |
| Chunker.Take | dokja_services/dokja_knowledge/chunker.py:38-49 | one more piece: the chunk is flushed and a tail kept, or the piece is added |
| Spelling.WordsConcat | dokja_services/dokja_knowledge/chunker.py:103-112 | cutting at white space cuts no word |
| Digest.Compose | dokja_domain/dokja_digest/compose.go:109-163 | the loops compute the specified digest |
| Digest.DigestIsOrdered | dokja_domain/dokja_digest/compose.go:109-181 | a first part in which no source passes its share, and has all of it if items spill over, then the rest; each part newest first, undated last; no two items the same entry; a source is its name in any letter case, or its plugin |
| Digest.DigestAccountsForAll | dokja_domain/dokja_digest/compose.go:109-163 | shown, duplicates, old and filtered items add up to what the service gave |
| Digest.CopiesAreInTheDigest | dokja_domain/dokja_digest/compose.go:134-149 | every dropped copy is the same entry as an item of the digest at least as new |
| Digest.DigestHolds | dokja_domain/dokja_digest/compose.go:109-163 | a digest holds only items that were asked for, in the dates given or the window, and of every such item that item or the same entry at least as new |
| Digest.DigestCounts | dokja_domain/dokja_digest/compose.go:109-163 | it counts exactly the items too old, and what it shows and what it dropped as copies are together the items wanted |
| Digest.TitlesAreOneExactlyWhen | dokja_domain/dokja_digest/compose.go:210-231 | two titles are one if and only if their runs of letters and digits, in lower case, are the same and take at least sixteen characters |
| Digest.ArrangedSorts | dokja_domain/dokja_digest/compose.go:132-132 | newest first, undated last, nothing lost |
| Digest.ArrangedIsStable | dokja_domain/dokja_digest/compose.go:132-132 | items of the same date, and undated ones, keep the service's order |
| Digest.Deduplicate | dokja_domain/dokja_digest/compose.go:134-149 | the two sets of seen keys keep exactly the first copy of every entry |
| Digest.Divide | dokja_domain/dokja_digest/compose.go:151-161 | the counters divide the items as specified |
| Digest.FirstCount | dokja_domain/dokja_digest/compose.go:151-161 | in the first part a source has all its items or its whole share |
| Digest.MakeTitleKey | dokja_domain/dokja_digest/compose.go:210-231 | the title's letters and digits, one space between words, or nothing when too short |
| Digest.Reply | dokja_domain/dokja_digest/compose.go:234-277 | a page, what is left after it, and how many sources the digest has |
| Digest.PagesAreTheDigest | dokja_domain/dokja_digest/compose.go:234-240 | successive pages together are the whole order |
| EnvFile.WrittenReads | dokja_services/dokja_runtime/envfile.go:46-147 | after writing, the file reads as before with the values laid over it, stripped at their ends, and with the same webhook channels |
| EnvFile.RoundTripExactlyWhenTrimmed | dokja_services/dokja_runtime/envfile.go:46-147 | reading returns exactly the values written if and only if none starts or ends with white space |
| EnvFile.UnreadableValue | dokja_services/dokja_runtime/envfile.go:25-25 | a no-break space is accepted and written, and whatever file it is written to is read back with an empty value instead |
| EnvFile.OtherLinesStay | dokja_services/dokja_runtime/envfile.go:105-123 | lines of other variables stay as they are, the last one given a break |
| EnvFile.WrittenLineKeepsItsFrame | dokja_services/dokja_runtime/envfile.go:105-123 | in the line of a written variable only the value changes: what leads stays, the line ending stays |
| EnvFile.AssignmentExactlyWhen | dokja_services/dokja_runtime/envfile.go:23-23 | a line is an assignment if and only if it is spelled as one: blanks and perhaps export, a name of capitals, digits and underscores, blanks, the sign, the value |
| EnvFile.NextLineReads | dokja_services/dokja_runtime/envfile.go:46-80 | the next line of a file, with either break or none: an assignment to a setting gives it its value, the webhook list is read anew, any other line says nothing |
| EnvFile.QuotesAreDropped | dokja_services/dokja_runtime/envfile.go:36-42 | one pair of quotes around a value goes, with the white space around them, and what is between them stays |
| EnvFile.OtherValuesStay | dokja_services/dokja_runtime/envfile.go:36-42 | any other value stays as it is, without the white space around it |
| EnvFile.ChannelsAreNamed | dokja_services/dokja_runtime/envfile.go:65-73 | each pair between the commas names the channel before its sign exactly if that is one to twenty digits |
| EnvFile.MatchWithReturns | dokja_services/dokja_runtime/envfile.go:23-23 | the reader and the writer find the same assignment in a line, whatever carriage returns end it |
| EnvFile.LinesOfConcat | dokja_services/dokja_runtime/envfile.go:105-123 | written one after the other, lines are read as the same lines |
| EnvFile.EnvFile.Read | dokja_services/dokja_runtime/envfile.go:46-80 | the loop over lines gives the specified reading |
| EnvFile.EnvFile.Write | dokja_services/dokja_runtime/envfile.go:84-147 | the whole new content, or none exactly when a variable is no setting or its value holds a blank or a character that a shell reads |
| KnowledgeStore.SearchIsCurrent | dokja_services/dokja_knowledge/service.py:493-499 | after any run of ingests, removals, embedding passes and metadata changes, from any sound store, a search uses exactly the matrix the store would give now, the keyword index has one entry for every chunk, and the store is left sound for the next run |
| KnowledgeStore.StepKeepsInv | dokja_services/dokja_knowledge/store.py:43-58 | every request keeps the index, the relations and the cache consistent |
| KnowledgeStore.StepVersion | dokja_services/dokja_knowledge/store.py:132-168 | the rows change only with the version |
| KnowledgeStore.ReplacedIs | dokja_services/dokja_knowledge/store.py:132-168 | a replaced document has exactly the new chunks, none with a vector, and no other document's chunk changes |
| KnowledgeStore.IngestStores | dokja_services/dokja_knowledge/service.py:231-267 | text stored before under the same hash changes at most its metadata; any other text is filed under its number, which stays or is new, with exactly its chunks waiting for vectors, and no other document changes |
| KnowledgeStore.DeletedIs | dokja_services/dokja_knowledge/store.py:263-272 | a deleted document's chunks are gone, and no other's |
| KnowledgeStore.MatrixIsExact | dokja_services/dokja_knowledge/store.py:356-378 | the matrix has, in order, exactly the chunks the model embedded, each with its vector |
| KnowledgeStore.PassLeavesTheRest | dokja_services/dokja_knowledge/service.py:373-386 | a pass embeds the chunks it took and leaves exactly the others waiting |
| KnowledgeStore.PassGivesEachItsVector | dokja_services/dokja_knowledge/service.py:373-386 | a pass takes the first chunks that wait, as many as the limit allows, and gives each its own vector; no other chunk changes, and without an answer of that length nothing does |
| KnowledgeStore.ReindexCompletes | dokja_services/dokja_knowledge/service.py:392-402 | reindexing everything leaves no chunk waiting |
| KnowledgeStore.Store.ReplaceDocument | dokja_services/dokja_knowledge/store.py:132-168 | the statements and their triggers, as specified |
| KnowledgeStore.Store.DeleteDocument | dokja_services/dokja_knowledge/store.py:263-272 | the statements and their triggers, as specified |
| KnowledgeStore.Store.SetEmbeddings | dokja_services/dokja_knowledge/store.py:347-354 | vectors for the rows that still exist, and a new version |
| KnowledgeStore.Store.EmbeddingMatrix | dokja_services/dokja_knowledge/store.py:356-378 | the query without filters |
| KnowledgeStore.KnowledgeService.StoreDocument | dokja_services/dokja_knowledge/service.py:231-267 | unchanged content touches metadata only; anything else replaces the document |
| KnowledgeStore.KnowledgeService.EmbedPending | dokja_services/dokja_knowledge/service.py:373-386 | what a pass does with the embedder's answer |
| KnowledgeStore.KnowledgeService.Embeddings | dokja_services/dokja_knowledge/service.py:493-499 | the matrix is read again exactly when the version differs |
| Prediction.Predict | dokja_domain/dokja_memory/predict.go:100-133 | the loop computes the specified estimate |
| Prediction.PredictionIsBounded | dokja_domain/dokja_memory/predict.go:94-133 | strictly between 0 and 1, the baseline without enough evidence, otherwise between it and the weighted share, and no further from it than weights/(weights+prior) |
| Prediction.EstimateIs | dokja_domain/dokja_memory/predict.go:94-133 | the estimate in terms of the neighbours that count: how many there are, what they weigh, how much of that was accepted, and the baseline |
| Prediction.EvidenceIs | dokja_domain/dokja_memory/predict.go:118-120 | what is quoted are the five most similar of them, or all if fewer, the most similar first |
| Prediction.OrderDoesNotMatter | dokja_domain/dokja_memory/predict.go:107-130 | the estimate does not depend on the order of the neighbours |
| Prediction.SuccessNeverLowers | dokja_domain/dokja_memory/predict.go:107-130 | turning a neighbour's verdict into a success never lowers the estimate |
| Prediction.PulledIsBetween | dokja_domain/dokja_memory/predict.go:129-130 | a pulled mean lies between the baseline and the share |
| Prediction.Score | dokja_domain/dokja_memory/predict.go:161-185 | means over the scored rows; the baseline is beaten exactly when the prediction's mean is smaller |
| Prediction.OneMoreScored | dokja_domain/dokja_memory/predict.go:161-175 | one more experience is scored exactly if it has a verdict and both chances, and adds the squares of what they missed |
| Controller.Host.Status | dokja_domain/dokja_runtime/runtime.go:78-79 | a status call returns what the engine has, or fails |
| Controller.Host.Start | dokja_domain/dokja_runtime/runtime.go:80-80 | an existing container keeps what it was created with; a new one gets the current settings; a failure may have done either |
| Controller.Host.Ready | dokja_services/dokja_runtime/compose.go:244-290 | a service is reported ready only when it runs, the initializer only when it has completed |
| Controller.Host.Recreate | dokja_domain/dokja_runtime/runtime.go:83-84 | a new container with the current settings; a failed call may have replaced it, removed it or left it |
| Controller.Host.Stop | dokja_domain/dokja_runtime/runtime.go:81-81 | the service no longer runs; a failed call may have stopped it too |
| Controller.Host.Save | dokja_domain/dokja_runtime/runtime.go:87-93 | the journal holds what was given, or what it held before |
| Controller.Domain.constructor | dokja_domain/dokja_runtime/runtime.go:135-160 | a journal is input: names outside the inventory and internal roots are dropped |
| ConfigurationStore.Database.InsertIfAbsent | dokja_store/configuration.go:64-74 | the statement leaves an existing row as it is |
| ConfigurationStore.Database.ReplaceIfSame | dokja_store/configuration.go:92-105 | the statement replaces the row exactly if its whole text is what was read, and counts it |
| Settings.NamesAreDistinct | dokja_domain/dokja_runtime/settings.go:125-140 | the loop over two sets finds exactly the repeated aliases and targets |
| Applicability.Versions | dokja_domain/dokja_knowledge/applicability.go:84-90 | every source is pinned, and the map has each one's version |
| Applicability.CheckPrerequisites | dokja_domain/dokja_knowledge/applicability.go:141-147 | prerequisites are different claims of the proposal |
| Applicability.Verify | dokja_domain/dokja_knowledge/applicability.go:190-198 | quotations are accepted exactly when each stands at its span |
| Applicability.VerifyClaims | dokja_domain/dokja_knowledge/applicability.go:199-222 | every claim's quotations stand, and every claim has its state |
| Review.AnchorAllConflicts | dokja_domain/dokja_knowledge/semantic_review.go:157-171 | every conflict has a bounded statement and anchored quotations, or the reply is refused |
| Review.AnchorReviewQuotes | dokja_domain/dokja_knowledge/semantic_review.go:271-282 | at most four quotations, anchored, each in support or against |
| Review.Note | dokja_domain/dokja_knowledge/semantic_review.go:292-297 | a code is noted once |
| Passages.CheckUnit | dokja_services/dokja_knowledge/passages.py:23-38 | a page in its order, or a chapter with a safe relative path, without null characters |
| Digest.Fresh | dokja_domain/dokja_digest/compose.go:112-131 | the items kept, and how many were too old |
| EnvFile.EnvFile.Rewrite | dokja_services/dokja_runtime/envfile.go:105-123 | the lines there are, each rewritten exactly if it is a written variable's, and a break at the end |
| EnvFile.EnvFile.Append | dokja_services/dokja_runtime/envfile.go:124-128 | one line for every written variable the file did not have, in the catalogue's order |
| EnvFile.EnvFile.ReadWebhooks | dokja_services/dokja_runtime/envfile.go:65-73 | the channel numbers of the pairs, without their addresses |
| KnowledgeStore.Store.DeleteChunks | dokja_services/dokja_knowledge/store.py:43-58 | every row of the document goes, and its index entry with it |
| KnowledgeStore.Store.InsertChunks | dokja_services/dokja_knowledge/store.py:159-163 | new rows after all there are, each with its index entry |
| KnowledgeStore.KnowledgeService.RemoveDocument | dokja_services/dokja_knowledge/service.py:539-543 | removing a document, as specified |
| KnowledgeStore.KnowledgeService.Patch | dokja_services/dokja_knowledge/store.py:190-197 | metadata changes without a new version; chunks and vectors stay |
| Realtime.ConversationContextEngine.Newest | dokja_domain/dokja_conversation/realtime.go:223-227 | every live session once, the latest touched first, equals in any order |
| Realtime.ConversationContextEngine.MembersWithout | dokja_domain/dokja_conversation/realtime.go:120-126 | the loop keeps everyone but the speaker |
| Realtime.ConversationContextEngine.MessagesWithout | dokja_domain/dokja_conversation/realtime.go:127-133 | the loop keeps every message but the speaker's |

## Left out

- Controller.Operate: assumes that saving the journal works; a mark whose save fails stays in memory only, as
  `Controller.Domain.MarkStale` says, and its later recreation is not claimed.
- Controller.Domain.TurnOn: a container that exits by itself while another service is being started is not modelled
  here; `Lifecycle` has such exits.
- Controller.Host.WriteSettings: a failed call is taken to have written nothing, while a failed call to the container
  engine may have done anything; after a write that failed and was kept all the same no reader is marked.
- Controller.Domain.StartService: the ownership it records from an earlier read is not claimed to be stable when starts
  overlap, because reading and writing it are two lock sections.
- Controller.Domain.SetSettings: runs to its end before the next operation; the busy flag and the goroutine that
  applies a change are not interleaved with module operations, because recreating takes neither the lock nor the gates.
- Lifecycle.StartedAtMostOnce: speaks of services that do not stop by themselves; one that exits may be started again.
- Lifecycle.SomeWorkerCanStep: says that some worker can step, not that a scheduler runs it; time limits and contexts
  are calls that may fail.
- Progress states, logs and the status list of the runtime controller, and the provider and chat settings, are wiring.
- ConfigurationStore.Database.Update: JSON encoding is a parameter that decodes what it encoded; text that is not
  UTF-8 is outside it.
- DatabaseSettings.SettingsPort.Write: the mutex and the retry after a conflict at the caller are not modelled.
- Downloads.ModelState.PullModel: removing a model, starting the engine and comparing model names by tag are left out.
- Terminal.PullReader.Write: what a line means (layers, percentages, the last error) is not modelled; lines are what
  is compared, and an empty line means nothing. Trimming is any function with the two laws of `Trims`.
- Realtime.ConversationContextEngine.ObserveMessage: the clock is read once in each operation, and cleaning a display
  name is a parameter.
- Applicability.AssessApplication: the copied goal, titles and references of a result are left out; sizes of JSON
  encodings, UTF-8 and fingerprints are parameters.
- Proposals.DecodeProposal: starts from the decoded reply; JSON, its size limit and required fields are not modelled.
- Review.DecodeReview: starts from the decoded reply, without the enclosing code fence; which model reviewed which is
  left out.
- Passages.OriginalSource: base64, the file name and the file's hash are left out; the version is a parameter.
- Passages.Resolve: a locator that is no record of the right types is one case; the navigation list is left out.
- Chunker.ChunkText: takes the lines; replacing CRLF and splitting at line breaks are library calls.
- Digest.Compose: the key of an address, letter case, what is a letter and the search in an item are parameters.
- EnvFile.EnvFile.Write: permissions, the temporary file and disk errors are left out, and so is the scanner's limit on
  the length of a line in `EnvFile.EnvFile.Read`.
- KnowledgeStore.Store.ReplaceDocument: timestamps, tags, locators and stored originals are left out; a statement that
  fails is rolled back by SQLite and is no step of the model.
- KnowledgeStore.KnowledgeService.Patch: the comparison of revisions before a patch is left out; a refused patch changes
  nothing.
- KnowledgeStore.KnowledgeService.Embeddings: filtered searches read the store directly and are left out.
- Prediction.Predict: over the reals; rounding is left out.
- Choosing the turns of a context, conversation titles and the conversation store's own rules would add easy members
  or are only known by their interface.
- Search fusion, speech, OCR, image screening, the interfaces (Discord, WhatsApp, CLI, desktop) and the legacy code are
  outside libraries or wiring.

# Verified model of the customer event pipeline and the migration planner

This project models, in Dafny, how a customer change travels from the aggregate to
the read model, and how the migration tool plans its runs:

- the Kafka retry-hop and dead-letter protocol (`Kafka*.dfy`): readers, append-only
  logs, committed offsets, retry topics, restarts anywhere;
- the transactional outbox and its relay (`Outbox*.dfy`);
- the customer aggregate, repository, command handlers, event mapping, in-process
  bus and the two projections (`Customer*.dfy`, `Repository.dfy`, `Commands.dfy`,
  `CommandsExact.dfy`, `EmailRace.dfy`, `Messaging.dfy`, `LocalBus.dfy`,
  `Projections.dfy`, `Rewind.dfy`, `Listing.dfy`),
  joined end to end in `Pipeline.dfy`;
- optimistic concurrency of the two repositories (`Concurrency.dfy`);
- the migration planner (`Migrate*.dfy`).

Objects the program updates in place are classes whose methods are proved against
functions on values; the theorems are about those functions and about step systems
built from them. Lemmas named `...Exactly` say what an operation gives for all inputs
without naming its own steps. `dafny verify dfyconfig.toml` covers the whole project.

Conventions: time is an integer tick and 0 is the zero time; payloads are the records
their JSON encodes, or text that does not parse; SQL statements are functions on a map
of rows; text is ASCII; `int` is unbounded except where 64-bit wrap-around is written
out (backoff, decimal parsing); generated ids are fresh; messages published to a
business topic carry no attempt header. Sorting is an insertion sort standing for the
library's; wherever the order is strict its result is unique.

Places where the code does less than its documentation suggests, each with its exact
condition proved:

- The read loop goes on after a failed hop write, and a later commit acknowledges the
  message it left behind ("leaving offset uncommitted for redelivery" holds only if the
  reader restarts first): `KafkaSafety.LossExactly`, `KafkaLossExample.RestartIsNeeded`.
- The in-memory repository accepts a save at the version already stored. Over a run,
  every accepted save is based on the current row exactly when no save meets its own
  version; otherwise an intervening write is overwritten: `Concurrency.MemoryLosesExactly`,
  `Concurrency.MemoryLosesAnUpdate`.
- In memory nothing is locked between the email check and the save, so overlapping
  commands can share an address: `EmailRace.IndexedExactly`.
- "Ascending version order" is numeric going up and textual going down, and going up it
  need not be an order: `MigrateRuns.UndoneExactly`, `MigrateRuns.PrefixExactly`,
  `Migrate.LoadOrderExactly`.
- The backoff caps its result only while the doubling does not wrap:
  `KafkaRetry.CappedPowerExactly`.

## Model

| member | source | states |
|---|---|---|
| KafkaSafety.NothingIsLost | internal/eventbus/kafka/consumer.go:26-152 | over every run with restarts anywhere in which a reader whose hop or dead-letter write did not land restarts before its next commit: every logged message is completed (no subscriber included), dead-lettered, or waits uncommitted, itself or as a copy found by following its hops |
| KafkaSafety.LossExactly | internal/eventbus/kafka/consumer.go:26-152 | over every run from an empty cluster: every message is found that way if and only if no commit of the run went over an offset that was neither handled nor sent on |
| KafkaSafety.RunResolvesExactly | internal/eventbus/kafka/consumer.go:26-41 | from any state of the invariant, a run leaves every acknowledged message handled or with a copy that landed (acknowledged or not) if and only if none of its commits ran over an offset without either |
| KafkaSafety.StepResolvesExactly | internal/eventbus/kafka/consumer.go:148-152 | one step keeps that, if and only if it is not such a commit |
| KafkaSafety.LossIsPermanent | internal/eventbus/kafka/consumer.go:31-41 | an unresolved message below the committed offset stays so, unchanged and below the reader position, on every further run, so no later fetch takes it |
| KafkaSafety.LandedIsResolved | internal/eventbus/kafka/consumer.go:99-113 | a write that lands resolves its offset even if its acknowledgement is lost, and no step undoes that |
| KafkaSafety.DisciplineNeverPasses | internal/eventbus/kafka/consumer.go:109-113 | restarting after a write that did not land, before the next commit, rules such commits out |
| KafkaSafety.ResolvedMeansFound | internal/eventbus/kafka/consumer.go:94-145 | following the recorded hops of a resolved message always ends at a place that exists and holds the same key and value |
| KafkaLossExample.RestartIsNeeded | internal/eventbus/kafka/consumer.go:31-41 | a run without the restart whose first message is acknowledged and never completed, with the retry topic and the dead-letter topic empty |
| KafkaSafety.RunKeepsInv | internal/eventbus/kafka/consumer.go:26-152 | every run keeps the protocol invariant: positions, headers, deadlines and recorded destinations of all logs |
| KafkaProtocol.StepOk | internal/eventbus/kafka/consumer.go:44-152 | every single step, with any handler, write and commit result, keeps that invariant |
| KafkaProtocol.StepExtends | internal/eventbus/kafka/consumer.go:94-145 | logs and the dead-letter topic only grow; keys and values in them never change |
| KafkaProtocol.OnwardOk | internal/eventbus/kafka/consumer.go:94-135 | the message sent on carries the next attempt and a deadline no earlier than first failure plus all delays so far (KafkaExact.OnwardExactly says the deadline exactly) |
| KafkaExact.DispatchExactly | internal/eventbus/kafka/consumer.go:59-90 | a dispatched message is completed if and only if it decodes and every handler returned nil; otherwise it is on its way to a retry or the dead-letter topic; nothing else changes |
| KafkaExact.SendingExactly | internal/eventbus/kafka/consumer.go:94-135 | where a message that is not completed goes: hop attempt+1 if it decodes and that is at most MaxRetries, else the dead-letter topic, with its key and value, attempt, business topic, error, and as deadline now plus the delay of that attempt, or now |
| KafkaExact.OnwardExactly | internal/eventbus/kafka/consumer.go:94-135 | the same of the message alone |
| KafkaExact.HopDeadline | internal/eventbus/kafka/consumer.go:99-108 | the message written to hop n reads back exactly now + min(base*2^(n-1), cap) |
| KafkaExact.WriteExactly | internal/eventbus/kafka/consumer.go:108-145 | a refused write leaves everything as it was; one that lands appends exactly the message and records where; only an acknowledged one goes on to commit |
| KafkaExact.CursorExactly | internal/eventbus/kafka/consumer.go:26-41 | a fetch takes the next message, a commit acknowledges everything up to its message, a failed commit nothing, a restart goes back to what was acknowledged |
| KafkaExact.ProduceExactly | internal/eventbus/kafka/bus.go:164-187 | a published message is appended to its topic as it is |
| KafkaExact.CompletedWasHandled | internal/eventbus/kafka/consumer.go:77-90 | over every run, a completed message was at some step dispatched to all its subscribers with every one returning nil |
| KafkaExact.HandledStaysResolved | internal/eventbus/kafka/consumer.go:77-90 | and a message so handled is never lost |
| KafkaSafety.ReachableHeaders | internal/eventbus/kafka/consumer.go:59-146 | in every reachable state a message on retry topic n reads back attempt n, 1 <= n <= MaxRetries, and decodes; a dead letter carries MaxRetries+1 if it decodes and 1 if it does not |
| KafkaSafety.ReachableDeadlines | internal/eventbus/kafka/consumer.go:47-107 | an exhausted message is dead-lettered no sooner than the sum of all backoff delays after its first failure; for base < 2^62 and cap <= 2^62 that is min(base, cap) + min(2*base, cap) + ... over MaxRetries attempts |
| KafkaSafety.RunCovers | internal/eventbus/kafka/bus.go:209-215 | the readers that Run starts cover every retry topic of every consumed business topic |
| KafkaSafety.RetryTopicHasReader | internal/eventbus/kafka/consumer.go:99-108 | in every reachable state a reader about to send a message on finds a consumed topic to write to |
| KafkaConservation.Conservation | internal/eventbus/kafka/consumer.go:44-127 | on every crash-free run whose writes succeed, with any number of readers inside handle at once and any commit results: published = unread + waiting + in hand + completed + dead-lettered, and the fetches made plus the messages waiting are at most arrivals*(MaxRetries+1) |
| KafkaConservation.SmoothStep | internal/eventbus/kafka/consumer.go:44-127 | every single step of such a run keeps that balance; ending a handle strictly lowers the sum of (MaxRetries+1-attempt) over waiting and held messages, an arrival raises it by MaxRetries+1, nothing else changes it |
| KafkaConservation.HandleEffect | internal/eventbus/kafka/consumer.go:44-145 | one uninterrupted handle completes its message, moves it exactly one hop on, or dead-letters it, and touches nothing else |
| KafkaConservation.BudgetCoversWaiting | internal/eventbus/kafka/retry.go:57-62 | that sum is at least the number of waiting and held messages of all logs together, so when it is spent nothing waits |
| KafkaConservation.Settled | internal/eventbus/kafka/consumer.go:44-127 | after arrivals*(MaxRetries+1) fetches, or once nothing waits, and with no handle under way, every arrival is completed or dead-lettered |
| KafkaConservation.NeverStuck | internal/eventbus/kafka/consumer.go:47-57 | in every state of the invariant with every retry topic consumed, each reader can go on: fetch what waits, dispatch at some time whatever the handlers return, write, commit |
| KafkaConsumer.Cluster.Handle | internal/eventbus/kafka/consumer.go:44-90 | waiting, decoding, dispatching, committing: the statements of handle lead exactly to the state of the protocol steps |
| KafkaConsumer.HandleExactly | internal/eventbus/kafka/consumer.go:44-152 | how a handle ends: the reader is idle, and the message is acknowledged if and only if it was completed by every handler or its write was acknowledged, and the commit went through |
| KafkaConsumer.WaitsUntilDue | internal/eventbus/kafka/consumer.go:47-57 | a handle waits exactly until the deadline of its message, if that is still ahead |
| KafkaConsumer.Cluster.Fail | internal/eventbus/kafka/consumer.go:94-127 | retry or dead-letter by the attempt header, commit only after an acknowledged write |
| KafkaConsumer.Cluster.DeadLetter | internal/eventbus/kafka/consumer.go:131-146 | writes the message with its attempt count to the dead-letter topic and reports whether the write was acknowledged |
| KafkaConsumer.Cluster.CommitOffset | internal/eventbus/kafka/consumer.go:148-152 | an acknowledged commit moves the committed offset past the message; a failed one only ends the handle |
| KafkaConsumer.HandleIsRun | internal/eventbus/kafka/consumer.go:44-152 | one handle is one stretch of a protocol run, so all results about runs apply to it |
| KafkaBus.Bus.constructor | internal/eventbus/kafka/bus.go:57-79 | a configured MaxRetries of at least 1 is kept; any other becomes 3 |
| KafkaBus.Bus.Subscribe | internal/eventbus/kafka/bus.go:149-161 | adds one handler, last, to exactly one (topic, event name) pair; an empty name or missing handler is refused and changes nothing |
| KafkaBus.Bus.MatchingHandlers | internal/eventbus/kafka/bus.go:283-293 | the handlers of one event name on one business topic, in subscription order |
| KafkaBus.HandlersExactly | internal/eventbus/kafka/bus.go:283-293 | they are the handlers of exactly the topic's bindings with that event name, at increasing positions |
| KafkaBus.Bus.Run | internal/eventbus/kafka/bus.go:192-238 | the first call starts exactly one reader per business topic and, for n up to MaxRetries, per topic named business.retry.n, in any map order; later calls are refused |
| KafkaRetry.ExponentialBackoff | internal/eventbus/kafka/retry.go:26-43 | for 0 <= base < 2^62 and 0 <= max <= 2^62 the 64-bit loop returns min(base*2^(max(attempt,1)-1), max) |
| KafkaRetry.DelayIsCappedPower | internal/eventbus/kafka/retry.go:26-43 | the closed form, for every attempt, so no doubling wraps in that range |
| KafkaRetry.DelayMonotone | internal/eventbus/kafka/retry.go:26-43 | a later attempt never waits less |
| KafkaRetry.CappedPowerExactly | internal/eventbus/kafka/retry.go:26-43 | for every base and cap from 0 to the largest 64-bit value, the closed form holds for every attempt if and only if the base is 0 or one of its doublings reaches the cap and still fits 64 bits |
| KafkaRetry.DelayWraps | internal/eventbus/kafka/retry.go:26-43 | without such a doubling some attempt waits a negative time |
| KafkaRetry.SecondAttemptWraps | internal/eventbus/kafka/retry.go:34-40 | from base 2^62 on it is the second attempt already |
| KafkaRetry.FindHeaderValue | internal/eventbus/kafka/retry.go:91-98 | the value of the first header with the key, or empty text if there is none |
| KafkaRetry.HeadersRoundTrip | internal/eventbus/kafka/retry.go:78-122 | attempt and deadline read back as written, for every 64-bit attempt |
| KafkaRetry.OriginRoundTrip | internal/eventbus/kafka/retry.go:78-98 | business topic and last error read back as written |
| KafkaRetry.AttemptDefaultsToZero | internal/eventbus/kafka/retry.go:102-108 | without the header a message counts as never retried |
| KafkaTopics.DefaultTopicFor | internal/eventbus/kafka/bus.go:87-99 | the nested scan computes the convention stated on dot-separated fields |
| KafkaTopics.TopicForIsBusiness | internal/eventbus/kafka/bus.go:81-99 | a name with at least two dots maps to a three-field business topic |
| KafkaTopics.TopicExactly | internal/eventbus/kafka/bus.go:87-99 | with at least two dots the topic is the first two fields and "events", otherwise the name itself |
| KafkaTopics.TopicForIdempotent | internal/eventbus/kafka/bus.go:87-99 | naming the topic of a topic changes nothing, for every string |
| KafkaTopics.ParseOfName | internal/eventbus/kafka/retry.go:66-73 | a physical topic name determines its kind, business topic and attempt |
| KafkaTopics.NamesAreDistinct | internal/eventbus/kafka/retry.go:66-73 | business, retry and dead-letter names never collide |
| KafkaTopics.ShortNamesCollide | internal/eventbus/kafka/bus.go:98 | a pair of event names that collides: x.dlq is the dead-letter topic of x |
| KafkaTopics.DlqCollidesExactly | internal/eventbus/kafka/bus.go:87-99 | for all event names, the topic of one is the dead-letter topic of the topic of another if and only if the other has no dots and the one is it with ".dlq" appended |
| KafkaTopics.RetryNeverCollides | internal/eventbus/kafka/retry.go:66-68 | for all event names, a topic is never a retry topic of a topic |
| KafkaTopics.RetryIsNoDlq | internal/eventbus/kafka/retry.go:66-73 | for all topics, a retry topic is never a dead-letter topic |
| Text.AtoiOfItoa | internal/eventbus/kafka/retry.go:80 | printing and parsing the attempt header is a round trip for every 64-bit value |
| Text.SplitOfJoined | internal/eventbus/kafka/retry.go:66-73 | splitting at dots distributes over joining with a dot |
| Text.JoinOfSplit | internal/eventbus/kafka/bus.go:87-99 | a name is its fields joined by dots |
| OutboxProgress.DeliveredWithin | internal/eventbus/outbox/relay.go:74-93 | with p-1 publishable and f < B permanently failing messages ahead, a publishable message is delivered within ceil(p/(B-f)) whole drains, whatever is added between them and whatever happens behind it |
| OutboxWatch.DeliveredOverRuns | internal/eventbus/outbox/relay.go:74-93 | the same bound over every run of single fetch, publish and mark steps, with events added anywhere, also inside a drain |
| OutboxWatch.BlockedOverRuns | internal/eventbus/outbox/relay.go:74-93 | with f >= B it is never delivered, over every such run |
| OutboxWatch.StepSees | internal/eventbus/outbox/relay.go:74-93 | every step keeps the place of the watched message; a fetch brings it one drain closer and nothing takes it further away |
| OutboxProgress.NeverDelivered | internal/eventbus/outbox/relay.go:74-93 | with f >= B permanently failing messages ahead it is never delivered, however many drains run |
| OutboxProgress.DeliveredStays | internal/eventbus/outbox/store.go:71-99 | a delivered message never becomes pending again |
| OutboxProgress.CeilDivIsLeast | internal/eventbus/outbox/relay.go:74-93 | the bound is the least number of (B-f)-sized steps that covers p |
| OutboxProgress.DrainPending | internal/eventbus/outbox/relay.go:74-93 | a drain keeps refused messages in place, drops accepted ones and leaves everything behind the batch alone |
| OutboxProgress.ForwardExactly | internal/eventbus/outbox/relay.go:74-93 | what a drain does to each stored message: accepted ones are published with that time and no error, refused ones failed with the reason and one attempt more, all others untouched |
| OutboxProgress.Relay.Drain | internal/eventbus/outbox/relay.go:74-93 | the batch loop marks exactly the accepted and the refused messages and returns how many were accepted |
| OutboxProgress.Relay.constructor | internal/eventbus/outbox/relay.go:30-44 | a configured batch size of at least 1 is kept; any other becomes 100 |
| OutboxProgress.DrainIsRun | internal/eventbus/outbox/relay.go:74-93 | a whole drain is a fetch and one publish and mark per message, so what holds of every relay run holds of drains |
| OutboxRelay.RelayBooks | internal/eventbus/outbox/relay.go:74-93 | over every interleaving of adds with single publish and mark steps: order lists the stored ids once each, an id is published at most once, attempts count its refusals, added = published + pending |
| OutboxRelay.StatusTells | internal/eventbus/outbox/store.go:88-112 | over every run a stored message is published, with a time and no error, if and only if it was delivered; failed if and only if refused and not delivered since; pending, without error, if and only if neither |
| OutboxRelay.DeliveryIsFifo | internal/eventbus/outbox/relay.go:74-93 | if nothing is refused, the publish sequence is a prefix of insertion order |
| OutboxRelay.StepKeepsInv | internal/eventbus/outbox/relay.go:74-93 | every single relay step keeps the books |
| Outbox.MemoryStore.Add | internal/eventbus/outbox/store.go:58-69 | appends the events in order, skipping ids already stored |
| Outbox.MemoryStore.FetchPending | internal/eventbus/outbox/store.go:71-86 | copies of the oldest unpublished messages in insertion order, at most limit of them if limit is positive |
| Outbox.MemoryStore.MarkPublished | internal/eventbus/outbox/store.go:88-100 | marks the known ids published and clears their error; order stays |
| Outbox.MemoryStore.MarkFailed | internal/eventbus/outbox/store.go:102-112 | marks a known id failed, counts the attempt and keeps its place |
| Outbox.MemoryStore.PendingCount | internal/eventbus/outbox/store.go:114-124 | the count over the map is the length of the pending list, and what is left over is published |
| Outbox.AddAllPending | internal/eventbus/outbox/store.go:58-69 | the pending list grows by exactly the ids not seen before, in order |
| Outbox.AddAllKeeps | internal/eventbus/outbox/store.go:58-69 | adding never touches a stored message |
| Outbox.AddExactly | internal/eventbus/outbox/store.go:58-69 | an add stores, under every id not yet stored, the first event of that id, pending, not attempted, with the time of the add, and nothing else |
| Outbox.InsertedExactly | internal/eventbus/outbox/store.go:58-69 | the order grows by exactly the new ids, at increasing positions of the events |
| Outbox.PendingExactly | internal/eventbus/outbox/store.go:71-86 | the pending list is exactly the stored ids not marked published, at increasing positions of the insertion order |
| Outbox.BatchExactly | internal/eventbus/outbox/store.go:71-86 | a batch is the first limit of it, or all of it |
| Outbox.MarkExactly | internal/eventbus/outbox/store.go:88-112 | what each mark sets in its message (status, time, error, attempts) and that nothing else changes |
| Outbox.PendingSplits | internal/eventbus/outbox/store.go:71-86 | pending and published ids partition the store, each once |
| Pipeline.ReadModelPlusBacklogIsWriteModel | internal/eventbus/outbox/relay.go:74-93 | after every step of every interleaving of whole commands with single fetch, publish and mark steps, replaying the unpublished events in insertion order onto the read model gives exactly the view of every stored customer |
| Pipeline.CaughtUp | internal/customer/infrastructure/projections/memory_read_model.go:56-108 | so when nothing is pending the read model equals the write model |
| Pipeline.CatchesUp | internal/eventbus/outbox/relay.go:74-93 | from every reachable state, once commands stop, any 3n relay steps with n events pending make the read model the write model |
| Pipeline.RelayWorks | internal/eventbus/outbox/relay.go:74-93 | without new commands every relay step is one step closer to that, until nothing is pending |
| Pipeline.RelayEnabled | internal/eventbus/outbox/relay.go:74-93 | in every reachable state the relay can take a step |
| Pipeline.StepKeepsInv | internal/customer/application/commands/change_email.go:36-54 | every command and every relay step keeps that refinement |
| Pipeline.PublishKeepsInv | internal/eventbus/outbox/relay.go:79-90 | a publish through the wired handlers succeeds and keeps the refinement even before its mark |
| LocalBus.WiredPublish | internal/eventbus/local/bus.go:46-63 | a mapped customer event published through the wired bus always succeeds and is exactly one projection step |
| LocalBus.Wire | internal/bootstrap/modules.go:71-76 | registering in start-up order gives the subscription table the other results use |
| LocalBus.Bus.Subscribe | internal/eventbus/local/bus.go:33-43 | appends the handler to its event name; an empty name or missing handler is refused |
| LocalBus.Bus.Publish | internal/eventbus/local/bus.go:46-63 | events in order, every handler of each even after a failure; the result is nil exactly when all were |
| LocalBus.FanOutConcat | internal/eventbus/local/bus.go:46-63 | every handler runs, whatever the ones before it returned |
| LocalBus.PublishConcat | internal/eventbus/local/bus.go:46-63 | every event is delivered, whatever happened to the ones before it |
| LocalBus.FanOutReports | internal/eventbus/local/bus.go:46-63 | the result is nil if and only if no handler that reads the payload met one that does not parse |
| Messaging.Dispatcher.Publish | internal/customer/infrastructure/messaging/dispatcher.go:29-43 | the outbox gains exactly the mapped events, in order; unmapped ones drop out |
| Messaging.EnvelopeExactly | internal/customer/infrastructure/messaging/event_mappers.go:47-78 | what each envelope says: id, aggregate, source, version, time, name and data; only unpublished kinds have none |
| Messaging.MappedExactly | internal/customer/infrastructure/messaging/dispatcher.go:29-43 | the mapped events are the envelopes of exactly the published domain events, in order, each under its own id |
| Commands.EmailsStayUnique | internal/customer/application/commands/create_customer.go:30-58 | over every run of commands the email index is the exact inverse of the stored emails, a lookup answers what a scan would, and no two customers share an email |
| EmailRace.IndexedExactly | internal/customer/infrastructure/persistence/memory/repository.go:43-67 | over every interleaving of uniqueness checks and saves (no lock is held between them) the index stays exact if and only if no accepted save finds its address indexed for someone else |
| EmailRace.TwoCreatesShareAnAddress | internal/customer/application/commands/create_customer.go:40-53 | two creates that both check before either saves are both accepted, and two customers share the address |
| EmailRace.CheckedSaveIsSafe | internal/customer/application/commands/create_customer.go:40-53 | a save that directly follows its check takes nobody else's address |
| Commands.CommandKeepsInv | internal/customer/application/commands/change_email.go:26-56 | every command keeps the index exact, every snapshot loadable and the outbox well-formed |
| Commands.FailedCommandChangesNothing | internal/customer/application/commands/create_customer.go:40-53 | a command that reports an error left repository and outbox unchanged, with no rollback |
| Commands.Handlers.HandleCreate | internal/customer/application/commands/create_customer.go:30-58 | validation, uniqueness, build, save, publish: the statements lead exactly to the state and error that the laws below describe |
| Commands.Handlers.HandleChangeEmail | internal/customer/application/commands/change_email.go:26-56 | validation, load, no-op, uniqueness, change, save, publish: the statements lead exactly to the state and error that the laws below describe |
| CommandsExact.ChangeExactly | internal/customer/application/commands/change_email.go:26-56 | the command takes effect if and only if the customer is stored and active, the address is well-formed, not its own and not taken; then exactly that address and the next version are stored, every other customer is unchanged and one event with both addresses is appended; otherwise nothing changes |
| CommandsExact.ChangeErrors | internal/customer/application/commands/change_email.go:26-56 | exactly when it returns a validation error, not found, a conflict, or none |
| CommandsExact.CreateExactly | internal/customer/application/commands/create_customer.go:30-58 | likewise for create: a well-formed free address, an id and a name of 1 to 200 characters; the stored row, the appended event and each error |
| Repository.SaveKeepsIndexExactly | internal/customer/infrastructure/persistence/memory/repository.go:43-59 | a save keeps the index exact if and only if its address is not indexed for someone else |
| Repository.IndexAnswersScan | internal/customer/infrastructure/persistence/memory/repository.go:62-67 | with an exact index the lookup answers a scan and addresses are unique |
| Repository.MemoryRepository.Save | internal/customer/infrastructure/persistence/memory/repository.go:43-59 | refuses an older version unchanged; otherwise replaces the snapshot and moves the index entry |
| Repository.SaveExactly | internal/customer/infrastructure/persistence/memory/repository.go:43-59 | refused if and only if a newer version is stored; otherwise the snapshot is stored, its address leads to it and its former address nowhere, and nothing else changes |
| Repository.MemoryRepository.FindByID | internal/customer/infrastructure/persistence/memory/repository.go:32-41 | not found, or the aggregate its snapshot reloads to |
| Repository.MemoryRepository.ExistsByEmail | internal/customer/infrastructure/persistence/memory/repository.go:62-67 | true exactly when some stored customer has the address, if the index is exact |
| CustomerLife.LifeHolds | internal/customer/domain/customer.go:31-90 | for every sequence of changes, deactivations, pulls and reloads after registration: version = events ever recorded, folding the mapped events gives the current row, and the snapshot reloads to the same state |
| CustomerLife.DeactivationAbsorbs | internal/customer/domain/customer.go:58-90 | once deactivated nothing but the event buffer ever changes |
| CustomerLife.StepKeepsInv | internal/customer/domain/customer.go:58-90 | every operation keeps version count and mirror |
| Customer.SnapshotRoundTrip | internal/customer/domain/snapshot.go:18-53 | a snapshot reloads successfully to the same state with an empty event buffer |
| Customer.ReloadExactly | internal/customer/domain/snapshot.go:32-53 | exactly which snapshots reload, and to what |
| Customer.NewCustomer | internal/customer/domain/customer.go:31-55 | version 1, active, one created event buffered; an empty id or a name that is empty or over 200 is refused |
| Customer.RegisteredExactly | internal/customer/domain/customer.go:31-55 | a customer is registered if and only if it has an id and a name of 1 to 200 characters, active, at version 1, with one event telling so |
| Customer.ChangesTell | internal/customer/domain/customer.go:58-90 | what each change sets and leaves alone, when it is refused, and what its event tells |
| Customer.Customer.ChangeEmail | internal/customer/domain/customer.go:58-75 | conflict if deactivated, no-op on the same address, otherwise one version and one event more |
| Customer.Customer.Deactivate | internal/customer/domain/customer.go:78-90 | no-op if deactivated, otherwise one version and one event more |
| Customer.Customer.RecordEvent | internal/shared/domain/aggregate.go:13-15 | appends to the event buffer |
| Customer.Customer.PullEvents | internal/shared/domain/aggregate.go:19-23 | hands the buffer over once and clears it |
| Email.NewEmailIdempotent | internal/customer/domain/email.go:15-31 | an accepted address is left as it is by validating it again |
| Email.NewEmailAccepts | internal/customer/domain/email.go:15-31 | exactly the texts local@domain with one @, a local part and a dotted domain are accepted |
| Email.NewEmailExactly | internal/customer/domain/email.go:15-31 | an address is accepted if and only if its text, without the white space around it and with A-Z in lower case, has that shape, and that text is the result |
| Email.NormalText | internal/customer/domain/email.go:16 | the text checked and stored is the only one that is raw without the white space around it, each letter in lower case |
| Rewind.MemorySuffixRewind | internal/customer/infrastructure/projections/memory_read_model.go:56-108 | delivering any suffix of what was delivered again, in order, changes nothing, from any rows |
| Rewind.MemoryRewind | internal/customer/infrastructure/projections/memory_read_model.go:56-108 | delivering everything again changes nothing |
| Rewind.SqlRewindExactly | internal/customer/infrastructure/projections/postgres_read_model.go:45-87 | for the SQL projection that holds if and only if no customer without a row is deactivated and created but never deactivated after a creation |
| Rewind.SqlRewindCanFail | internal/customer/infrastructure/projections/postgres_read_model.go:45-87 | deactivated, then created, delivered twice to an empty table: the second pass changes it, for every customer |
| Rewind.SqlSuffixRewind | internal/customer/infrastructure/projections/postgres_read_model.go:45-87 | with each created event first, a SQL rewind to any suffix changes nothing |
| Rewind.AgreeExactly | internal/customer/infrastructure/projections/postgres_read_model.go:45-87 | both projections hold the same rows after every prefix if and only if no delivered created event finds a row with another status or creation time |
| Rewind.ProjectionsAgree | internal/customer/infrastructure/projections/postgres_read_model.go:45-87 | so they agree whenever repeated created events are the same event and none follows an effective deactivation |
| Projections.OrderAcrossCustomersIsIrrelevant | internal/customer/infrastructure/projections/memory_read_model.go:56-108 | two delivery orders that agree per customer give the same rows, in both projections |
| Projections.ReplayRow | internal/customer/infrastructure/projections/memory_read_model.go:56-108 | a row after a delivery sequence depends only on the events about that customer |
| Projections.ClockIsIrrelevant | internal/customer/infrastructure/projections/memory_read_model.go:148-153 | for events that carry a time the wall clock at delivery does not matter |
| Projections.UnstampedUsesClock | internal/customer/infrastructure/projections/memory_read_model.go:148-153 | a created event without a time takes the wall clock's |
| Projections.MemoryReadModel.OnCreated | internal/customer/infrastructure/projections/memory_read_model.go:56-75 | replaces the whole row; fails, changing nothing, exactly on an unparsable payload |
| Projections.MemoryReadModel.OnEmailChanged | internal/customer/infrastructure/projections/memory_read_model.go:77-92 | updates the email of an existing row only |
| Projections.MemoryReadModel.OnDeactivated | internal/customer/infrastructure/projections/memory_read_model.go:94-108 | marks an existing row inactive only |
| Projections.PostgresReadModel.OnCreated | internal/customer/infrastructure/projections/postgres_read_model.go:45-62 | inserts, or on conflict updates name and email and keeps status and creation time |
| Projections.PostgresReadModel.OnEmailChanged | internal/customer/infrastructure/projections/postgres_read_model.go:64-75 | updates the email of an existing row only |
| Projections.PostgresReadModel.OnDeactivated | internal/customer/infrastructure/projections/postgres_read_model.go:77-87 | marks an existing row inactive only |
| Listing.List | internal/customer/infrastructure/projections/memory_read_model.go:122-146 | whatever order the map is visited in, the page is the window of the one arrangement of all rows by creation time and id |
| Listing.ListingUnique | internal/customer/infrastructure/projections/memory_read_model.go:130-135 | that arrangement is unique |
| Listing.ListingSorted | internal/customer/infrastructure/projections/memory_read_model.go:130-135 | creation times never go down, and among rows of one time the ids go up |
| Listing.WindowExactly | internal/customer/infrastructure/projections/memory_read_model.go:137-145 | a page holds the rows from its offset on, as many as its limit or as there are |
| Listing.PagesCoverRows | internal/customer/infrastructure/projections/memory_read_model.go:137-145 | pages at offsets 0, L, 2L, ... concatenate to every row exactly once in order, if and only if there are enough of them |
| Listing.NewPage | pkg/pagination/pagination.go:24-35 | a limit that is not positive becomes 20, one over 100 becomes 100, a negative offset becomes 0, and nothing else changes |
| Concurrency.NoLostUpdate | internal/customer/infrastructure/persistence/postgres/repository.go:66-87 | over every interleaving of registrations, loads and saves, every accepted save is based on the current row, the table is that of the accepted saves run one after the other, and emails stay unique |
| Concurrency.StepIsSerial | internal/customer/infrastructure/persistence/postgres/repository.go:66-87 | with either guard, every step that does not save at the version already stored saves only what is based on the current row, and leaves the table alone or redoes its own change on it |
| Concurrency.AcceptedIsCurrent | internal/customer/infrastructure/persistence/postgres/repository.go:76 | away from equal versions either guard accepts a row one version on only if its base is the current row |
| Concurrency.PostgresRepository.Save | internal/customer/infrastructure/persistence/postgres/repository.go:66-87 | insert, guarded update that keeps the creation time, conflict if no row was touched, refusal by the unique index |
| Concurrency.SqlSaveExactly | internal/customer/infrastructure/persistence/postgres/repository.go:66-87 | exactly what is accepted and what is then stored, the old creation time included |
| Concurrency.ChangedRowExactly | internal/customer/domain/customer.go:58-90 | exactly which changes of a stored customer take effect and what they save |
| Concurrency.ChangeBumpsOnce | internal/customer/domain/customer.go:58-90 | an effective change keeps id and creation time and raises the version by one |
| Concurrency.GuardsDifferAtEqualVersions | internal/customer/infrastructure/persistence/memory/repository.go:43-59 | the memory guard refuses only what the SQL save does; where it alone accepts, the versions are equal or (a matter of the unique index) the address is taken |
| Concurrency.MemoryLosesExactly | internal/customer/infrastructure/persistence/memory/repository.go:43-59 | over every interleaving with the memory guard, every accepted save is based on the current row if and only if no save of the run meets the row at its own version; then the table is that of the accepted saves run one after the other |
| Concurrency.LaxIsMemory | internal/customer/infrastructure/persistence/memory/repository.go:43-59 | the lax guard is the in-memory Save |
| Concurrency.EqualVersionOverwrites | internal/customer/infrastructure/persistence/memory/repository.go:43-59 | an accepted save at the equal version replaces a row it was not based on |
| Concurrency.TieSpreads | internal/customer/infrastructure/persistence/memory/repository.go:43-59 | after such a save a client holding the replaced row can overwrite in turn, at a version of its own |
| Concurrency.MemoryLosesAnUpdate | internal/customer/infrastructure/persistence/memory/repository.go:43-59 | for every active row two racing clients are both accepted and the deactivation is gone, though the serial run keeps it |
| MigrateRuns.UndoneExactly | cmd/migrate/main.go:64-242 | over whole runs, with files missing or failing: from every prefix, rolling back as many files as a run got through (at least one) takes exactly those in reverse and restores the applied set, if and only if every migration with an up file is textually greater than all before it and has a down file |
| MigrateRuns.PrefixExactly | cmd/migrate/main.go:64-188 | every sequence of up and down runs from an empty database, with any step counts and any failing files, keeps the applied set a prefix of the load order, if and only if, for every k whose first k migrations have up files, the textually greatest of these is the k-th or has no down file |
| MigrateRuns.CompleteExactly | cmd/migrate/main.go:64-242 | with every file present both properties hold if and only if the load order is the textual order |
| MigrateRuns.DownUndoesUp | cmd/migrate/main.go:158-242 | exactly when the roll-back undoes one run, for every prefix, step count and set of failing files: each file that got through is textually greater than all before it and has a down file; if none got through, only when nothing is applied (one file is rolled back otherwise) |
| MigrateLaws.EqualWidthIsTextual | cmd/migrate/main.go:280-287 | versions that are digit strings of one width load in textual order, also where they overflow 64 bits |
| MigrateRuns.RunsKeepPrefix | cmd/migrate/main.go:83-107 | in textual order every sequence of runs keeps a prefix, from any prefix and with any files missing or failing |
| MigrateLaws.DownFromFirst | cmd/migrate/main.go:214-242 | from the first k migrations a roll-back plans the last ones of them, in reverse |
| MigrateLaws.UpFromFirst | cmd/migrate/main.go:199-210 | from the first k migrations a run plans the next ones, in order |
| MigrateRuns.NineAndTen | cmd/migrate/main.go:280-287 | versions 9 and 10 load in numeric order; which of their files must be missing for either property to hold, so with all files present both fail |
| MigrateRuns.RunIsInvocation | cmd/migrate/main.go:64-107 | what a run of the tool leaves behind, and its error, is exactly the outcome those results quantify over |
| Migrate.LoadIsTextual | cmd/migrate/main.go:280-287 | on digit strings of one width the load comparison is the textual one |
| Migrate.LoadLessCycles | cmd/migrate/main.go:280-287 | with mixed widths and overflow the load comparison has a cycle |
| Migrate.LoadOrderExactly | cmd/migrate/main.go:280-287 | the load comparison is a strict order on a set of versions if and only if no two of them are the same number and no version that is no 64-bit number lies textually between two numbers that are the other way round |
| Migrate.LeadingZeroTies | cmd/migrate/main.go:280-287 | a version and the same with a leading zero are not ordered at all |
| Migrate.LoadOrder | cmd/migrate/main.go:280-287 | on digit strings of one width it is an order |
| Migrate.LoadMigrations | cmd/migrate/main.go:246-294 | one migration per version with its name and paths, sorted by the load comparison where that is an order |
| Migrate.PairFiles | cmd/migrate/main.go:252-274 | the name of the first entry and the last path of each kind, per version |
| Migrate.NameExactly | cmd/migrate/main.go:263-267 | the name is that of the version's first entry |
| Migrate.PathExactly | cmd/migrate/main.go:268-273 | each path is that of its last entry of that kind |
| MigratePlan.PendingUp | cmd/migrate/main.go:199-210 | the loop returns the plan that UpPlanExactly describes |
| MigratePlan.PendingExactly | cmd/migrate/main.go:199-210 | for every list and every applied set, the uncapped plan is exactly the migrations whose version is not applied, at increasing positions of the list |
| MigratePlan.UpPlanExactly | cmd/migrate/main.go:199-210 | the plan is the first steps of those, or all of them if steps is not positive |
| MigratePlan.PendingDown | cmd/migrate/main.go:214-242 | the applied versions in descending textual order, at most max(steps,1), or the first one without a file |
| MigratePlan.DownPlanExactly | cmd/migrate/main.go:214-242 | for every list and applied set, the plan is the files of the first max(steps, 1) applied versions from the textually greatest down |
| MigratePlan.ResolveExactly | cmd/migrate/main.go:230-241 | each version gives its file, and the first one without a file is the error |
| MigratePlan.FindExactly | cmd/migrate/main.go:219-222 | the file of a version is the last one listed |
| MigratePlan.Database.ApplyOne | cmd/migrate/main.go:158-188 | file and bookkeeping together or neither; fails without a path, on a failing file, or on a version already recorded |
| MigratePlan.Database.Run | cmd/migrate/main.go:64-107 | applies the plan up to its end or its first failing file, which it names; a missing file changes nothing |
| MigratePlan.StopsWhereReached | cmd/migrate/main.go:100-105 | a run stops at the first file that fails and nowhere else |
| MigratePlan.ThroughExactly | cmd/migrate/main.go:178-182 | the applied set once k files are through, version by version |
| MigrateRuns.BrokenStays | cmd/migrate/main.go:158-188 | a version whose file fails is neither applied nor rolled back |
| Text.OrdersAgreeOnEqualWidth | cmd/migrate/main.go:280-287 | numeric and byte order coincide on digit strings of one width |
| Text.LessExactly | cmd/migrate/main.go:286 | textual order is decided where two texts first differ |
| Sorting.ArrangementUnique | cmd/migrate/main.go:228 | a set has one arrangement under a strict total order |
| Sorting.SortArranges | cmd/migrate/main.go:228 | sorting a list without repeats gives it |

## Left out

- gRPC, gateway, HTTP, configuration, logging, metrics and middleware: transport and plumbing without decisions of their own.
- kafka-go, database/sql and pgx internals, consumer-group rebalancing, shutdown timing and dead-letter topic partitions: only the log, offset, row and unique-index effects the code relies on are modelled.
- JSON and timestamp text: payloads and the not-before header are typed values; the attempt header's decimal text is modelled.
- Random id generation: ids are parameters, assumed fresh.
- Atomicity of the outbox with a Postgres transaction: the wired store is always in memory.
- Isolation levels: a load is one step and a save with its commit is one step.
- Two relays over one store at once; the mutex of each store and repository makes one call one step.
- Convergence of the read model under out-of-order retries: a created event delivered after a later email change overwrites the newer email, so only in-order and rewind forms are claimed.
- Non-ASCII case folding and trimming, and Postgres microsecond rounding.
- The SQL `List` and `GetByID` queries, `FromQuery`, and the plan printout: they would add only easy members.
- The file-name pattern of migrations and reading the directory: the model starts from the matched entries.
- Order, identity, payment and notification contexts beyond the subscribed handlers' results.
- KafkaSafety.NothingIsLost: MaxRetries is between 1 and 2^63-2, so that attempt numbers stay in 64 bits.
- Commands.Handlers.HandleCreate: the returned id and creation time are not part of the result, since they are parameters.

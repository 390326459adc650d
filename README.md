# Procurement outbox relay — a Dafny model

This project models the transactional-outbox pipeline of the procurement and
logistics modules:

- **Event capture.** An `AggregateRoot` keeps an ordered, per-instance list of
  pending domain events. `Raise` appends to it and `ClearDomainEvents` empties it.
- **The factory.** `Rfq.Create` refuses a null or all-white-space title. It
  stores the trimmed title and raises one `RfqCreated` event.
- **The unit of work.** `ProcurementDbContext.SaveChangesAsync` turns every
  pending event of every tracked aggregate into a new outbox record. It commits
  those records with the business rows in one transaction, and clears the events
  only after the commit returns.
- **The command handler.** `CreateRfqHandler.Handle` creates an aggregate, adds
  it and saves.
- **The relay.** `OutboxProcessor` repeatedly loads up to 20 pending records,
  oldest first. It publishes each one under a routing key inferred from its type
  tag, marks it processed or records the failure, and saves the batch.
- **The consumer.** `ProcurementEventsConsumer` declares the broker topology and
  consumes with manual acknowledgement. It acks or nacks-with-requeue each
  delivery. After a crash it closes everything and starts again.

Modules, one per file:

| module | file | role |
|---|---|---|
| `Wrappers` | `wrappers.dfy` | `Option` and `Result` |
| `Text` | `text.dfy` | .NET `char.IsWhiteSpace`, `string.IsNullOrWhiteSpace`, `Trim`, and `Contains` with `OrdinalIgnoreCase` |
| `SharedKernel` | `shared_kernel.dfy` | the `AggregateRoot` class |
| `ProcurementDomain` | `rfq.dfy` | the `RfqCreated` event and the `Rfq` class with `Create` |
| `Persistence` | `persistence.dfy` | `OutboxRecord`, the committed `Database`, and the `ProcurementDbContext` unit of work with `SaveChanges` |
| `CreateRfq` | `create_rfq.dfy` | the command handler |
| `OutboxRelay` | `outbox_relay.dfy` | batch selection, `InferRoutingKey`, one relay cycle, the relay loop |
| `Consumer` | `consumer.dfy` | channel and connection call recorders, and the `ProcurementEventsConsumer` class |

Outside effects are parameters of the model:

- **Guids and clock reads.** `newId`, `createdUtc`, `occurredUtc`, and the
  `outboxIds` that must be fresh.
- **The JSON serialiser.** A function `serialize`.
- **Whether the database commit returns.** `commitOk`.
- **The publisher.** A per-cycle function from the call made to its outcome:
  `Published(at)` carries the clock read taken after the call returned;
  `PublishFailed(message)` carries the exception message.
- **Which broker operation throws.** Passed in as an argument.

A cycle that cannot load its batch, or whose save throws, leaves the table as it
was, because the loop's catch swallows the exception. Cancellation is observed
once the given cycles or attempts have run out.

The C# inheritance `Rfq : AggregateRoot` is modelled by composition: an `Rfq`
holds its `AggregateRoot` in `root`. The committed tables are a `Database`
object. Each `ProcurementDbContext` is one unit of work over it. The context
holds:

- the aggregates it tracks;
- the rows it has added;
- the loaded outbox rows it has changed, keyed by row position.

The commit applies all of these at once.

Two consequences of how the code is written, which the model keeps:

- **An ack that throws is followed by a nack.** The ack sits inside the handler's
  `try`, so when it throws, the catch nacks with requeue. Such a delivery gets
  one ack call and one nack call. "Exactly one ack and no nack" holds only when
  both processing and the ack return.
- **A failed save leaves the new records staged.** When the base save throws,
  the outbox records just built stay added in the context. The aggregates' events
  also stay pending. `SaveChanges` states both.

## Model

| member | source | states |
|---|---|---|
| SharedKernel.AggregateRoot.constructor | src/BuildingBlocks/SharedKernel/AggregateRoot.cs:5 | a new aggregate has no pending events |
| SharedKernel.AggregateRoot.Raise | src/BuildingBlocks/SharedKernel/AggregateRoot.cs:9 | the pending list becomes `Raised(old list, e)`: the old list, unchanged, followed by `e`, with no de-duplication |
| SharedKernel.AggregateRoot.ClearDomainEvents | src/BuildingBlocks/SharedKernel/AggregateRoot.cs:11 | the pending list becomes `Cleared(old list)`, which is empty |
| SharedKernel.Raised | src/BuildingBlocks/SharedKernel/AggregateRoot.cs:9 | one more element; the old list is its prefix; `e` is last |
| SharedKernel.Cleared | src/BuildingBlocks/SharedKernel/AggregateRoot.cs:11 | the result is empty |
| SharedKernel.RaiseAllAppends | src/BuildingBlocks/SharedKernel/AggregateRoot.cs:5-9 | after raising n events one at a time, the list is the old one followed by exactly those n events in raise order, so its length grows by n |
| SharedKernel.ClearIdempotent | src/BuildingBlocks/SharedKernel/AggregateRoot.cs:11 | clearing twice equals clearing once; raising after a clear leaves only the new events |
| Text.IsWhiteSpace | src/Modules/Procurement/Procurement.Domain/Aggregates/Rfq/Rfq.cs:23 | no contract of its own: the white-space characters of .NET's `char.IsWhiteSpace`; used by `TrimEmptyIff` and `ValidateTitle` |
| Text.IsNullOrWhiteSpace | src/Modules/Procurement/Procurement.Domain/Aggregates/Rfq/Rfq.cs:23 | no contract of its own: null or only white space; `TrimEmptyIff` relates it to `Trim`, and `ValidateTitle` fails exactly when it holds |
| Text.TrimStart | src/Modules/Procurement/Procurement.Domain/Aggregates/Rfq/Rfq.cs:26 | the result is a suffix of the input; everything dropped is white space; the result does not start with white space |
| Text.TrimEnd | src/Modules/Procurement/Procurement.Domain/Aggregates/Rfq/Rfq.cs:26 | the result is a prefix of the input; everything dropped is white space; the result does not end with white space |
| Text.Trim | src/Modules/Procurement/Procurement.Domain/Aggregates/Rfq/Rfq.cs:26 | the result is a contiguous slice of the input with only white space cut off on either side, and it neither starts nor ends with white space |
| Text.TrimEmptyIff | src/Modules/Procurement/Procurement.Domain/Aggregates/Rfq/Rfq.cs:23-26 | trimming gives the empty string exactly when the input is all white space |
| Text.ContainsIgnoreCase | src/Modules/Procurement/Procurement.Infrastructure/Persistence/Outbox/OutboxProcessor.cs:72 | true exactly when the needle occurs at some offset of the text, ignoring case |
| ProcurementDomain.ValidateTitle | src/Modules/Procurement/Procurement.Domain/Aggregates/Rfq/Rfq.cs:23-26 | fails exactly when the title is null or all white space; otherwise the stored title is non-empty, has no white space at either end, and is a slice of the input cut only at white space |
| ProcurementDomain.Rfq.constructor | src/Modules/Procurement/Procurement.Domain/Aggregates/Rfq/Rfq.cs:14-19 | stores id, title and creation time; the aggregate starts with no pending events |
| ProcurementDomain.Rfq.Create | src/Modules/Procurement/Procurement.Domain/Aggregates/Rfq/Rfq.cs:21-32 | fails with `TitleRequired` exactly when the title is null or all white space, and then creates no aggregate; otherwise returns a new aggregate with the new id, the trimmed title, the creation time, and exactly one pending event: `RfqCreated` with the aggregate's own id and stored title and the separate occurred-at clock read |
| Persistence.AssemblyQualifiedName | src/Modules/Procurement/Procurement.Infrastructure/Persistence/ProcurementDbContext.cs:62 | no contract of its own: the runtime type's assembly-qualified name; `RfqCreatedRecordRoutes` shows the tag built from it routes as `procurement.rfq.created` |
| Persistence.FullName | src/Modules/Procurement/Procurement.Infrastructure/Persistence/ProcurementDbContext.cs:62 | no contract of its own: the runtime type's full name, the fallback of `TypeTag` |
| Persistence.TypeTag | src/Modules/Procurement/Procurement.Infrastructure/Persistence/ProcurementDbContext.cs:62 | the assembly-qualified name if present, else the full name if present, else "Unknown" |
| Persistence.ToRecord | src/Modules/Procurement/Procurement.Infrastructure/Persistence/ProcurementDbContext.cs:58-65 | the record has the given fresh id, the event's `OccurredUtc`, the event's type tag, and the serialised event as payload; it is pending and has no error |
| Persistence.ToRecords | src/Modules/Procurement/Procurement.Infrastructure/Persistence/ProcurementDbContext.cs:56-66 | exactly one record per event |
| Persistence.Flatten | src/Modules/Procurement/Procurement.Infrastructure/Persistence/ProcurementDbContext.cs:51-53 | no contract of its own: the pending events of the tracked aggregates, aggregate by aggregate; see `FlattenCount`, `FlattenSplit` and `FlattenKeepsRaiseOrder` |
| Persistence.FlattenCount | src/Modules/Procurement/Procurement.Infrastructure/Persistence/ProcurementDbContext.cs:46-53 | the flattened events are as many as the pending events of all tracked aggregates together |
| Persistence.FlattenSplit | src/Modules/Procurement/Procurement.Infrastructure/Persistence/ProcurementDbContext.cs:51-53 | flattening a split list of aggregates is concatenating the flattened parts |
| Persistence.FlattenKeepsRaiseOrder | src/Modules/Procurement/Procurement.Infrastructure/Persistence/ProcurementDbContext.cs:51-58 | each aggregate's events appear contiguously in raise order, right after the events of the aggregates tracked before it |
| Persistence.OverlayKeepsIds | src/Modules/Procurement/Procurement.Infrastructure/Persistence/ProcurementDbContext.cs:29-40 | updating loaded rows without changing their ids keeps the table's id set, and keeps ids unique |
| Persistence.UniqueIdsAppend | src/Modules/Procurement/Procurement.Infrastructure/Persistence/ProcurementDbContext.cs:60 | appending records whose ids are unique among themselves and unused keeps ids unique; the id set is the union |
| Persistence.ToRecordsIds | src/Modules/Procurement/Procurement.Infrastructure/Persistence/ProcurementDbContext.cs:60 | the new records carry exactly the given fresh ids |
| Persistence.ProcurementDbContext.constructor | src/Modules/Procurement/Procurement.Infrastructure/Persistence/ProcurementDbContext.cs:11 | a new unit of work tracks nothing and stages nothing |
| Persistence.ProcurementDbContext.Add | src/Modules/Procurement/Procurement.Infrastructure/Persistence/RfqRepository.cs:13-14 | an untracked aggregate becomes tracked, last, with its row staged as added. A tracked one stays where it is; its row is staged again unless it is already staged, as an aggregate kept tracked after an earlier save is marked added again. The staged outbox is untouched |
| Persistence.ProcurementDbContext.UpdateOutbox | src/Modules/Procurement/Procurement.Infrastructure/Persistence/Outbox/OutboxProcessor.cs:45-52 | a change to a loaded outbox row is staged under its position; ids stay unique |
| Persistence.ProcurementDbContext.SaveChanges | src/Modules/Procurement/Procurement.Infrastructure/Persistence/ProcurementDbContext.cs:43-74 | on commit, the committed outbox is the old table with staged edits applied, then the previously staged records, then one new pending record per flattened event, in order, with fresh unique ids; the business rows are committed with them; afterwards every tracked aggregate has no pending events. If the commit throws, nothing is committed, every event stays pending, and the new records stay staged |
| Persistence.ProcurementDbContext.AddOutboxRecords | src/Modules/Procurement/Procurement.Infrastructure/Persistence/ProcurementDbContext.cs:56-66 | the staged outbox grows by exactly the records of the events, in order; ids stay unique and unused |
| Persistence.ProcurementDbContext.Commit | src/Modules/Procurement/Procurement.Infrastructure/Persistence/ProcurementDbContext.cs:69 | every staged change is applied to the tables at once, and the staging is emptied |
| Persistence.ProcurementDbContext.ClearTracked | src/Modules/Procurement/Procurement.Infrastructure/Persistence/ProcurementDbContext.cs:71 | every tracked aggregate ends with no pending events |
| CreateRfq.Handle | src/Modules/Procurement/Procurement.Application/Commands/CreateRfq/CreateRfqHandler.cs:12-20 | an invalid title fails before anything is added or saved, and changes nothing. Otherwise the new aggregate is tracked, last, before the save. On commit it returns that aggregate, with its id and trimmed title and no pending events; its row is committed, and its `RfqCreated` record follows the records of the events already pending. On a failed save it fails, the tables are unchanged, and the event is still pending |
| CreateRfq.AddAndSave | src/Modules/Procurement/Procurement.Application/Commands/CreateRfq/CreateRfqHandler.cs:16-19 | for a new aggregate whose one pending event is `e`: it ends tracked, last. It succeeds exactly when the commit returns; then the aggregate's row is committed, its record follows those of the events already pending, and its pending list is empty. A failed save commits nothing and keeps `e` pending |
| CreateRfq.HandleRequest | src/Modules/Procurement/Procurement.Application/Commands/CreateRfq/CreateRfqHandler.cs:12-20 | one request in a new unit of work succeeds exactly when the title is valid and the commit returns. It then adds exactly the new row and exactly one outbox record: the pending `RfqCreated` record under the fresh id, routed as `procurement.rfq.created`. Any failure leaves both tables as they were |
| OutboxRelay.PendingRows | src/Modules/Procurement/Procurement.Infrastructure/Persistence/Outbox/OutboxProcessor.cs:31 | a position is selected exactly when its row has no `ProcessedUtc`; positions are in table order, each once |
| OutboxRelay.Insert | src/Modules/Procurement/Procurement.Infrastructure/Persistence/Outbox/OutboxProcessor.cs:32 | the result has one more position, all of them rows of the table |
| OutboxRelay.SortByOccurred | src/Modules/Procurement/Procurement.Infrastructure/Persistence/Outbox/OutboxProcessor.cs:32 | the result has as many positions as the input, all of them rows of the table |
| OutboxRelay.InsertPermutes | src/Modules/Procurement/Procurement.Infrastructure/Persistence/Outbox/OutboxProcessor.cs:32 | insertion adds exactly one occurrence of the new position |
| OutboxRelay.InsertBound | src/Modules/Procurement/Procurement.Infrastructure/Persistence/Outbox/OutboxProcessor.cs:32 | a lower bound on the timestamps of the inputs bounds the timestamps of the insertion |
| OutboxRelay.InsertSorted | src/Modules/Procurement/Procurement.Infrastructure/Persistence/Outbox/OutboxProcessor.cs:32 | inserting into a list in ascending `OccurredUtc` order keeps it in that order |
| OutboxRelay.InsertOrdered | src/Modules/Procurement/Procurement.Infrastructure/Persistence/Outbox/OutboxProcessor.cs:32 | inserting a position that comes after all others in table order into a list ordered by time, ties by table order, keeps that order |
| OutboxRelay.SortKeepsTableOrderOnTies | src/Modules/Procurement/Procurement.Infrastructure/Persistence/Outbox/OutboxProcessor.cs:32 | sorting positions given in table order orders them by `OccurredUtc`, and rows with equal timestamps keep their table order |
| OutboxRelay.SortFacts | src/Modules/Procurement/Procurement.Infrastructure/Persistence/Outbox/OutboxProcessor.cs:32 | sorting is a permutation of its input, and its output is in ascending `OccurredUtc` order |
| OutboxRelay.SelectBatch | src/Modules/Procurement/Procurement.Infrastructure/Persistence/Outbox/OutboxProcessor.cs:30-34 | no contract of its own: pending rows, ordered by `OccurredUtc`, the first 20; see `SelectBatchSpec`, `SelectBatchTakesOldest` and `SelectBatchBreaksTies` |
| OutboxRelay.SelectBatchSpec | src/Modules/Procurement/Procurement.Infrastructure/Persistence/Outbox/OutboxProcessor.cs:30-34 | the batch holds only pending rows, each once, in ascending `OccurredUtc` order; it holds min(pending count, 20) rows |
| OutboxRelay.SelectBatchTakesOldest | src/Modules/Procurement/Procurement.Infrastructure/Persistence/Outbox/OutboxProcessor.cs:30-34 | a pending row is left out only when at least 20 rows are pending, and then no selected row is newer than it |
| OutboxRelay.SelectBatchBreaksTies | src/Modules/Procurement/Procurement.Infrastructure/Persistence/Outbox/OutboxProcessor.cs:30-34 | the batch is ordered by `OccurredUtc`, and pending rows with equal timestamps are taken in table order |
| OutboxRelay.InferRoutingKey | src/Modules/Procurement/Procurement.Infrastructure/Persistence/Outbox/OutboxProcessor.cs:69-76 | `procurement.rfq.created` exactly when the type tag contains "RfqCreated" ignoring case, and `procurement.unknown` exactly when it does not |
| OutboxRelay.RfqCreatedRecordRoutes | src/Modules/Procurement/Procurement.Infrastructure/Persistence/Outbox/OutboxProcessor.cs:69-76 | the record the unit of work writes for an `RfqCreated` event routes as `procurement.rfq.created` |
| OutboxRelay.CallFor | src/Modules/Procurement/Procurement.Infrastructure/Persistence/Outbox/OutboxProcessor.cs:41-43 | no contract of its own: the routing key inferred from the type tag, the payload, and the record's id as message id; see `CycleMarksRecord` |
| OutboxRelay.Calls | src/Modules/Procurement/Procurement.Infrastructure/Persistence/Outbox/OutboxProcessor.cs:36-43 | no contract of its own: one call per batch record, in batch order; `PublishBatch` makes exactly these calls |
| OutboxRelay.Mark | src/Modules/Procurement/Procurement.Infrastructure/Persistence/Outbox/OutboxProcessor.cs:45-52 | no contract of its own: a record after its publish attempt; `CycleMarksRecord` states what it changes and keeps |
| OutboxRelay.MarkedEdits | src/Modules/Procurement/Procurement.Infrastructure/Persistence/Outbox/OutboxProcessor.cs:36-55 | no contract of its own: each batch row marked with its own call's outcome; `PublishBatch` stages exactly these |
| OutboxRelay.CycleResult | src/Modules/Procurement/Procurement.Infrastructure/Persistence/Outbox/OutboxProcessor.cs:30-63 | no contract of its own: the table after one cycle; see `CycleMarksRecord`, `CycleLeavesOthers` and `RunCycle` |
| OutboxRelay.AfterCycles | src/Modules/Procurement/Procurement.Infrastructure/Persistence/Outbox/OutboxProcessor.cs:22-66 | no contract of its own: the table after a run of cycles; see `CyclesKeepContent`, `ProcessedIsTerminal` and `Execute` |
| OutboxRelay.PublishBatch | src/Modules/Procurement/Procurement.Infrastructure/Persistence/Outbox/OutboxProcessor.cs:36-55 | one publish call per batch record, in batch order, whatever earlier calls returned; each call carries the record's routing key, its payload and its own id. Each record's staged change is its marking for that call's outcome |
| OutboxRelay.RunCycle | src/Modules/Procurement/Procurement.Infrastructure/Persistence/Outbox/OutboxProcessor.cs:24-63 | the table becomes the cycle's result: the batch rows marked, if the load succeeded, the batch was non-empty and the save succeeded; otherwise the table is unchanged. The calls made are those of the batch, or none if the load failed. No business row changes and ids stay unique |
| OutboxRelay.Execute | src/Modules/Procurement/Procurement.Infrastructure/Persistence/Outbox/OutboxProcessor.cs:20-67 | after the loop, the table is the result of the cycles applied in order |
| OutboxRelay.CycleMarksRecord | src/Modules/Procurement/Procurement.Infrastructure/Persistence/Outbox/OutboxProcessor.cs:36-55 | for each batch record the call carries its routing key, payload and id. On success the record gets `ProcessedUtc` = the time returned, and its error is cleared. On failure it stays pending, its error is exactly the message, and it is pending again for the next cycle. Its id, time, type and payload never change |
| OutboxRelay.CycleLeavesOthers | src/Modules/Procurement/Procurement.Infrastructure/Persistence/Outbox/OutboxProcessor.cs:30-58 | rows outside the batch, and all rows of a cycle whose load or save failed, are unchanged |
| OutboxRelay.CyclesKeepContent | src/Modules/Procurement/Procurement.Infrastructure/Persistence/Outbox/OutboxProcessor.cs:22-66 | any run of cycles keeps the number of rows and each row's id, timestamp, type tag and payload; a processed row stays processed |
| OutboxRelay.ProcessedIsTerminal | src/Modules/Procurement/Procurement.Infrastructure/Persistence/Outbox/OutboxProcessor.cs:31 | a processed record is never selected again and stays as it is through any number of cycles |
| OutboxRelay.LonePendingCycle | src/Modules/Procurement/Procurement.Infrastructure/Persistence/Outbox/OutboxProcessor.cs:30-58 | a cycle over one pending record makes one call for it and marks it with that call's outcome |
| OutboxRelay.BrokerOutageThenRecovery | src/Modules/Procurement/Procurement.Infrastructure/Persistence/Outbox/OutboxProcessor.cs:36-58 | the record of a new `RfqCreated` event survives a failed publish: it stays pending with the failure text, is published again next cycle under `procurement.rfq.created` with its own id, and is then processed |
| Consumer.SetupCalls | src/Modules/Logistics/Logistics.Api/Messaging/ProcurementEventsConsumer.cs:77-94 | the setup makes five channel calls |
| Consumer.SetupOrder | src/Modules/Logistics/Logistics.Api/Messaging/ProcurementEventsConsumer.cs:77-94 | the exchange and the queue are declared before the bind; the prefetch of 10 is set before consumption starts; consumption uses manual acknowledgement |
| Consumer.HandlerCalls | src/Modules/Logistics/Logistics.Api/Messaging/ProcurementEventsConsumer.cs:106-137 | no contract of its own: the ack and nack calls the handler makes on an open channel; see `HandlerSettlesOnce` and `OnMessageReceived` |
| Consumer.HandlerSettlesOnce | src/Modules/Logistics/Logistics.Api/Messaging/ProcurementEventsConsumer.cs:101-139 | every ack or nack is for the delivery's own tag with `multiple=false`, and every nack requeues. Processing and ack returning gives exactly one ack and no nack. Processing throwing gives exactly one nack and no ack. A throwing ack is followed by one nack |
| Consumer.FirstSuccess | src/Modules/Logistics/Logistics.Api/Messaging/ProcurementEventsConsumer.cs:38-57 | the number of attempts before the first one whose setup completes: all earlier ones crashed, and that one did not |
| Consumer.ProcurementEventsConsumer.constructor | src/Modules/Logistics/Logistics.Api/Messaging/ProcurementEventsConsumer.cs:30-33 | the consumer starts with no connection and no channel |
| Consumer.ProcurementEventsConsumer.StartTopologyAndConsume | src/Modules/Logistics/Logistics.Api/Messaging/ProcurementEventsConsumer.cs:60-99 | setup succeeds exactly when no step throws. On success, a new open channel on a new connection has received exactly the setup calls in order. If step k throws, the calls up to and including step k were made. A connection that cannot be created leaves both fields as they were |
| Consumer.ProcurementEventsConsumer.OnMessageReceived | src/Modules/Logistics/Logistics.Api/Messaging/ProcurementEventsConsumer.cs:101-139 | with no channel, or a closed one, no call is made. Otherwise exactly the handler's ack/nack calls are made on the current channel. The handler never throws, even when the nack throws |
| Consumer.ProcurementEventsConsumer.SafeClose | src/Modules/Logistics/Logistics.Api/Messaging/ProcurementEventsConsumer.cs:148-156 | both fields end null even when a close throws; an existing channel and connection are each closed, then disposed, and end closed |
| Consumer.ProcurementEventsConsumer.Execute | src/Modules/Logistics/Logistics.Api/Messaging/ProcurementEventsConsumer.cs:35-58 | after each crash the consumer closes everything and retries. Every crashed attempt's connection and channel, when it got that far, end closed and disposed: the connection after `CreateModel`, the channel after the setup calls made before the failing step. It stops retrying at the first attempt whose setup completes, then holds an open channel that has received exactly the setup calls. If no attempt completes before shutdown, it holds no connection and no channel |

## Left out

- **RabbitMQ client.** `ConnectionFactory` settings are not modelled: host, port,
  credentials, async dispatch, automatic recovery and its interval. Channels and
  connections are recorders of the calls made on them, and which call throws is
  a parameter.
- **The publisher.** `RabbitMqEventPublisher` and `RabbitMqOptions` are not part
  of this model. The publisher is an outcome per call.
- **EF Core.** The change tracker is reduced to the aggregates added through
  `Add`, plus the outbox rows changed by position. Query translation,
  `OnModelCreating`, migrations, and `RfqRepository.GetByIdAsync` are not part of
  this model. Hosting, controllers and `Program.cs` are not part of it either.
- **Serialisation.** `JsonSerializer.Serialize` is an uninterpreted function. A
  throwing serialiser is not modelled.
- **Type names.** The assembly-qualified name is fixed as
  `Procurement.Domain.DomainEvents.RfqCreated, Procurement.Domain, Version=1.0.0.0, Culture=neutral, PublicKeyToken=null`.
  The runtime's actual assembly version is not modelled.
- **Guids and clocks.** `Guid.NewGuid` and `DateTime.UtcNow` are parameters.
  Guids are naturals and times are integer ticks.
- **Timing, cancellation and async.** `Task.Delay` is not modelled: the relay's
  two seconds and the consumer's three seconds. Cancellation ends both loops
  after the given cycles or attempts. `StopAsync` and `Dispose` only call
  `SafeClose` before base-class shutdown, and `SafeClose` is modelled.
- **Concurrency.** Several relays publishing the same record is a concurrency
  hazard that a sequential model cannot show. So is concurrent delivery
  dispatch.
- **Logging and delivery contents.** Logging is left out, and so is reading the
  delivery's message id, content type and body. Whatever in that part throws
  appears as `processingThrows`.
- Text.ContainsIgnoreCase: folds ASCII letters only. .NET's ordinal ignore-case
  comparison also folds non-ASCII letters, which matters only for type tags that
  contain such letters.
- OutboxRelay.SortByOccurred: keeps rows with equal timestamps in table order,
  as `SortKeepsTableOrderOnTies` proves. The database's `ORDER BY` leaves the
  order of equal timestamps unspecified, so this is one of the orders it may
  return.
- SharedKernel.AggregateRoot.DomainEvents: a `reads`-only function, so reading
  the view cannot change the list. It has no contract of its own.

/**
 * The `CreateRfq` command handler: create the aggregate, add it to the unit
 * of work, save. It ties the aggregate factory to the outbox interceptor.
 */
module CreateRfq {
  import opened Wrappers
  import opened Text
  import opened SharedKernel
  import opened ProcurementDomain
  import opened Persistence
  import opened OutboxRelay

  datatype CreateRfqCommand = CreateRfqCommand(title: Option<string>)

  /** What `Handle` throws: the factory's argument error, or a failed save. */
  datatype HandleError = InvalidTitle(CreateError) | SaveFailed

  /** `CreateRfqHandler.Handle`. `newId`, `createdUtc` and `occurredUtc` are
      the factory's id and clock reads; `outboxIds`, `serialize` and `commitOk`
      are passed on to `SaveChanges`. */
  method Handle(db: ProcurementDbContext, command: CreateRfqCommand,
                newId: Guid, createdUtc: Timestamp, occurredUtc: Timestamp,
                outboxIds: seq<Guid>, serialize: DomainEvent -> string, commitOk: bool)
    returns (r: Result<Rfq, HandleError>)
    requires db.Valid()
    requires |outboxIds| > |Flatten(db.tracked)|
    requires FreshAgainst(outboxIds[..|Flatten(db.tracked)| + 1], db.database.outbox, db.addedOutbox)
    modifies db, db.database, db.tracked
    ensures db.Valid()
    // A refused title fails before anything is added or saved.
    ensures IsNullOrWhiteSpace(command.title) ==>
      && r == Failure(InvalidTitle(TitleRequired))
      && unchanged(db, db.database) && forall a :: a in db.tracked ==> unchanged(a)
    ensures !IsNullOrWhiteSpace(command.title) ==>
      && r.Success? == commitOk
      && |db.tracked| == |old(db.tracked)| + 1
      && db.tracked == old(db.tracked) + [db.tracked[|db.tracked| - 1]]
      && fresh(db.tracked[|db.tracked| - 1])
    // The aggregate was added before the save: its row and its event's record
    // are committed together, after the records of the other tracked aggregates.
    ensures !IsNullOrWhiteSpace(command.title) && commitOk ==>
      && r.Success? && r.value.root == db.tracked[|db.tracked| - 1]
      && r.value.id == newId && r.value.title == Trim(command.title.value)
      && r.value.root.domainEvents == []
      && db.database.rfqs == old(db.database.rfqs) + old(db.addedRfqs) + [RfqRow(newId, Trim(command.title.value), createdUtc)]
      && db.database.outbox == Overlay(old(db.database.outbox), old(db.modifiedOutbox)) + old(db.addedOutbox)
                               + ToRecords(old(Flatten(db.tracked)) + [RfqCreated(newId, Trim(command.title.value), occurredUtc)], outboxIds, serialize)
    // A failed save keeps the database as it was and the new event pending.
    ensures !IsNullOrWhiteSpace(command.title) && !commitOk ==>
      && r == Failure(SaveFailed)
      && db.database.rfqs == old(db.database.rfqs) && db.database.outbox == old(db.database.outbox)
      && |db.tracked| > 0 && db.tracked[|db.tracked| - 1].domainEvents == [RfqCreated(newId, Trim(command.title.value), occurredUtc)]
  {
    var created := Rfq.Create(command.title, newId, createdUtc, occurredUtc);
    if created.Failure? {
      return Failure(InvalidTitle(created.error));
    }
    r := AddAndSave(db, created.value, Flatten(db.tracked), RfqCreated(newId, Trim(command.title.value), occurredUtc),
                    outboxIds, serialize, commitOk);
  }

  /** The rest of `Handle` once the aggregate exists: `_db.Rfqs.Add(rfq)`,
      `SaveChangesAsync`, and the aggregate as result. `pending` are the events
      the unit of work already tracks and `e` the aggregate's one event. */
  method AddAndSave(db: ProcurementDbContext, rfq: Rfq, ghost pending: seq<DomainEvent>, ghost e: DomainEvent,
                    outboxIds: seq<Guid>, serialize: DomainEvent -> string, commitOk: bool)
    returns (r: Result<Rfq, HandleError>)
    requires db.Valid() && rfq.root !in db.tracked && rfq.root.domainEvents == [e]
    requires pending == Flatten(db.tracked)
    requires |outboxIds| > |pending| && FreshAgainst(outboxIds[..|pending| + 1], db.database.outbox, db.addedOutbox)
    modifies db, db.database, db.tracked, rfq.root
    ensures db.Valid()
    ensures r.Success? == commitOk
    ensures db.tracked == old(db.tracked) + [rfq.root]
    ensures |db.tracked| == |old(db.tracked)| + 1 && db.tracked[|db.tracked| - 1] == rfq.root
    ensures commitOk ==>
      && r == Success(rfq) && rfq.root.domainEvents == []
      && db.database.rfqs == old(db.database.rfqs) + old(db.addedRfqs) + [RfqRow(rfq.id, rfq.title, rfq.createdUtc)]
      && db.database.outbox == Overlay(old(db.database.outbox), old(db.modifiedOutbox)) + old(db.addedOutbox)
                               + ToRecords(pending + [e], outboxIds, serialize)
    ensures !commitOk ==>
      && r == Failure(SaveFailed) && rfq.root.domainEvents == [e]
      && db.database.rfqs == old(db.database.rfqs) && db.database.outbox == old(db.database.outbox)
  {
    ghost var before := db.tracked;
    FlattenSplit(before + [rfq.root], |before|);
    assert (before + [rfq.root])[..|before|] == before;
    assert (before + [rfq.root])[|before|..] == [rfq.root];
    db.Add(rfq);
    var committed := db.SaveChanges(outboxIds, serialize, commitOk);
    if !committed {
      return Failure(SaveFailed);
    }
    return Success(rfq);
  }

  /** In the unit of work of a request (nothing tracked, nothing staged, no
      loaded rows changed), the committed outbox that `Handle` promises is the
      old table plus exactly one record: the pending, error-free record of the
      `RfqCreated` event, with the first fresh id, the event's timestamp, and a
      type tag that routes as `procurement.rfq.created`. */
  lemma FreshScopeAddsOneRecord(rows: seq<OutboxRecord>, created: DomainEvent, outboxIds: seq<Guid>,
                                serialize: DomainEvent -> string)
    requires |outboxIds| >= 1
    ensures var pending: seq<DomainEvent> := [];
      var added: seq<OutboxRecord> := [];
      var after := Overlay(rows, map[]) + added + ToRecords(pending + [created], outboxIds, serialize);
      && after == rows + [ToRecord(created, outboxIds[0], serialize)]
      && after[|rows|].id == outboxIds[0] && after[|rows|].occurredUtc == created.occurredUtc
      && after[|rows|].IsPending() && after[|rows|].error.None?
      && InferRoutingKey(after[|rows|].recordType) == RfqCreatedRoutingKey
  {
    var pending: seq<DomainEvent> := [];
    assert Overlay(rows, map[]) == rows;
    assert pending + [created] == [created];
    assert ToRecords([created], outboxIds, serialize) == [ToRecord(created, outboxIds[0], serialize)];
    RfqCreatedRecordRoutes(created, outboxIds[0], serialize);
  }

  /** One request: a new unit of work over the committed tables, then `Handle`.
      A created RFQ adds exactly its row and exactly one outbox record: the
      pending, error-free `RfqCreated` record under the fresh id, routed as
      `procurement.rfq.created`. Any failure leaves both tables as they were. */
  method HandleRequest(database: Database, command: CreateRfqCommand,
                       newId: Guid, createdUtc: Timestamp, occurredUtc: Timestamp,
                       outboxId: Guid, serialize: DomainEvent -> string, commitOk: bool)
    returns (r: Result<Rfq, HandleError>)
    requires database.Valid() && outboxId !in Ids(database.outbox)
    modifies database
    ensures database.Valid()
    ensures r.Success? <==> !IsNullOrWhiteSpace(command.title) && commitOk
    ensures r.Success? ==>
      var title := Trim(command.title.value);
      var record := ToRecord(RfqCreated(newId, title, occurredUtc), outboxId, serialize);
      && r.value.id == newId && r.value.title == title
      && database.rfqs == old(database.rfqs) + [RfqRow(newId, title, createdUtc)]
      && database.outbox == old(database.outbox) + [record]
      && record.IsPending() && InferRoutingKey(record.recordType) == RfqCreatedRoutingKey
    ensures r.Failure? ==> database.rfqs == old(database.rfqs) && database.outbox == old(database.outbox)
  {
    ghost var rows, rfqRows := database.outbox, database.rfqs;
    var db := new ProcurementDbContext(database);
    assert Flatten(db.tracked) == [] && [outboxId][..1] == [outboxId];
    assert FreshAgainst([outboxId], db.database.outbox, db.addedOutbox);
    r := Handle(db, command, newId, createdUtc, occurredUtc, [outboxId], serialize, commitOk);
    if r.Success? {
      var title := Trim(command.title.value);
      FreshScopeAddsOneRecord(rows, RfqCreated(newId, title, occurredUtc), [outboxId], serialize);
      assert database.rfqs == rfqRows + [] + [RfqRow(newId, title, createdUtc)];
    }
  }
}

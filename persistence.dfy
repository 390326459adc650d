/**
 * Persistence of the procurement module: the outbox record, the committed
 * tables, and the unit of work whose `SaveChanges` drains the tracked
 * aggregates' events into outbox records in the same commit.
 */
module Persistence {
  import opened Wrappers
  import opened SharedKernel
  import opened ProcurementDomain

  /** One outbox row. `processedUtc` is absent while the record is pending;
      `error` holds the last publish failure, overwritten on each attempt. */
  datatype OutboxRecord = OutboxRecord(
    id: Guid,
    occurredUtc: Timestamp,
    recordType: string,
    payload: string,
    processedUtc: Option<Timestamp>,
    error: Option<string>)
  {
    predicate IsPending()
    {
      processedUtc.None?
    }
  }

  /** One committed row of the `rfqs` table. */
  datatype RfqRow = RfqRow(id: Guid, title: string, createdUtc: Timestamp)

  /** The namespace of the domain events and the identity of their assembly. */
  const EventsNamespace := "Procurement.Domain.DomainEvents."
  const EventsAssembly := ", Procurement.Domain, Version=1.0.0.0, Culture=neutral, PublicKeyToken=null"

  /** `GetType().AssemblyQualifiedName` of the event's runtime type. */
  function AssemblyQualifiedName(e: DomainEvent): Option<string>
  {
    match e
    case RfqCreated(_, _, _) => Some(EventsNamespace + "RfqCreated" + EventsAssembly)
  }

  /** `GetType().FullName` of the event's runtime type. */
  function FullName(e: DomainEvent): Option<string>
  {
    match e
    case RfqCreated(_, _, _) => Some(EventsNamespace + "RfqCreated")
  }

  /** The type tag stored in the record: the assembly-qualified name, else the
      full name, else "Unknown". */
  function TypeTag(aqn: Option<string>, fullName: Option<string>): (t: string)
    ensures aqn.Some? ==> t == aqn.value
    ensures aqn.None? && fullName.Some? ==> t == fullName.value
    ensures aqn.None? && fullName.None? ==> t == "Unknown"
  {
    match aqn
    case Some(n) => n
    case None => if fullName.Some? then fullName.value else "Unknown"
  }

  /** The outbox record for one event: a fresh id, the event's own timestamp,
      its type tag, its serialised body, and pending with no error. */
  function ToRecord(e: DomainEvent, id: Guid, serialize: DomainEvent -> string): (r: OutboxRecord)
    ensures r.id == id && r.occurredUtc == e.OccurredUtc() && r.payload == serialize(e)
    ensures r.recordType == TypeTag(AssemblyQualifiedName(e), FullName(e))
    ensures r.IsPending() && r.error.None?
  {
    OutboxRecord(id, e.OccurredUtc(), TypeTag(AssemblyQualifiedName(e), FullName(e)), serialize(e), None, None)
  }

  /** One record per event, in event order, the k-th taking the k-th fresh id. */
  function ToRecords(events: seq<DomainEvent>, ids: seq<Guid>, serialize: DomainEvent -> string): (r: seq<OutboxRecord>)
    requires |ids| >= |events|
    ensures |r| == |events|
  {
    seq(|events|, k requires 0 <= k < |events| => ToRecord(events[k], ids[k], serialize))
  }

  /** `aggregates.SelectMany(a => a.DomainEvents)`: every aggregate's pending
      events, aggregate by aggregate, each in raise order. */
  function Flatten<E>(aggs: seq<AggregateRoot<E>>): seq<E>
    reads aggs
  {
    if aggs == [] then [] else aggs[0].domainEvents + Flatten(aggs[1..])
  }

  /** Total number of pending events over the aggregates. */
  function PendingCount<E>(aggs: seq<AggregateRoot<E>>): nat
    reads aggs
  {
    if aggs == [] then 0 else |aggs[0].domainEvents| + PendingCount(aggs[1..])
  }

  /** Flattening keeps every event: as many as are pending in all aggregates. */
  lemma {:induction false} FlattenCount<E>(aggs: seq<AggregateRoot<E>>)
    ensures |Flatten(aggs)| == PendingCount(aggs)
  {
    if aggs != [] {
      FlattenCount(aggs[1..]);
    }
  }

  /** Flattening distributes over splitting the aggregate list. */
  lemma {:induction false} FlattenSplit<E>(aggs: seq<AggregateRoot<E>>, p: nat)
    requires p <= |aggs|
    ensures Flatten(aggs) == Flatten(aggs[..p]) + Flatten(aggs[p..])
  {
    if p > 0 {
      FlattenSplit(aggs[1..], p - 1);
      assert aggs[1..][..p - 1] == aggs[..p][1..];
      assert aggs[1..][p - 1..] == aggs[p..];
    }
  }

  /** The events of the aggregate at position p appear contiguously and in raise
      order, right after the events of the aggregates before it. */
  lemma FlattenKeepsRaiseOrder<E>(aggs: seq<AggregateRoot<E>>, p: nat)
    requires p < |aggs|
    ensures var off := |Flatten(aggs[..p])|;
      off + |aggs[p].domainEvents| <= |Flatten(aggs)|
      && Flatten(aggs)[off..off + |aggs[p].domainEvents|] == aggs[p].domainEvents
  {
    FlattenSplit(aggs, p);
    assert aggs[p..][1..] == aggs[p + 1..];
    var off := |Flatten(aggs[..p])|;
    assert Flatten(aggs)[off..] == aggs[p].domainEvents + Flatten(aggs[p + 1..]);
  }

  /** No two records share an id. */
  ghost predicate UniqueIds(rows: seq<OutboxRecord>)
  {
    forall i, j :: 0 <= i < j < |rows| ==> rows[i].id != rows[j].id
  }

  function Ids(rows: seq<OutboxRecord>): set<Guid>
  {
    set r | r in rows :: r.id
  }

  /** `rows` with the rows at the positions in `edits` replaced. */
  function Overlay(rows: seq<OutboxRecord>, edits: map<nat, OutboxRecord>): seq<OutboxRecord>
  {
    seq(|rows|, i requires 0 <= i < |rows| => if i in edits then edits[i] else rows[i])
  }

  /** `ids` are distinct and used by no row of `rows` or `added`. */
  ghost predicate FreshAgainst(ids: seq<Guid>, rows: seq<OutboxRecord>, added: seq<OutboxRecord>)
  {
    && (forall i, j :: 0 <= i < j < |ids| ==> ids[i] != ids[j])
    && (forall i :: 0 <= i < |ids| ==> ids[i] !in Ids(rows) && ids[i] !in Ids(added))
  }

  /** Edits that keep each row's id keep the table's ids. */
  ghost predicate KeepsIds(rows: seq<OutboxRecord>, edits: map<nat, OutboxRecord>)
  {
    forall i :: i in edits ==> i < |rows| && edits[i].id == rows[i].id
  }

  lemma OverlayKeepsIds(rows: seq<OutboxRecord>, edits: map<nat, OutboxRecord>)
    requires KeepsIds(rows, edits)
    ensures Ids(Overlay(rows, edits)) == Ids(rows)
    ensures UniqueIds(rows) ==> UniqueIds(Overlay(rows, edits))
  {
    var o := Overlay(rows, edits);
    forall x | x in Ids(o) ensures x in Ids(rows) {
      var r :| r in o && r.id == x;
      var i :| 0 <= i < |o| && o[i] == r;
      assert rows[i].id == x;
    }
    forall x | x in Ids(rows) ensures x in Ids(o) {
      var r :| r in rows && r.id == x;
      var i :| 0 <= i < |rows| && rows[i] == r;
      assert o[i].id == x;
    }
  }

  /** Appending records with fresh, distinct ids keeps ids unique. */
  lemma {:induction false} UniqueIdsAppend(a: seq<OutboxRecord>, b: seq<OutboxRecord>)
    requires UniqueIds(a) && UniqueIds(b) && Ids(a) !! Ids(b)
    ensures UniqueIds(a + b) && Ids(a + b) == Ids(a) + Ids(b)
  {
    var c := a + b;
    forall i, j | 0 <= i < j < |c| ensures c[i].id != c[j].id {
      if i < |a| && j >= |a| {
        assert c[i] in a && c[j] in b;
        assert c[i].id in Ids(a) && c[j].id in Ids(b);
      }
    }
    forall x | x in Ids(c) ensures x in Ids(a) + Ids(b) {
      var r :| r in c && r.id == x;
      assert r in a || r in b;
    }
  }

  /** The records built from events carry exactly the given ids. */
  lemma ToRecordsIds(events: seq<DomainEvent>, ids: seq<Guid>, serialize: DomainEvent -> string)
    requires |ids| == |events|
    ensures Ids(ToRecords(events, ids, serialize)) == set k | 0 <= k < |ids| :: ids[k]
  {
    var rs := ToRecords(events, ids, serialize);
    forall x | x in Ids(rs) ensures x in set k | 0 <= k < |ids| :: ids[k] {
      var r :| r in rs && r.id == x;
      var k :| 0 <= k < |rs| && rs[k] == r;
    }
    forall x | x in (set k | 0 <= k < |ids| :: ids[k]) ensures x in Ids(rs) {
      var k :| 0 <= k < |ids| && ids[k] == x;
      assert rs[k] in rs;
    }
  }

  /** The committed state of the database, shared by every unit of work. */
  class Database {
    var rfqs: seq<RfqRow>
    var outbox: seq<OutboxRecord>

    /** Outbox ids are primary keys. */
    ghost predicate Valid()
      reads this
    {
      UniqueIds(outbox)
    }

    constructor ()
      ensures rfqs == [] && outbox == [] && Valid()
    {
      rfqs := [];
      outbox := [];
    }
  }

  /** `ProcurementDbContext`: one unit of work over the database. It tracks
      aggregates, holds the rows it has added but not committed, and the
      outbox rows it has loaded and changed (by row position). */
  class ProcurementDbContext {
    const database: Database
    var tracked: seq<AggregateRoot<DomainEvent>>
    var addedRfqs: seq<RfqRow>
    var addedOutbox: seq<OutboxRecord>
    var modifiedOutbox: map<nat, OutboxRecord>

    ghost predicate Valid()
      reads this, database
    {
      && database.Valid()
      && UniqueIds(addedOutbox)
      && Ids(addedOutbox) !! Ids(database.outbox)
      && KeepsIds(database.outbox, modifiedOutbox)
    }

    /** `ids` are new: distinct, and in use neither in the table nor among the added rows. */
    ghost predicate FreshIds(ids: seq<Guid>)
      reads this, database
    {
      FreshAgainst(ids, database.outbox, addedOutbox)
    }

    /** A new unit of work tracks nothing and has no pending changes. */
    constructor (database: Database)
      requires database.Valid()
      ensures this.database == database && Valid()
      ensures tracked == [] && addedRfqs == [] && addedOutbox == [] && modifiedOutbox == map[]
    {
      this.database := database;
      tracked := [];
      addedRfqs := [];
      addedOutbox := [];
      modifiedOutbox := map[];
    }

    /** `Rfqs.AddAsync(rfq)`: track the aggregate and stage its row as added.
        An aggregate still tracked from an earlier save is marked added again;
        one whose row is already staged stays as it is. */
    method Add(rfq: Rfq)
      requires Valid()
      modifies this
      ensures Valid()
      ensures addedOutbox == old(addedOutbox) && modifiedOutbox == old(modifiedOutbox)
      ensures rfq.root !in old(tracked) ==>
        && tracked == old(tracked) + [rfq.root]
        && addedRfqs == old(addedRfqs) + [RfqRow(rfq.id, rfq.title, rfq.createdUtc)]
      ensures rfq.root in old(tracked) ==> tracked == old(tracked)
      ensures rfq.root in old(tracked) && RfqRow(rfq.id, rfq.title, rfq.createdUtc) in old(addedRfqs) ==>
        addedRfqs == old(addedRfqs)
      ensures rfq.root in old(tracked) && RfqRow(rfq.id, rfq.title, rfq.createdUtc) !in old(addedRfqs) ==>
        addedRfqs == old(addedRfqs) + [RfqRow(rfq.id, rfq.title, rfq.createdUtc)]
    {
      var row := RfqRow(rfq.id, rfq.title, rfq.createdUtc);
      if rfq.root !in tracked {
        tracked := tracked + [rfq.root];
        addedRfqs := addedRfqs + [row];
      } else if row !in addedRfqs {
        addedRfqs := addedRfqs + [row];
      }
    }

    /** Assigning the properties of a loaded outbox entity: the change is kept
        in the unit of work until it is saved. */
    method UpdateOutbox(i: nat, r: OutboxRecord)
      requires Valid()
      requires i < |database.outbox| && r.id == database.outbox[i].id
      modifies this
      ensures Valid()
      ensures modifiedOutbox == old(modifiedOutbox)[i := r]
      ensures tracked == old(tracked) && addedRfqs == old(addedRfqs) && addedOutbox == old(addedOutbox)
    {
      modifiedOutbox := modifiedOutbox[i := r];
    }

    /** The overridden `SaveChangesAsync`. Every tracked aggregate's pending
        events become new outbox records (`ids` are the `Guid.NewGuid()` results,
        `serialize` stands for `JsonSerializer.Serialize`), then the base save
        commits all added and changed rows at once (`commitOk` says whether it
        returns or throws). Only after it returns are the aggregates' events
        cleared; if it throws, nothing is committed and every event stays pending. */
    method SaveChanges(ids: seq<Guid>, serialize: DomainEvent -> string, commitOk: bool) returns (committed: bool)
      requires Valid()
      requires |ids| >= |Flatten(tracked)| && FreshIds(ids[..|Flatten(tracked)|])
      modifies this, database, tracked
      ensures committed == commitOk
      ensures Valid()
      ensures tracked == old(tracked)
      ensures committed ==>
        && database.outbox == Overlay(old(database.outbox), old(modifiedOutbox)) + old(addedOutbox)
                              + ToRecords(old(Flatten(tracked)), ids, serialize)
        && database.rfqs == old(database.rfqs) + old(addedRfqs)
        && addedRfqs == [] && addedOutbox == [] && modifiedOutbox == map[]
        && forall a :: a in tracked ==> a.domainEvents == []
      ensures !committed ==>
        && database.outbox == old(database.outbox) && database.rfqs == old(database.rfqs)
        && addedOutbox == old(addedOutbox) + ToRecords(old(Flatten(tracked)), ids, serialize)
        && addedRfqs == old(addedRfqs) && modifiedOutbox == old(modifiedOutbox)
        && forall a :: a in tracked ==> a.domainEvents == old(a.domainEvents)
    {
      var events := Flatten(tracked);
      AddOutboxRecords(events, ids, serialize);
      if !commitOk {
        return false;
      }
      Commit();
      ClearTracked();
      return true;
    }

    /** Step 2 of `SaveChangesAsync`: one new outbox record per event, added to the unit of work. */
    method AddOutboxRecords(events: seq<DomainEvent>, ids: seq<Guid>, serialize: DomainEvent -> string)
      requires Valid()
      requires |ids| >= |events| && FreshIds(ids[..|events|])
      modifies this
      ensures Valid()
      ensures addedOutbox == old(addedOutbox) + ToRecords(events, ids, serialize)
      ensures tracked == old(tracked) && addedRfqs == old(addedRfqs) && modifiedOutbox == old(modifiedOutbox)
    {
      ghost var before := addedOutbox;
      ToRecordsIds(events, ids[..|events|], serialize);
      for k := 0 to |events|
        invariant addedOutbox == before + ToRecords(events[..k], ids, serialize)
        invariant tracked == old(tracked) && addedRfqs == old(addedRfqs) && modifiedOutbox == old(modifiedOutbox)
      {
        assert ToRecords(events[..k + 1], ids, serialize)
            == ToRecords(events[..k], ids, serialize) + [ToRecord(events[k], ids[k], serialize)];
        addedOutbox := addedOutbox + [ToRecord(events[k], ids[k], serialize)];
      }
      assert events[..|events|] == events;
      assert ToRecords(events, ids[..|events|], serialize) == ToRecords(events, ids, serialize);
      UniqueIdsAppend(before, ToRecords(events, ids, serialize));
    }

    /** `base.SaveChangesAsync` returning: every added and changed row is committed at once. */
    method Commit()
      requires Valid()
      modifies this, database
      ensures Valid()
      ensures database.outbox == Overlay(old(database.outbox), old(modifiedOutbox)) + old(addedOutbox)
      ensures database.rfqs == old(database.rfqs) + old(addedRfqs)
      ensures addedRfqs == [] && addedOutbox == [] && modifiedOutbox == map[]
      ensures tracked == old(tracked)
    {
      OverlayKeepsIds(database.outbox, modifiedOutbox);
      UniqueIdsAppend(Overlay(database.outbox, modifiedOutbox), addedOutbox);
      database.rfqs := database.rfqs + addedRfqs;
      database.outbox := Overlay(database.outbox, modifiedOutbox) + addedOutbox;
      addedRfqs, addedOutbox, modifiedOutbox := [], [], map[];
    }

    /** Step 3 of `SaveChangesAsync`: `ClearDomainEvents` on every tracked aggregate. */
    method ClearTracked()
      modifies tracked
      ensures forall a :: a in tracked ==> a.domainEvents == []
    {
      for k := 0 to |tracked|
        invariant forall j :: 0 <= j < k ==> tracked[j].domainEvents == []
      {
        tracked[k].ClearDomainEvents();
      }
    }
  }
}

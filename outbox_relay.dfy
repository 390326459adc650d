/**
 * The outbox relay (`OutboxProcessor`): each cycle selects the oldest
 * pending records, publishes each one, marks it processed or records the
 * failure, and saves the batch.
 */
module OutboxRelay {
  import opened Wrappers
  import opened Text
  import opened ProcurementDomain
  import opened Persistence

  /** `Take(20)`. */
  const BatchSize: nat := 20

  const RfqCreatedRoutingKey := "procurement.rfq.created"
  const UnknownRoutingKey := "procurement.unknown"

  /** Every position in `s` is a row of `rows`. */
  predicate InRange(rows: seq<OutboxRecord>, s: seq<nat>)
  {
    forall k :: 0 <= k < |s| ==> s[k] < |rows|
  }

  predicate Distinct(s: seq<nat>)
  {
    forall a, b :: 0 <= a < b < |s| ==> s[a] != s[b]
  }

  /** The rows at the positions in `s` are in ascending `OccurredUtc` order. */
  predicate SortedByOccurred(rows: seq<OutboxRecord>, s: seq<nat>)
    requires InRange(rows, s)
  {
    forall a, b :: 0 <= a < b < |s| ==> rows[s[a]].occurredUtc <= rows[s[b]].occurredUtc
  }

  /** `Where(x => x.ProcessedUtc == null)`: the positions of the pending rows, in table order. */
  function PendingRows(rows: seq<OutboxRecord>): (r: seq<nat>)
    ensures InRange(rows, r)
    ensures forall j :: j in r <==> 0 <= j < |rows| && rows[j].IsPending()
    ensures forall a, b :: 0 <= a < b < |r| ==> r[a] < r[b]
  {
    if rows == [] then
      []
    else
      var init := rows[..|rows| - 1];
      var r := PendingRows(init);
      if rows[|rows| - 1].IsPending() then r + [|rows| - 1] else r
  }

  /** Inserts position `x` before the first position whose row is not older. */
  function Insert(rows: seq<OutboxRecord>, x: nat, s: seq<nat>): (r: seq<nat>)
    requires x < |rows| && InRange(rows, s)
    ensures InRange(rows, r) && |r| == |s| + 1
  {
    if s == [] || rows[x].occurredUtc <= rows[s[0]].occurredUtc then [x] + s
    else [s[0]] + Insert(rows, x, s[1..])
  }

  /** `OrderBy(x => x.OccurredUtc)`: an insertion sort of positions by their
      row's timestamp; each position is inserted in front of the later ones it
      ties with, so equal timestamps keep table order. */
  function SortByOccurred(rows: seq<OutboxRecord>, s: seq<nat>): (r: seq<nat>)
    requires InRange(rows, s)
    ensures InRange(rows, r) && |r| == |s|
  {
    if s == [] then [] else Insert(rows, s[0], SortByOccurred(rows, s[1..]))
  }

  /** Inserting adds exactly one occurrence of `x` and nothing else. */
  lemma {:induction false} InsertPermutes(rows: seq<OutboxRecord>, x: nat, s: seq<nat>)
    requires x < |rows| && InRange(rows, s)
    ensures multiset(Insert(rows, x, s)) == multiset(s) + multiset{x}
  {
    if s != [] && rows[x].occurredUtc > rows[s[0]].occurredUtc {
      InsertPermutes(rows, x, s[1..]);
      assert s == [s[0]] + s[1..];
    }
  }

  /** A lower bound on the timestamps of `s` and of `x` bounds those of the insertion. */
  lemma {:induction false} InsertBound(rows: seq<OutboxRecord>, x: nat, s: seq<nat>, v: Timestamp)
    requires x < |rows| && InRange(rows, s)
    requires v <= rows[x].occurredUtc
    requires forall k :: 0 <= k < |s| ==> v <= rows[s[k]].occurredUtc
    ensures forall k :: 0 <= k < |Insert(rows, x, s)| ==> v <= rows[Insert(rows, x, s)[k]].occurredUtc
  {
    var r := Insert(rows, x, s);
    if s == [] || rows[x].occurredUtc <= rows[s[0]].occurredUtc {
      forall k | 0 <= k < |r| ensures v <= rows[r[k]].occurredUtc {
        if k > 0 { assert r[k] == s[k - 1]; }
      }
    } else {
      var tail := Insert(rows, x, s[1..]);
      InsertBound(rows, x, s[1..], v);
      forall k | 0 <= k < |r| ensures v <= rows[r[k]].occurredUtc {
        if k > 0 { assert r[k] == tail[k - 1]; }
      }
    }
  }

  /** Inserting into a sorted sequence keeps it sorted. */
  lemma {:induction false} InsertSorted(rows: seq<OutboxRecord>, x: nat, s: seq<nat>)
    requires x < |rows| && InRange(rows, s) && SortedByOccurred(rows, s)
    ensures SortedByOccurred(rows, Insert(rows, x, s))
  {
    if s != [] && rows[x].occurredUtc > rows[s[0]].occurredUtc {
      var tail := Insert(rows, x, s[1..]);
      assert SortedByOccurred(rows, s[1..]) by {
        forall a, b | 0 <= a < b < |s[1..]| ensures rows[s[1..][a]].occurredUtc <= rows[s[1..][b]].occurredUtc {
          assert s[1..][a] == s[a + 1] && s[1..][b] == s[b + 1];
        }
      }
      InsertSorted(rows, x, s[1..]);
      forall k | 0 <= k < |s[1..]| ensures rows[s[0]].occurredUtc <= rows[s[1..][k]].occurredUtc {
        assert s[1..][k] == s[k + 1];
      }
      InsertBound(rows, x, s[1..], rows[s[0]].occurredUtc);
      var r := [s[0]] + tail;
      forall a, b | 0 <= a < b < |r| ensures rows[r[a]].occurredUtc <= rows[r[b]].occurredUtc {
        assert r[b] == tail[b - 1];
        if a > 0 { assert r[a] == tail[a - 1]; }
      }
    }
  }

  /** Sorting yields positions in timestamp order. */
  lemma {:induction false} SortFacts(rows: seq<OutboxRecord>, s: seq<nat>)
    requires InRange(rows, s)
    ensures multiset(SortByOccurred(rows, s)) == multiset(s)
    ensures SortedByOccurred(rows, SortByOccurred(rows, s))
  {
    if s != [] {
      SortFacts(rows, s[1..]);
      InsertPermutes(rows, s[0], SortByOccurred(rows, s[1..]));
      InsertSorted(rows, s[0], SortByOccurred(rows, s[1..]));
      assert s == [s[0]] + s[1..];
    }
  }

  /** Row `i` comes before row `j` by timestamp, and by table position among equal timestamps. */
  predicate Precedes(rows: seq<OutboxRecord>, i: nat, j: nat)
    requires i < |rows| && j < |rows|
  {
    rows[i].occurredUtc < rows[j].occurredUtc || (rows[i].occurredUtc == rows[j].occurredUtc && i < j)
  }

  /** The positions in `s` are ordered by timestamp, ties by table position. */
  predicate OrderedWithTies(rows: seq<OutboxRecord>, s: seq<nat>)
    requires InRange(rows, s)
  {
    forall a, b :: 0 <= a < b < |s| ==> Precedes(rows, s[a], s[b])
  }

  /** Positions in table order, each once. */
  predicate Increasing(s: seq<nat>)
  {
    forall a, b :: 0 <= a < b < |s| ==> s[a] < s[b]
  }

  /** Every position of an insertion is the inserted one or one of `s`. */
  lemma {:induction false} InsertMembers(rows: seq<OutboxRecord>, x: nat, s: seq<nat>)
    requires x < |rows| && InRange(rows, s)
    ensures forall k :: 0 <= k < |Insert(rows, x, s)| ==> Insert(rows, x, s)[k] == x || Insert(rows, x, s)[k] in s
  {
    var r := Insert(rows, x, s);
    if s == [] || rows[x].occurredUtc <= rows[s[0]].occurredUtc {
      forall k | 0 <= k < |r| ensures r[k] == x || r[k] in s {
        if k > 0 { assert r[k] == s[k - 1]; }
      }
    } else {
      var tail := Insert(rows, x, s[1..]);
      InsertMembers(rows, x, s[1..]);
      forall k | 0 <= k < |r| ensures r[k] == x || r[k] in s {
        if k > 0 {
          assert r[k] == tail[k - 1];
          if tail[k - 1] != x {
            var m :| 0 <= m < |s[1..]| && s[1..][m] == tail[k - 1];
            assert s[m + 1] == r[k];
          }
        }
      }
    }
  }

  /** Inserting a position smaller than every position of an ordered sequence keeps it ordered. */
  lemma {:induction false} InsertOrdered(rows: seq<OutboxRecord>, x: nat, s: seq<nat>)
    requires x < |rows| && InRange(rows, s) && OrderedWithTies(rows, s)
    requires forall k :: 0 <= k < |s| ==> x < s[k]
    ensures OrderedWithTies(rows, Insert(rows, x, s))
  {
    var r := Insert(rows, x, s);
    if s == [] || rows[x].occurredUtc <= rows[s[0]].occurredUtc {
      forall a, b | 0 <= a < b < |r| ensures Precedes(rows, r[a], r[b]) {
        assert r[b] == s[b - 1];
        if a > 0 {
          assert r[a] == s[a - 1];
        } else if b > 1 {
          assert Precedes(rows, s[0], s[b - 1]);
        }
      }
    } else {
      var tail := Insert(rows, x, s[1..]);
      assert OrderedWithTies(rows, s[1..]) by {
        forall a, b | 0 <= a < b < |s[1..]| ensures Precedes(rows, s[1..][a], s[1..][b]) {
          assert s[1..][a] == s[a + 1] && s[1..][b] == s[b + 1];
        }
      }
      InsertOrdered(rows, x, s[1..]);
      InsertMembers(rows, x, s[1..]);
      forall k | 0 <= k < |tail| ensures Precedes(rows, s[0], tail[k]) {
        if tail[k] != x {
          var m :| 0 <= m < |s[1..]| && s[1..][m] == tail[k];
          assert s[m + 1] == tail[k];
        }
      }
      forall a, b | 0 <= a < b < |r| ensures Precedes(rows, r[a], r[b]) {
        assert r[b] == tail[b - 1];
        if a > 0 { assert r[a] == tail[a - 1]; }
      }
    }
  }

  /** Sorting positions given in table order orders them by timestamp and, among
      equal timestamps, keeps table order. */
  lemma {:induction false} SortKeepsTableOrderOnTies(rows: seq<OutboxRecord>, s: seq<nat>)
    requires InRange(rows, s) && Increasing(s)
    ensures OrderedWithTies(rows, SortByOccurred(rows, s))
  {
    if s != [] {
      var sorted := SortByOccurred(rows, s[1..]);
      SortKeepsTableOrderOnTies(rows, s[1..]);
      SortFacts(rows, s[1..]);
      forall k | 0 <= k < |sorted| ensures s[0] < sorted[k] {
        assert sorted[k] in multiset(s[1..]);
        var m :| 0 <= m < |s[1..]| && s[1..][m] == sorted[k];
        assert s[m + 1] == sorted[k];
      }
      InsertOrdered(rows, s[0], sorted);
    }
  }

  /** A sequence whose multiset has no repeated element has no repeated element. */
  lemma DistinctByMultiset(s: seq<nat>, t: seq<nat>)
    requires Distinct(s) && multiset(s) == multiset(t)
    ensures Distinct(t)
  {
    forall a, b | 0 <= a < b < |t| ensures t[a] != t[b] {
      if t[a] == t[b] {
        var y := t[a];
        assert multiset(t)[y] >= 2 by {
          assert t == t[..b] + [t[b]] + t[b + 1..];
          assert y in multiset(t[..b]) by { assert t[..b][a] == y; }
        }
        MultisetCountAtMostOne(s, y);
      }
    }
  }

  lemma {:induction false} MultisetCountAtMostOne(s: seq<nat>, y: nat)
    requires Distinct(s)
    ensures multiset(s)[y] <= 1
  {
    if s != [] {
      assert s == [s[0]] + s[1..];
      assert Distinct(s[1..]) by {
        forall a, b | 0 <= a < b < |s[1..]| ensures s[1..][a] != s[1..][b] {
          assert s[1..][a] == s[a + 1] && s[1..][b] == s[b + 1];
        }
      }
      MultisetCountAtMostOne(s[1..], y);
      if s[0] == y {
        assert y !in s[1..];
      }
    }
  }

  /** `.Take(20)` of the sorted pending positions. */
  function SelectBatch(rows: seq<OutboxRecord>): seq<nat>
  {
    var sorted := SortByOccurred(rows, PendingRows(rows));
    if |sorted| < BatchSize then sorted else sorted[..BatchSize]
  }

  /** The batch one cycle processes: pending rows only, each once, oldest first,
      at most `BatchSize` of them, and as many as that allows. */
  lemma SelectBatchSpec(rows: seq<OutboxRecord>)
    ensures var batch := SelectBatch(rows);
      && InRange(rows, batch) && Distinct(batch)
      && (forall k :: 0 <= k < |batch| ==> rows[batch[k]].IsPending())
      && SortedByOccurred(rows, batch)
      && |batch| == (if |PendingRows(rows)| < BatchSize then |PendingRows(rows)| else BatchSize)
  {
    var pending := PendingRows(rows);
    var sorted := SortByOccurred(rows, pending);
    SortFacts(rows, pending);
    DistinctByMultiset(pending, sorted);
    var batch := SelectBatch(rows);
    assert batch == sorted[..|batch|];
    forall k | 0 <= k < |batch| ensures rows[batch[k]].IsPending() {
      assert sorted[k] in multiset(pending);
    }
  }

  /** No pending row left out of the batch is older than a selected one, and
      when fewer than `BatchSize` rows are pending, all of them are selected. */
  lemma SelectBatchTakesOldest(rows: seq<OutboxRecord>, j: nat)
    requires j < |rows| && rows[j].IsPending() && j !in SelectBatch(rows)
    ensures |PendingRows(rows)| >= BatchSize
    ensures forall k :: 0 <= k < |SelectBatch(rows)| ==>
              rows[SelectBatch(rows)[k]].occurredUtc <= rows[j].occurredUtc
  {
    var pending := PendingRows(rows);
    var sorted := SortByOccurred(rows, pending);
    SortFacts(rows, pending);
    var batch := SelectBatch(rows);
    assert j in multiset(sorted);
    var m :| 0 <= m < |sorted| && sorted[m] == j;
    assert m >= |batch|;
    forall k | 0 <= k < |batch| ensures rows[batch[k]].occurredUtc <= rows[j].occurredUtc {
      assert batch[k] == sorted[k];
    }
  }

  /** The batch is in timestamp order, and rows with equal timestamps are
      taken in table order. */
  lemma SelectBatchBreaksTies(rows: seq<OutboxRecord>)
    ensures InRange(rows, SelectBatch(rows))
    ensures OrderedWithTies(rows, SelectBatch(rows))
  {
    var pending := PendingRows(rows);
    var sorted := SortByOccurred(rows, pending);
    SortFacts(rows, pending);
    SortKeepsTableOrderOnTies(rows, pending);
    var batch := SelectBatch(rows);
    forall k | 0 <= k < |batch| ensures batch[k] == sorted[k] && batch[k] < |rows| {
      assert sorted[k] in multiset(pending);
    }
  }

  /** `InferRoutingKey`: the created-RFQ key exactly when the type tag contains
      "RfqCreated" ignoring case, the fallback key otherwise. */
  function InferRoutingKey(recordType: string): (key: string)
    ensures key == RfqCreatedRoutingKey <==> exists i :: MatchesAt(recordType, "RfqCreated", i)
    ensures key == UnknownRoutingKey <==> !exists i :: MatchesAt(recordType, "RfqCreated", i)
  {
    if ContainsIgnoreCase(recordType, "RfqCreated") then RfqCreatedRoutingKey else UnknownRoutingKey
  }

  /** A record made from an `RfqCreated` event routes as `procurement.rfq.created`. */
  lemma RfqCreatedRecordRoutes(e: DomainEvent, id: Guid, serialize: DomainEvent -> string)
    requires e.RfqCreated?
    ensures InferRoutingKey(ToRecord(e, id, serialize).recordType) == RfqCreatedRoutingKey
  {
    var t := ToRecord(e, id, serialize).recordType;
    assert t[|EventsNamespace|..|EventsNamespace| + 10] == "RfqCreated";
    assert MatchesAt(t, "RfqCreated", |EventsNamespace|);
  }

  /** The arguments of one `PublishAsync` call. */
  datatype PublishCall = PublishCall(routingKey: string, payload: string, messageId: Guid)

  /** What the publisher did with one call: returned (at the clock reading taken
      right after), or threw with a message. */
  datatype PublishOutcome = Published(at: Timestamp) | PublishFailed(message: string)

  /** The publisher, the store and the clock during one cycle: whether loading
      the batch succeeds, the outcome of each publish call, whether the save succeeds. */
  datatype CycleOracle = CycleOracle(loadOk: bool, publish: PublishCall -> PublishOutcome, saveOk: bool)

  /** The call made for a record: its inferred routing key, its payload, its own id as message id. */
  function CallFor(r: OutboxRecord): PublishCall
  {
    PublishCall(InferRoutingKey(r.recordType), r.payload, r.id)
  }

  /** The calls made for a batch, in batch order. */
  function Calls(rows: seq<OutboxRecord>, batch: seq<nat>): seq<PublishCall>
    requires InRange(rows, batch)
  {
    seq(|batch|, k requires 0 <= k < |batch| => CallFor(rows[batch[k]]))
  }

  /** A record after its publish attempt. */
  function Mark(r: OutboxRecord, outcome: PublishOutcome): OutboxRecord
  {
    match outcome
    case Published(at) => r.(processedUtc := Some(at), error := None)
    case PublishFailed(message) => r.(error := Some(message))
  }

  /** The changes a cycle makes to the rows of its batch. */
  function MarkedEdits(rows: seq<OutboxRecord>, batch: seq<nat>, publish: PublishCall -> PublishOutcome): map<nat, OutboxRecord>
  {
    map j | j in batch && j < |rows| :: Mark(rows[j], publish(CallFor(rows[j])))
  }

  /** The outbox table after one cycle. If loading or saving throws, the loop's
      catch swallows it and the table is as before. */
  function CycleResult(rows: seq<OutboxRecord>, oracle: CycleOracle): seq<OutboxRecord>
  {
    var batch := SelectBatch(rows);
    if oracle.loadOk && |batch| > 0 && oracle.saveOk then Overlay(rows, MarkedEdits(rows, batch, oracle.publish)) else rows
  }

  /** The table after a run of cycles. */
  function AfterCycles(rows: seq<OutboxRecord>, cycles: seq<CycleOracle>): seq<OutboxRecord>
    decreases |cycles|
  {
    if cycles == [] then rows else AfterCycles(CycleResult(rows, cycles[0]), cycles[1..])
  }

  /** Adding one more record to the batch adds its marked row to the edits. */
  lemma MarkedEditsSnoc(rows: seq<OutboxRecord>, batch: seq<nat>, j: nat, publish: PublishCall -> PublishOutcome)
    requires j < |rows|
    ensures MarkedEdits(rows, batch + [j], publish)
         == MarkedEdits(rows, batch, publish)[j := Mark(rows[j], publish(CallFor(rows[j])))]
  {
  }

  /** The `foreach` over the batch: for each record, infer its routing key,
      publish it with its own id as message id, and mark it in the unit of work
      as processed (on return) or failed (on throw). A failure does not stop the
      remaining records. */
  method PublishBatch(db: ProcurementDbContext, batch: seq<nat>, publish: PublishCall -> PublishOutcome)
    returns (calls: seq<PublishCall>)
    requires db.Valid() && db.modifiedOutbox == map[] && InRange(db.database.outbox, batch)
    modifies db
    ensures db.Valid()
    ensures db.modifiedOutbox == MarkedEdits(db.database.outbox, batch, publish)
    ensures calls == Calls(db.database.outbox, batch)
    ensures db.tracked == old(db.tracked) && db.addedRfqs == old(db.addedRfqs) && db.addedOutbox == old(db.addedOutbox)
  {
    var rows := db.database.outbox;
    calls := [];
    for k := 0 to |batch|
      invariant db.Valid() && db.database.outbox == rows
      invariant db.tracked == old(db.tracked) && db.addedRfqs == old(db.addedRfqs) && db.addedOutbox == old(db.addedOutbox)
      invariant db.modifiedOutbox == MarkedEdits(rows, batch[..k], publish)
      invariant calls == Calls(rows, batch[..k])
    {
      var msg := rows[batch[k]];
      var call := PublishCall(InferRoutingKey(msg.recordType), msg.payload, msg.id);
      calls := calls + [call];
      var updated;
      match publish(call) {
        case Published(at) =>
          updated := msg.(processedUtc := Some(at), error := None);
        case PublishFailed(message) =>
          updated := msg.(error := Some(message));
      }
      assert updated == Mark(msg, publish(CallFor(msg)));
      db.UpdateOutbox(batch[k], updated);
      assert batch[..k + 1] == batch[..k] + [batch[k]];
      assert Calls(rows, batch[..k + 1]) == Calls(rows, batch[..k]) + [call];
      MarkedEditsSnoc(rows, batch[..k], batch[k], publish);
    }
    assert batch[..|batch|] == batch;
  }

  /** One iteration of `ExecuteAsync`'s loop, in a fresh scope. Returns the
      publish calls made, in order. */
  method RunCycle(database: Database, oracle: CycleOracle) returns (calls: seq<PublishCall>)
    requires database.Valid()
    modifies database
    ensures database.Valid()
    ensures database.rfqs == old(database.rfqs)
    ensures database.outbox == CycleResult(old(database.outbox), oracle)
    ensures calls == if oracle.loadOk then Calls(old(database.outbox), SelectBatch(old(database.outbox))) else []
  {
    if !oracle.loadOk {
      return [];
    }
    var db := new ProcurementDbContext(database);
    ghost var rows := database.outbox;
    var batch := SelectBatch(database.outbox);
    SelectBatchSpec(database.outbox);
    calls := PublishBatch(db, batch, oracle.publish);
    assert db.modifiedOutbox == MarkedEdits(rows, batch, oracle.publish);
    if |batch| > 0 {
      // No aggregate is tracked in the relay's scope: the interceptor adds no record.
      var noEvents: seq<DomainEvent> := [];
      assert Flatten(db.tracked) == noEvents;
      assert ToRecords(noEvents, [], (e: DomainEvent) => "") == [];
      ghost var edited := Overlay(rows, db.modifiedOutbox);
      assert edited + [] + ToRecords(noEvents, [], (e: DomainEvent) => "") == edited;
      var _ := db.SaveChanges([], (e: DomainEvent) => "", oracle.saveOk);
      assert database.outbox == if oracle.saveOk then edited else rows;
    }
    assert CycleResult(rows, oracle) == if |batch| > 0 && oracle.saveOk then Overlay(rows, MarkedEdits(rows, batch, oracle.publish)) else rows;
  }

  /** `ExecuteAsync`: cycles until cancellation, which is observed after the
      last cycle of `cycles`. The two-second delay between cycles is not modelled. */
  method Execute(database: Database, cycles: seq<CycleOracle>)
    requires database.Valid()
    modifies database
    ensures database.Valid()
    ensures database.rfqs == old(database.rfqs)
    ensures database.outbox == AfterCycles(old(database.outbox), cycles)
  {
    var c := 0;
    while c < |cycles|
      invariant 0 <= c <= |cycles|
      invariant database.Valid() && database.rfqs == old(database.rfqs)
      invariant AfterCycles(database.outbox, cycles[c..]) == AfterCycles(old(database.outbox), cycles)
    {
      assert cycles[c..][1..] == cycles[c + 1..];
      var _ := RunCycle(database, cycles[c]);
      c := c + 1;
    }
  }

  /** What a saved cycle does to the k-th record of its batch: the publish call
      carries the record's routing key, payload and own id; on return the record
      is processed at the returned time with its error cleared; on a throw it
      keeps being pending with the error message as its only error. Nothing
      else about the record changes, whatever happened to the other records. */
  lemma CycleMarksRecord(rows: seq<OutboxRecord>, oracle: CycleOracle, k: nat)
    requires oracle.loadOk && oracle.saveOk && k < |SelectBatch(rows)|
    ensures var batch := SelectBatch(rows);
      var j := batch[k];
      var after := CycleResult(rows, oracle);
      && j < |rows| == |after|
      && Calls(rows, batch)[k] == PublishCall(InferRoutingKey(rows[j].recordType), rows[j].payload, rows[j].id)
      && after[j].id == rows[j].id && after[j].occurredUtc == rows[j].occurredUtc
      && after[j].recordType == rows[j].recordType && after[j].payload == rows[j].payload
      && match oracle.publish(Calls(rows, batch)[k])
         case Published(at) => after[j].processedUtc == Some(at) && after[j].error == None
         case PublishFailed(m) => after[j].IsPending() && after[j].error == Some(m) && j in PendingRows(after)
  {
    SelectBatchSpec(rows);
    var batch := SelectBatch(rows);
    assert batch[k] in batch;
  }

  /** A cycle changes only the rows of its batch, and only if it loaded and saved. */
  lemma CycleLeavesOthers(rows: seq<OutboxRecord>, oracle: CycleOracle, j: nat)
    requires j < |rows|
    requires !oracle.loadOk || !oracle.saveOk || j !in SelectBatch(rows)
    ensures |CycleResult(rows, oracle)| == |rows| && CycleResult(rows, oracle)[j] == rows[j]
  {
  }

  /** A processed record is never selected again: every later cycle leaves it as it is. */
  lemma {:induction false} ProcessedIsTerminal(rows: seq<OutboxRecord>, cycles: seq<CycleOracle>, j: nat)
    requires j < |rows| && !rows[j].IsPending()
    ensures |AfterCycles(rows, cycles)| == |rows| && AfterCycles(rows, cycles)[j] == rows[j]
    decreases |cycles|
  {
    if cycles != [] {
      SelectBatchSpec(rows);
      var batch := SelectBatch(rows);
      assert j !in batch;
      CycleLeavesOthers(rows, cycles[0], j);
      ProcessedIsTerminal(CycleResult(rows, cycles[0]), cycles[1..], j);
    }
  }

  /** A row keeps its id, time, type tag and payload: only its processing
      state and error change. */
  predicate SameContent(before: OutboxRecord, after: OutboxRecord)
  {
    && after.id == before.id && after.occurredUtc == before.occurredUtc
    && after.recordType == before.recordType && after.payload == before.payload
  }

  /** Any run of cycles neither adds nor removes rows, and changes no row's
      id, time, type tag or payload; processed rows stay processed. */
  lemma {:induction false} CyclesKeepContent(rows: seq<OutboxRecord>, cycles: seq<CycleOracle>)
    ensures |AfterCycles(rows, cycles)| == |rows|
    ensures forall j :: 0 <= j < |rows| ==> SameContent(rows[j], AfterCycles(rows, cycles)[j])
    ensures forall j :: 0 <= j < |rows| && !rows[j].IsPending() ==> !AfterCycles(rows, cycles)[j].IsPending()
    decreases |cycles|
  {
    if cycles != [] {
      var next := CycleResult(rows, cycles[0]);
      CyclesKeepContent(next, cycles[1..]);
      forall j | 0 <= j < |rows| ensures SameContent(rows[j], next[j]) && (!rows[j].IsPending() ==> !next[j].IsPending()) {
        if cycles[0].loadOk && cycles[0].saveOk && j in SelectBatch(rows) {
          SelectBatchSpec(rows);
        } else {
          CycleLeavesOthers(rows, cycles[0], j);
        }
      }
    }
  }

  /** A table holding one pending record: the batch is that record. */
  lemma SelectsLonePending(r: OutboxRecord)
    requires r.IsPending()
    ensures SelectBatch([r]) == [0]
  {
    assert [r][..0] == [];
    assert PendingRows([r]) == [0];
  }

  /** One saved cycle over a table holding one pending record. */
  lemma LonePendingCycle(r: OutboxRecord, oracle: CycleOracle)
    requires r.IsPending() && oracle.loadOk && oracle.saveOk
    ensures Calls([r], SelectBatch([r])) == [CallFor(r)]
    ensures CycleResult([r], oracle) == [Mark(r, oracle.publish(CallFor(r)))]
  {
    SelectsLonePending(r);
  }

  /** A broker outage followed by recovery: the record of a new `RfqCreated`
      event is published as `procurement.rfq.created` with its own id, the
      failed attempt leaves it pending with the failure text, and the next
      cycle publishes it again and marks it processed. */
  lemma BrokerOutageThenRecovery(rfqId: Guid, recordId: Guid, occurred: Timestamp, serialize: DomainEvent -> string,
                                 down: CycleOracle, up: CycleOracle, failure: string, at: Timestamp)
    requires down.loadOk && down.saveOk && up.loadOk && up.saveOk
    requires var r := ToRecord(RfqCreated(rfqId, "Seed wheat", occurred), recordId, serialize);
      down.publish(CallFor(r)) == PublishFailed(failure)
      && up.publish(CallFor(r)) == Published(at)
    ensures var r := ToRecord(RfqCreated(rfqId, "Seed wheat", occurred), recordId, serialize);
      var once := CycleResult([r], down);
      var twice := CycleResult(once, up);
      && Calls([r], SelectBatch([r])) == [PublishCall(RfqCreatedRoutingKey, r.payload, recordId)]
      && once == [r.(error := Some(failure))]
      && Calls(once, SelectBatch(once)) == [PublishCall(RfqCreatedRoutingKey, r.payload, recordId)]
      && twice == [r.(processedUtc := Some(at), error := None)]
  {
    var r := ToRecord(RfqCreated(rfqId, "Seed wheat", occurred), recordId, serialize);
    RfqCreatedRecordRoutes(RfqCreated(rfqId, "Seed wheat", occurred), recordId, serialize);
    LonePendingCycle(r, down);
    var failed := r.(error := Some(failure));
    assert CallFor(failed) == CallFor(r);
    LonePendingCycle(failed, up);
  }
}

/**
 * The procurement domain: the `RfqCreated` event and the `Rfq` aggregate
 * with its factory `Create`.
 */
module ProcurementDomain {
  import opened Wrappers
  import opened Text
  import opened SharedKernel

  /** `Guid` values, abstracted to naturals; generation is a parameter. */
  type Guid = nat

  /** `DateTime` values in UTC, abstracted to ticks; clock reads are parameters. */
  type Timestamp = int

  /** The procurement domain's events. `RfqCreated` is the only kind the code raises. */
  datatype DomainEvent = RfqCreated(rfqId: Guid, title: string, occurredUtc: Timestamp)
  {
    /** `IDomainEvent.OccurredUtc`. */
    function OccurredUtc(): Timestamp
    {
      match this
      case RfqCreated(_, _, t) => t
    }
  }

  /** The exception `Create` throws: `ArgumentException("Title is required")`. */
  datatype CreateError = TitleRequired

  /** The title `Create` stores, or the error it throws: null and all-white-space
      titles are refused, any other title is stored trimmed. */
  function ValidateTitle(title: Option<string>): (r: Result<string, CreateError>)
    ensures r.Failure? <==> IsNullOrWhiteSpace(title)
    ensures r.Success? ==> r.value != []
    ensures r.Success? ==> !IsWhiteSpace(r.value[0]) && !IsWhiteSpace(r.value[|r.value| - 1])
    ensures r.Success? ==> exists i :: Slices(title.value, r.value, i)
  {
    if IsNullOrWhiteSpace(title) then
      Failure(TitleRequired)
    else
      TrimEmptyIff(title.value);
      Success(Trim(title.value))
  }

  /** A request for quotation. */
  class Rfq {
    const id: Guid
    const title: string
    const createdUtc: Timestamp
    /** The inherited `AggregateRoot` part: this aggregate's pending events. */
    const root: AggregateRoot<DomainEvent>

    /** The private constructor: a new aggregate with no pending events. */
    constructor (id: Guid, title: string, createdUtc: Timestamp)
      ensures this.id == id && this.title == title && this.createdUtc == createdUtc
      ensures fresh(root) && root.domainEvents == []
    {
      this.id := id;
      this.title := title;
      this.createdUtc := createdUtc;
      root := new AggregateRoot();
    }

    /** `Rfq.Create`. `newId` is the `Guid.NewGuid()` result and `createdUtc`,
        `occurredUtc` the two separate `DateTime.UtcNow` reads. A refused title
        produces no aggregate; an accepted one produces an aggregate holding
        the trimmed title and exactly one pending `RfqCreated` event about it. */
    static method Create(title: Option<string>, newId: Guid, createdUtc: Timestamp, occurredUtc: Timestamp)
      returns (r: Result<Rfq, CreateError>)
      ensures r.Failure? <==> IsNullOrWhiteSpace(title)
      ensures r.Failure? ==> r.error == TitleRequired
      ensures r.Success? ==> fresh(r.value) && fresh(r.value.root)
      ensures r.Success? ==> r.value.id == newId && r.value.createdUtc == createdUtc
      ensures r.Success? ==> r.value.title == ValidateTitle(title).value
      ensures r.Success? ==> r.value.root.domainEvents == [RfqCreated(r.value.id, r.value.title, occurredUtc)]
    {
      var validated := ValidateTitle(title);
      if validated.Failure? {
        return Failure(validated.error);
      }
      var rfq := new Rfq(newId, validated.value, createdUtc);
      rfq.root.Raise(RfqCreated(rfq.id, rfq.title, occurredUtc));
      return Success(rfq);
    }
  }
}

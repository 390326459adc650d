/**
 * The shared kernel's aggregate root: the per-instance, ordered list of
 * domain events raised since the aggregate was created or last drained.
 */
module SharedKernel {

  /** Base of every aggregate. C# subclasses inherit it; here an aggregate
      holds one (see `ProcurementDomain.Rfq.root`). */
  class AggregateRoot<E> {
    /** The private `_domainEvents` list, in raise order. */
    var domainEvents: seq<E>

    /** A new aggregate starts with no pending events. */
    constructor ()
      ensures domainEvents == []
    {
      domainEvents := [];
    }

    /** The read-only `DomainEvents` view; reading it changes nothing. */
    function DomainEvents(): seq<E>
      reads this
    {
      domainEvents
    }

    /** `Raise`: appends at the end, with no de-duplication. */
    method Raise(e: E)
      modifies this
      ensures domainEvents == Raised(old(domainEvents), e)
    {
      domainEvents := domainEvents + [e];
    }

    /** `ClearDomainEvents`: empties the pending list. */
    method ClearDomainEvents()
      modifies this
      ensures domainEvents == Cleared(old(domainEvents))
    {
      domainEvents := [];
    }
  }

  /** The pending list after one raise. */
  function Raised<E>(pending: seq<E>, e: E): (r: seq<E>)
    ensures |r| == |pending| + 1 && r[..|pending|] == pending && r[|pending|] == e
  {
    pending + [e]
  }

  /** The pending list after a clear. */
  function Cleared<E>(pending: seq<E>): (r: seq<E>)
    ensures |r| == 0
  {
    []
  }

  /** The pending list after raising each of `es` in turn, one `Raise` at a time. */
  function RaiseAll<E>(pending: seq<E>, es: seq<E>): seq<E>
    decreases |es|
  {
    if es == [] then pending else RaiseAll(Raised(pending, es[0]), es[1..])
  }

  /** After n raises and no clear, the pending list is the old one followed by
      exactly those n events, in raise order. */
  lemma {:induction false} RaiseAllAppends<E>(pending: seq<E>, es: seq<E>)
    ensures RaiseAll(pending, es) == pending + es
    ensures |RaiseAll(pending, es)| == |pending| + |es|
    decreases |es|
  {
    if es != [] {
      RaiseAllAppends(Raised(pending, es[0]), es[1..]);
      assert Raised(pending, es[0]) + es[1..] == pending + es;
    }
  }

  /** Clearing is idempotent, and clearing then raising leaves only the new events. */
  lemma ClearIdempotent<E>(pending: seq<E>, es: seq<E>)
    ensures Cleared(Cleared(pending)) == Cleared(pending)
    ensures RaiseAll(Cleared(pending), es) == es
  {
    RaiseAllAppends(Cleared(pending), es);
  }
}

/**
 * The logistics side's `ProcurementEventsConsumer`: it declares the topology,
 * consumes with manual acknowledgement, acks or nacks each delivery, and
 * retries the whole setup after a crash until shutdown.
 */
module Consumer {
  import opened Wrappers

  const ExchangeName := "agri.events"
  const QueueName := "logistics.procurement-events"
  const BindingKey := "procurement.*.*"
  const PrefetchCount: nat := 10

  /** The channel operations the consumer invokes. */
  datatype ChannelCall =
    | ExchangeDeclare(exchange: string, kind: string, durable: bool, autoDelete: bool)
    | QueueDeclare(queue: string, durable: bool, exclusive: bool, autoDelete: bool)
    | QueueBind(queue: string, exchange: string, routingKey: string)
    | BasicQos(prefetchSize: nat, prefetchCount: nat, global: bool)
    | BasicConsume(queue: string, autoAck: bool)
    | BasicAck(deliveryTag: nat, multiple: bool)
    | BasicNack(deliveryTag: nat, multiple: bool, requeue: bool)
    | CloseChannel
    | DisposeChannel

  /** The connection operations the consumer invokes. */
  datatype ConnectionCall = CreateModel | CloseConnection | DisposeConnection

  /** A broker channel, seen as a recorder of the calls made on it (a call that
      throws is recorded too). */
  class Channel {
    var isOpen: bool
    var calls: seq<ChannelCall>

    constructor ()
      ensures isOpen && calls == []
    {
      isOpen := true;
      calls := [];
    }

    method Invoke(c: ChannelCall)
      modifies this
      ensures calls == old(calls) + [c] && isOpen == old(isOpen)
    {
      calls := calls + [c];
    }

    /** `Close()`; when it throws, the channel's state is left as it was. */
    method Close(throws: bool)
      modifies this
      ensures calls == old(calls) + [CloseChannel]
      ensures isOpen == (old(isOpen) && throws)
    {
      calls := calls + [CloseChannel];
      if !throws {
        isOpen := false;
      }
    }

    method Dispose()
      modifies this
      ensures calls == old(calls) + [DisposeChannel] && !isOpen
    {
      calls := calls + [DisposeChannel];
      isOpen := false;
    }
  }

  /** A broker connection, seen as a recorder of the calls made on it. */
  class Connection {
    var isOpen: bool
    var calls: seq<ConnectionCall>

    constructor ()
      ensures isOpen && calls == []
    {
      isOpen := true;
      calls := [];
    }

    method Invoke(c: ConnectionCall)
      modifies this
      ensures calls == old(calls) + [c] && isOpen == old(isOpen)
    {
      calls := calls + [c];
    }

    method Close(throws: bool)
      modifies this
      ensures calls == old(calls) + [CloseConnection]
      ensures isOpen == (old(isOpen) && throws)
    {
      calls := calls + [CloseConnection];
      if !throws {
        isOpen := false;
      }
    }

    method Dispose()
      modifies this
      ensures calls == old(calls) + [DisposeConnection] && !isOpen
    {
      calls := calls + [DisposeConnection];
      isOpen := false;
    }
  }

  /** The broker operations of the setup, in order; any one of them may throw. */
  datatype SetupStep =
    CreateConnectionStep | CreateModelStep | DeclareExchangeStep | DeclareQueueStep
    | BindQueueStep | SetQosStep | StartConsumingStep

  function StepIndex(s: SetupStep): nat
  {
    match s
    case CreateConnectionStep => 0
    case CreateModelStep => 1
    case DeclareExchangeStep => 2
    case DeclareQueueStep => 3
    case BindQueueStep => 4
    case SetQosStep => 5
    case StartConsumingStep => 6
  }

  /** The channel calls of a complete setup: a durable, non-auto-deleted topic
      exchange; a durable, shared, non-auto-deleted queue; the binding; a
      prefetch of 10 per consumer; consumption with manual acknowledgement. */
  function SetupCalls(): (calls: seq<ChannelCall>)
    ensures |calls| == 5
  {
    [ ExchangeDeclare(ExchangeName, "topic", true, false),
      QueueDeclare(QueueName, true, false, false),
      QueueBind(QueueName, ExchangeName, BindingKey),
      BasicQos(0, PrefetchCount, false),
      BasicConsume(QueueName, false) ]
  }

  /** The setup's channel calls stand in the order the topology needs: the
      exchange and the queue are declared before they are bound, the prefetch
      limit is set before consumption starts, and acknowledgement is manual. */
  lemma SetupOrder()
    ensures exists i, j, k :: (0 <= i < k < |SetupCalls()| && 0 <= j < k
      && SetupCalls()[i].ExchangeDeclare? && SetupCalls()[i].exchange == ExchangeName
      && SetupCalls()[j].QueueDeclare? && SetupCalls()[j].queue == QueueName
      && SetupCalls()[k].QueueBind? && SetupCalls()[k].queue == QueueName && SetupCalls()[k].exchange == ExchangeName)
    ensures forall q, c :: (0 <= q < |SetupCalls()| && 0 <= c < |SetupCalls()| && SetupCalls()[q].BasicQos? && SetupCalls()[c].BasicConsume?
      ==> q < c && SetupCalls()[q].prefetchCount == 10 && !SetupCalls()[c].autoAck)
  {
    assert SetupCalls()[0].ExchangeDeclare? && SetupCalls()[1].QueueDeclare? && SetupCalls()[2].QueueBind?;
  }

  /** The channel calls the message handler makes on an open channel. If
      processing throws, or the ack itself throws, the handler nacks with
      requeue; a nack that throws is logged and swallowed, so nothing follows it. */
  function HandlerCalls(tag: nat, processingThrows: bool, ackThrows: bool): seq<ChannelCall>
  {
    if processingThrows then [BasicNack(tag, false, true)]
    else if ackThrows then [BasicAck(tag, false), BasicNack(tag, false, true)]
    else [BasicAck(tag, false)]
  }

  /** Number of acks in a call log. */
  function Acks(calls: seq<ChannelCall>): nat
  {
    if calls == [] then 0 else (if calls[0].BasicAck? then 1 else 0) + Acks(calls[1..])
  }

  /** Number of nacks in a call log. */
  function Nacks(calls: seq<ChannelCall>): nat
  {
    if calls == [] then 0 else (if calls[0].BasicNack? then 1 else 0) + Nacks(calls[1..])
  }

  /** Every ack or nack the handler makes is for the delivery's own tag, never
      for multiple deliveries, and every nack asks for requeue. A delivery that
      is processed and acked gets exactly one ack and no nack; one whose
      processing throws gets exactly one nack and no ack. */
  lemma HandlerSettlesOnce(tag: nat, processingThrows: bool, ackThrows: bool)
    ensures var calls := HandlerCalls(tag, processingThrows, ackThrows);
      && (forall c :: c in calls ==> (c.BasicAck? || c.BasicNack?) && c.deliveryTag == tag && !c.multiple)
      && (forall c :: c in calls && c.BasicNack? ==> c.requeue)
      && (!processingThrows && !ackThrows ==> Acks(calls) == 1 && Nacks(calls) == 0)
      && (processingThrows ==> Acks(calls) == 0 && Nacks(calls) == 1)
      && (!processingThrows && ackThrows ==> Acks(calls) == 1 && Nacks(calls) == 1)
  {
    var ack, nack := BasicAck(tag, false), BasicNack(tag, false, true);
    assert [nack][1..] == [] && [ack][1..] == [] && [ack, nack][1..] == [nack];
    assert Acks([nack]) == 0 + Acks([]) && Nacks([nack]) == 1 + Nacks([]);
    if processingThrows {
      assert HandlerCalls(tag, processingThrows, ackThrows) == [nack];
    } else if ackThrows {
      assert Acks([ack, nack]) == 1 + Acks([nack]) && Nacks([ack, nack]) == 0 + Nacks([nack]);
      assert HandlerCalls(tag, processingThrows, ackThrows) == [ack, nack];
    } else {
      assert Acks([ack]) == 1 + Acks([]) && Nacks([ack]) == 0 + Nacks([]);
      assert HandlerCalls(tag, processingThrows, ackThrows) == [ack];
    }
  }

  /** The outcome of one pass of the retry loop: where the setup throws (if it
      does), and whether closing the channel and the connection then throws. */
  datatype Attempt = Attempt(setupThrowsAt: Option<SetupStep>, channelCloseThrows: bool, connectionCloseThrows: bool)

  /** The number of attempts up to the first whose setup completes. */
  function FirstSuccess(attempts: seq<Attempt>): (n: nat)
    ensures n <= |attempts|
    ensures forall i :: 0 <= i < n ==> attempts[i].setupThrowsAt.Some?
    ensures n < |attempts| ==> attempts[n].setupThrowsAt.None?
  {
    if attempts == [] then 0
    else if attempts[0].setupThrowsAt.None? then 0
    else 1 + FirstSuccess(attempts[1..])
  }

  /** How a crashed attempt leaves what it opened: a connection exactly when
      connecting did not throw, a channel exactly when it was created; each one
      closed and then disposed after the calls the attempt made on it. */
  ghost predicate ClosedAfterCrash(step: SetupStep, conn: Connection?, ch: Channel?)
    reads conn, ch
  {
    && (conn == null <==> step == CreateConnectionStep)
    && (ch == null <==> StepIndex(step) < 2)
    && (conn != null ==> !conn.isOpen && conn.calls == [CreateModel, CloseConnection, DisposeConnection])
    && (ch != null ==> !ch.isOpen && 2 <= StepIndex(step)
                       && ch.calls == SetupCalls()[..StepIndex(step) - 1] + [CloseChannel, DisposeChannel])
  }

  class ProcurementEventsConsumer {
    var connection: Connection?
    var channel: Channel?

    constructor ()
      ensures connection == null && channel == null
    {
      connection := null;
      channel := null;
    }

    /** `StartRabbitMqTopologyAndConsume`: open a connection and a channel,
        declare and bind the topology, set the prefetch limit, start consuming.
        `throwsAt` is the operation that throws, if any; the calls made before
        it (and the throwing one) stay recorded on the channel. */
    method StartTopologyAndConsume(throwsAt: Option<SetupStep>) returns (ok: bool)
      modifies this
      ensures ok <==> throwsAt.None?
      ensures throwsAt == Some(CreateConnectionStep) ==> connection == old(connection) && channel == old(channel)
      ensures throwsAt != Some(CreateConnectionStep) ==> connection != null && fresh(connection)
      ensures throwsAt == Some(CreateModelStep) ==> channel == old(channel) && connection.calls == [CreateModel]
      ensures throwsAt.None? || StepIndex(throwsAt.value) >= 2 ==>
        && channel != null && fresh(channel) && channel.isOpen && connection.calls == [CreateModel]
        && channel.calls == SetupCalls()[..if throwsAt.None? then 5 else StepIndex(throwsAt.value) - 1]
    {
      var stop := if throwsAt.None? then 7 else StepIndex(throwsAt.value);
      if stop == 0 {
        return false;
      }
      var conn := new Connection();
      connection := conn;
      conn.Invoke(CreateModel);
      if stop == 1 {
        return false;
      }
      var ch := new Channel();
      channel := ch;
      ch.Invoke(ExchangeDeclare(ExchangeName, "topic", true, false));
      if stop == 2 {
        return false;
      }
      ch.Invoke(QueueDeclare(QueueName, true, false, false));
      if stop == 3 {
        return false;
      }
      ch.Invoke(QueueBind(QueueName, ExchangeName, BindingKey));
      if stop == 4 {
        return false;
      }
      ch.Invoke(BasicQos(0, PrefetchCount, false));
      if stop == 5 {
        return false;
      }
      ch.Invoke(BasicConsume(QueueName, false));
      if stop == 6 {
        return false;
      }
      assert SetupCalls()[..5] == SetupCalls();
      return true;
    }

    /** `OnMessageReceivedAsync`: nothing at all if there is no open channel;
        otherwise the calls of `HandlerCalls`, on the current channel. The
        handler always returns normally. */
    method OnMessageReceived(deliveryTag: nat, processingThrows: bool, ackThrows: bool)
      modifies channel
      ensures channel == old(channel)
      ensures channel != null ==> channel.isOpen == old(channel.isOpen)
      ensures channel != null && old(channel.isOpen) ==>
        channel.calls == old(channel.calls) + HandlerCalls(deliveryTag, processingThrows, ackThrows)
      ensures channel != null && !old(channel.isOpen) ==> channel.calls == old(channel.calls)
    {
      if channel == null || !channel.isOpen {
        return;
      }
      var ch := channel;
      var failed := processingThrows;
      if !failed {
        ch.Invoke(BasicAck(deliveryTag, false));
        failed := ackThrows;
      }
      if failed {
        ch.Invoke(BasicNack(deliveryTag, false, true));
      }
    }

    /** `SafeClose`: try to close the channel, then the connection, ignoring
        failures; dispose both; forget both. */
    method SafeClose(channelCloseThrows: bool, connectionCloseThrows: bool)
      modifies this, channel, connection
      ensures channel == null && connection == null
      ensures old(channel) != null ==>
        old(channel).calls == old(channel.calls) + [CloseChannel, DisposeChannel] && !old(channel).isOpen
      ensures old(connection) != null ==>
        old(connection).calls == old(connection.calls) + [CloseConnection, DisposeConnection] && !old(connection).isOpen
    {
      var ch, conn := channel, connection;
      if ch != null {
        ch.Close(channelCloseThrows);
      }
      if conn != null {
        conn.Close(connectionCloseThrows);
      }
      if ch != null {
        ch.Dispose();
      }
      if conn != null {
        conn.Dispose();
      }
      channel := null;
      connection := null;
    }

    /** `ExecuteAsync`: set up and consume; after a crash, close everything and
        try again. Cancellation is observed once all of `attempts` have been
        used, or, after a successful setup, whenever it comes: the loop has
        then nothing left to do but wait for it. The 3-second back-off is not
        modelled. `crashed` holds, per crashed attempt, the connection and the
        channel it had opened when it threw. */
    method Execute(attempts: seq<Attempt>) returns (started: bool, tries: nat, ghost crashed: seq<(Connection?, Channel?)>)
      requires connection == null && channel == null
      modifies this
      ensures started <==> FirstSuccess(attempts) < |attempts|
      ensures tries == if started then FirstSuccess(attempts) + 1 else |attempts|
      ensures started ==> channel != null && channel.isOpen && channel.calls == SetupCalls()
      ensures !started ==> connection == null && channel == null
      ensures |crashed| == FirstSuccess(attempts)
      ensures forall i :: 0 <= i < |crashed| ==>
        attempts[i].setupThrowsAt.Some? && ClosedAfterCrash(attempts[i].setupThrowsAt.value, crashed[i].0, crashed[i].1)
    {
      started, tries, crashed := false, 0, [];
      while tries < |attempts| && !started
        invariant tries <= |attempts|
        invariant started ==> tries == FirstSuccess(attempts) + 1
        invariant started ==> channel != null && channel.isOpen && channel.calls == SetupCalls()
        invariant !started ==> tries <= FirstSuccess(attempts) && connection == null && channel == null
        invariant channel != null ==> fresh(channel)
        invariant connection != null ==> fresh(connection)
        invariant |crashed| == if started then tries - 1 else tries
        invariant forall i :: 0 <= i < |crashed| ==>
          attempts[i].setupThrowsAt.Some? && ClosedAfterCrash(attempts[i].setupThrowsAt.value, crashed[i].0, crashed[i].1)
      {
        var attempt := attempts[tries];
        started := StartTopologyAndConsume(attempt.setupThrowsAt);
        if !started {
          crashed := crashed + [(connection, channel)];
          SafeClose(attempt.channelCloseThrows, attempt.connectionCloseThrows);
        } else {
          assert SetupCalls()[..5] == SetupCalls();
        }
        tries := tries + 1;
      }
    }
  }
}

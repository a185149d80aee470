/**
 * The communication handler that both the server and the device run over a
 * connection: a table of message handlers, a stop flag and the listen loop.
 * The connection is represented by what it delivers (a sequence of receive
 * events) and by the log of messages handed to its `send`.
 */
module Protocol {
  import opened Wrappers
  import opened Messages

  /** What a handler does when called: the two built-in ones, or sending a fixed list of messages. */
  datatype HandlerAction = ReplyPong | LogOnly | SendAll(messages: seq<CarlosMessage>)

  /**
   * A message handler. `signatureMatches` stands for the `inspect.signature`
   * comparison: its parameters, less `self` and those with defaults, are those
   * of `MessageHandler.__call__`.
   */
  datatype Handler = Handler(name: string, signatureMatches: bool, action: HandlerAction)

  const PingHandler: Handler := Handler("handle_ping", true, ReplyPong)
  const PongHandler: Handler := Handler("handle_pong", true, LogOnly)

  const PongMessage: CarlosMessage := CarlosMessage(Pong, None)

  /** What a handler sends through the connection for one message. */
  function HandlerSends(h: Handler, message: CarlosMessage): (sent: seq<CarlosMessage>)
    ensures h.action == ReplyPong ==> sent == [PongMessage]
    ensures h.action == LogOnly ==> sent == []
  {
    match h.action
    case ReplyPong => [PongMessage]
    case LogOnly => []
    case SendAll(ms) => ms
  }

  /** The messages `handle_message` causes to be sent: those of the registered handler, or none. */
  function Sends(handlers: map<MessageType, Handler>, message: CarlosMessage): (sent: seq<CarlosMessage>)
    ensures message.messageType !in handlers ==> sent == []
    ensures message.messageType in handlers ==> sent == HandlerSends(handlers[message.messageType], message)
  {
    if message.messageType in handlers then HandlerSends(handlers[message.messageType], message) else []
  }

  /** The handler calls `handle_message` makes: exactly one to the registered handler, or none. */
  function Calls(handlers: map<MessageType, Handler>, message: CarlosMessage): (calls: seq<(string, CarlosMessage)>)
    ensures |calls| <= 1
    ensures |calls| == 1 <==> message.messageType in handlers
    ensures |calls| == 1 ==> calls[0] == (handlers[message.messageType].name, message)
  {
    if message.messageType in handlers then [(handlers[message.messageType].name, message)] else []
  }

  /** The sends of handling a list of messages, one after another. */
  function SendsAll(handlers: map<MessageType, Handler>, messages: seq<CarlosMessage>): seq<CarlosMessage>
  {
    if |messages| == 0 then []
    else SendsAll(handlers, messages[..|messages| - 1]) + Sends(handlers, messages[|messages| - 1])
  }

  function CallsAll(handlers: map<MessageType, Handler>, messages: seq<CarlosMessage>): seq<(string, CarlosMessage)>
  {
    if |messages| == 0 then []
    else CallsAll(handlers, messages[..|messages| - 1]) + Calls(handlers, messages[|messages| - 1])
  }

  /**
   * One step of the connection as the loop sees it: a received message, with
   * whether some other task called `stop` while it was being handled, or the
   * disconnection that makes `receive` raise.
   */
  datatype ListenEvent = Received(message: CarlosMessage, stopRequested: bool) | Disconnected

  datatype ListenOutcome = StoppedListening | ConnectionLost | AwaitingMessage

  /** The messages of the received events, in order. */
  function ReceivedMessages(events: seq<ListenEvent>): (ms: seq<CarlosMessage>)
    ensures |ms| <= |events|
  {
    if |events| == 0 then []
    else
      var last := events[|events| - 1];
      ReceivedMessages(events[..|events| - 1]) + (if last.Received? then [last.message] else [])
  }

  /** Handling one more received message extends the sends and calls by that message's. */
  lemma HandledStep(handlers: map<MessageType, Handler>, events: seq<ListenEvent>, n: nat)
    requires n < |events| && events[n].Received?
    ensures var before := ReceivedMessages(events[..n]);
      var after := ReceivedMessages(events[..n + 1]);
      SendsAll(handlers, after) == SendsAll(handlers, before) + Sends(handlers, events[n].message) &&
      CallsAll(handlers, after) == CallsAll(handlers, before) + Calls(handlers, events[n].message)
  {
    assert events[..n + 1][..n] == events[..n];
    var after := ReceivedMessages(events[..n + 1]);
    assert after == ReceivedMessages(events[..n]) + [events[n].message];
    assert after[..|after| - 1] == ReceivedMessages(events[..n]);
  }

  const DefaultHandlers: map<MessageType, Handler> := map[Ping := PingHandler, Pong := PongHandler]

  /** Handling a ping with the default table calls `handle_ping` once and sends exactly one pong without payload. */
  lemma PingIsAnsweredByPong(message: CarlosMessage)
    requires message.messageType == Ping
    ensures Sends(DefaultHandlers, message) == [PongMessage]
    ensures Calls(DefaultHandlers, message) == [("handle_ping", message)]
    ensures Valid(PongMessage)
  {
  }

  /**
   * Where the listen loop ends: every handled event was a received message,
   * only the last may have requested the stop, and the loop ends stopped,
   * on the disconnection that follows, or with the events exhausted.
   */
  predicate ListenStops(alreadyStopped: bool, events: seq<ListenEvent>, outcome: ListenOutcome, handled: nat)
  {
    handled <= |events| &&
    (forall j :: 0 <= j < handled ==> events[j].Received?) &&
    (forall j :: 0 <= j < handled - 1 ==> !events[j].stopRequested) &&
    (alreadyStopped ==> outcome == StoppedListening && handled == 0) &&
    (outcome == StoppedListening && !alreadyStopped ==> handled >= 1 && events[handled - 1].stopRequested) &&
    (outcome != StoppedListening && handled >= 1 ==> !events[handled - 1].stopRequested) &&
    (outcome == ConnectionLost ==> handled < |events| && events[handled].Disconnected?) &&
    (outcome == AwaitingMessage ==> handled == |events|)
  }

  /** A stopped handler handles nothing; otherwise the first stop request ends the loop after its own message. */
  lemma ListenStopsAtFirstRequest(alreadyStopped: bool, events: seq<ListenEvent>, outcome: ListenOutcome, handled: nat, k: nat)
    requires ListenStops(alreadyStopped, events, outcome, handled)
    requires !alreadyStopped && k < |events|
    requires forall j :: 0 <= j < k ==> events[j].Received? && !events[j].stopRequested
    requires events[k].Received? && events[k].stopRequested
    ensures outcome == StoppedListening && handled == k + 1
  {
  }

  /** The loop of `listen` on a given table, performing the handlers' sends and calls. */
  method ListenLoop(table: map<MessageType, Handler>, alreadyStopped: bool, events: seq<ListenEvent>)
    returns (outcome: ListenOutcome, handled: nat, sent: seq<CarlosMessage>, calls: seq<(string, CarlosMessage)>)
    ensures ListenStops(alreadyStopped, events, outcome, handled)
    ensures sent == SendsAll(table, ReceivedMessages(events[..handled]))
    ensures calls == CallsAll(table, ReceivedMessages(events[..handled]))
  {
    var isStopped := alreadyStopped;
    sent, calls := [], [];
    handled := 0;
    while !isStopped && handled < |events| && events[handled].Received?
      invariant Listening(alreadyStopped, events, isStopped, handled)
      invariant sent == SendsAll(table, ReceivedMessages(events[..handled]))
      invariant calls == CallsAll(table, ReceivedMessages(events[..handled]))
      decreases |events| - handled
    {
      var message := events[handled].message;
      HandledStep(table, events, handled);
      ListeningStep(alreadyStopped, events, isStopped, handled);
      calls := calls + Calls(table, message);
      sent := sent + Sends(table, message);
      isStopped := events[handled].stopRequested;
      handled := handled + 1;
    }
    if isStopped {
      outcome := StoppedListening;
    } else if handled == |events| {
      outcome := AwaitingMessage;
    } else {
      outcome := ConnectionLost;
    }
    ListeningEnds(alreadyStopped, events, isStopped, handled, outcome);
  }

  /** The loop's control state after `handled` messages. */
  ghost predicate Listening(alreadyStopped: bool, events: seq<ListenEvent>, isStopped: bool, handled: nat)
  {
    handled <= |events| &&
    (forall j :: 0 <= j < handled ==> events[j].Received?) &&
    (forall j :: 0 <= j < handled - 1 ==> !events[j].stopRequested) &&
    (alreadyStopped ==> handled == 0 && isStopped) &&
    (handled >= 1 ==> (isStopped <==> events[handled - 1].stopRequested)) &&
    (handled == 0 ==> isStopped == alreadyStopped)
  }

  lemma ListeningStep(alreadyStopped: bool, events: seq<ListenEvent>, isStopped: bool, handled: nat)
    requires Listening(alreadyStopped, events, isStopped, handled)
    requires !isStopped && handled < |events| && events[handled].Received?
    ensures Listening(alreadyStopped, events, events[handled].stopRequested, handled + 1)
  {
  }

  lemma ListeningEnds(alreadyStopped: bool, events: seq<ListenEvent>, isStopped: bool, handled: nat, outcome: ListenOutcome)
    requires Listening(alreadyStopped, events, isStopped, handled)
    requires !(!isStopped && handled < |events| && events[handled].Received?)
    requires outcome == if isStopped then StoppedListening else if handled == |events| then AwaitingMessage else ConnectionLost
    ensures ListenStops(alreadyStopped, events, outcome, handled)
  {
  }

  datatype RegisterError = WrongSignature

  class EdgeCommunicationHandler {
    var handlers: map<MessageType, Handler>
    var stopped: bool
    /** Every message handed to the connection's `send`, in order. */
    var sent: seq<CarlosMessage>
    /** Every handler call, by handler name and message, in order. */
    var calls: seq<(string, CarlosMessage)>

    /** A fresh handler answers pings and pongs and is not stopped. */
    constructor ()
      ensures handlers == DefaultHandlers
      ensures !stopped && sent == [] && calls == []
    {
      handlers := DefaultHandlers;
      stopped := false;
      sent := [];
      calls := [];
    }

    method Stop()
      modifies this
      ensures stopped
      ensures handlers == old(handlers) && sent == old(sent) && calls == old(calls)
    {
      stopped := true;
    }

    /** All or nothing: one handler with a wrong signature leaves the table as it was; otherwise the batch overrides. */
    method RegisterHandlers(batch: map<MessageType, Handler>) returns (r: Result<(), RegisterError>)
      modifies this
      ensures r.Ok? <==> forall t :: t in batch ==> batch[t].signatureMatches
      ensures r.Ok? ==> handlers == old(handlers) + batch
      ensures r.Err? ==> handlers == old(handlers)
      ensures stopped == old(stopped) && sent == old(sent) && calls == old(calls)
    {
      var unchecked := batch.Keys;
      while unchecked != {}
        invariant unchecked <= batch.Keys
        invariant forall t :: t in batch && t !in unchecked ==> batch[t].signatureMatches
        decreases unchecked
      {
        var t :| t in unchecked;
        if !batch[t].signatureMatches {
          return Err(WrongSignature);
        }
        unchecked := unchecked - {t};
      }
      handlers := handlers + batch;
      return Ok(());
    }

    method HandleMessage(message: CarlosMessage)
      modifies this
      ensures sent == old(sent) + Sends(handlers, message)
      ensures calls == old(calls) + Calls(handlers, message)
      ensures handlers == old(handlers) && stopped == old(stopped)
    {
      if message.messageType in handlers {
        var h := handlers[message.messageType];
        calls := calls + [(h.name, message)];
        sent := sent + HandlerSends(h, message);
      }
    }

    /**
     * `listen`: while not stopped, receive and handle one message. `handled`
     * is the number of messages handled; the loop ends when it is stopped, when
     * the connection is lost, or it is left waiting when the events run out.
     */
    method Listen(events: seq<ListenEvent>) returns (outcome: ListenOutcome, handled: nat)
      modifies this
      ensures ListenStops(old(stopped), events, outcome, handled)
      ensures stopped <==> outcome == StoppedListening
      ensures sent == old(sent) + SendsAll(handlers, ReceivedMessages(events[..handled]))
      ensures calls == old(calls) + CallsAll(handlers, ReceivedMessages(events[..handled]))
      ensures handlers == old(handlers)
    {
      var newSent, newCalls;
      outcome, handled, newSent, newCalls := ListenLoop(handlers, stopped, events);
      stopped := outcome == StoppedListening;
      sent := sent + newSent;
      calls := calls + newCalls;
    }
  }
}

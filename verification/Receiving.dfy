/** The receive loops of the broker and of a subscriber: reassemble a message, run the context's
    state machine on it, hand the content to the controller, answer with an Ack. */
module Receiving {
  import opened Wrappers
  import opened ByteExtensions
  import opened Messages
  import opened Codec
  import opened CodecProofs
  import opened Framing

  datatype ReceiveState =
    | FreeBroker
    | BrokerPrimed
    | BrokerSubscribed
    | SubscriberSubscribed   // the push side, where a subscriber starts
    | ConnectionClosed

  /** What a message carries for the controller. */
  datatype Content =
    | Published(routingKey: Bytes, payloadType: Bytes, payload: Bytes)
    | Pushed(payload: Bytes)

  datatype Subscription = Subscription(routingKey: Bytes, payloadType: Bytes, queueName: Bytes)

  /** Every successful answer is an Ack; at most one of the two parts is present. */
  datatype StateResult = StateResult(content: Option<Content>, subscription: Option<Subscription>)

  const PLAIN_ACK := StateResult(None, None)

  /** `Context.Handle`: the new state and the result of one message. */
  function Handle(state: ReceiveState, m: Message): (ReceiveState, Result<StateResult>) {
    match state
    case FreeBroker =>
      if m.kind == HandShake then (BrokerPrimed, Success(PLAIN_ACK))
      else if m.kind == Subscribe then
        if RoutingKey in m.values && PayloadType in m.values && QueueName in m.values then
          (BrokerSubscribed, Success(StateResult(None, Some(Subscription(
            m.values[RoutingKey], m.values[PayloadType], m.values[QueueName])))))
        else (BrokerSubscribed, Failure(Rejected))
      else (state, Failure(Rejected))
    case BrokerPrimed =>
      if m.kind == Publish then
        if RoutingKey in m.values && PayloadType in m.values && Payload in m.values then
          (state, Success(StateResult(Some(Published(
            m.values[RoutingKey], m.values[PayloadType], m.values[Payload])), None)))
        else (state, Failure(Rejected))
      else if m.kind == Close then (ConnectionClosed, Success(PLAIN_ACK))
      else (state, Failure(Rejected))
    case SubscriberSubscribed =>
      if m.kind == Push then
        if Payload in m.values then (state, Success(StateResult(Some(Pushed(m.values[Payload])), None)))
        else (state, Failure(Rejected))
      else if m.kind == Close then (ConnectionClosed, Success(PLAIN_ACK))
      else (state, Failure(Rejected))
    case BrokerSubscribed => (state, Failure(Rejected))
    case ConnectionClosed => (state, Failure(Rejected))
  }

  /** What deserialization and the controller do with the n-th message handled. */
  datatype ControllerOutcome = Accepts | Undecodable | ControllerThrows

  datatype Status = Running | Returned(result: Result<Subscription>)

  /** Everything the loop has done so far, apart from its buffer. */
  datatype Progress = Progress(
    state: ReceiveState,
    handled: nat,             // messages passed to the context
    delivered: seq<Content>,  // contents handed to the controller
    acks: nat,                // Acks sent back
    status: Status)

  function Start(state: ReceiveState): Progress {
    Progress(state, 0, [], 0, Running)
  }

  /** One loop iteration that found the message `m`. */
  function HandleMessage(p: Progress, m: Message, outcome: ControllerOutcome): Progress {
    var (state, r) := Handle(p.state, m);
    var p := p.(state := state, handled := p.handled + 1);
    if r.Failure? then p.(status := Returned(Failure(r.error)))
    else if r.value.subscription.Some? then
      p.(acks := p.acks + 1,
         status := Returned(if outcome == Undecodable then Failure(Rejected) else Success(r.value.subscription.value)))
    else if r.value.content.None? then p.(acks := p.acks + 1)
    else
      match outcome
      case Undecodable => p.(status := Returned(Failure(Rejected)))
      case ControllerThrows =>
        p.(delivered := p.delivered + [r.value.content.value], status := Returned(Failure(Rejected)))
      case Accepts =>
        p.(delivered := p.delivered + [r.value.content.value], acks := p.acks + 1)
  }

  datatype Loop = Loop(progress: Progress, buffer: Bytes)

  /** One chunk through the loop body. */
  function ReceiveChunk(l: Loop, chunk: Bytes, outcome: ControllerOutcome): Loop {
    if l.progress.status != Running then l
    else
      var (buffer, r) := Feed(l.buffer, chunk);
      match r
      case Failure(MessageIncomplete) => Loop(l.progress, buffer)
      case Failure(e) => Loop(l.progress.(status := Returned(Failure(e))), buffer)
      case Success(m) => Loop(HandleMessage(l.progress, View(m), outcome), buffer)
  }

  type Outcomes = nat -> ControllerOutcome

  function Receive(start: ReceiveState, chunks: seq<Bytes>, outcomes: Outcomes): Loop {
    if chunks == [] then Loop(Start(start), [])
    else
      var l := Receive(start, chunks[..|chunks| - 1], outcomes);
      ReceiveChunk(l, chunks[|chunks| - 1], outcomes(l.progress.handled))
  }

  class ReceiveOrchestrator {
    var state: ReceiveState
    var delivered: seq<Content>
    var acks: nat
    var handled: nat

    constructor (state: ReceiveState)
      ensures this.state == state && delivered == [] && acks == 0 && handled == 0
    {
      this.state, delivered, acks, handled := state, [], 0, 0;
    }

    ghost function Done(status: Status): Progress
      reads this
    {
      Progress(state, handled, delivered, acks, status)
    }

    /** `Context.Handle`, the controller and the answer for one message; None keeps the loop
        running. */
    method OnMessage(m: Message, outcome: ControllerOutcome) returns (done: Option<Result<Subscription>>)
      modifies this
      ensures Done(if done.None? then Running else Returned(done.value))
           == HandleMessage(old(Done(Running)), m, outcome)
    {
      handled := handled + 1;
      var (newState, result) := Handle(state, m);
      state := newState;
      if result.Failure? {
        return Some(Failure(result.error));
      }
      if result.value.subscription.Some? {
        acks := acks + 1;
        return Some(if outcome == Undecodable then Failure(Rejected) else Success(result.value.subscription.value));
      }
      if result.value.content.Some? {
        if outcome == Undecodable {
          return Some(Failure(Rejected));
        }
        delivered := delivered + [result.value.content.value];
        if outcome == ControllerThrows {
          return Some(Failure(Rejected));
        }
      }
      acks := acks + 1;
      return None;
    }

    /** The loop over the chunks of one connection. It ends when a message makes it return, or as
        "Client disconnected" when the chunks run out. */
    method Execute(chunks: seq<Bytes>, outcomes: Outcomes) returns (r: Result<Subscription>)
      requires Done(Running) == Start(state)
      modifies this
      ensures var p := Receive(old(state), chunks, outcomes).progress;
              && Done(p.status) == p
              && r == (if p.status.Returned? then p.status.result else Failure(Rejected))
    {
      hide HandleMessage, TryParse;
      var bytesArray: Bytes := [];
      var i := 0;
      assert chunks[..0] == [];
      while i < |chunks|
        invariant 0 <= i <= |chunks|
        invariant Receive(old(state), chunks[..i], outcomes) == Loop(Done(Running), bytesArray)
      {
        ReceiveSnoc(old(state), chunks, i, outcomes);
        StoppedStays(old(state), chunks, i + 1, outcomes);
        bytesArray := bytesArray + chunks[i];
        i := i + 1;
        var parsing := TryParse(bytesArray);
        if parsing.Failure? {
          if parsing.error == MessageIncomplete {
            continue;
          }
          return Failure(parsing.error);
        }
        bytesArray := parsing.value.1;
        var done := OnMessage(View(parsing.value.0), outcomes(handled));
        if done.Some? {
          return done.value;
        }
      }
      assert chunks[..|chunks|] == chunks;
      r := Failure(Rejected);
    }
  }

  lemma {:induction false} ReceiveSnoc(start: ReceiveState, chunks: seq<Bytes>, i: nat, outcomes: Outcomes)
    requires i < |chunks|
    ensures var l := Receive(start, chunks[..i], outcomes);
            Receive(start, chunks[..i + 1], outcomes) == ReceiveChunk(l, chunks[i], outcomes(l.progress.handled))
  {
    assert chunks[..i + 1][..i] == chunks[..i];
  }

  /** Chunks that arrive after the loop returned change nothing. */
  lemma {:induction false} StoppedStays(start: ReceiveState, chunks: seq<Bytes>, k: nat, outcomes: Outcomes)
    requires k <= |chunks|
    ensures Receive(start, chunks[..k], outcomes).progress.status != Running ==>
              Receive(start, chunks, outcomes) == Receive(start, chunks[..k], outcomes)
    decreases |chunks|
  {
    if k == |chunks| {
      assert chunks[..k] == chunks;
    } else {
      var front := chunks[..|chunks| - 1];
      StoppedStays(start, front, k, outcomes);
      assert front[..k] == chunks[..k];
    }
  }

  // ----- refinement: chunks do not matter -----

  /** The same connection seen message by message, without bytes. */
  function Process(start: ReceiveState, ms: seq<Message>, outcomes: Outcomes): Progress {
    if ms == [] then Start(start)
    else
      var p := Process(start, ms[..|ms| - 1], outcomes);
      if p.status != Running then p else HandleMessage(p, ms[|ms| - 1], outcomes(p.handled))
  }

  function Views(ps: seq<Proto>): (ms: seq<Message>)
    ensures |ms| == |ps| && forall i :: 0 <= i < |ps| ==> ms[i] == View(ps[i])
  {
    seq(|ps|, i requires 0 <= i < |ps| => View(ps[i]))
  }

  lemma {:induction false} ProcessSnoc(start: ReceiveState, ps: seq<Proto>, p: Proto, outcomes: Outcomes)
    ensures var before := Process(start, Views(ps), outcomes);
            Process(start, Views(ps + [p]), outcomes)
              == if before.status != Running then before else HandleMessage(before, View(p), outcomes(before.handled))
  {
    assert Views(ps + [p])[..|ps|] == Views(ps);
  }

  lemma {:induction false} ProcessHandles(start: ReceiveState, ms: seq<Message>, outcomes: Outcomes)
    ensures var p := Process(start, ms, outcomes);
            p.handled <= |ms| && (p.status == Running ==> p.handled == |ms|)
  {
    if ms != [] { ProcessHandles(start, ms[..|ms| - 1], outcomes); }
  }

  /** What reading the chunks first and processing the messages afterwards leads to. */
  function ReadThenProcess(start: ReceiveState, chunks: seq<Bytes>, outcomes: Outcomes): Progress {
    var r := Read(chunks);
    var p := Process(start, Views(r.handled), outcomes);
    if p.status == Running && r.failure.Some? then p.(status := Returned(Failure(r.failure.value))) else p
  }

  /** On any chunks at all, also of a stream that is no sequence of frames, the loop does what the
      plain reader and then the message-by-message processing do. */
  lemma {:induction false} LoopIsReadThenProcess(start: ReceiveState, chunks: seq<Bytes>, outcomes: Outcomes)
    ensures var l := Receive(start, chunks, outcomes);
            && l.progress == ReadThenProcess(start, chunks, outcomes)
            && (l.progress.status == Running ==> l.buffer == Read(chunks).buffer)
    decreases |chunks|
  {
    hide HandleMessage, Feed, View;
    if chunks == [] {
      assert Views([]) == [];
    } else {
      var front, chunk := chunks[..|chunks| - 1], chunks[|chunks| - 1];
      LoopIsReadThenProcess(start, front, outcomes);
      var r := Read(front);
      var (buffer, found) := Feed(r.buffer, chunk);
      if found.Success? { ProcessSnoc(start, r.handled, found.value, outcomes); }
    }
  }

  lemma ReceivedViews(ms: seq<Message>, k: nat)
    requires AllSendable(ms) && k <= |ms|
    ensures Views(ReceivedAll(ms)[..k]) == ms[..k]
  {
    hide Sendable;
  }

  /** Refinement: on any chunking of a stream of frames, the receive loop does exactly what
      processing the counted prefix of the messages one by one does; while it runs it has handled
      that many, and its buffer is exactly the bytes received after them. */
  lemma {:induction false} ReceiveRefinesProcess(start: ReceiveState, ms: seq<Message>, chunks: seq<Bytes>,
      outcomes: Outcomes)
    requires AllSendable(ms) && Fits(FrameList(ms), chunks)
    requires Joined(chunks) <= Frames(ms)
    ensures var k := HandledCount(FrameList(ms), chunks);
            var l := Receive(start, chunks, outcomes);
            && l.progress == Process(start, ms[..k], outcomes)
            && (l.progress.status == Running ==>
                  l.progress.handled == k && Joined(FrameList(ms)[..k]) + l.buffer == Joined(chunks))
  {
    hide Read, Receive, Process, HandledCount, FrameList, Joined, Views, AllSendable;
    var k := HandledCount(FrameList(ms), chunks);
    ChunkingLosesNothing(ms, chunks);
    LoopIsReadThenProcess(start, chunks, outcomes);
    ReceivedViews(ms, k);
    ProcessHandles(start, ms[..k], outcomes);
  }

  // ----- what the state machine delivers -----

  /** The triples of the Publish messages in a list. */
  function PublishedIn(ms: seq<Message>): seq<Content> {
    if ms == [] then []
    else
      var m := ms[|ms| - 1];
      PublishedIn(ms[..|ms| - 1])
      + (if m.kind == Publish && RoutingKey in m.values && PayloadType in m.values && Payload in m.values
         then [Published(m.values[RoutingKey], m.values[PayloadType], m.values[Payload])] else [])
  }

  /** A broker delivers only what was published to it, in order and once; it acknowledges every
      delivery but possibly the last, and nothing it did not handle. */
  lemma {:induction false} BrokerDeliversPublished(ms: seq<Message>, outcomes: Outcomes)
    ensures var p := Process(FreeBroker, ms, outcomes);
            && p.delivered <= PublishedIn(ms)
            && p.acks <= p.handled <= |ms|
            && (p.status == Running ==> p.acks == p.handled == |ms| && p.delivered == PublishedIn(ms))
            && (p.status != Running ==> p.handled <= p.acks + 1)
  {
    if ms != [] {
      BrokerDeliversPublished(ms[..|ms| - 1], outcomes);
      var p := Process(FreeBroker, ms[..|ms| - 1], outcomes);
      if p.status == Running {
        BrokerStates(ms[..|ms| - 1], outcomes);
      }
    }
  }

  lemma {:induction false} BrokerStates(ms: seq<Message>, outcomes: Outcomes)
    ensures var p := Process(FreeBroker, ms, outcomes);
            && p.state != SubscriberSubscribed
            && (p.status == Running ==>
                  p.state == (if ms == [] then FreeBroker
                              else if ms[|ms| - 1].kind == Close then ConnectionClosed
                              else BrokerPrimed))
            && (p.status == Running && p.state == FreeBroker ==> ms == [])
  {
    if ms != [] {
      BrokerStates(ms[..|ms| - 1], outcomes);
    }
  }

  /** The payloads of the Push messages in a list. */
  function PushedIn(ms: seq<Message>): seq<Content> {
    if ms == [] then []
    else
      var m := ms[|ms| - 1];
      PushedIn(ms[..|ms| - 1]) + (if m.kind == Push && Payload in m.values then [Pushed(m.values[Payload])] else [])
  }

  /** A subscriber delivers every Push it handles, repeated ones included, in order; it
      acknowledges every delivery but possibly the last. */
  lemma {:induction false} SubscriberDeliversPushed(ms: seq<Message>, outcomes: Outcomes)
    ensures var p := Process(SubscriberSubscribed, ms, outcomes);
            && p.delivered <= PushedIn(ms)
            && p.acks <= p.handled <= |ms|
            && (p.status == Running ==> p.acks == p.handled == |ms| && p.delivered == PushedIn(ms))
            && (p.status != Running ==> p.handled <= p.acks + 1)
  {
    if ms != [] {
      SubscriberDeliversPushed(ms[..|ms| - 1], outcomes);
      SubscriberStates(ms[..|ms| - 1], outcomes);
    }
  }

  lemma {:induction false} SubscriberStates(ms: seq<Message>, outcomes: Outcomes)
    ensures var p := Process(SubscriberSubscribed, ms, outcomes);
            p.state == SubscriberSubscribed || p.state == ConnectionClosed
  {
    if ms != [] {
      SubscriberStates(ms[..|ms| - 1], outcomes);
    }
  }

  // ----- exactly which conversations a broker and a subscriber accept -----

  /** A publication that is deserialized and that the controller takes. */
  predicate GoodPublish(m: Message, outcome: ControllerOutcome) {
    m.kind == Publish && RoutingKey in m.values && PayloadType in m.values && Payload in m.values && outcome == Accepts
  }

  /** A handshake, then publications, then possibly a Close as the last message. */
  predicate BrokerConversation(ms: seq<Message>, outcomes: Outcomes) {
    forall i :: 0 <= i < |ms| ==>
      if i == 0 then ms[i].kind == HandShake
      else GoodPublish(ms[i], outcomes(i)) || (i == |ms| - 1 && ms[i].kind == Close)
  }

  predicate Closed(ms: seq<Message>) {
    ms != [] && ms[|ms| - 1].kind == Close
  }

  lemma ConversationGrows(ms: seq<Message>, outcomes: Outcomes)
    requires ms != []
    ensures var n := |ms| - 1;
            BrokerConversation(ms, outcomes)
            <==> && BrokerConversation(ms[..n], outcomes) && !Closed(ms[..n])
                 && (if n == 0 then ms[n].kind == HandShake
                     else GoodPublish(ms[n], outcomes(n)) || ms[n].kind == Close)
  {
    var n := |ms| - 1;
    if BrokerConversation(ms, outcomes) {
      forall i | 0 <= i < n
        ensures if i == 0 then ms[i].kind == HandShake else GoodPublish(ms[i], outcomes(i))
      {
      }
    } else if BrokerConversation(ms[..n], outcomes) && !Closed(ms[..n]) {
      forall i | 0 <= i < n
        ensures if i == 0 then ms[i].kind == HandShake else GoodPublish(ms[i], outcomes(i))
      {
        assert ms[..n][i] == ms[i];
      }
    }
  }

  /** A broker keeps running exactly through such conversations. */
  lemma {:induction false} BrokerRunsExactly(ms: seq<Message>, outcomes: Outcomes)
    ensures Process(FreeBroker, ms, outcomes).status == Running <==> BrokerConversation(ms, outcomes)
  {
    if ms != [] {
      hide BrokerConversation;
      var front := ms[..|ms| - 1];
      BrokerRunsExactly(front, outcomes);
      BrokerStates(front, outcomes);
      ProcessHandles(FreeBroker, front, outcomes);
      ConversationGrows(ms, outcomes);
    }
  }

  /** A Subscribe that carries its three properties and can be deserialized, on a fresh connection. */
  predicate Subscribes(ms: seq<Message>, outcomes: Outcomes) {
    && ms != [] && ms[0].kind == Subscribe && outcomes(0) != Undecodable
    && RoutingKey in ms[0].values && PayloadType in ms[0].values && QueueName in ms[0].values
  }

  /** What the message asks for, field by field. */
  predicate AskedFor(m: Message, sub: Subscription)
    requires RoutingKey in m.values && PayloadType in m.values && QueueName in m.values
  {
    && sub.routingKey == m.values[RoutingKey]
    && sub.payloadType == m.values[PayloadType]
    && sub.queueName == m.values[QueueName]
  }

  /** A broker returns a subscription exactly if the first message asks for it; it has then sent one
      Ack, handed nothing to the controller and looked at no further message. */
  lemma {:induction false} SubscriptionExactly(ms: seq<Message>, outcomes: Outcomes, sub: Subscription)
    ensures var p := Process(FreeBroker, ms, outcomes);
            && (p.status == Returned(Success(sub)) <==> Subscribes(ms, outcomes) && AskedFor(ms[0], sub))
            && (p.status == Returned(Success(sub)) ==> p.acks == 1 && p.handled == 1 && p.delivered == [])
  {
    if ms != [] {
      var front := ms[..|ms| - 1];
      SubscriptionExactly(front, outcomes, sub);
      if front == [] {
        assert Process(FreeBroker, front, outcomes) == Start(FreeBroker);
      } else {
        BrokerStates(front, outcomes);
        FirstStopsOrGreets(front, outcomes);
      }
    }
  }

  /** After a running start the first message was no Subscribe. */
  lemma {:induction false} FirstStopsOrGreets(ms: seq<Message>, outcomes: Outcomes)
    requires ms != []
    ensures Process(FreeBroker, ms, outcomes).status == Running ==> ms[0].kind == HandShake
  {
    BrokerRunsExactly(ms, outcomes);
  }

  /** The same on any chunking of a stream that begins with a Subscribe: the loop returns that
      subscription as soon as the whole frame has arrived. */
  lemma {:induction false} SubscriptionOverChunks(ms: seq<Message>, chunks: seq<Bytes>, outcomes: Outcomes,
      sub: Subscription)
    requires AllSendable(ms) && Fits(FrameList(ms), chunks)
    requires Joined(chunks) <= Frames(ms)
    ensures var p := Receive(FreeBroker, chunks, outcomes).progress;
            && (p.status == Returned(Success(sub))
                <==> Subscribes(ms, outcomes) && AskedFor(ms[0], sub) && |Frame(ms[0])| <= |Joined(chunks)|)
            && (p.status == Returned(Success(sub)) ==> p.acks == 1 && p.handled == 1 && p.delivered == [])
  {
    hide Receive, Process, HandledCount, Frame, AskedFor;
    var k := HandledCount(FrameList(ms), chunks);
    ReceiveRefinesProcess(FreeBroker, ms, chunks, outcomes);
    SubscriptionExactly(ms[..k], outcomes, sub);
    if ms != [] { FrameNonempty(ms[0]); }
    FirstArrives(FrameList(ms), chunks);
  }

  // ----- how a conversation ends -----

  lemma OneMoreMessage(start: ReceiveState, ms: seq<Message>, m: Message, outcomes: Outcomes)
    ensures var q := Process(start, ms, outcomes);
      q.status == Running ==> Process(start, ms + [m], outcomes) == HandleMessage(q, m, outcomes(|ms|))
    ensures Process(start, [], outcomes) == Start(start)
  {
    hide HandleMessage;
    assert (ms + [m])[..|ms|] == ms;
    ProcessHandles(start, ms, outcomes);
  }

  /** The content of a publication that reaches the controller and makes it throw. */
  function ThrownAt(m: Message, outcome: ControllerOutcome): seq<Content> {
    if GoodPublish(m, Accepts) && outcome == ControllerThrows
    then [Published(m.values[RoutingKey], m.values[PayloadType], m.values[Payload])] else []
  }

  lemma GreetedStop(q: Progress, m: Message, outcome: ControllerOutcome)
    requires q.status == Running && (q.state == BrokerPrimed || q.state == ConnectionClosed)
    requires HandleMessage(q, m, outcome).status != Running
    ensures HandleMessage(q, m, outcome)
         == Progress(q.state, q.handled + 1,
                     q.delivered + (if q.state == BrokerPrimed then ThrownAt(m, outcome) else []),
                     q.acks, Returned(Failure(Rejected)))
  {
  }

  lemma FreshStop(q: Progress, m: Message, outcome: ControllerOutcome)
    requires q.status == Running && q.state == FreeBroker && HandleMessage(q, m, outcome).status != Running
    ensures var p := HandleMessage(q, m, outcome); var subscribe := Subscribes([m], _ => Accepts);
      && p.handled == q.handled + 1 && p.delivered == q.delivered
      && p.acks == q.acks + (if subscribe then 1 else 0)
      && (p.status == Returned(Failure(Rejected)) <==> !(subscribe && outcome != Undecodable))
      && p.state == (if m.kind == Subscribe then BrokerSubscribed else FreeBroker)
  {
  }

  /** The message that makes a broker return: everything before it was delivered and acknowledged,
      the message itself is answered only if it is a Subscribe, and it reaches the controller only
      if it is a publication that can be deserialized. A Subscribe changes the state even when it is
      refused. */
  lemma {:induction false} BrokerStops(ms: seq<Message>, m: Message, outcomes: Outcomes)
    requires BrokerConversation(ms, outcomes) && !BrokerConversation(ms + [m], outcomes)
    ensures var p := Process(FreeBroker, ms + [m], outcomes);
            var subscribe := ms == [] && Subscribes([m], _ => Accepts);
            var publish := ms != [] && !Closed(ms);
            && p.handled == |ms| + 1
            && p.acks == |ms| + (if subscribe then 1 else 0)
            && p.delivered == PublishedIn(ms) + (if publish then ThrownAt(m, outcomes(|ms|)) else [])
            && (p.status == Returned(Failure(Rejected)) <==> !(subscribe && outcomes(0) != Undecodable))
            && p.state == (if ms == [] then if m.kind == Subscribe then BrokerSubscribed else FreeBroker
                           else if Closed(ms) then ConnectionClosed else BrokerPrimed)
  {
    hide BrokerConversation, PublishedIn, Process, HandleMessage, ThrownAt, Subscribes;
    BrokerRunsExactly(ms, outcomes);
    BrokerRunsExactly(ms + [m], outcomes);
    BrokerDeliversPublished(ms, outcomes);
    BrokerStates(ms, outcomes);
    var q := Process(FreeBroker, ms, outcomes);
    OneMoreMessage(FreeBroker, ms, m, outcomes);
    if ms == [] {
      FreshStop(q, m, outcomes(0));
    } else {
      GreetedStop(q, m, outcomes(|ms|));
    }
  }

  /** Pushes, then possibly a Close as the last message. */
  predicate SubscriberConversation(ms: seq<Message>, outcomes: Outcomes) {
    forall i :: 0 <= i < |ms| ==>
      || (ms[i].kind == Push && Payload in ms[i].values && outcomes(i) == Accepts)
      || (i == |ms| - 1 && ms[i].kind == Close)
  }

  lemma SubscriberConversationGrows(ms: seq<Message>, outcomes: Outcomes)
    requires ms != []
    ensures var n := |ms| - 1;
            SubscriberConversation(ms, outcomes)
            <==> && SubscriberConversation(ms[..n], outcomes) && !Closed(ms[..n])
                 && (ms[n].kind == Close || (ms[n].kind == Push && Payload in ms[n].values && outcomes(n) == Accepts))
  {
    var n := |ms| - 1;
    if SubscriberConversation(ms, outcomes) {
      assert forall i :: 0 <= i < n ==> ms[..n][i].kind == Push;
    } else if SubscriberConversation(ms[..n], outcomes) && !Closed(ms[..n]) {
      forall i | 0 <= i < n ensures ms[i].kind == Push && Payload in ms[i].values && outcomes(i) == Accepts {
        assert ms[..n][i] == ms[i];
      }
    }
  }

  /** A subscriber keeps running exactly through such conversations, and a Close ends its state. */
  lemma {:induction false} SubscriberRunsExactly(ms: seq<Message>, outcomes: Outcomes)
    ensures var p := Process(SubscriberSubscribed, ms, outcomes);
            && (p.status == Running <==> SubscriberConversation(ms, outcomes))
            && (p.status == Running ==> p.state == (if Closed(ms) then ConnectionClosed else SubscriberSubscribed))
  {
    if ms != [] {
      hide SubscriberConversation;
      var front := ms[..|ms| - 1];
      SubscriberRunsExactly(front, outcomes);
      ProcessHandles(SubscriberSubscribed, front, outcomes);
      SubscriberConversationGrows(ms, outcomes);
    }
  }

  /** The message that makes a subscriber return: it is never answered, and it reaches the controller only
      if it is a push that can be deserialized. */
  lemma {:induction false} SubscriberStops(ms: seq<Message>, m: Message, outcomes: Outcomes)
    requires SubscriberConversation(ms, outcomes) && !SubscriberConversation(ms + [m], outcomes)
    ensures var p := Process(SubscriberSubscribed, ms + [m], outcomes);
            var push := !Closed(ms) && m.kind == Push && Payload in m.values && outcomes(|ms|) == ControllerThrows;
            && p.handled == |ms| + 1 && p.acks == |ms|
            && p.delivered == PushedIn(ms) + (if push then [Pushed(m.values[Payload])] else [])
            && p.status == Returned(Failure(Rejected))
  {
    assert (ms + [m])[..|ms|] == ms;
    SubscriberRunsExactly(ms, outcomes);
    SubscriberRunsExactly(ms + [m], outcomes);
    SubscriberDeliversPushed(ms, outcomes);
    hide SubscriberConversation, PushedIn;
  }

  /** A context that is subscribed as a broker, or closed, refuses every message and stays as it is. */
  lemma EndStatesRefuse(state: ReceiveState, m: Message)
    requires state == BrokerSubscribed || state == ConnectionClosed
    ensures Handle(state, m) == (state, Failure(Rejected))
  {
  }
}

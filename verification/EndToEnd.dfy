/** One publishing context and one broker context over two FIFO byte channels whose chunks are cut
    anywhere. The broker is the receive loop of `Receiving`; the publisher is the automaton of
    `SagaMachine`, advanced one response at a time. */
module EndToEnd {
  import opened Wrappers
  import opened ByteExtensions
  import M = Messages
  import opened Codec
  import opened CodecProofs
  import opened Framing
  import opened Receiving
  import S = SagaMachine
  import P = SagaProofs

  // ----- the publisher, one response at a time -----

  datatype Triple = Triple(routingKey: Bytes, payloadType: Bytes, payload: Bytes)

  /** Where a series of publish calls stands: call number `call` owes `owed` publications. */
  datatype Publisher = Publisher(call: nat, state: S.SendState, owed: nat)

  /** Between two responses: starts the next call when one is done, and says what goes out. */
  function Settle(pubs: seq<Triple>, p: Publisher): (Publisher, seq<S.Event<Triple>>) {
    var q := if p.call < |pubs| && p.state == S.Opened && p.owed == 0 then p.(call := p.call + 1, owed := 1) else p;
    if q.call < |pubs| && S.Active(q.state)
    then (q, [S.Sent(S.MessageOf(S.Publishing, q.state, pubs[q.call]))])
    else (q, [])
  }

  /** One response, if the publisher is waiting for one. */
  function React(pubs: seq<Triple>, p: Publisher, r: S.Response): (Publisher, seq<S.Event<Triple>>) {
    if r == S.Incomplete || p.call >= |pubs| || !S.Active(p.state) then (p, [])
    else
      var trigger := S.TriggerOf(S.Publishing, p.state, r);
      var to := S.Transition(S.Publishing, p.state, trigger);
      var (q, events) := Settle(pubs, Publisher(p.call, to, S.Owed(S.Publishing, p.state, p.owed, trigger)));
      (q, S.Move(p.state, to) + events)
  }

  function ReactAll(pubs: seq<Triple>, p: Publisher, rs: seq<S.Response>): seq<S.Event<Triple>>
    decreases |rs|
  {
    if rs == [] then []
    else
      var (q, events) := React(pubs, p, rs[0]);
      events + ReactAll(pubs, q, rs[1..])
  }

  /** What the publish calls of a session still do when call `p.call` owes `p.owed`. */
  function Remaining(pubs: seq<Triple>, p: Publisher, rs: seq<S.Response>): S.Run<Triple>
    requires p.call < |pubs|
  {
    var r := S.Flat(S.Publishing, p.state, p.owed, pubs[p.call], rs);
    if r.outcome == S.Blocked then r
    else S.After(r.log, P.Session(S.Publishing, r.state, pubs[p.call + 1..], r.rest))
  }

  lemma {:induction false} ClosedSession(pubs: seq<Triple>, rs: seq<S.Response>)
    ensures P.Session(S.Publishing, S.Closed, pubs, rs).log == []
  {
    if pubs != [] {
      S.FlatSettled(S.Publishing, S.Closed, 1, pubs[0], rs);
      ClosedSession(pubs[1..], rs);
    }
  }

  lemma {:induction false} ReactDone(pubs: seq<Triple>, p: Publisher, rs: seq<S.Response>)
    requires p.call >= |pubs| || !S.Active(p.state)
    ensures ReactAll(pubs, p, rs) == []
    decreases |rs|
  {
    if rs != [] { ReactDone(pubs, p, rs[1..]); }
  }

  /** Advancing response by response produces exactly the log of the publish calls. */
  lemma {:induction false} ReactingIsSending(pubs: seq<Triple>, p: Publisher, rs: seq<S.Response>)
    requires p.call < |pubs| && S.Legal(S.Publishing, p.state)
    ensures var (q, events) := Settle(pubs, p);
            Remaining(pubs, p, rs).log == events + ReactAll(pubs, q, rs)
    decreases |rs|, 1
  {
    hide S.Flat, React;
    var (q, events) := Settle(pubs, p);
    if p.state == S.Opened && p.owed == 0 {
      S.FlatSettled(S.Publishing, p.state, p.owed, pubs[p.call], rs);
      if q.call < |pubs| {
        assert pubs[p.call + 1..][0] == pubs[q.call] && pubs[p.call + 1..][1..] == pubs[q.call + 1..];
        assert P.Session(S.Publishing, S.Opened, pubs[p.call + 1..], rs) == Remaining(pubs, q, rs);
        assert [] + Remaining(pubs, q, rs).log == Remaining(pubs, q, rs).log;
        WaitingIsSending(pubs, q, rs);
      } else {
        assert pubs[p.call + 1..] == [];
        ReactDone(pubs, q, rs);
      }
    } else if S.Active(p.state) {
      WaitingIsSending(pubs, p, rs);
    } else {
      S.FlatSettled(S.Publishing, p.state, p.owed, pubs[p.call], rs);
      ClosedSession(pubs[p.call + 1..], rs);
      ReactDone(pubs, p, rs);
    }
  }

  lemma {:induction false} WaitingIsSending(pubs: seq<Triple>, p: Publisher, rs: seq<S.Response>)
    requires p.call < |pubs| && S.Legal(S.Publishing, p.state)
    requires S.Active(p.state) && !(p.state == S.Opened && p.owed == 0)
    ensures Remaining(pubs, p, rs).log
         == [S.Sent(S.MessageOf(S.Publishing, p.state, pubs[p.call]))] + ReactAll(pubs, p, rs)
    decreases |rs|, 0
  {
    hide S.Flat, Settle;
    var sent := [S.Sent(S.MessageOf(S.Publishing, p.state, pubs[p.call]))];
    if rs == [] {
      P.NothingHeard(S.Publishing, p.state, p.owed, pubs[p.call]);
    } else if rs[0] == S.Incomplete {
      WaitingIsSending(pubs, p, rs[1..]);
      IncompleteSkipped(p, pubs[p.call], rs);
      assert [] + ReactAll(pubs, p, rs[1..]) == ReactAll(pubs, p, rs[1..]);
    } else {
      var trigger := S.TriggerOf(S.Publishing, p.state, rs[0]);
      var to := S.Transition(S.Publishing, p.state, trigger);
      var next := Publisher(p.call, to, S.Owed(S.Publishing, p.state, p.owed, trigger));
      S.FlatStep(S.Publishing, p.state, p.owed, pubs[p.call], rs);
      ReactingIsSending(pubs, next, rs[1..]);
      var (q, events) := Settle(pubs, next);
      var move: seq<S.Event<Triple>> := S.Move(p.state, to);
      RemainingShifts(pubs, p, next, sent + move, rs);
      assert (sent + move) + (events + ReactAll(pubs, q, rs[1..]))
          == sent + ((move + events) + ReactAll(pubs, q, rs[1..]));
    }
  }

  lemma {:induction false} IncompleteSkipped(p: Publisher, payload: Triple, rs: seq<S.Response>)
    requires S.Active(p.state) && rs != [] && rs[0] == S.Incomplete
    ensures S.Flat(S.Publishing, p.state, p.owed, payload, rs)
        == S.Flat(S.Publishing, p.state, p.owed, payload, rs[1..])
         || (p.state == S.Opened && p.owed == 0)
  {
  }

  lemma {:induction false} RemainingShifts(pubs: seq<Triple>, p: Publisher, next: Publisher, log: seq<S.Event<Triple>>,
      rs: seq<S.Response>)
    requires p.call < |pubs| && next.call == p.call && rs != []
    requires S.Flat(S.Publishing, p.state, p.owed, pubs[p.call], rs)
          == S.After(log, S.Flat(S.Publishing, next.state, next.owed, pubs[p.call], rs[1..]))
    ensures Remaining(pubs, p, rs).log == log + Remaining(pubs, next, rs[1..]).log
  {
    hide S.Flat, P.Session;
    var r := S.Flat(S.Publishing, next.state, next.owed, pubs[p.call], rs[1..]);
    if r.outcome != S.Blocked {
      var rest := P.Session(S.Publishing, r.state, pubs[p.call + 1..], r.rest);
      assert (log + r.log) + rest.log == log + (r.log + rest.log);
    }
  }

  /** From a fresh context: the publisher's events are those of a session of publish calls. */
  lemma {:induction false} PublisherIsSession(pubs: seq<Triple>, rs: seq<S.Response>)
    requires pubs != []
    ensures var (q, events) := Settle(pubs, Publisher(0, S.Created, 1));
            P.Session(S.Publishing, S.Created, pubs, rs).log == events + ReactAll(pubs, q, rs)
  {
    ReactingIsSending(pubs, Publisher(0, S.Created, 1), rs);
  }

  // ----- messages on the wire -----

  const ACK := Message(M.Ack, map[])
  const HANDSHAKE := Message(M.HandShake, map[])

  function PublishMessage(t: Triple): Message {
    Message(M.Publish, map[M.RoutingKey := t.routingKey, M.PayloadType := t.payloadType, M.Payload := t.payload])
  }

  function ToMessage(f: S.Frame<Triple>): Message {
    match f.payload
    case None => Message(f.kind, map[])
    case Some(t) => PublishMessage(t)
  }

  /** Every publication keeps the length bounds of its frame. */
  predicate AllPublishable(pubs: seq<Triple>) {
    forall i :: 0 <= i < |pubs| ==> Publishable(pubs[i])
  }

  predicate Publishable(t: Triple) {
    Sendable(PublishMessage(t))
  }

  function WireBytes(events: seq<S.Event<Triple>>): Bytes {
    if events == [] then []
    else
      (if events[0].Sent? && Sendable(ToMessage(events[0].frame)) then Frame(ToMessage(events[0].frame)) else [])
      + WireBytes(events[1..])
  }

  lemma ControlFrames()
    ensures Sendable(ACK) && Sendable(HANDSHAKE)
    ensures Frame(ACK) == [2, 0] && |Frame(HANDSHAKE)| == 2
  {
    HeaderSize(ACK);
    HeaderSize(HANDSHAKE);
  }

  function ResponseOf(r: Result<Proto>): S.Response {
    match r
    case Failure(MessageIncomplete) => S.Incomplete
    case Failure(_) => S.Failed
    case Success(m) =>
      match m.kind
      case Ack => S.GotAck
      case Nack => S.GotNack
      case Close => S.GotClose
      case PayloadResponse => S.GotPayload(true)
      case _ => S.GotOther
  }

  // ----- the system and its steps -----

  datatype System = System(publisher: Publisher, tunnel: Bytes, toBroker: Bytes, broker: Loop, toPublisher: Bytes)

  datatype Step =
    | BrokerReads(n: nat, outcome: ControllerOutcome)   // the next n bytes arrive at the broker
    | PublisherReads(n: nat)                            // the next n bytes arrive at the publisher

  function Init(pubs: seq<Triple>): System {
    var (p, events) := Settle(pubs, Publisher(0, S.Created, 1));
    System(p, [], WireBytes(events), Loop(Start(FreeBroker), []), [])
  }

  function AckBytes(n: int): Bytes {
    if n <= 0 then [] else Frame(ACK) + AckBytes(n - 1)
  }

  /** A step that is not possible leaves the system as it is. */
  function Next(pubs: seq<Triple>, s: System, step: Step): System {
    match step
    case BrokerReads(n, outcome) =>
      if n == 0 || n > |s.toBroker| || s.broker.progress.status != Running then s
      else
        var l := ReceiveChunk(s.broker, s.toBroker[..n], outcome);
        s.(toBroker := s.toBroker[n..], broker := l,
           toPublisher := s.toPublisher + AckBytes(l.progress.acks - s.broker.progress.acks))
    case PublisherReads(n) =>
      if n == 0 || n > |s.toPublisher| then s
      else
        var (tunnel, r) := Feed(s.tunnel, s.toPublisher[..n]);
        var (p, events) := React(pubs, s.publisher, ResponseOf(r));
        s.(publisher := p, tunnel := tunnel,
           toPublisher := s.toPublisher[n..], toBroker := s.toBroker + WireBytes(events))
  }

  function Run(pubs: seq<Triple>, steps: seq<Step>): System {
    if steps == [] then Init(pubs) else Next(pubs, Run(pubs, steps[..|steps| - 1]), steps[|steps| - 1])
  }

  // ----- the invariant -----

  function Contents(pubs: seq<Triple>): (cs: seq<Content>)
    ensures |cs| == |pubs|
    ensures forall i :: 0 <= i < |pubs| ==> cs[i] == Published(pubs[i].routingKey, pubs[i].payloadType, pubs[i].payload)
  {
    seq(|pubs|, i requires 0 <= i < |pubs| => Published(pubs[i].routingKey, pubs[i].payloadType, pubs[i].payload))
  }

  /** Waiting for the answer to a handshake or to a publication. */
  predicate Waiting(pubs: seq<Triple>, p: Publisher) {
    p.call < |pubs| && p.owed == 1 && (p.state == S.Opened || (p.state == S.Created && p.call == 0))
  }

  function Outstanding(pubs: seq<Triple>, p: Publisher): Message
    requires Waiting(pubs, p)
  {
    if p.state == S.Created then HANDSHAKE else PublishMessage(pubs[p.call])
  }

  /** Messages handled and acknowledged before the outstanding one. */
  function Before(p: Publisher): nat {
    if p.state == S.Created then 0 else 1 + p.call
  }

  /** The outstanding message is on its way: part in the broker's buffer, part in the channel. */
  predicate InTransit(pubs: seq<Triple>, s: System) {
    var p, b := s.publisher, s.broker.progress;
    && Waiting(pubs, p) && Sendable(Outstanding(pubs, p))
    && b == Progress(if p.state == S.Created then FreeBroker else BrokerPrimed,
                     Before(p), Contents(pubs)[..p.call], Before(p), Running)
    && s.broker.buffer + s.toBroker == Frame(Outstanding(pubs, p))
    && s.toBroker != []
    && s.tunnel == [] && s.toPublisher == []
  }

  /** The broker has handled it; its Ack is on the way back. */
  predicate Answered(pubs: seq<Triple>, s: System) {
    var p, b := s.publisher, s.broker.progress;
    && Waiting(pubs, p)
    && b == Progress(BrokerPrimed, Before(p) + 1, Contents(pubs)[..Before(p)], Before(p) + 1, Running)
    && s.broker.buffer == [] && s.toBroker == []
    && Sendable(ACK) && s.tunnel + s.toPublisher == Frame(ACK) && s.toPublisher != []
  }

  /** The controller or the deserializer refused a publication: the broker returned without an
      answer and the publisher waits forever. */
  predicate GaveUp(pubs: seq<Triple>, s: System) {
    var p, b := s.publisher, s.broker.progress;
    && Waiting(pubs, p) && p.state == S.Opened
    && b.status != Running && b.handled == Before(p) + 1 && b.acks == Before(p)
    && (b.delivered == Contents(pubs)[..p.call] || b.delivered == Contents(pubs)[..p.call + 1])
    && s.broker.buffer == [] && s.toBroker == [] && s.tunnel == [] && s.toPublisher == []
  }

  /** All publish calls have returned. */
  predicate AllDone(pubs: seq<Triple>, s: System) {
    var p, b := s.publisher, s.broker.progress;
    && p.call == |pubs|
    && b.status == Running && b.delivered == Contents(pubs)
    && b.handled == b.acks == (if pubs == [] then 0 else |pubs| + 1)
    && s.broker.buffer == [] && s.toBroker == [] && s.tunnel == [] && s.toPublisher == []
  }

  predicate Inv(pubs: seq<Triple>, s: System) {
    InTransit(pubs, s) || Answered(pubs, s) || GaveUp(pubs, s) || AllDone(pubs, s)
  }

  lemma {:induction false} WireBytesOne(f: S.Frame<Triple>, prefix: seq<S.Event<Triple>>)
    requires Sendable(ToMessage(f))
    requires prefix == [] || (|prefix| == 1 && prefix[0].Entered?)
    ensures WireBytes(prefix + [S.Sent(f)]) == Frame(ToMessage(f))
  {
    hide Frame, WellFormed, InBounds;
    var one: seq<S.Event<Triple>> := [S.Sent(f)];
    assert WireBytes([]) == [];
    assert WireBytes(one) == Frame(ToMessage(f)) + WireBytes(one[1..]);
    assert one[1..] == [];
    if prefix != [] {
      assert (prefix + one)[1..] == one;
    } else {
      assert prefix + one == one;
    }
  }

  lemma InitInv(pubs: seq<Triple>)
    requires AllPublishable(pubs)
    ensures Inv(pubs, Init(pubs))
  {
    ControlFrames();
    hide Frame, Sendable;
    var s := Init(pubs);
    assert Contents(pubs)[..0] == [];
    if pubs != [] {
      var shake: S.Frame<Triple> := S.Frame(M.HandShake, None);
      WireBytesOne(shake, []);
      assert [] + [S.Sent(shake)] == [S.Sent(shake)];
      assert InTransit(pubs, s);
    } else {
      assert AllDone(pubs, s);
    }
  }

  lemma HandlesHandshake(b: Progress, outcome: ControllerOutcome)
    requires b == Start(FreeBroker)
    ensures HandleMessage(b, HANDSHAKE, outcome) == Progress(BrokerPrimed, 1, [], 1, Running)
  {
  }

  lemma HandlesPublish(b: Progress, t: Triple, outcome: ControllerOutcome)
    requires b.state == BrokerPrimed && b.status == Running
    ensures var b' := HandleMessage(b, PublishMessage(t), outcome);
            var more := b.delivered + [Published(t.routingKey, t.payloadType, t.payload)];
            && b'.handled == b.handled + 1
            && (b'.status == Running ==> b' == Progress(BrokerPrimed, b.handled + 1, more, b.acks + 1, Running))
            && (b'.status != Running ==> b'.acks == b.acks && (b'.delivered == b.delivered || b'.delivered == more))
  {
    var m := PublishMessage(t);
    assert Handle(BrokerPrimed, m)
        == (BrokerPrimed, Success(StateResult(Some(Published(t.routingKey, t.payloadType, t.payload)), None)));
  }

  /** The broker's view of a whole outstanding message. */
  lemma HandlesOutstanding(pubs: seq<Triple>, s: System, outcome: ControllerOutcome)
    requires InTransit(pubs, s)
    ensures var p, b := s.publisher, s.broker.progress;
            var b' := HandleMessage(b, Outstanding(pubs, p), outcome);
            && b'.handled == b.handled + 1
            && (b'.status == Running ==>
                  b' == Progress(BrokerPrimed, Before(p) + 1, Contents(pubs)[..Before(p)], Before(p) + 1, Running))
            && (b'.status != Running ==>
                  && p.state == S.Opened && b'.acks == b.acks
                  && (b'.delivered == Contents(pubs)[..p.call] || b'.delivered == Contents(pubs)[..p.call + 1]))
  {
    hide HandleMessage, Frame, Sendable, InBounds, Contents;
    var p := s.publisher;
    if p.state == S.Opened {
      HandlesPublish(s.broker.progress, pubs[p.call], outcome);
      assert Contents(pubs)[..p.call + 1] == Contents(pubs)[..p.call] + [Contents(pubs)[p.call]];
    } else {
      assert Contents(pubs)[..0] == [];
      HandlesHandshake(s.broker.progress, outcome);
    }
  }

  /** One chunk of the outstanding frame: all of it is there now, or the buffer keeps growing. */
  lemma BrokerFeeds(pubs: seq<Triple>, s: System, n: nat, outcome: ControllerOutcome)
    requires InTransit(pubs, s) && 0 < n <= |s.toBroker|
    ensures var m := Outstanding(pubs, s.publisher);
            var data := s.broker.buffer + s.toBroker[..n];
            && data + s.toBroker[n..] == Frame(m)
            && ReceiveChunk(s.broker, s.toBroker[..n], outcome)
               == if s.toBroker[n..] == [] then Loop(HandleMessage(s.broker.progress, m, outcome), [])
                  else Loop(s.broker.progress, data)
  {
    hide Feed, Frame, HandleMessage, InBounds;
    var m := Outstanding(pubs, s.publisher);
    var chunk := s.toBroker[..n];
    var data := s.broker.buffer + chunk;
    assert data + s.toBroker[n..] == s.broker.buffer + s.toBroker;
    FrameNonempty(m);
    FeedOne(m, s.broker.buffer, chunk);
    if |data| == |Frame(m)| {
      assert data == Frame(m) && data[|Frame(m)|..] == [];
      ShowsItself(m);
    }
  }

  lemma BrokerReadsKeeps(pubs: seq<Triple>, s: System, n: nat, outcome: ControllerOutcome)
    requires InTransit(pubs, s)
    ensures Inv(pubs, Next(pubs, s, BrokerReads(n, outcome)))
  {
    hide Feed, Frame, HandleMessage, ReceiveChunk, Contents, InBounds;
    if 0 < n <= |s.toBroker| {
      var s' := Next(pubs, s, BrokerReads(n, outcome));
      BrokerFeeds(pubs, s, n, outcome);
      AckBytesOne();
      if s.toBroker[n..] != [] {
        assert InTransit(pubs, s');
      } else {
        HandlesOutstanding(pubs, s, outcome);
        FrameNonempty(ACK);
        if s'.broker.progress.status == Running {
          assert Answered(pubs, s');
        } else {
          assert GaveUp(pubs, s');
        }
      }
    }
  }

  lemma ShowsItself(m: Message)
    requires Sendable(m)
    ensures View(Received(m)) == m
  {
  }

  lemma AckBytesOne()
    ensures Sendable(ACK) && AckBytes(0) == [] && AckBytes(1) == Frame(ACK)
  {
    ControlFrames();
    assert Frame(ACK) + AckBytes(0) == Frame(ACK);
  }

  /** An Ack opens the context or completes the call, and the next publication goes out. */
  lemma AckAdvances(pubs: seq<Triple>, p: Publisher)
    requires AllPublishable(pubs) && Waiting(pubs, p)
    ensures var (q, events) := React(pubs, p, S.GotAck);
            && q.call == Before(p)
            && (if q.call < |pubs|
                then Waiting(pubs, q) && q.state == S.Opened && Sendable(Outstanding(pubs, q))
                     && WireBytes(events) == Frame(Outstanding(pubs, q))
                else WireBytes(events) == [])
  {
    var (q, events) := React(pubs, p, S.GotAck);
    if q.call < |pubs| {
      assert Publishable(pubs[q.call]);
      WireBytesOne(S.Frame(M.Publish, Some(pubs[q.call])), S.Move(p.state, S.Opened));
    }
  }

  lemma PublisherReadsKeeps(pubs: seq<Triple>, s: System, n: nat)
    requires AllPublishable(pubs) && Answered(pubs, s)
    ensures Inv(pubs, Next(pubs, s, PublisherReads(n)))
  {
    hide Feed, Frame, React, Sendable;
    if 0 < n <= |s.toPublisher| {
      var p := s.publisher;
      var chunk := s.toPublisher[..n];
      var s' := Next(pubs, s, PublisherReads(n));
      var data := s.tunnel + chunk;
      assert data + s.toPublisher[n..] == Frame(ACK);
      FrameNonempty(ACK);
      FeedOne(ACK, s.tunnel, chunk);
      if |data| < |Frame(ACK)| {
        NothingHappens(pubs, p);
        assert Answered(pubs, s');
      } else {
        assert data == Frame(ACK) && data[|Frame(ACK)|..] == [];
        AckAdvances(pubs, p);
        var q := s'.publisher;
        if q.call < |pubs| {
          FrameNonempty(Outstanding(pubs, q));
          assert InTransit(pubs, s');
        } else {
          assert Contents(pubs)[..|pubs|] == Contents(pubs);
          assert AllDone(pubs, s');
        }
      }
    }
  }

  lemma NothingHappens(pubs: seq<Triple>, p: Publisher)
    ensures React(pubs, p, S.Incomplete) == (p, []) && WireBytes([]) == []
  {
  }

  lemma NextKeeps(pubs: seq<Triple>, s: System, step: Step)
    requires AllPublishable(pubs) && Inv(pubs, s)
    ensures Inv(pubs, Next(pubs, s, step))
  {
    hide Frame, ReceiveChunk, React, Feed, Contents, Sendable;
    match step
    case BrokerReads(n, outcome) =>
      if InTransit(pubs, s) { BrokerReadsKeeps(pubs, s, n, outcome); }
    case PublisherReads(n) =>
      if Answered(pubs, s) { PublisherReadsKeeps(pubs, s, n); }
  }

  lemma {:induction false} RunKeeps(pubs: seq<Triple>, steps: seq<Step>)
    requires AllPublishable(pubs)
    ensures Inv(pubs, Run(pubs, steps))
  {
    if steps == [] {
      InitInv(pubs);
    } else {
      RunKeeps(pubs, steps[..|steps| - 1]);
      NextKeeps(pubs, Run(pubs, steps[..|steps| - 1]), steps[|steps| - 1]);
    }
  }

  // ----- what it means -----

  /** In every run: what the controller was given is a prefix of the publications, in order and
      without repetition; each acknowledged call was delivered, and at most one delivery is not yet
      acknowledged. */
  lemma {:induction false} EndToEndDelivery(pubs: seq<Triple>, steps: seq<Step>)
    requires AllPublishable(pubs)
    ensures var s := Run(pubs, steps);
            && s.broker.progress.delivered <= Contents(pubs)
            && s.publisher.call <= |s.broker.progress.delivered| <= s.publisher.call + 1
  {
    RunKeeps(pubs, steps);
    InvDelivers(pubs, Run(pubs, steps));
  }

  lemma InvDelivers(pubs: seq<Triple>, s: System)
    requires Inv(pubs, s)
    ensures s.broker.progress.delivered <= Contents(pubs)
    ensures s.publisher.call <= |s.broker.progress.delivered| <= s.publisher.call + 1
  {
    hide Frame, Sendable, Outstanding;
  }

  /** Whenever a step makes the broker handle a message, its buffer is empty afterwards. */
  lemma {:induction false} BufferEmptyAfterHandling(pubs: seq<Triple>, steps: seq<Step>, step: Step)
    requires AllPublishable(pubs)
    ensures var s := Run(pubs, steps); var s' := Next(pubs, s, step);
            s'.broker.progress.handled != s.broker.progress.handled ==> s'.broker.buffer == []
  {
    RunKeeps(pubs, steps);
    var s := Run(pubs, steps);
    NextKeeps(pubs, s, step);
    var s' := Next(pubs, s, step);
    if InTransit(pubs, s) && step.BrokerReads? && InTransit(pubs, s') {
      assert s'.publisher == s.publisher;
    }
  }

  /** No run gets stuck: when no bytes are in flight, either every call has returned and
      everything was delivered, or the broker itself gave up on a publication. */
  lemma {:induction false} QuietMeansDone(pubs: seq<Triple>, steps: seq<Step>)
    requires AllPublishable(pubs)
    requires var s := Run(pubs, steps); s.toBroker == [] && s.toPublisher == []
    ensures var s := Run(pubs, steps);
            s.broker.progress.status == Running ==>
              s.publisher.call == |pubs| && s.broker.progress.delivered == Contents(pubs)
  {
    RunKeeps(pubs, steps);
  }
}

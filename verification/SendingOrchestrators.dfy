/** The sending orchestrators: `Send`, `PrimeConnection`, `Wire`, `WaitForValidResponse` and
    `HandleFailure` call each other while they change the context and consume responses. Each is
    proved to make exactly the run of the flat automaton. */
module SendingOrchestrators {
  import opened Wrappers
  import opened SagaMachine
  import opened SagaProofs

  datatype SendResult =
    | Ok
    | ConnectionClosedFailure   // a failed result carrying ConnectionClosedException
    | OtherFailure              // a failed result carrying anything else
    | BlockedForever            // waiting for a response that never comes

  datatype Saga<P> = Saga(origin: SendState, originalPayload: P)

  /** Frames a send call owes, depending on the context: a subscription is all handshake. */
  function Demand(kind: ContextKind): nat {
    if kind == Subscribing then 0 else 1
  }

  /** What is still owed once a saga of state `s` is on the wire. */
  function Outstanding(s: SendState): nat {
    if s == Opened then 1 else 0
  }

  /** The compensating transition chosen for an answer that is not an Ack. */
  function Compensation(response: Response): Trigger {
    match response
    case GotNack => OnNack
    case GotClose => OnConnectionClosed
    case _ => OnInternalError
  }

  /** Which failure an open context reports when it is refused: the unreadable answer itself if that is
      what ended the conversation, the closed connection otherwise. */
  function Verdict(kind: ContextKind, inbox: seq<Response>): SendResult {
    var h := Heard(inbox);
    var k := if kind == Pushing then LeadingNacks(h) else 0;
    if k < |h| && h[k] == Failed then OtherFailure else ConnectionClosedFailure
  }

  lemma {:induction false} VerdictStep(kind: ContextKind, inbox: seq<Response>, r: Response, rest: seq<Response>)
    requires r != Incomplete && Heard(inbox) == Heard([r] + rest)
    ensures Verdict(kind, inbox)
         == if r == Failed then OtherFailure
            else if kind == Pushing && r == GotNack then Verdict(kind, rest)
            else ConnectionClosedFailure
  {
    assert ([r] + rest)[1..] == rest;
    assert Heard(inbox)[1..] == Heard(rest);
  }

  /** Which failure a send reports when it is refused: always the closed connection if that happens
      before the context is open. */
  function SendVerdict<P>(kind: ContextKind, s: SendState, payload: P, inbox: seq<Response>): SendResult {
    var first := Flat(kind, s, 0, payload, inbox);
    if first.outcome == Refused then ConnectionClosedFailure else Verdict(kind, first.rest)
  }

  lemma VerdictOnceOpen<P>(kind: ContextKind, payload: P, inbox: seq<Response>)
    requires kind != Subscribing
    ensures SendVerdict(kind, Opened, payload, inbox) == Verdict(kind, inbox)
  {
  }

  lemma {:induction false} VerdictOnceClosing<P>(kind: ContextKind, s: SendState, owed: nat, payload: P,
      inbox: seq<Response>)
    requires s == Closing || s == Closed
    ensures Flat(kind, s, owed, payload, inbox).outcome == Refused ==>
              SendVerdict(kind, s, payload, inbox) == ConnectionClosedFailure
  {
    ClosingForgets(kind, s, owed, 0, payload, inbox);
  }

  /** An Ack ends the wait; the saga's own transition completes the run. */
  lemma {:induction false} AckReacts<P>(kind: ContextKind, s: SendState, payload: P, inbox: seq<Response>)
    requires Legal(kind, s) && Active(s) && (kind == Requesting ==> s == Closing)
    ensures var to := Transition(kind, s, OnAck);
            Await(kind, s, Outstanding(s), payload, [GotAck] + inbox)
              == Run(if s == Closing then Refused else Succeeded, to, Move(s, to), inbox)
  {
    var to := Transition(kind, s, OnAck);
    AwaitReacts(kind, s, Outstanding(s), payload, GotAck, inbox);
    FlatSettled(kind, to, 0, payload, inbox);
    assert Move<P>(s, to) + [] == Move<P>(s, to);
  }

  /** Any other answer compensates and starts over; if that succeeds, the saga's own Ack leads to
      the state already reached. */
  lemma {:induction false} FailureReacts<P>(kind: ContextKind, s: SendState, payload: P, response: Response,
      inbox: seq<Response>)
    requires Legal(kind, s) && Active(s) && (kind == Requesting ==> s == Closing)
    requires response != GotAck && response != Incomplete
    ensures var to := Transition(kind, s, Compensation(response));
            var run := Flat(kind, to, Demand(kind), payload, inbox);
            && Await(kind, s, Outstanding(s), payload, [response] + inbox) == After(Move(s, to), run)
            && (run.outcome == Succeeded && kind != Subscribing ==> Transition(kind, s, OnAck) == run.state)
            && (run.outcome == Succeeded ==> response == GotNack)
  {
    AwaitReacts(kind, s, Outstanding(s), payload, response, inbox);
    var trigger := TriggerOf(kind, s, response);
    assert trigger == Compensation(response);
    var to := Transition(kind, s, trigger);
    var owed := Owed(kind, s, Outstanding(s), trigger);
    if to == Closing || to == Closed {
      ClosingForgets(kind, to, owed, Demand(kind), payload, inbox);
      ClosingNeverSucceeds(kind, to, owed, payload, inbox);
    } else {
      assert owed == Demand(kind);
    }
    RunEnds(kind, to, Demand(kind), payload, inbox);
  }

  /** How the failure of the inner send is passed on by an open context. */
  lemma {:induction false} FailureVerdict<P>(kind: ContextKind, s: SendState, payload: P, response: Response,
      inbox: seq<Response>)
    requires Legal(kind, s) && Active(s) && (kind == Requesting ==> s == Closing)
    requires response != GotAck && response != Incomplete
    ensures var to := Transition(kind, s, Compensation(response));
            s == Opened && Flat(kind, to, Demand(kind), payload, inbox).outcome == Refused ==>
              SendVerdict(kind, to, payload, inbox)
                == if kind == Pushing && response == GotNack then Verdict(kind, inbox) else ConnectionClosedFailure
  {
    hide Flat, Verdict, SendVerdict;
    var to := Transition(kind, s, Compensation(response));
    if s == Opened {
      if to == Opened {
        VerdictOnceOpen(kind, payload, inbox);
      } else {
        VerdictOnceClosing(kind, to, Demand(kind), payload, inbox);
      }
    }
  }

  /** One turn of the priming loop settles the connection or blocks. */
  lemma {:induction false} PrimingSettles<P>(kind: ContextKind, s: SendState, payload: P, inbox: seq<Response>)
    requires Legal(kind, s) && Active(s) && !Ready(kind, s)
    ensures Outstanding(s) == 0 && (kind == Requesting ==> s == Closing)
    ensures var run := Flat(kind, s, 0, payload, inbox);
            && (run.outcome == Succeeded ==> Ready(kind, run.state))
            && (run.outcome == Refused ==> run.state == Closed)
            && run.outcome != Mismatched && |run.rest| <= |inbox|
            && (run.outcome != Blocked ==>
                  Flat(kind, run.state, 0, payload, run.rest) == Run(run.outcome, run.state, [], run.rest))
  {
    RunEnds(kind, s, 0, payload, inbox);
    if kind == Requesting {
      ClosingNeverSucceeds(kind, s, 0, payload, inbox);
    }
  }

  class SendingOrchestrator<P> {
    const kind: ContextKind
    var state: SendState
    var inbox: seq<Response>      // responses the peer will give
    var log: seq<Event<P>>        // frames sent and states entered

    constructor (kind: ContextKind, inbox: seq<Response>)
      ensures this.kind == kind && this.inbox == inbox && log == []
      ensures state == (if kind == Pushing || kind == Requesting then Opened else Created) && Valid()
    {
      this.kind := kind;
      this.inbox := inbox;
      log := [];
      state := if kind == Pushing || kind == Requesting then Opened else Created;
    }

    ghost predicate Valid()
      reads this
    {
      Legal(kind, state)
    }

    /** The object is where the run `r` from the earlier log leads. */
    ghost predicate Made(before: seq<Event<P>>, r: Run<P>)
      reads this
    {
      state == r.state && log == before + r.log && inbox == r.rest
    }

    method SetState(to: SendState)
      modifies this`state, this`log
      ensures state == to && log == old(log) + Move(old(state), to)
    {
      if to != state {
        state := to;
        log := log + [Entered(to)];
      }
    }

    method BuildSaga(payload: P) returns (r: Result<Saga<P>>, failure: SendResult)
      ensures r.Success? <==> Active(state)
      ensures r.Success? ==> r.value == Saga(state, payload)
      ensures state == Closed ==> failure == ConnectionClosedFailure
      ensures state == Subscribed ==> failure == OtherFailure
    {
      match state
      case Closed => return Failure(Rejected), ConnectionClosedFailure;
      case Subscribed => return Failure(Rejected), OtherFailure;
      case _ => return Success(Saga(state, payload)), Ok;
    }

    method Send(payload: P) returns (r: SendResult)
      requires Valid() && (kind == Requesting ==> state == Closing || state == Closed)
      modifies this
      ensures Valid()
      ensures var run := Flat(kind, old(state), Demand(kind), payload, old(inbox));
              && Made(old(log), run)
              && (r == BlockedForever <==> run.outcome == Blocked)
              && (r == Ok <==> run.outcome == Succeeded && kind != Subscribing)
              && (run.outcome == Succeeded && kind == Subscribing ==> r == OtherFailure)
              && (run.outcome == Refused ==> r == SendVerdict(kind, old(state), payload, old(inbox)))
      decreases |inbox|, 3
    {
      hide Flat, Await;
      ghost var first := Flat(kind, state, 0, payload, inbox);
      RunEnds(kind, state, 0, payload, inbox);
      if kind == Requesting {
        ClosingNeverSucceeds(kind, state, 0, payload, inbox);
      }
      if kind != Subscribing {
        Compose(kind, state, 0, 1, payload, inbox);
      }
      var primed := PrimeConnection(payload);
      if primed != Ok {
        return primed;
      }
      var saga, failure := BuildSaga(payload);
      if saga.Failure? {
        return failure;
      }
      ghost var next := Flat(kind, Opened, 1, payload, first.rest);
      r := Wire(saga.value);
      assert (old(log) + first.log) + next.log == old(log) + (first.log + next.log);
    }

    method PrimeConnection(payload: P) returns (r: SendResult)
      requires Valid()
      modifies this
      ensures Valid()
      ensures var run := Flat(kind, old(state), 0, payload, old(inbox));
              && Made(old(log), run)
              && |inbox| <= |old(inbox)|
              && (r == BlockedForever <==> run.outcome == Blocked)
              && (r == Ok <==> run.outcome == Succeeded)
              && (r == ConnectionClosedFailure <==> run.outcome == Refused)
      decreases |inbox|, 2
    {
      hide Flat, Await;
      ghost var run := Flat(kind, state, 0, payload, inbox);
      ghost var settled := false;
      FlatSettled(kind, state, 0, payload, inbox);
      assert log + [] == log;
      while !Ready(kind, state)
        invariant Valid() && |inbox| <= |old(inbox)|
        invariant !settled ==> state == old(state) && inbox == old(inbox) && log == old(log)
        invariant settled ==> Made(old(log), run)
        invariant settled ==> if Ready(kind, state) then run.outcome == Succeeded
                              else run.outcome == Refused && state == Closed
        decreases if settled then 0 else 1
      {
        var saga, failure := BuildSaga(payload);
        if saga.Failure? {
          return ConnectionClosedFailure;
        }
        PrimingSettles(kind, state, payload, inbox);
        r := Wire(saga.value);
        if r == BlockedForever || r == ConnectionClosedFailure {
          return;
        }
        settled := true;
      }
      return Ok;
    }

    method Wire(saga: Saga<P>) returns (r: SendResult)
      requires Valid() && Active(state) && saga.origin == state
      requires kind == Requesting ==> state == Closing
      modifies this
      ensures Valid()
      ensures var run := Flat(kind, old(state), Outstanding(old(state)), saga.originalPayload, old(inbox));
              && Made(old(log), run)
              && (r == BlockedForever <==> run.outcome == Blocked)
              && (r != BlockedForever ==> |inbox| < |old(inbox)|)
              && (run.outcome == Succeeded ==> r == Ok || (kind == Subscribing && r == OtherFailure))
              && (old(state) == Opened && r == Ok ==> run.outcome == Succeeded)
              && (old(state) == Opened && run.outcome == Refused ==> r == Verdict(kind, old(inbox)))
      decreases |inbox|, 1
    {
      hide Flat, Await;
      var message := MessageOf(kind, saga.origin, saga.originalPayload);
      FlatSends(kind, state, Outstanding(state), saga.originalPayload, inbox);
      AwaitEnds(kind, state, Outstanding(state), saga.originalPayload, inbox);
      log := log + [Sent(message)];
      ghost var wait := Await(kind, saga.origin, Outstanding(saga.origin), saga.originalPayload, inbox);
      r := WaitForValidResponse(saga);
      assert (old(log) + [Sent(message)]) + wait.log == old(log) + ([Sent(message)] + wait.log);
      if r != Ok {
        return;
      }
      SetState(Transition(kind, saga.origin, OnAck));
    }

    /** The reading loop: skips chunks that do not complete a message; None blocks. */
    method NextResponse(ghost owed: nat, ghost payload: P) returns (r: Option<Response>)
      requires Active(state)
      modifies this`inbox
      ensures r.None? ==> inbox == [] && Await(kind, state, owed, payload, old(inbox)) == Run(Blocked, state, [], [])
      ensures r.Some? ==> r.value != Incomplete && |inbox| < |old(inbox)|
      ensures r.Some? ==> Heard(old(inbox)) == Heard([r.value] + inbox)
      ensures r.Some? ==>
                Await(kind, state, owed, payload, old(inbox)) == Await(kind, state, owed, payload, [r.value] + inbox)
    {
      while true
        invariant |inbox| <= |old(inbox)|
        invariant Heard(old(inbox)) == Heard(inbox)
        invariant Await(kind, state, owed, payload, old(inbox)) == Await(kind, state, owed, payload, inbox)
        decreases |inbox|
      {
        if inbox == [] {
          return None;
        }
        var response := inbox[0];
        assert inbox == [response] + inbox[1..];
        inbox := inbox[1..];
        if response == Incomplete {
          continue;
        }
        return Some(response);
      }
    }

    /** On Ok the saga's own Ack is still to be applied. */
    method WaitForValidResponse(saga: Saga<P>) returns (r: SendResult)
      requires Valid() && Active(state) && saga.origin == state
      requires kind == Requesting ==> state == Closing
      modifies this
      ensures Valid()
      ensures var run := Await(kind, old(state), Outstanding(old(state)), saga.originalPayload, old(inbox));
              && (r == BlockedForever <==> run.outcome == Blocked)
              && (r != Ok ==> Made(old(log), run))
              && (r == Ok ==>
                    && inbox == run.rest
                    && Transition(kind, saga.origin, OnAck) == run.state
                    && log + Move(state, run.state) == old(log) + run.log)
              && (run.outcome == Succeeded ==> r == Ok || (kind == Subscribing && r == OtherFailure))
              && (old(state) == Opened && r == Ok ==> run.outcome == Succeeded)
              && (old(state) == Opened && run.outcome == Refused ==> r == Verdict(kind, old(inbox)))
      decreases |inbox|, 0
    {
      hide Flat, Await, Transition, Outstanding, Demand, Compensation, Verdict, SendVerdict, Heard;
      var next := NextResponse(Outstanding(state), saga.originalPayload);
      assert log + [] == log;
      if next.None? {
        return BlockedForever;
      }
      if next.value == GotAck {
        AckReacts(kind, state, saga.originalPayload, inbox);
        return Ok;
      }
      FailureReacts(kind, state, saga.originalPayload, next.value, inbox);
      ghost var to := Transition(kind, state, Compensation(next.value));
      VerdictStep(kind, old(inbox), next.value, inbox);
      FailureVerdict(kind, state, saga.originalPayload, next.value, inbox);
      ghost var after := Flat(kind, to, Demand(kind), saga.originalPayload, inbox);
      r := HandleFailure(Compensation(next.value), saga);
      assert (old(log) + Move(old(state), to)) + after.log == old(log) + (Move(old(state), to) + after.log);
      if next.value == Failed && r != BlockedForever {
        r := OtherFailure;
      }
    }

    method HandleFailure(compensation: Trigger, saga: Saga<P>) returns (r: SendResult)
      requires Valid() && Active(saga.origin) && saga.origin == state
      requires kind == Requesting ==> state == Closing
      modifies this
      ensures Valid()
      ensures var to := Transition(kind, old(state), compensation);
              var run := Flat(kind, to, Demand(kind), saga.originalPayload, old(inbox));
              && Made(old(log) + Move(old(state), to), run)
              && (r == BlockedForever <==> run.outcome == Blocked)
              && (r == Ok <==> run.outcome == Succeeded && kind != Subscribing)
              && (run.outcome == Succeeded && kind == Subscribing ==> r == OtherFailure)
              && (run.outcome == Refused ==> r == SendVerdict(kind, to, saga.originalPayload, old(inbox)))
      decreases |inbox|, 4
    {
      SetState(Transition(kind, saga.origin, compensation));
      r := Send(saga.originalPayload);
    }

    // ----- request and response -----

    /** `SendAndGetResponse`: Ok carries the deserialized answer. */
    method SendAndGetResponse(payload: P) returns (r: SendResult)
      requires Valid() && kind == Requesting
      modifies this
      ensures Valid()
      ensures var run := Flat(kind, old(state), 1, payload, old(inbox));
              && Made(old(log), run)
              && (r == BlockedForever <==> run.outcome == Blocked)
              && (r == Ok <==> run.outcome == Succeeded)
              && (run.outcome == Refused ==> r == SendVerdict(kind, old(state), payload, old(inbox)))
              && (run.outcome == Mismatched ==> r == OtherFailure)
      decreases |inbox|, 3
    {
      hide Flat, Await;
      ghost var first := Flat(kind, state, 0, payload, inbox);
      RunEnds(kind, state, 0, payload, inbox);
      Compose(kind, state, 0, 1, payload, inbox);
      var primed := PrimeConnection(payload);
      if primed != Ok {
        return primed;
      }
      var saga, failure := BuildSaga(payload);
      ghost var next := Flat(kind, Opened, 1, payload, first.rest);
      r := WireAndGetResponse(saga.value);
      assert (old(log) + first.log) + next.log == old(log) + (first.log + next.log);
    }

    method WireAndGetResponse(saga: Saga<P>) returns (r: SendResult)
      requires Valid() && kind == Requesting && state == Opened && saga.origin == Opened
      modifies this
      ensures Valid()
      ensures var run := Flat(kind, Opened, 1, saga.originalPayload, old(inbox));
              && Made(old(log), run)
              && (r == BlockedForever <==> run.outcome == Blocked)
              && (r == Ok <==> run.outcome == Succeeded)
              && (run.outcome == Refused ==> r == Verdict(kind, old(inbox)))
              && (run.outcome == Mismatched ==> r == OtherFailure)
      decreases |inbox|, 1
    {
      hide Flat, Await;
      var message := MessageOf(kind, saga.origin, saga.originalPayload);
      FlatSends(kind, Opened, 1, saga.originalPayload, inbox);
      log := log + [Sent(message)];
      ghost var wait := Await(kind, Opened, 1, saga.originalPayload, inbox);
      r := WaitForPayload(saga);
      assert (old(log) + [Sent(message)]) + wait.log == old(log) + ([Sent(message)] + wait.log);
    }

    /** Only a payload of the expected type is an answer; even an Ack closes the connection. */
    method WaitForPayload(saga: Saga<P>) returns (r: SendResult)
      requires Valid() && kind == Requesting && state == Opened && saga.origin == Opened
      modifies this
      ensures Valid()
      ensures var run := Await(kind, Opened, 1, saga.originalPayload, old(inbox));
              && Made(old(log), run)
              && (r == BlockedForever <==> run.outcome == Blocked)
              && (r == Ok <==> run.outcome == Succeeded)
              && (run.outcome == Refused ==> r == Verdict(kind, old(inbox)))
              && (run.outcome == Mismatched ==> r == OtherFailure)
      decreases |inbox|, 0
    {
      hide Flat, Await, Verdict, SendVerdict, Heard;
      var next := NextResponse(1, saga.originalPayload);
      assert log + [] == log;
      if next.None? {
        return BlockedForever;
      }
      var response := next.value;
      if response == GotPayload(false) {
        AwaitMismatch(1, saga.originalPayload, inbox);
        return OtherFailure;
      }
      AwaitReacts(kind, Opened, 1, saga.originalPayload, response, inbox);
      ghost var to := Transition(kind, Opened, TriggerOf(kind, Opened, response));
      if response == GotPayload(true) {
        SetState(Transition(kind, saga.origin, OnPayloadResponse));
        FlatSettled(kind, to, 0, saga.originalPayload, inbox);
        return Ok;
      }
      ghost var after := Flat(kind, to, 1, saga.originalPayload, inbox);
      VerdictStep(kind, old(inbox), response, inbox);
      VerdictOnceClosing(kind, to, 1, saga.originalPayload, inbox);
      ClosingNeverSucceeds(kind, to, 1, saga.originalPayload, inbox);
      var compensation := if response == GotAck then OnAck
                          else if response == GotNack then OnNack
                          else if response == GotClose then OnConnectionClosed
                          else OnInternalError;
      r := HandleRequestFailure(compensation, saga);
      assert (old(log) + Move(Opened, to)) + after.log == old(log) + (Move(Opened, to) + after.log);
      if response == Failed && r != BlockedForever {
        r := OtherFailure;
      }
    }

    method HandleRequestFailure(compensation: Trigger, saga: Saga<P>) returns (r: SendResult)
      requires Valid() && kind == Requesting && state == Opened && saga.origin == Opened
      requires compensation != OnPayloadResponse
      modifies this
      ensures Valid()
      ensures var to := Transition(kind, Opened, compensation);
              var run := Flat(kind, to, 1, saga.originalPayload, old(inbox));
              && Made(old(log) + Move(Opened, to), run)
              && (r == BlockedForever <==> run.outcome == Blocked)
              && (r == Ok <==> run.outcome == Succeeded)
              && (run.outcome == Refused ==> r == SendVerdict(kind, to, saga.originalPayload, old(inbox)))
              && (run.outcome == Mismatched ==> r == OtherFailure)
      decreases |inbox|, 4
    {
      SetState(Transition(kind, saga.origin, compensation));
      r := SendAndGetResponse(saga.originalPayload);
    }
  }
}

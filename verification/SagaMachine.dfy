/** The sending side as a flat automaton. A context walks through its states and owes a number of
    data messages; each response moves it on. The orchestrators reach the same runs by mutual
    recursion (see `SendingOrchestrators`). */
module SagaMachine {
  import opened Wrappers
  import M = Messages

  datatype ContextKind = Publishing | Pushing | Requesting | Subscribing

  datatype SendState = Created | Opened | Subscribed | Closing | Closed

  datatype Trigger = OnAck | OnPayloadResponse | OnNack | OnInternalError | OnConnectionClosed

  /** The transition tables of the send states. */
  function Transition(kind: ContextKind, from: SendState, trigger: Trigger): SendState
    requires Active(from)
  {
    match from
    case Created => (
      match trigger
      case OnAck => if kind == Subscribing then Subscribed else Opened
      case OnNack => Created
      case OnConnectionClosed => if kind == Subscribing then Closing else Closed
      case _ => Closing)
    case Opened => (
      match trigger
      case OnAck => if kind == Requesting then Closing else Opened
      case OnPayloadResponse => if kind == Requesting then Opened else Closing
      case OnNack => if kind == Pushing then Opened else Closing
      case OnInternalError => Closing
      case OnConnectionClosed => Closed)
    case _ => Closed
  }

  /** States that can build a message. */
  predicate Active(s: SendState) {
    s == Created || s == Opened || s == Closing
  }

  predicate Ready(kind: ContextKind, s: SendState) {
    s == if kind == Subscribing then Subscribed else Opened
  }

  /** States a context of each kind can be in. */
  predicate Legal(kind: ContextKind, s: SendState) {
    match s
    case Created => kind != Requesting
    case Opened => kind != Subscribing
    case Subscribed => kind == Subscribing
    case _ => true
  }

  datatype Frame<P> = Frame(kind: M.MessageType, payload: Option<P>)

  function MessageOf<P>(kind: ContextKind, s: SendState, payload: P): Frame<P>
    requires Active(s)
  {
    match s
    case Created => if kind == Subscribing then Frame(M.Subscribe, Some(payload)) else Frame(M.HandShake, None)
    case Opened =>
      Frame(match kind case Publishing => M.Publish case Pushing => M.Push case _ => M.Send, Some(payload))
    case _ => Frame(M.Close, None)
  }

  /** What one read from the channel yields. */
  datatype Response =
    | Incomplete                 // not a whole message yet
    | Failed                     // a failure other than Incomplete
    | GotAck
    | GotNack
    | GotClose
    | GotPayload(matches: bool)  // a PayloadResponse, of the expected type or not
    | GotOther

  datatype Event<P> = Sent(frame: Frame<P>) | Entered(state: SendState)

  datatype Outcome = Succeeded | Refused | Mismatched | Blocked

  datatype Run<P> = Run(outcome: Outcome, state: SendState, log: seq<Event<P>>, rest: seq<Response>)

  function After<P>(log: seq<Event<P>>, r: Run<P>): Run<P> {
    r.(log := log + r.log)
  }

  function TriggerOf(kind: ContextKind, s: SendState, r: Response): Trigger
    requires r != Incomplete
  {
    match r
    case GotAck => OnAck
    case GotNack => OnNack
    case GotClose => OnConnectionClosed
    case GotPayload(_) => if kind == Requesting && s == Opened then OnPayloadResponse else OnInternalError
    case _ => OnInternalError
  }

  /** Data messages still owed after a response: a refused handshake makes the whole send start
      over and the interrupted one is resumed afterwards, so it adds one. */
  function Owed(kind: ContextKind, s: SendState, owed: nat, trigger: Trigger): nat {
    if s == Created && trigger == OnNack && kind != Subscribing then owed + 1
    else if s == Opened && owed > 0 && trigger == (if kind == Requesting then OnPayloadResponse else OnAck)
    then owed - 1
    else owed
  }

  function Move<P>(from: SendState, to: SendState): seq<Event<P>> {
    if from == to then [] else [Entered(to)]
  }

  /** A context in state `s` that owes `owed` data messages. */
  function Flat<P>(kind: ContextKind, s: SendState, owed: nat, payload: P, inbox: seq<Response>): Run<P>
    decreases |inbox|, 1
  {
    if Ready(kind, s) && owed == 0 then Run(Succeeded, s, [], inbox)
    else if !Active(s) then Run(Refused, s, [], inbox)
    else After([Sent(MessageOf(kind, s, payload))], Await(kind, s, owed, payload, inbox))
  }

  function Await<P>(kind: ContextKind, s: SendState, owed: nat, payload: P, inbox: seq<Response>): Run<P>
    requires Active(s)
    decreases |inbox|, 0
  {
    if inbox == [] then Run(Blocked, s, [], [])
    else if inbox[0] == Incomplete then Await(kind, s, owed, payload, inbox[1..])
    else if kind == Requesting && s == Opened && inbox[0] == GotPayload(false) then Run(Mismatched, s, [], inbox[1..])
    else
      var trigger := TriggerOf(kind, s, inbox[0]);
      var to := Transition(kind, s, trigger);
      After(Move(s, to), Flat(kind, to, Owed(kind, s, owed, trigger), payload, inbox[1..]))
  }

  // ----- where runs end -----

  lemma {:induction false} RunEnds<P>(kind: ContextKind, s: SendState, owed: nat, payload: P, inbox: seq<Response>)
    requires Legal(kind, s) && (kind == Subscribing ==> owed == 0)
    ensures var r := Flat(kind, s, owed, payload, inbox);
            && Legal(kind, r.state)
            && (r.outcome == Succeeded ==> Ready(kind, r.state))
            && (r.outcome == Refused ==> r.state == Closed)
            && (r.outcome == Mismatched ==> kind == Requesting && r.state == Opened)
            && (r.outcome == Blocked ==> r.rest == [])
            && |r.rest| <= |inbox|
    decreases |inbox|, 1
  {
    if Active(s) && !(Ready(kind, s) && owed == 0) {
      AwaitEnds(kind, s, owed, payload, inbox);
    }
  }

  lemma {:induction false} AwaitEnds<P>(kind: ContextKind, s: SendState, owed: nat, payload: P, inbox: seq<Response>)
    requires Legal(kind, s) && Active(s) && (kind == Subscribing ==> owed == 0)
    ensures var r := Await(kind, s, owed, payload, inbox);
            && Legal(kind, r.state)
            && (r.outcome == Succeeded ==> Ready(kind, r.state))
            && (r.outcome == Refused ==> r.state == Closed)
            && (r.outcome == Mismatched ==> kind == Requesting && r.state == Opened)
            && (r.outcome == Blocked ==> r.rest == [])
            && (r.outcome != Blocked ==> |r.rest| < |inbox|)
    decreases |inbox|, 0
  {
    if inbox == [] {
    } else if inbox[0] == Incomplete {
      AwaitEnds(kind, s, owed, payload, inbox[1..]);
    } else {
      var trigger := TriggerOf(kind, s, inbox[0]);
      RunEnds(kind, Transition(kind, s, trigger), Owed(kind, s, owed, trigger), payload, inbox[1..]);
    }
  }

  // ----- composition -----

  /** First `r`, then, if it succeeded, what `next` does with the rest. */
  function Then<P>(r: Run<P>, next: Run<P>): Run<P> {
    if r.outcome == Succeeded then After(r.log, next) else r
  }

  lemma AfterThen<P>(log: seq<Event<P>>, r: Run<P>, next: Run<P>)
    ensures After(log, Then(r, next)) == Then(After(log, r), next)
  {
    assert log + (r.log + next.log) == (log + r.log) + next.log;
  }

  lemma AfterAfter<P>(a: seq<Event<P>>, b: seq<Event<P>>, r: Run<P>)
    ensures After(a, After(b, r)) == After(a + b, r)
  {
    assert a + (b + r.log) == (a + b) + r.log;
  }

  /** Once closing, what was owed no longer matters. */
  lemma {:induction false} ClosingForgets<P>(kind: ContextKind, s: SendState, a: nat, b: nat, payload: P,
      inbox: seq<Response>)
    requires s == Closing || s == Closed
    ensures Flat(kind, s, a, payload, inbox) == Flat(kind, s, b, payload, inbox)
  {
    if s == Closing { AwaitClosingForgets(kind, a, b, payload, inbox); }
  }

  lemma {:induction false} AwaitClosingForgets<P>(kind: ContextKind, a: nat, b: nat, payload: P, inbox: seq<Response>)
    ensures Await(kind, Closing, a, payload, inbox) == Await(kind, Closing, b, payload, inbox)
    decreases |inbox|
  {
    if inbox != [] && inbox[0] == Incomplete {
      AwaitClosingForgets(kind, a, b, payload, inbox[1..]);
    }
  }

  /** Owing `a + b` messages is owing `a` and, once they are done, `b` more. */
  lemma {:induction false} Compose<P>(kind: ContextKind, s: SendState, a: nat, b: nat, payload: P, inbox: seq<Response>)
    requires Legal(kind, s) && kind != Subscribing
    ensures var r := Flat(kind, s, a, payload, inbox);
            Flat(kind, s, a + b, payload, inbox) == Then(r, Flat(kind, Opened, b, payload, r.rest))
    decreases |inbox|, 1
  {
    if Ready(kind, s) && a == 0 {
      var next := Flat(kind, Opened, b, payload, inbox);
      assert [] + next.log == next.log;
    } else if Active(s) {
      ComposeAwait(kind, s, a, b, payload, inbox);
      var r := Await(kind, s, a, payload, inbox);
      AfterThen([Sent(MessageOf(kind, s, payload))], r, Flat(kind, Opened, b, payload, r.rest));
    }
  }

  lemma {:induction false} ComposeAwait<P>(kind: ContextKind, s: SendState, a: nat, b: nat, payload: P,
      inbox: seq<Response>)
    requires Legal(kind, s) && Active(s) && kind != Subscribing && (s == Opened ==> a > 0)
    ensures var r := Await(kind, s, a, payload, inbox);
            Await(kind, s, a + b, payload, inbox) == Then(r, Flat(kind, Opened, b, payload, r.rest))
    decreases |inbox|, 0
  {
    if inbox == [] {
    } else if inbox[0] == Incomplete {
      ComposeAwait(kind, s, a, b, payload, inbox[1..]);
    } else if kind == Requesting && s == Opened && inbox[0] == GotPayload(false) {
    } else {
      var trigger := TriggerOf(kind, s, inbox[0]);
      var to := Transition(kind, s, trigger);
      var owed := Owed(kind, s, a, trigger);
      assert Owed(kind, s, a + b, trigger) == owed + b;
      Compose(kind, to, owed, b, payload, inbox[1..]);
      var r := Flat(kind, to, owed, payload, inbox[1..]);
      AfterThen(Move(s, to), r, Flat(kind, Opened, b, payload, r.rest));
    }
  }

  // ----- unfolding, one step at a time -----

  lemma {:induction false} FlatSettled<P>(kind: ContextKind, s: SendState, owed: nat, payload: P, inbox: seq<Response>)
    ensures Ready(kind, s) && owed == 0 ==> Flat(kind, s, owed, payload, inbox) == Run(Succeeded, s, [], inbox)
    ensures s == Closed ==> Flat(kind, s, owed, payload, inbox) == Run(Refused, s, [], inbox)
  {
  }

  lemma {:induction false} FlatSends<P>(kind: ContextKind, s: SendState, owed: nat, payload: P, inbox: seq<Response>)
    requires Active(s) && !(Ready(kind, s) && owed == 0)
    ensures Flat(kind, s, owed, payload, inbox)
         == After([Sent(MessageOf(kind, s, payload))], Await(kind, s, owed, payload, inbox))
  {
  }

  lemma {:induction false} AwaitReacts<P>(kind: ContextKind, s: SendState, owed: nat, payload: P, r: Response,
      inbox: seq<Response>)
    requires Active(s) && r != Incomplete && !(kind == Requesting && s == Opened && r == GotPayload(false))
    ensures var trigger := TriggerOf(kind, s, r);
            var to := Transition(kind, s, trigger);
            Await(kind, s, owed, payload, [r] + inbox)
              == After(Move(s, to), Flat(kind, to, Owed(kind, s, owed, trigger), payload, inbox))
  {
    assert ([r] + inbox)[1..] == inbox;
  }

  /** One answer that completes a message, from the sending of the frame on. */
  lemma {:induction false} FlatStep<P>(kind: ContextKind, s: SendState, owed: nat, payload: P, h: seq<Response>)
    requires Active(s) && !(Ready(kind, s) && owed == 0)
    requires h != [] && h[0] != Incomplete && !(kind == Requesting && s == Opened && h[0] == GotPayload(false))
    ensures var trigger := TriggerOf(kind, s, h[0]);
            var to := Transition(kind, s, trigger);
            var next := Flat(kind, to, Owed(kind, s, owed, trigger), payload, h[1..]);
            Flat(kind, s, owed, payload, h) == After([Sent(MessageOf(kind, s, payload))] + Move(s, to), next)
  {
    var trigger := TriggerOf(kind, s, h[0]);
    var to := Transition(kind, s, trigger);
    var next := Flat(kind, to, Owed(kind, s, owed, trigger), payload, h[1..]);
    AfterAfter([Sent(MessageOf(kind, s, payload))], Move(s, to), next);
  }

  lemma {:induction false} AwaitMismatch<P>(owed: nat, payload: P, inbox: seq<Response>)
    ensures Await(Requesting, Opened, owed, payload, [GotPayload(false)] + inbox) == Run(Mismatched, Opened, [], inbox)
  {
    assert ([GotPayload(false)] + inbox)[1..] == inbox;
  }

  lemma {:induction false} ClosingNeverSucceeds<P>(kind: ContextKind, s: SendState, owed: nat, payload: P,
      inbox: seq<Response>)
    requires s == Closing || s == Closed
    ensures Flat(kind, s, owed, payload, inbox).outcome in {Refused, Blocked}
  {
    if s == Closing { AwaitClosingFails(kind, owed, payload, inbox); }
  }

  lemma {:induction false} AwaitClosingFails<P>(kind: ContextKind, owed: nat, payload: P, inbox: seq<Response>)
    ensures Await(kind, Closing, owed, payload, inbox).outcome in {Refused, Blocked}
    decreases |inbox|
  {
    if inbox != [] && inbox[0] == Incomplete {
      AwaitClosingFails(kind, owed, payload, inbox[1..]);
    }
  }
}

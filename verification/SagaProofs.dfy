/** What sending promises, proved once for the flat automaton and therefore, through the contracts
    of the orchestrators, for every call. */
module SagaProofs {
  import opened Wrappers
  import opened Basics
  import opened SagaMachine
  import M = Messages

  // ----- discipline of the log -----

  function Rank(s: SendState): nat {
    match s
    case Created => 0
    case Opened => 1
    case Subscribed => 1
    case Closing => 2
    case Closed => 3
  }

  /** Starting in `s`, the log leads to `last`: states only ever rise, and every frame is the one
      the current state prescribes, so nothing is sent once the context is closed. */
  predicate Disciplined<P>(kind: ContextKind, s: SendState, log: seq<Event<P>>, last: SendState)
    decreases |log|
  {
    if log == [] then s == last
    else
      match log[0]
      case Sent(frame) =>
        Active(s) && frame.kind == FrameKind(kind, s) && Disciplined(kind, s, log[1..], last)
      case Entered(to) => Rank(to) > Rank(s) && Disciplined(kind, to, log[1..], last)
  }

  function FrameKind(kind: ContextKind, s: SendState): M.MessageType
    requires Active(s)
  {
    MessageOf(kind, s, ()).kind
  }

  lemma {:induction false} DisciplineComposes<P>(kind: ContextKind, s: SendState, a: seq<Event<P>>, mid: SendState,
      b: seq<Event<P>>, last: SendState)
    requires Disciplined(kind, s, a, mid) && Disciplined(kind, mid, b, last)
    ensures Disciplined(kind, s, a + b, last)
    decreases |a|
  {
    if a == [] {
      assert a + b == b;
    } else {
      assert (a + b)[1..] == a[1..] + b;
      var next := if a[0].Sent? then s else a[0].state;
      DisciplineComposes(kind, next, a[1..], mid, b, last);
    }
  }

  lemma {:induction false} MoveDisciplined<P>(kind: ContextKind, s: SendState, trigger: Trigger)
    requires Active(s) && Legal(kind, s)
    ensures var to := Transition(kind, s, trigger); Disciplined(kind, s, Move<P>(s, to), to)
  {
    var to := Transition(kind, s, trigger);
    var m := Move<P>(s, to);
    if s != to {
      assert m[1..] == [];
    }
  }

  /** Every run is disciplined, through all inner sends and the outer sagas' late Acks. */
  lemma {:induction false} RunDisciplined<P>(kind: ContextKind, s: SendState, owed: nat, payload: P,
      inbox: seq<Response>)
    requires Legal(kind, s)
    ensures var r := Flat(kind, s, owed, payload, inbox); Disciplined(kind, s, r.log, r.state)
    decreases |inbox|, 1
  {
    if Active(s) && !(Ready(kind, s) && owed == 0) {
      AwaitDisciplined(kind, s, owed, payload, inbox);
      var sent := [Sent(MessageOf(kind, s, payload))];
      assert sent[1..] == [];
      assert Disciplined(kind, s, sent, s);
      var r := Await(kind, s, owed, payload, inbox);
      DisciplineComposes(kind, s, sent, s, r.log, r.state);
    }
  }

  lemma {:induction false} AwaitDisciplined<P>(kind: ContextKind, s: SendState, owed: nat, payload: P,
      inbox: seq<Response>)
    requires Legal(kind, s) && Active(s)
    ensures var r := Await(kind, s, owed, payload, inbox); Disciplined(kind, s, r.log, r.state)
    decreases |inbox|, 0
  {
    if inbox == [] {
    } else if inbox[0] == Incomplete {
      AwaitDisciplined(kind, s, owed, payload, inbox[1..]);
    } else if kind == Requesting && s == Opened && inbox[0] == GotPayload(false) {
    } else {
      var trigger := TriggerOf(kind, s, inbox[0]);
      var to := Transition(kind, s, trigger);
      var owed' := Owed(kind, s, owed, trigger);
      RunDisciplined(kind, to, owed', payload, inbox[1..]);
      MoveDisciplined<P>(kind, s, trigger);
      var r := Flat(kind, to, owed', payload, inbox[1..]);
      DisciplineComposes(kind, s, Move(s, to), to, r.log, r.state);
    }
  }

  function Count<P>(log: seq<Event<P>>, kind: M.MessageType): nat {
    if log == [] then 0
    else (if log[0].Sent? && log[0].frame.kind == kind then 1 else 0) + Count(log[1..], kind)
  }

  lemma {:induction false} CountComposes<P>(a: seq<Event<P>>, b: seq<Event<P>>, kind: M.MessageType)
    ensures Count(a + b, kind) == Count(a, kind) + Count(b, kind)
  {
    if a == [] {
      assert a + b == b;
    } else {
      assert (a + b)[1..] == a[1..] + b;
      CountComposes(a[1..], b, kind);
    }
  }

  lemma {:induction false} CountOfMove<P>(s: SendState, to: SendState, kind: M.MessageType)
    ensures Count(Move<P>(s, to), kind) == 0
  {
  }

  /** A Close goes out at most once, and not at all if the run succeeds. */
  lemma {:induction false} OneCloseAtMost<P>(kind: ContextKind, s: SendState, owed: nat, payload: P,
      inbox: seq<Response>)
    requires Legal(kind, s)
    ensures var r := Flat(kind, s, owed, payload, inbox);
            && Count(r.log, M.Close) <= (if s == Closed then 0 else 1)
            && (r.outcome == Succeeded || r.outcome == Mismatched ==> Count(r.log, M.Close) == 0)
    decreases |inbox|, 1
  {
    if Active(s) && !(Ready(kind, s) && owed == 0) {
      AwaitOneClose(kind, s, owed, payload, inbox);
      var sent := [Sent(MessageOf(kind, s, payload))];
      assert sent[1..] == [];
      CountComposes(sent, Await(kind, s, owed, payload, inbox).log, M.Close);
    }
  }

  lemma {:induction false} AwaitOneClose<P>(kind: ContextKind, s: SendState, owed: nat, payload: P,
      inbox: seq<Response>)
    requires Legal(kind, s) && Active(s)
    ensures var r := Await(kind, s, owed, payload, inbox);
            && Count(r.log, M.Close) <= (if s == Closing then 0 else 1)
            && (r.outcome == Succeeded || r.outcome == Mismatched ==> Count(r.log, M.Close) == 0 && s != Closing)
    decreases |inbox|, 0
  {
    if inbox == [] {
    } else if inbox[0] == Incomplete {
      AwaitOneClose(kind, s, owed, payload, inbox[1..]);
    } else if kind == Requesting && s == Opened && inbox[0] == GotPayload(false) {
    } else {
      var trigger := TriggerOf(kind, s, inbox[0]);
      var to := Transition(kind, s, trigger);
      var owed' := Owed(kind, s, owed, trigger);
      OneCloseAtMost(kind, to, owed', payload, inbox[1..]);
      CountOfMove<P>(s, to, M.Close);
      CountComposes(Move(s, to), Flat(kind, to, owed', payload, inbox[1..]).log, M.Close);
    }
  }

  // ----- whole sessions -----

  /** Several calls on one context, one payload after the other, until one blocks. */
  function Session<P>(kind: ContextKind, s: SendState, payloads: seq<P>, inbox: seq<Response>): Run<P>
    decreases |payloads|
  {
    if payloads == [] then Run(Succeeded, s, [], inbox)
    else
      var r := Flat(kind, s, if kind == Subscribing then 0 else 1, payloads[0], inbox);
      if r.outcome == Blocked then r else After(r.log, Session(kind, r.state, payloads[1..], r.rest))
  }

  /** Over any number of calls the log stays disciplined and holds at most one Close. */
  lemma {:induction false} SessionDisciplined<P>(kind: ContextKind, s: SendState, payloads: seq<P>,
      inbox: seq<Response>)
    requires Legal(kind, s)
    ensures var r := Session(kind, s, payloads, inbox);
            && Legal(kind, r.state)
            && Disciplined(kind, s, r.log, r.state)
            && Count(r.log, M.Close) <= (if s == Closed then 0 else 1)
    decreases |payloads|
  {
    if payloads != [] {
      var owed := if kind == Subscribing then 0 else 1;
      var r := Flat(kind, s, owed, payloads[0], inbox);
      RunEnds(kind, s, owed, payloads[0], inbox);
      RunDisciplined(kind, s, owed, payloads[0], inbox);
      OneCloseAtMost(kind, s, owed, payloads[0], inbox);
      if r.outcome != Blocked {
        SessionDisciplined(kind, r.state, payloads[1..], r.rest);
        var next := Session(kind, r.state, payloads[1..], r.rest);
        DisciplineComposes(kind, s, r.log, r.state, next.log, next.state);
        CountComposes(r.log, next.log, M.Close);
      }
    }
  }

  // ----- chunks that complete no message -----

  function Heard(inbox: seq<Response>): seq<Response> {
    if inbox == [] then []
    else if inbox[0] == Incomplete then Heard(inbox[1..])
    else [inbox[0]] + Heard(inbox[1..])
  }

  /** Incomplete reads change nothing but the responses consumed. */
  lemma {:induction false} IncompleteInvisible<P>(kind: ContextKind, s: SendState, owed: nat, payload: P,
      inbox: seq<Response>)
    ensures var r := Flat(kind, s, owed, payload, inbox);
            Flat(kind, s, owed, payload, Heard(inbox)) == r.(rest := Heard(r.rest))
    decreases |inbox|, 1
  {
    if Active(s) && !(Ready(kind, s) && owed == 0) {
      AwaitIncompleteInvisible(kind, s, owed, payload, inbox);
    }
  }

  lemma {:induction false} AwaitIncompleteInvisible<P>(kind: ContextKind, s: SendState, owed: nat, payload: P,
      inbox: seq<Response>)
    requires Active(s)
    ensures var r := Await(kind, s, owed, payload, inbox);
            Await(kind, s, owed, payload, Heard(inbox)) == r.(rest := Heard(r.rest))
    decreases |inbox|, 0
  {
    if inbox == [] {
    } else if inbox[0] == Incomplete {
      AwaitIncompleteInvisible(kind, s, owed, payload, inbox[1..]);
    } else {
      var h := Heard(inbox);
      assert h[0] == inbox[0] && h[1..] == Heard(inbox[1..]);
      var trigger := TriggerOf(kind, s, inbox[0]);
      IncompleteInvisible(kind, Transition(kind, s, trigger), Owed(kind, s, owed, trigger), payload, inbox[1..]);
    }
  }

  // ----- which responses make a call succeed -----

  function LeadingNacks(h: seq<Response>): (k: nat)
    ensures k <= |h|
    ensures forall i :: 0 <= i < k ==> h[i] == GotNack
    ensures k < |h| ==> h[k] != GotNack
  {
    if h == [] || h[0] != GotNack then 0 else 1 + LeadingNacks(h[1..])
  }

  /** `n` Acks in a row from index `from` on. */
  predicate Acks(h: seq<Response>, from: nat, n: nat) {
    from + n <= |h| && forall i :: from <= i < from + n ==> h[i] == GotAck
  }

  function Repeat<P>(frame: Frame<P>, n: nat): seq<Event<P>> {
    if n == 0 then [] else [Sent(frame)] + Repeat(frame, n - 1)
  }

  lemma {:induction false} NothingHeard<P>(kind: ContextKind, s: SendState, owed: nat, payload: P)
    requires Active(s) && !(Ready(kind, s) && owed == 0)
    ensures Flat(kind, s, owed, payload, []) == Run(Blocked, s, [Sent(MessageOf(kind, s, payload))], [])
  {
  }

  lemma {:induction false} RepeatOne<P>(frame: Frame<P>)
    ensures Repeat(frame, 1) == [Sent(frame)]
  {
    assert Repeat(frame, 0) == [];
  }

  /** Answers that end the conversation. */
  predicate Fatal(kind: ContextKind, s: SendState, r: Response) {
    match s
    case Created => r != Incomplete && r != GotAck && r != GotNack
    case Opened =>
      && r != Incomplete
      && (r == GotAck ==> kind == Requesting)
      && (r == GotNack ==> kind != Pushing)
      && (r.GotPayload? ==> kind != Requesting)
    case _ => false
  }

  /** The whole rest of a run after a fatal answer: a peer's Close is obeyed silently, except by a
      subscriber; otherwise one Close goes out and any answer to it, or none, is the end. */
  lemma {:induction false} FatalHeard<P>(kind: ContextKind, s: SendState, owed: nat, payload: P, h: seq<Response>)
    requires Legal(kind, s) && (s == Opened ==> owed > 0)
    requires Incomplete !in h && h != [] && Fatal(kind, s, h[0])
    ensures var sent := Sent(MessageOf(kind, s, payload));
            var hangUp := [sent, Entered(Closing), Sent(Frame(M.Close, None))];
            Flat(kind, s, owed, payload, h)
              == if h[0] == GotClose && kind != Subscribing then Run(Refused, Closed, [sent, Entered(Closed)], h[1..])
                 else if |h| == 1 then Run(Blocked, Closing, hangUp, [])
                 else Run(Refused, Closed, hangUp + [Entered(Closed)], h[2..])
  {
    hide Flat;
    var trigger := TriggerOf(kind, s, h[0]);
    var to := Transition(kind, s, trigger);
    FlatStep(kind, s, owed, payload, h);
    var owed' := Owed(kind, s, owed, trigger);
    if to == Closed {
      FlatSettled(kind, Closed, owed', payload, h[1..]);
    } else {
      CloseExchange(kind, owed', payload, h[1..]);
    }
  }

  /** A closing context sends its Close and stops at the first answer. */
  lemma {:induction false} CloseExchange<P>(kind: ContextKind, owed: nat, payload: P, h: seq<Response>)
    requires Incomplete !in h
    ensures Flat(kind, Closing, owed, payload, h)
         == if h == [] then Run(Blocked, Closing, [Sent(Frame(M.Close, None))], [])
            else Run(Refused, Closed, [Sent(Frame(M.Close, None)), Entered(Closed)], h[1..])
  {
    if h != [] {
      hide Flat;
      FlatStep(kind, Closing, owed, payload, h);
      FlatSettled(kind, Closed, Owed(kind, Closing, owed, TriggerOf(kind, Closing, h[0])), payload, h[1..]);
    }
  }

  /** The run of a call that repeats its frame on every Nack: it succeeds exactly on Nack^k Ack,
      having sent the frame k + 1 times and then done `tail`. */
  ghost predicate RetriedRun<P>(r: Run<P>, frame: Frame<P>, tail: seq<Event<P>>, h: seq<Response>) {
    var k := LeadingNacks(h);
    && (r.outcome == Succeeded <==> Acks(h, k, 1))
    && (r.outcome == Succeeded ==> r.log == Repeat(frame, k + 1) + tail && r.rest == h[k + 1..])
  }

  lemma RetryAfterNack<P>(r: Run<P>, frame: Frame<P>, tail: seq<Event<P>>, h: seq<Response>)
    requires h != [] && h[0] == GotNack && RetriedRun(r, frame, tail, h[1..])
    ensures RetriedRun(After([Sent(frame)] + [], r), frame, tail, h)
  {
    var k := LeadingNacks(h[1..]);
    AcksTail(h, k, 1);
    assert k + 1 <= |h[1..]| ==> h[1..][k + 1..] == h[k + 2..];
    assert [Sent(frame)] + (Repeat(frame, k + 1) + tail) == Repeat(frame, k + 2) + tail;
  }

  lemma DoneAfterAck<P>(state: SendState, frame: Frame<P>, tail: seq<Event<P>>, h: seq<Response>)
    requires h != [] && h[0] == GotAck
    ensures RetriedRun(After([Sent(frame)] + tail, Run(Succeeded, state, [], h[1..])), frame, tail, h)
  {
    RepeatOne(frame);
    assert [Sent(frame)] + tail + [] == Repeat(frame, 1) + tail;
  }

  /** A push: one Push frame per Nack and one for the Ack. */
  lemma {:induction false} PushHeard<P>(payload: P, h: seq<Response>)
    requires Incomplete !in h
    ensures RetriedRun(Flat(Pushing, Opened, 1, payload, h), Frame(M.Push, Some(payload)), [], h)
    decreases |h|
  {
    hide Flat;
    if h == [] {
      NothingHeard(Pushing, Opened, 1, payload);
    } else {
      FlatStep(Pushing, Opened, 1, payload, h);
      if h[0] == GotNack {
        PushHeard(payload, h[1..]);
        RetryAfterNack(Flat(Pushing, Opened, 1, payload, h[1..]), Frame(M.Push, Some(payload)), [], h);
      } else if h[0] == GotAck {
        FlatSettled(Pushing, Opened, 0, payload, h[1..]);
        DoneAfterAck(Opened, Frame(M.Push, Some(payload)), [], h);
      } else {
        var to := Transition(Pushing, Opened, TriggerOf(Pushing, Opened, h[0]));
        ClosingNeverSucceeds(Pushing, to, 1, payload, h[1..]);
      }
    }
  }

  /** A subscription: one Subscribe frame per Nack and one for the Ack. */
  lemma {:induction false} SubscribeHeard<P>(payload: P, h: seq<Response>)
    requires Incomplete !in h
    ensures RetriedRun(Flat(Subscribing, Created, 0, payload, h), Frame(M.Subscribe, Some(payload)),
        [Entered(Subscribed)], h)
    decreases |h|
  {
    hide Flat;
    if h == [] {
      NothingHeard(Subscribing, Created, 0, payload);
    } else {
      FlatStep(Subscribing, Created, 0, payload, h);
      if h[0] == GotNack {
        SubscribeHeard(payload, h[1..]);
        RetryAfterNack(Flat(Subscribing, Created, 0, payload, h[1..]), Frame(M.Subscribe, Some(payload)),
            [Entered(Subscribed)], h);
      } else if h[0] == GotAck {
        FlatSettled(Subscribing, Subscribed, 0, payload, h[1..]);
        DoneAfterAck(Subscribed, Frame(M.Subscribe, Some(payload)), [Entered(Subscribed)], h);
      } else {
        ClosingNeverSucceeds(Subscribing, Closing, 0, payload, h[1..]);
      }
    }
  }

  /** A request succeeds exactly when the first answer is a payload of the expected type. */
  lemma {:induction false} RequestHeard<P>(payload: P, h: seq<Response>)
    requires Incomplete !in h
    ensures var r := Flat(Requesting, Opened, 1, payload, h);
            && (r.outcome == Succeeded <==> h != [] && h[0] == GotPayload(true))
            && (r.outcome == Succeeded ==> r.log == [Sent(Frame(M.Send, Some(payload)))] && r.rest == h[1..])
            && (h != [] && h[0] == GotPayload(false) ==>
                  r == Run(Mismatched, Opened, [Sent(Frame(M.Send, Some(payload)))], h[1..]))
  {
    hide Flat, Await;
    if h == [] {
      NothingHeard(Requesting, Opened, 1, payload);
    } else if h[0] == GotPayload(false) {
      FlatSends(Requesting, Opened, 1, payload, h);
      assert h == [h[0]] + h[1..];
      AwaitMismatch(1, payload, h[1..]);
    } else {
      FlatStep(Requesting, Opened, 1, payload, h);
      if h[0] == GotPayload(true) {
        FlatSettled(Requesting, Opened, 0, payload, h[1..]);
      } else {
        var to := Transition(Requesting, Opened, TriggerOf(Requesting, Opened, h[0]));
        ClosingNeverSucceeds(Requesting, to, 1, payload, h[1..]);
      }
    }
  }

  /** An open publisher that owes `owed` messages needs exactly that many Acks. */
  lemma {:induction false} OwedHeard<P>(owed: nat, payload: P, h: seq<Response>)
    requires Incomplete !in h
    ensures var r := Flat(Publishing, Opened, owed, payload, h);
            && (r.outcome == Succeeded <==> Acks(h, 0, owed))
            && (r.outcome == Succeeded ==>
                r.log == Repeat(Frame(M.Publish, Some(payload)), owed) && r.rest == h[owed..])
    decreases |h|
  {
    hide Flat;
    if owed == 0 {
      FlatSettled(Publishing, Opened, 0, payload, h);
    } else if h == [] {
      NothingHeard(Publishing, Opened, owed, payload);
    } else {
      FlatStep(Publishing, Opened, owed, payload, h);
      if h[0] == GotAck {
        OwedHeard(owed - 1, payload, h[1..]);
        AcksTail(h, 0, owed);
        assert owed <= |h| ==> h[1..][owed - 1..] == h[owed..];
      } else {
        var to := Transition(Publishing, Opened, TriggerOf(Publishing, Opened, h[0]));
        ClosingNeverSucceeds(Publishing, to, owed, payload, h[1..]);
      }
    }
  }

  lemma AcksTail(h: seq<Response>, from: nat, n: nat)
    requires h != []
    ensures n > 0 && h[0] == GotAck ==> (Acks(h, 0, n) <==> Acks(h[1..], 0, n - 1))
    ensures Acks(h, from + 1, n) <==> Acks(h[1..], from, n)
  {
    if Acks(h[1..], from, n) {
      forall i | from + 1 <= i < from + 1 + n ensures h[i] == GotAck { assert h[i] == h[1..][i - 1]; }
    }
    if n > 0 && h[0] == GotAck && Acks(h[1..], 0, n - 1) {
      forall i | 0 <= i < n ensures h[i] == GotAck { if i > 0 { assert h[i] == h[1..][i - 1]; } }
    }
  }

  /** The log of a publish call that starts with a handshake refused `k` times. */
  function PublishLog<P>(payload: P, k: nat, publications: nat): seq<Event<P>> {
    Repeat(Frame(M.HandShake, None), k + 1) + [Entered(Opened)] + Repeat(Frame(M.Publish, Some(payload)), publications)
  }

  lemma {:induction false} PublishLogGrows<P>(payload: P, k: nat, n: nat)
    ensures [Sent(Frame(M.HandShake, None))] + PublishLog(payload, k, n) == PublishLog(payload, k + 1, n)
    ensures [Sent(Frame(M.HandShake, None))] + [Entered(Opened)] + Repeat(Frame(M.Publish, Some(payload)), n)
         == PublishLog(payload, 0, n)
  {
    RepeatOne<P>(Frame(M.HandShake, None));
  }

  /** The run of a publish call whose leading `k` handshakes are refused. */
  ghost predicate PublishRun<P>(r: Run<P>, owed: nat, payload: P, h: seq<Response>) {
    var k := LeadingNacks(h);
    && (r.outcome == Succeeded <==> Acks(h, k, 1 + owed + k))
    && (r.outcome == Succeeded ==> r.log == PublishLog(payload, k, owed + k) && r.rest == h[2 * k + 1 + owed..])
  }

  lemma PublishAfterNack<P>(r: Run<P>, owed: nat, payload: P, h: seq<Response>)
    requires h != [] && h[0] == GotNack && PublishRun(r, owed + 1, payload, h[1..])
    ensures PublishRun(After([Sent(Frame(M.HandShake, None))], r), owed, payload, h)
  {
    hide PublishLog;
    var k := LeadingNacks(h[1..]);
    AcksTail(h, k, 2 + owed + k);
    PublishLogGrows(payload, k, owed + 1 + k);
    DropTail(h, 2 * k + 2 + owed);
  }

  lemma DropTail(h: seq<Response>, n: nat)
    requires h != []
    ensures n <= |h[1..]| ==> h[1..][n..] == h[n + 1..]
  {
  }

  lemma {:induction false} PublishAfterAck<P>(owed: nat, payload: P, h: seq<Response>)
    requires h != [] && h[0] == GotAck && Incomplete !in h
    ensures PublishRun(After([Sent(Frame(M.HandShake, None))] + [Entered(Opened)],
                             Flat(Publishing, Opened, owed, payload, h[1..])),
              owed, payload, h)
  {
    hide Flat;
    OwedHeard(owed, payload, h[1..]);
    AcksTail(h, 0, 1 + owed);
    PublishLogGrows(payload, 0, owed);
    hide PublishLog;
    assert owed <= |h[1..]| ==> h[1..][owed..] == h[1 + owed..];
  }

  /** A publish on a fresh context that owes `owed` messages: every refused handshake adds one
      more publication of the payload. */
  lemma {:induction false} CreatedHeard<P>(owed: nat, payload: P, h: seq<Response>)
    requires Incomplete !in h
    ensures PublishRun(Flat(Publishing, Created, owed, payload, h), owed, payload, h)
    decreases |h|
  {
    hide Flat, PublishLog;
    if h == [] {
      NothingHeard(Publishing, Created, owed, payload);
    } else {
      FlatStep(Publishing, Created, owed, payload, h);
      if h[0] == GotNack {
        CreatedHeard(owed + 1, payload, h[1..]);
        PublishAfterNack(Flat(Publishing, Created, owed + 1, payload, h[1..]), owed, payload, h);
        assert [Sent(Frame(M.HandShake, None))] + [] == [Sent(Frame(M.HandShake, Option<P>.None))];
      } else if h[0] == GotAck {
        PublishAfterAck(owed, payload, h);
      } else {
        var to := Transition(Publishing, Created, TriggerOf(Publishing, Created, h[0]));
        ClosingNeverSucceeds(Publishing, to, owed, payload, h[1..]);
      }
    }
  }

  // ----- how often a publish call publishes, whatever its outcome -----

  function LeadingAcks(h: seq<Response>): (k: nat)
    ensures k <= |h|
    ensures forall i :: 0 <= i < k ==> h[i] == GotAck
    ensures k < |h| ==> h[k] != GotAck
  {
    if h == [] || h[0] != GotAck then 0 else 1 + LeadingAcks(h[1..])
  }

  /** An open publisher publishes once per Ack and once more if it still owes. */
  function OpenPublications(owed: nat, h: seq<Response>): nat {
    if owed <= LeadingAcks(h) then owed else LeadingAcks(h) + 1
  }

  /** A fresh one first needs its handshake accepted; each refusal makes it owe one more. */
  function Publications(owed: nat, h: seq<Response>): nat {
    var k := LeadingNacks(h);
    if k < |h| && h[k] == GotAck then OpenPublications(owed + k, h[k + 1..]) else 0
  }

  lemma {:induction false} CountCons<P>(e: Event<P>, log: seq<Event<P>>, kind: M.MessageType)
    ensures Count([e] + log, kind) == One(e.Sent? && e.frame.kind == kind) + Count(log, kind)
  {
    assert ([e] + log)[1..] == log;
  }

  lemma {:induction false} CountOne<P>(e: Event<P>, kind: M.MessageType)
    ensures Count([e], kind) == One(e.Sent? && e.frame.kind == kind)
  {
    CountCons(e, [], kind);
    assert [e] + [] == [e];
  }

  /** After a fatal answer nothing is published any more. */
  lemma {:induction false} FatalCount<P>(s: SendState, owed: nat, payload: P, h: seq<Response>)
    requires s == Created || (s == Opened && owed > 0)
    requires Incomplete !in h && h != [] && Fatal(Publishing, s, h[0])
    ensures Count(Flat(Publishing, s, owed, payload, h).log, M.Publish) == One(s == Opened)
  {
    hide Flat, Count;
    FatalHeard(Publishing, s, owed, payload, h);
    var sent := Sent(MessageOf(Publishing, s, payload));
    var close := Sent(Frame(M.Close, Option<P>.None));
    CountOne<P>(Entered(Closed), M.Publish);
    CountCons(sent, [Entered(Closed)], M.Publish);
    assert [sent] + [Entered(Closed)] == [sent, Entered(Closed)];
    CountOne(close, M.Publish);
    CountCons(Entered(Closing), [close], M.Publish);
    CountCons(sent, [Entered(Closing)] + [close], M.Publish);
    assert [sent] + ([Entered(Closing)] + [close]) == [sent, Entered(Closing), close];
    CountComposes([sent, Entered(Closing), close], [Entered(Closed)], M.Publish);
  }

  lemma {:induction false} OpenCount<P>(owed: nat, payload: P, h: seq<Response>)
    requires Incomplete !in h
    ensures Count(Flat(Publishing, Opened, owed, payload, h).log, M.Publish) == OpenPublications(owed, h)
    decreases |h|
  {
    hide Flat;
    var sent := Sent(MessageOf(Publishing, Opened, payload));
    if owed == 0 {
      FlatSettled(Publishing, Opened, 0, payload, h);
    } else if h == [] {
      NothingHeard(Publishing, Opened, owed, payload);
      CountOne(sent, M.Publish);
    } else if h[0] == GotAck {
      FlatStep(Publishing, Opened, owed, payload, h);
      OpenCount(owed - 1, payload, h[1..]);
      assert [sent] + [] == [sent];
      CountCons(sent, Flat(Publishing, Opened, owed - 1, payload, h[1..]).log, M.Publish);
    } else {
      FatalCount(Opened, owed, payload, h);
    }
  }

  lemma {:induction false} CreatedCount<P>(owed: nat, payload: P, h: seq<Response>)
    requires Incomplete !in h
    ensures Count(Flat(Publishing, Created, owed, payload, h).log, M.Publish) == Publications(owed, h)
    decreases |h|
  {
    hide Flat, Count;
    var sent := Sent(MessageOf(Publishing, Created, payload));
    CountOne(sent, M.Publish);
    if h == [] {
      NothingHeard(Publishing, Created, owed, payload);
    } else if h[0] == GotNack {
      FlatStep(Publishing, Created, owed, payload, h);
      CreatedCount(owed + 1, payload, h[1..]);
      assert [sent] + [] == [sent];
      CountComposes([sent], Flat(Publishing, Created, owed + 1, payload, h[1..]).log, M.Publish);
      NacksTail(owed, h);
    } else if h[0] == GotAck {
      FlatStep(Publishing, Created, owed, payload, h);
      OpenCount(owed, payload, h[1..]);
      CountOne<P>(Entered(Opened), M.Publish);
      CountComposes([sent], [Entered(Opened)], M.Publish);
      CountComposes([sent] + [Entered(Opened)], Flat(Publishing, Opened, owed, payload, h[1..]).log, M.Publish);
    } else {
      FatalCount(Created, owed, payload, h);
    }
  }

  lemma NacksTail(owed: nat, h: seq<Response>)
    requires h != [] && h[0] == GotNack
    ensures Publications(owed, h) == Publications(owed + 1, h[1..])
  {
    var k := LeadingNacks(h[1..]);
    if k < |h[1..]| { assert h[1..][k + 1..] == h[k + 2..]; }
  }

  lemma {:induction false} EnoughAcks(owed: nat, h: seq<Response>)
    requires Acks(h, LeadingNacks(h), 1 + owed + LeadingNacks(h))
    ensures Publications(owed, h) == owed + LeadingNacks(h)
  {
    var k := LeadingNacks(h);
    var rest := h[k + 1..];
    forall i | 0 <= i < owed + k ensures rest[i] == GotAck { assert rest[i] == h[k + 1 + i]; }
  }

  // ----- the same for every list of responses, read in any chunks -----

  /** A run with the incomplete reads left out of what is not consumed yet. */
  function HeardRun<P>(r: Run<P>): Run<P> {
    r.(rest := Heard(r.rest))
  }

  lemma {:induction false} HeardIsComplete(inbox: seq<Response>)
    ensures Incomplete !in Heard(inbox)
  {
    if inbox != [] { HeardIsComplete(inbox[1..]); }
  }

  /** The whole rest of a run whose next complete answer ends the conversation: a peer's Close is
      obeyed silently, except by a subscriber; otherwise one Close goes out and any answer to it,
      or none, is the end. */
  lemma {:induction false} FatalAnswer<P>(kind: ContextKind, s: SendState, owed: nat, payload: P, inbox: seq<Response>)
    requires Legal(kind, s) && (s == Opened ==> owed > 0)
    requires Heard(inbox) != [] && Fatal(kind, s, Heard(inbox)[0])
    ensures var h := Heard(inbox);
            var sent := Sent(MessageOf(kind, s, payload));
            var hangUp := [sent, Entered(Closing), Sent(Frame(M.Close, None))];
            HeardRun(Flat(kind, s, owed, payload, inbox))
              == if h[0] == GotClose && kind != Subscribing then Run(Refused, Closed, [sent, Entered(Closed)], h[1..])
                 else if |h| == 1 then Run(Blocked, Closing, hangUp, [])
                 else Run(Refused, Closed, hangUp + [Entered(Closed)], h[2..])
  {
    HeardIsComplete(inbox);
    IncompleteInvisible(kind, s, owed, payload, inbox);
    FatalHeard(kind, s, owed, payload, Heard(inbox));
  }

  /** A push: one Push frame per Nack and one for the Ack. */
  lemma {:induction false} PushExactly<P>(payload: P, inbox: seq<Response>)
    ensures RetriedRun(HeardRun(Flat(Pushing, Opened, 1, payload, inbox)),
                       Frame(M.Push, Some(payload)), [], Heard(inbox))
  {
    HeardIsComplete(inbox);
    IncompleteInvisible(Pushing, Opened, 1, payload, inbox);
    PushHeard(payload, Heard(inbox));
  }

  /** A subscription: one Subscribe frame per Nack and one for the Ack. */
  lemma {:induction false} SubscribeExactly<P>(payload: P, inbox: seq<Response>)
    ensures RetriedRun(HeardRun(Flat(Subscribing, Created, 0, payload, inbox)),
                       Frame(M.Subscribe, Some(payload)), [Entered(Subscribed)], Heard(inbox))
  {
    HeardIsComplete(inbox);
    IncompleteInvisible(Subscribing, Created, 0, payload, inbox);
    SubscribeHeard(payload, Heard(inbox));
  }

  /** A request succeeds exactly when the first complete answer is a payload of the expected type; a
      payload of another type fails the call and leaves the context open. */
  lemma {:induction false} RequestExactly<P>(payload: P, inbox: seq<Response>)
    ensures var r := Flat(Requesting, Opened, 1, payload, inbox); var h := Heard(inbox);
            && (r.outcome == Succeeded <==> h != [] && h[0] == GotPayload(true))
            && (r.outcome == Succeeded ==> r.log == [Sent(Frame(M.Send, Some(payload)))] && Heard(r.rest) == h[1..])
            && (h != [] && h[0] == GotPayload(false) ==>
                  HeardRun(r) == Run(Mismatched, Opened, [Sent(Frame(M.Send, Some(payload)))], h[1..]))
  {
    HeardIsComplete(inbox);
    IncompleteInvisible(Requesting, Opened, 1, payload, inbox);
    RequestHeard(payload, Heard(inbox));
  }

  /** An open publisher that owes `owed` messages needs exactly that many Acks. */
  lemma {:induction false} PublishOwed<P>(owed: nat, payload: P, inbox: seq<Response>)
    ensures var r := Flat(Publishing, Opened, owed, payload, inbox); var h := Heard(inbox);
            && (r.outcome == Succeeded <==> Acks(h, 0, owed))
            && (r.outcome == Succeeded ==>
                  r.log == Repeat(Frame(M.Publish, Some(payload)), owed) && Heard(r.rest) == h[owed..])
  {
    HeardIsComplete(inbox);
    IncompleteInvisible(Publishing, Opened, owed, payload, inbox);
    OwedHeard(owed, payload, Heard(inbox));
  }

  /** A publish on a fresh context that owes `owed` messages: every refused handshake adds one
      more publication of the payload. */
  lemma {:induction false} PublishFromCreated<P>(owed: nat, payload: P, inbox: seq<Response>)
    ensures PublishRun(HeardRun(Flat(Publishing, Created, owed, payload, inbox)), owed, payload, Heard(inbox))
  {
    HeardIsComplete(inbox);
    IncompleteInvisible(Publishing, Created, owed, payload, inbox);
    CreatedHeard(owed, payload, Heard(inbox));
  }

  /** How often one publish call sends its payload, whatever its outcome; never more than once per
      refused handshake and once more, and exactly that often when it succeeds. So a successful
      call publishes once if and only if its first handshake was not refused. */
  lemma {:induction false} PublishedOnceIff<P>(payload: P, inbox: seq<Response>)
    ensures var r := Flat(Publishing, Created, 1, payload, inbox); var h := Heard(inbox);
            && Count(r.log, M.Publish) == Publications(1, h) <= 1 + LeadingNacks(h)
            && (r.outcome == Succeeded ==>
                  && Count(r.log, M.Publish) == 1 + LeadingNacks(h)
                  && (Count(r.log, M.Publish) == 1 <==> h != [] && h[0] != GotNack))
  {
    hide Flat, Count;
    var h := Heard(inbox);
    HeardIsComplete(inbox);
    IncompleteInvisible(Publishing, Created, 1, payload, inbox);
    CreatedCount(1, payload, h);
    CreatedHeard(1, payload, h);
    if Acks(h, LeadingNacks(h), 2 + LeadingNacks(h)) { EnoughAcks(1, h); }
  }

  /** A peer that refuses the first handshake receives the payload twice. */
  lemma PublishedTwiceExample<P>(payload: P)
    ensures var r := Flat(Publishing, Created, 1, payload, [GotNack, GotAck, GotAck, GotAck]);
            r.outcome == Succeeded && Count(r.log, M.Publish) == 2
  {
    hide Flat;
    var h := [GotNack, GotAck, GotAck, GotAck];
    assert h[1..][0] == GotAck;
    assert LeadingNacks(h[1..]) == 0;
    assert LeadingNacks(h) == 1;
    CreatedHeard(1, payload, h);
    CreatedCount(1, payload, h);
    EnoughAcks(1, h);
  }

  /** A payload keeps an open request context open and makes every other context hang up, even where
      the orchestrators report payloads as internal errors instead. */
  lemma PayloadTriggers(kind: ContextKind, s: SendState)
    requires Legal(kind, s) && Active(s)
    ensures Transition(kind, s, OnPayloadResponse)
         == if s == Closing then Closed else if kind == Requesting then Opened else Closing
    ensures TriggerOf(kind, s, GotPayload(true)) == OnPayloadResponse <==> kind == Requesting && s == Opened
  {
  }

  /** The frame every run starts with. */
  lemma {:induction false} FirstFrame<P>(kind: ContextKind, s: SendState, owed: nat, payload: P, inbox: seq<Response>)
    requires Active(s) && !(Ready(kind, s) && owed == 0)
    ensures var log := Flat(kind, s, owed, payload, inbox).log;
            log != [] && log[0] == Sent(
              if s == Closing then Frame(M.Close, None)
              else if s == Created && kind != Subscribing then Frame(M.HandShake, None)
              else if s == Created then Frame(M.Subscribe, Some(payload))
              else if kind == Publishing then Frame(M.Publish, Some(payload))
              else if kind == Pushing then Frame(M.Push, Some(payload))
              else Frame(M.Send, Some(payload)))
  {
    FlatSends(kind, s, owed, payload, inbox);
  }
}

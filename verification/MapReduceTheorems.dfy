/** What holds of every run of the map-reduce protocol, in whatever order messages arrive. */
module MapReduceTheorems {
  import opened Wrappers
  import opened Basics
  import Lloyd
  import LloydSettles
  import opened MapReduce
  import opened MapReduceRuns
  import opened MapReduceProofs

  // ----- how long a run lasts -----

  /** The first `k >= from` at which the run stops, or `bound`. */
  function FirstStop(h: Host, from: nat, bound: nat): (k: nat)
    requires h.groups != [] && 1 <= from <= bound
    ensures from <= k <= bound && (k < bound ==> Stops(h, k))
    ensures forall i :: from <= i < k ==> !Stops(h, i)
    decreases bound - from
  {
    if from == bound || Stops(h, from) then from else FirstStop(h, from + 1, bound)
  }

  function Max(a: int, b: int): int {
    if a < b then b else a
  }

  function Horizon(h: Host): (k: nat)
    ensures k >= 1
  {
    if h.nbOfIteration >= 0 then Max(1, h.nbOfIteration - 1)
    else LloydSettles.Pow(|h.groups|, |h.data|) + 1
  }

  /** The number of iterations of a complete run. */
  function Rounds(h: Host): (k: nat)
    requires h.groups != []
    ensures 1 <= k <= Horizon(h)
  {
    FirstStop(h, 1, Horizon(h))
  }

  lemma FixedPointIsCalm(h: Host, k: nat)
    requires h.groups != [] && At(h, k + 1) == At(h, k)
    ensures Calm(h, k)
  {
    hide At;
  }

  /** Without a fixed number of iterations the run still stops, after at most m^n + 1 of them for
      m groups and n spaces. */
  lemma StopsWithin(h: Host) returns (k: nat)
    requires h.groups != [] && h.nbOfIteration < 0
    ensures 1 <= k <= Horizon(h) && Stops(h, k)
  {
    hide Lloyd.Iterate, LloydSettles.Pow, Calm;
    var i := LloydSettles.FixedPointReached(Values(h.data), Centres(h.groups));
    k := i + 1;
    FixedPointIsCalm(h, i);
  }

  lemma RoundsStops(h: Host)
    requires h.groups != []
    ensures Stops(h, Rounds(h)) && forall i :: 1 <= i < Rounds(h) ==> !Stops(h, i)
    ensures h.nbOfIteration >= 0 ==> Rounds(h) == Max(1, h.nbOfIteration - 1)
  {
    hide LloydSettles.Pow, Calm;
    if h.nbOfIteration < 0 {
      var k := StopsWithin(h);
    }
  }

  // ----- one delivery -----

  function Shuffles(k: nat, phase: Phase): nat {
    k + (if phase.Reducing? then 1 else 0)
  }

  function Inputs(k: nat, phase: Phase): nat {
    k + (if phase.Inputting? || phase.Done? then 0 else 1)
  }

  /** The bookkeeping of one delivery: nothing throws, one step is used up, and the number of
      Shuffle and Input messages handled is tied to the iteration. */
  ghost predicate Follows(h: Host, w: World, m: Message, k: nat, phase: Phase, k': nat, phase': Phase)
    requires WellFormed(h) && m in w.pending
  {
    && Handle(h, w.store, m).Some?
    && Inv(h, Deliver(h, w, m), k', phase')
    && Steps(h, k', phase') == Steps(h, k, phase) + 1
    && Shuffles(k', phase') == Shuffles(k, phase) + One(m.Shuffle?)
    && Inputs(k', phase') == Inputs(k, phase) + One(m.Input?)
  }

  lemma MapPhaseStep(h: Host, w: World, k: nat, stages: seq<Stage>, m: Message) returns (k': nat, phase': Phase)
    requires WellFormed(h) && Inv(h, w, k, Mapping(stages)) && m in w.pending
    ensures Follows(h, w, m, k, Mapping(stages), k', phase')
  {
    hide Union, Holds, Stops, WellFormed, AllCollected, Ranks, PerIteration, ChunkIds, OnMapFinished, OnMap, Deliver;
    var j := UnionMember(MapParts(h, stages), m);
    k' := k;
    if stages[j] == Waiting {
      phase' := Mapping(stages[j := Reported]);
      MapStep(h, w, k, stages, j, m);
      RanksUpdate(stages, j, Reported);
    } else {
      assert stages[j] == Reported;
      var after := stages[j := Collected];
      phase' := if AllCollected(after) then Shuffling else Mapping(after);
      MapFinishedStep(h, w, k, stages, j);
      RanksUpdate(stages, j, Collected);
      if AllCollected(after) { RanksComplete(after); }
    }
  }

  lemma {:induction false} RanksComplete(stages: seq<Stage>)
    requires AllCollected(stages)
    ensures Ranks(stages) == 2 * |stages|
  {
    RanksUniform(stages, Collected);
  }

  lemma ReducePhaseStep(h: Host, w: World, k: nat, stages: seq<Stage>, m: Message) returns (k': nat, phase': Phase)
    requires WellFormed(h) && Inv(h, w, k, Reducing(stages)) && m in w.pending
    ensures Follows(h, w, m, k, Reducing(stages), k', phase')
  {
    hide Union, Holds, Stops, WellFormed, AllCollected, Ranks, Delta, OnReduce, OnReduceFinished, Deliver;
    var g := UnionMember(ReduceParts(h, k, stages), m);
    if stages[g] == Waiting {
      k', phase' := k, Reducing(stages[g := Reported]);
      ReduceStep(h, w, k, stages, g);
      RanksUpdate(stages, g, Reported);
    } else {
      assert stages[g] == Reported;
      var after := stages[g := Collected];
      var next := AfterResult(h, k, after);
      k', phase' := next.0, next.1;
      ReduceFinishedStep(h, w, k, stages, g);
      RanksUpdate(stages, g, Collected);
      if AllCollected(after) {
        RanksComplete(after);
        NextIteration(k, PerIteration(h));
      }
    }
  }

  lemma NextIteration(k: nat, per: nat)
    ensures (k + 1) * per == k * per + per
  {
  }

  lemma AnyStep(h: Host, w: World, k: nat, phase: Phase, m: Message) returns (k': nat, phase': Phase)
    requires WellFormed(h) && Inv(h, w, k, phase) && m in w.pending
    ensures Follows(h, w, m, k, phase, k', phase')
  {
    hide Union, Holds, Onward, WellFormed, Ranks, PerIteration, OnInput, Deliver;
    match phase
    case Inputting =>
      k', phase' := k, Mapping(seq(|h.mapTopics|, _ => Waiting));
      InputStep(h, w, k);
      RanksUniform(phase'.stages, Waiting);
    case Mapping(stages) =>
      k', phase' := MapPhaseStep(h, w, k, stages, m);
    case Shuffling =>
      k', phase' := k, Reducing(seq(|h.groups|, _ => Waiting));
      ShuffleStep(h, w, k);
      RanksUniform(phase'.stages, Waiting);
    case Reducing(stages) =>
      k', phase' := ReducePhaseStep(h, w, k, stages, m);
    case Done =>
      assert false;
  }

  // ----- every run -----

  lemma StartHolds(h: Host)
    requires WellFormed(h)
    ensures Inv(h, Start(), 0, Inputting) && Steps(h, 0, Inputting) == 0
  {
    hide At;
  }

  /** After any deliveries in any order the world is the one the sequential algorithm determines. */
  lemma {:induction false} RunInv(h: Host, ms: seq<Message>) returns (k: nat, phase: Phase)
    requires WellFormed(h) && Play(h, ms).Some?
    ensures Inv(h, Play(h, ms).value, k, phase) && Steps(h, k, phase) == |ms|
    ensures multiset(ms)[Shuffle] == Shuffles(k, phase) && multiset(ms)[Input] == Inputs(k, phase)
  {
    hide Inv, Deliver, Handle, WellFormed, Steps;
    if ms == [] {
      StartHolds(h);
      k, phase := 0, Inputting;
    } else {
      var n := |ms| - 1;
      var k0, phase0 := RunInv(h, ms[..n]);
      k, phase := AnyStep(h, Play(h, ms[..n]).value, k0, phase0, ms[n]);
      assert ms == ms[..n] + [ms[n]];
      assert multiset(ms) == multiset(ms[..n]) + multiset{ms[n]};
    }
  }

  lemma {:induction false} PartsNonempty(parts: seq<multiset<Message>>, j: nat)
    requires j < |parts| && parts[j] != multiset{}
    ensures Union(parts) != multiset{}
  {
    UnionUpdate(parts, j, parts[j]);
    var m :| m in parts[j];
    assert m in Union(parts);
  }

  /** Messages are in flight until the run is done. */
  lemma QuietIsDone(h: Host, w: World, k: nat, phase: Phase)
    requires WellFormed(h) && Inv(h, w, k, phase)
    ensures w.pending == multiset{} <==> phase.Done?
  {
    hide Union, Holds, Onward, ChunkIds, Delta, Distinct, Ids;
    match phase
    case Mapping(stages) =>
      var j :| 0 <= j < |stages| && stages[j] != Collected;
      PartsNonempty(MapParts(h, stages), j);
    case Reducing(stages) =>
      var g :| 0 <= g < |stages| && stages[g] != Collected;
      PartsNonempty(ReduceParts(h, k, stages), g);
    case Inputting =>
      assert Input in w.pending;
    case Shuffling =>
      assert Shuffle in w.pending;
    case Done =>
  }

  lemma DoneAtRounds(h: Host, k: nat, phase: Phase)
    requires h.groups != [] && Onward(h, k, phase)
    ensures if phase.Done? then k == Rounds(h) else k < Rounds(h)
  {
    hide Stops;
    RoundsStops(h);
  }

  lemma StepsBelow(h: Host, k: nat, phase: Phase)
    requires h.groups != [] && Sized(h, phase) && Onward(h, k, phase)
    ensures Steps(h, k, phase) <= Rounds(h) * PerIteration(h)
    ensures Steps(h, k, phase) == Rounds(h) * PerIteration(h) <==> phase.Done?
  {
    hide Stops, Ranks;
    DoneAtRounds(h, k, phase);
    NextIteration(k, PerIteration(h));
    if !phase.Done? { MulMonotone(k + 1, Rounds(h), PerIteration(h)); }
    match phase
    case Mapping(stages) => RanksBelow(stages);
    case Reducing(stages) => RanksBelow(stages);
    case _ =>
  }

  lemma {:induction false} RanksBelow(stages: seq<Stage>)
    ensures Ranks(stages) <= 2 * |stages|
    ensures Ranks(stages) == 2 * |stages| ==> AllCollected(stages)
  {
    if stages != [] { RanksBelow(stages[..|stages| - 1]); }
  }

  /** Every maximal run has the same length and ends with the same groups: those of the sequential
      algorithm after `Rounds` iterations. No run is longer, none gets stuck before. */
  lemma {:induction false} EveryRunIsSequential(h: Host, ms: seq<Message>)
    requires WellFormed(h) && Play(h, ms).Some?
    ensures |ms| <= Rounds(h) * PerIteration(h)
    ensures var w := Play(h, ms).value;
      && (w.pending == multiset{} <==> |ms| == Rounds(h) * PerIteration(h))
      && (w.pending == multiset{} ==>
            && GroupsAt(h, w.store.groups, At(h, Rounds(h)))
            && multiset(ms)[Shuffle] == multiset(ms)[Input] == Rounds(h))
  {
    hide Steps, At, PerIteration, Stops, Play, Rounds, GroupsAt, Distinct, Ids;
    var k, phase := RunInv(h, ms);
    QuietIsDone(h, Play(h, ms).value, k, phase);
    StepsBelow(h, k, phase);
    DoneAtRounds(h, k, phase);
  }

  /** With `NbOfIteration >= 0` the run makes exactly max(1, N - 1) iterations. */
  lemma {:induction false} FixedIterationCount(h: Host, ms: seq<Message>)
    requires WellFormed(h) && Play(h, ms).Some? && Play(h, ms).value.pending == multiset{}
    requires h.nbOfIteration >= 0
    ensures Play(h, ms).value.store.iteration == Max(1, h.nbOfIteration - 1) + 1
    ensures GroupsAt(h, Play(h, ms).value.store.groups, At(h, Max(1, h.nbOfIteration - 1)))
  {
    hide Steps, At, PerIteration, Stops, Play, Rounds, GroupsAt, Distinct, Ids;
    var k, phase := RunInv(h, ms);
    QuietIsDone(h, Play(h, ms).value, k, phase);
    DoneAtRounds(h, k, phase);
    RoundsStops(h);
  }

  /** How far iteration number `i`, counted from 1, moved group `g`. */
  function Moved(h: Host, i: nat, g: nat): real
    requires i >= 1 && g < |h.groups|
  {
    Lloyd.Abs(At(h, i)[g] - At(h, i - 1)[g])
  }

  /** Iteration number `i` moved no group by more than 1.0. */
  predicate Still(h: Host, i: nat)
    requires i >= 1
  {
    forall g :: 0 <= g < |h.groups| ==> Moved(h, i, g) <= 1.0
  }

  lemma CalmIsStill(h: Host, k: nat, i: nat)
    requires h.groups != [] && i == k + 1
    ensures Calm(h, k) <==> Still(h, i)
  {
    hide At;
    forall g | 0 <= g < |h.groups| ensures Delta(h, k, g) == Moved(h, i, g) {
    }
  }

  /** With `NbOfIteration < 0` a complete run ends with the first iteration in which every group moved
      by at most 1.0, and there is one within m^n + 1 iterations. */
  lemma {:induction false} StopsWhenCalm(h: Host, ms: seq<Message>)
    requires WellFormed(h) && Play(h, ms).Some? && Play(h, ms).value.pending == multiset{}
    requires h.nbOfIteration < 0
    ensures var k := Play(h, ms).value.store.iteration - 1;
      && 1 <= k <= LloydSettles.Pow(|h.groups|, |h.data|) + 1
      && GroupsAt(h, Play(h, ms).value.store.groups, At(h, k))
      && Still(h, k) && forall i :: 1 <= i < k ==> !Still(h, i)
  {
    hide Steps, At, PerIteration, Play, Calm, GroupsAt, Distinct, Ids, LloydSettles.Pow, Still;
    var k, phase := RunInv(h, ms);
    QuietIsDone(h, Play(h, ms).value, k, phase);
    DoneAtRounds(h, k, phase);
    RoundsStops(h);
    CalmIsStill(h, k - 1, k);
    forall i | 1 <= i < k ensures !Still(h, i) {
      assert !Stops(h, i);
      CalmIsStill(h, i - 1, i);
    }
  }

  /** Iteration number `i`, counted from 1, moved a group that had spaces by more than 1.0. */
  predicate MovedNonempty(h: Host, i: nat)
    requires i >= 1 && h.groups != []
  {
    var homes := Lloyd.Assign(Values(h.data), At(h, i - 1));
    exists g :: 0 <= g < |h.groups| && Lloyd.Members(Values(h.data), homes, g) != [] && Moved(h, i, g) > 1.0
  }

  /** How many of the first `k` iterations did. */
  function BigIterations(h: Host, k: nat): nat
    requires h.groups != []
  {
    if k == 0 then 0 else BigIterations(h, k - 1) + One(MovedNonempty(h, k))
  }

  lemma MovedNonemptyIsBigMove(h: Host, i: nat)
    requires i >= 1 && h.groups != []
    ensures MovedNonempty(h, i) <==> Lloyd.BigMove(Values(h.data), At(h, i - 1), 1.0)
  {
    hide Lloyd.Members, Lloyd.Assign, Lloyd.Abs;
    LloydSettles.IterateNext(Values(h.data), Centres(h.groups), i - 1);
    hide Lloyd.Iterate, Lloyd.Step;
    assert At(h, i) == Lloyd.Step(Values(h.data), At(h, i - 1));
  }

  lemma {:induction false} BigIterationsCounted(h: Host, k: nat)
    requires h.groups != []
    ensures BigIterations(h, k) == Lloyd.BigMoves(Values(h.data), Centres(h.groups), k)
  {
    hide MovedNonempty, Lloyd.BigMove;
    if k > 0 {
      BigIterationsCounted(h, k - 1);
      MovedNonemptyIsBigMove(h, k);
    }
  }

  /** In every run, however long and with whatever configuration: the completed iterations that moved
      a nonempty group by more than 1.0 number at most the floor of the initial squared error. */
  lemma {:induction false} BigIterationsPaidFor(h: Host, ms: seq<Message>)
    requires WellFormed(h) && Play(h, ms).Some?
    ensures Play(h, ms).value.store.iteration >= 1
    ensures BigIterations(h, Play(h, ms).value.store.iteration - 1)
         <= Lloyd.Error(Values(h.data), Centres(h.groups)).Floor
  {
    hide BigIterations, Lloyd.BigMoves, Lloyd.Error, Play;
    var k, phase := RunInv(h, ms);
    BigIterationsCounted(h, k);
    Lloyd.BigMovesBounded(Values(h.data), Centres(h.groups), k);
  }

  /** The barriers: a Shuffle is alone in flight, every mapper has reported, its flags are down and
      every space is in its nearest group; an Input is alone in flight, all groups are reduced
      and all flags are down. */
  lemma {:induction false} Barriers(h: Host, ms: seq<Message>)
    requires WellFormed(h) && Play(h, ms).Some?
    ensures var w := Play(h, ms).value; var k := w.store.iteration - 1;
      && w.store.iteration >= 1
      && (Shuffle in w.pending ==>
            && w.pending == multiset{Shuffle}
            && Raised(w.store.mapFinished) == {} && Finished(w.store.reduceFinished) == {}
            && |w.store.spaces| == |h.data| && AllLocated(h, k, w.store.spaces)
            && GroupsAt(h, w.store.groups, At(h, k)))
      && (Input in w.pending ==>
            && w.pending == multiset{Input}
            && Raised(w.store.mapFinished) == {} && Finished(w.store.reduceFinished) == {}
            && (k == 0 || GroupsAt(h, w.store.groups, At(h, k))))
  {
    hide At, GroupsAt, AllLocated, Raised, Finished, Located, Recorded, Chosen, Stops, Play, Union, Steps, Ids;
    var k, phase := RunInv(h, ms);
    var w := Play(h, ms).value;
    match phase
    case Mapping(stages) =>
      if Shuffle in w.pending { var j := UnionMember(MapParts(h, stages), Shuffle); }
      if Input in w.pending { var j := UnionMember(MapParts(h, stages), Input); }
    case Reducing(stages) =>
      if Shuffle in w.pending { var g := UnionMember(ReduceParts(h, k, stages), Shuffle); }
      if Input in w.pending { var g := UnionMember(ReduceParts(h, k, stages), Input); }
    case _ =>
  }

  /** No handler ever throws, and each delivery uses up exactly one of the remaining steps. */
  lemma {:induction false} NothingThrows(h: Host, ms: seq<Message>, m: Message)
    requires WellFormed(h) && Play(h, ms).Some? && m in Play(h, ms).value.pending
    ensures Handle(h, Play(h, ms).value.store, m).Some?
    ensures |ms| < Rounds(h) * PerIteration(h)
  {
    hide Steps, PerIteration, Stops, Play, Rounds, Handle;
    var k, phase := RunInv(h, ms);
    var k', phase' := AnyStep(h, Play(h, ms).value, k, phase, m);
    EveryRunIsSequential(h, ms);
  }
}

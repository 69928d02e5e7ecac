/** Every run of the map-reduce protocol, whatever the order of deliveries, computes Lloyd's
    iterations one after the other. */
module MapReduceRuns {
  import opened Wrappers
  import opened Basics
  import Lloyd
  import opened MapReduce

  // ----- runs -----

  /** The stores and the messages sent but not yet delivered, in no order. */
  datatype World = World(store: Store, pending: multiset<Message>)

  /** Empty stores and the one trigger. */
  function Start(): World {
    World(Store([], [], map[], map[], 1), multiset{Input})
  }

  /** Delivers one pending message; a handler that throws changes nothing and sends nothing. */
  function Deliver(h: Host, w: World, m: Message): World
    requires m in w.pending
  {
    var rest := w.pending - multiset{m};
    match Handle(h, w.store, m)
    case None => World(w.store, rest)
    case Some(o) => World(o.store, rest + multiset(o.sent))
  }

  /** The world after these deliveries, if each was pending when its turn came. */
  function Play(h: Host, ms: seq<Message>): Option<World> {
    if ms == [] then Some(Start())
    else
      match Play(h, ms[..|ms| - 1])
      case None => None
      case Some(w) => if ms[|ms| - 1] in w.pending then Some(Deliver(h, w, ms[|ms| - 1])) else None
  }

  /** Distinct ids and topics, something to cluster, and spaces fresh from the csv file. */
  predicate Sensible(h: Host) {
    && h.data != [] && h.groups != [] && h.mapTopics != []
    && Distinct(h.mapTopics) && Distinct(Ids(SpaceKey, h.data)) && Distinct(Ids(GroupKey, h.groups))
    && forall i :: 0 <= i < |h.data| ==> h.data[i].groupId == None
  }

  /** The mappers divide the spaces evenly, so that no space is left out of the chunks. */
  predicate WellFormed(h: Host) {
    Sensible(h) && |h.data| % |h.mapTopics| == 0
  }

  // ----- the sequential algorithm -----

  /** The barycentres after `k` sequential Lloyd iterations. */
  function At(h: Host, k: nat): (r: seq<real>)
    requires h.groups != []
    ensures |r| == |h.groups|
  {
    Lloyd.Iterate(Values(h.data), Centres(h.groups), k)
  }

  /** The group nearest to space `i` after `k` iterations. */
  function Home(h: Host, k: nat, i: nat): string
    requires h.groups != [] && i < |h.data|
  {
    h.groups[Lloyd.Nearest(h.data[i].value, At(h, k))].id
  }

  function Delta(h: Host, k: nat, g: nat): real
    requires g < |h.groups|
  {
    Lloyd.Abs(At(h, k + 1)[g] - At(h, k)[g])
  }

  predicate Calm(h: Host, k: nat)
    requires h.groups != []
  {
    forall g :: 0 <= g < |h.groups| ==> Delta(h, k, g) <= EPSILON
  }

  /** Whether the run ends once `k` iterations are complete. */
  predicate Stops(h: Host, k: nat)
    requires h.groups != [] && k >= 1
  {
    if h.nbOfIteration >= 0 then k + 1 >= h.nbOfIteration else Calm(h, k - 1)
  }

  // ----- where a run stands -----

  datatype Stage = Waiting | Reported | Collected

  datatype Phase =
    | Inputting
    | Mapping(stages: seq<Stage>)
    | Shuffling
    | Reducing(stages: seq<Stage>)
    | Done

  function Union(parts: seq<multiset<Message>>): multiset<Message> {
    if parts == [] then multiset{} else Union(parts[..|parts| - 1]) + parts[|parts| - 1]
  }

  function MapPart(h: Host, j: nat, stage: Stage): multiset<Message>
    requires j < |h.mapTopics|
  {
    match stage
    case Waiting => multiset{Map(h.mapTopics[j], ChunkIds(h.data, |h.mapTopics|, j))}
    case Reported => multiset{MapFinished(h.mapTopics[j])}
    case Collected => multiset{}
  }

  function MapParts(h: Host, stages: seq<Stage>): (r: seq<multiset<Message>>)
    requires |stages| == |h.mapTopics|
    ensures |r| == |stages| && forall j :: 0 <= j < |r| ==> r[j] == MapPart(h, j, stages[j])
  {
    seq(|stages|, j requires 0 <= j < |stages| => MapPart(h, j, stages[j]))
  }

  function ReducePart(h: Host, k: nat, g: nat, stage: Stage): multiset<Message>
    requires g < |h.groups|
  {
    match stage
    case Waiting => multiset{Reduce(h.groups[g].id)}
    case Reported => multiset{ReduceFinished(h.groups[g].id, Delta(h, k, g))}
    case Collected => multiset{}
  }

  function ReduceParts(h: Host, k: nat, stages: seq<Stage>): (r: seq<multiset<Message>>)
    requires |stages| == |h.groups|
    ensures |r| == |stages| && forall g :: 0 <= g < |r| ==> r[g] == ReducePart(h, k, g, stages[g])
  {
    seq(|stages|, g requires 0 <= g < |stages| => ReducePart(h, k, g, stages[g]))
  }

  predicate Sized(h: Host, phase: Phase) {
    match phase
    case Mapping(stages) => |stages| == |h.mapTopics| && !AllCollected(stages)
    case Reducing(stages) => |stages| == |h.groups| && !AllCollected(stages)
    case _ => true
  }

  predicate AllCollected(stages: seq<Stage>) {
    forall j :: 0 <= j < |stages| ==> stages[j] == Collected
  }

  /** Exactly the messages in flight: one per mapper or group not yet collected. */
  function Pending(h: Host, k: nat, phase: Phase): multiset<Message>
    requires Sized(h, phase)
  {
    match phase
    case Inputting => multiset{Input}
    case Mapping(stages) => Union(MapParts(h, stages))
    case Shuffling => multiset{Shuffle}
    case Reducing(stages) => Union(ReduceParts(h, k, stages))
    case Done => multiset{}
  }

  predicate SpacesKnown(h: Host, spaces: seq<Space>) {
    && |spaces| == |h.data|
    && forall i :: 0 <= i < |spaces| ==> spaces[i].id == h.data[i].id && spaces[i].value == h.data[i].value
  }

  predicate InChunk(h: Host, j: nat, i: nat)
    requires h.mapTopics != []
  {
    var size := |h.data| / |h.mapTopics|;
    j * size <= i < j * size + size
  }

  /** The spaces of the chunks already mapped are in their nearest groups. */
  predicate Located(h: Host, k: nat, spaces: seq<Space>, stages: seq<Stage>)
    requires h.groups != [] && h.mapTopics != [] && |spaces| == |h.data|
  {
    forall j, i :: 0 <= j < |stages| && stages[j] != Waiting && 0 <= i < |spaces| && InChunk(h, j, i)
      ==> spaces[i].groupId == Some(Home(h, k, i))
  }

  predicate AllLocated(h: Host, k: nat, spaces: seq<Space>)
    requires h.groups != [] && |spaces| == |h.data|
  {
    forall i :: 0 <= i < |spaces| ==> spaces[i].groupId == Some(Home(h, k, i))
  }

  predicate GroupsAt(h: Host, groups: seq<Group>, centres: seq<real>) {
    && |groups| == |h.groups| == |centres|
    && forall g :: 0 <= g < |groups| ==> groups[g] == Group(h.groups[g].id, centres[g])
  }

  /** The barycentres while groups are being reduced. */
  function Mixed(h: Host, k: nat, stages: seq<Stage>): (r: seq<real>)
    requires |stages| == |h.groups| && h.groups != []
    ensures |r| == |stages|
    ensures forall g :: 0 <= g < |r| ==>
      r[g] == if stages[g] == Waiting then At(h, k)[g] else At(h, k + 1)[g]
  {
    seq(|stages|, g requires 0 <= g < |stages| => if stages[g] == Waiting then At(h, k)[g] else At(h, k + 1)[g])
  }

  /** The names whose stage is `Collected`. */
  function Chosen(names: seq<string>, stages: seq<Stage>): set<string> {
    set j | 0 <= j < |names| && j < |stages| && stages[j] == Collected :: names[j]
  }

  predicate Recorded(h: Host, k: nat, results: map<string, Reduced>, stages: seq<Stage>)
    requires |stages| == |h.groups|
  {
    forall g :: 0 <= g < |stages| && stages[g] == Collected ==>
      h.groups[g].id in results && results[h.groups[g].id].delta == Delta(h, k, g)
  }

  /** The spaces, groups and flags in each phase of iteration `k + 1`. */
  predicate Holds(h: Host, st: Store, k: nat, phase: Phase)
    requires WellFormed(h) && Sized(h, phase)
  {
    && st.iteration == k + 1
    && st.reduceFinished.Keys <= Elements(Ids(GroupKey, h.groups))
    && (if phase.Inputting? && k == 0 then st.spaces == [] && st.groups == [] else SpacesKnown(h, st.spaces))
    && Raised(st.mapFinished) == (if phase.Mapping? then Chosen(h.mapTopics, phase.stages) else {})
    && Finished(st.reduceFinished)
       == (if phase.Reducing? then Chosen(Ids(GroupKey, h.groups), phase.stages) else {})
    && match phase
       case Inputting => k == 0 || GroupsAt(h, st.groups, At(h, k))
       case Mapping(stages) => GroupsAt(h, st.groups, At(h, k)) && Located(h, k, st.spaces, stages)
       case Shuffling => GroupsAt(h, st.groups, At(h, k)) && AllLocated(h, k, st.spaces)
       case Reducing(stages) =>
         && GroupsAt(h, st.groups, Mixed(h, k, stages)) && AllLocated(h, k, st.spaces)
         && Recorded(h, k, st.reduceFinished, stages)
       case Done => GroupsAt(h, st.groups, At(h, k))
  }

  /** The run stopped at the first opportunity, or has not had one yet. */
  predicate Onward(h: Host, k: nat, phase: Phase)
    requires h.groups != []
  {
    && (phase.Done? ==> k >= 1 && Stops(h, k))
    && forall i :: 1 <= i <= k && (phase.Done? ==> i < k) ==> !Stops(h, i)
  }

  predicate Inv(h: Host, w: World, k: nat, phase: Phase)
    requires WellFormed(h)
  {
    Sized(h, phase) && w.pending == Pending(h, k, phase) && Holds(h, w.store, k, phase) && Onward(h, k, phase)
  }

  // ----- counting steps -----

  function Rank(stage: Stage): nat {
    match stage case Waiting => 0 case Reported => 1 case Collected => 2
  }

  function Ranks(stages: seq<Stage>): nat {
    if stages == [] then 0 else Ranks(stages[..|stages| - 1]) + Rank(stages[|stages| - 1])
  }

  function PerIteration(h: Host): nat {
    2 * |h.mapTopics| + 2 * |h.groups| + 2
  }

  /** How many deliveries lead here. */
  function Steps(h: Host, k: nat, phase: Phase): nat {
    k * PerIteration(h)
    + match phase
      case Inputting => 0
      case Mapping(stages) => 1 + Ranks(stages)
      case Shuffling => 1 + 2 * |h.mapTopics|
      case Reducing(stages) => 2 + 2 * |h.mapTopics| + Ranks(stages)
      case Done => 0
  }

  // ----- multisets of messages -----

  lemma {:induction false} UnionUpdate(parts: seq<multiset<Message>>, j: nat, part: multiset<Message>)
    requires j < |parts|
    ensures parts[j] <= Union(parts)
    ensures Union(parts[j := part]) == Union(parts) - parts[j] + part
    decreases |parts|
  {
    var n := |parts| - 1;
    var front := parts[..n];
    if j < n {
      UnionUpdate(front, j, part);
      assert parts[j := part][..n] == front[j := part];
      assert front[j] == parts[j];
    } else {
      assert parts[j := part][..n] == front;
    }
  }

  lemma {:induction false} UnionMember(parts: seq<multiset<Message>>, m: Message) returns (j: nat)
    requires m in Union(parts)
    ensures j < |parts| && m in parts[j]
  {
    var n := |parts| - 1;
    if m in parts[n] { j := n; } else { j := UnionMember(parts[..n], m); }
  }

  lemma {:induction false} UnionOfSingles(parts: seq<multiset<Message>>, ms: seq<Message>)
    requires |parts| == |ms| && forall j :: 0 <= j < |ms| ==> parts[j] == multiset{ms[j]}
    ensures Union(parts) == multiset(ms)
    decreases |ms|
  {
    if ms != [] {
      UnionOfSingles(parts[..|ms| - 1], ms[..|ms| - 1]);
      assert ms == ms[..|ms| - 1] + [ms[|ms| - 1]];
    }
  }

  lemma {:induction false} UnionEmpty(parts: seq<multiset<Message>>)
    requires forall j :: 0 <= j < |parts| ==> parts[j] == multiset{}
    ensures Union(parts) == multiset{}
  {
    if parts != [] { UnionEmpty(parts[..|parts| - 1]); }
  }

  lemma {:induction false} RanksUpdate(stages: seq<Stage>, j: nat, stage: Stage)
    requires j < |stages|
    ensures Ranks(stages[j := stage]) == Ranks(stages) - Rank(stages[j]) + Rank(stage)
    decreases |stages|
  {
    var n := |stages| - 1;
    if j < n {
      RanksUpdate(stages[..n], j, stage);
      assert stages[j := stage][..n] == stages[..n][j := stage];
    } else {
      assert stages[j := stage][..n] == stages[..n];
    }
  }

  lemma {:induction false} RanksUniform(stages: seq<Stage>, stage: Stage)
    requires forall j :: 0 <= j < |stages| ==> stages[j] == stage
    ensures Ranks(stages) == |stages| * Rank(stage)
  {
    if stages != [] { RanksUniform(stages[..|stages| - 1], stage); }
  }

  // ----- counting flags -----

  /** A set of names is as large as the list of names only when it holds all of them. */
  lemma FullCount(names: seq<string>, part: set<string>)
    requires Distinct(names) && part <= Elements(names)
    ensures |part| == |names| <==> forall j :: 0 <= j < |names| ==> names[j] in part
  {
    DistinctSize(names);
    SubsetSize(part, Elements(names));
    if forall j :: 0 <= j < |names| ==> names[j] in part {
      assert part == Elements(names);
    }
  }

  lemma ChosenCounted(names: seq<string>, stages: seq<Stage>)
    requires Distinct(names) && |stages| == |names|
    ensures |Chosen(names, stages)| == |names| <==> AllCollected(stages)
    ensures Chosen(names, stages) <= Elements(names)
  {
    FullCount(names, Chosen(names, stages));
    forall j | 0 <= j < |names|
      ensures names[j] in Chosen(names, stages) <==> stages[j] == Collected
    {
    }
  }

  lemma ChosenGrows(names: seq<string>, stages: seq<Stage>, j: nat)
    requires j < |stages| == |names|
    ensures Chosen(names, stages[j := Collected]) == Chosen(names, stages) + {names[j]}
  {
    var after := stages[j := Collected];
    forall x | x in Chosen(names, after) ensures x in Chosen(names, stages) + {names[j]} {
      var i :| 0 <= i < |names| && after[i] == Collected && names[i] == x;
      if i != j { assert stages[i] == Collected; }
    }
    forall x | x in Chosen(names, stages) + {names[j]} ensures x in Chosen(names, after) {
      if x == names[j] {
        assert after[j] == Collected;
      } else {
        var i :| 0 <= i < |names| && stages[i] == Collected && names[i] == x;
        assert after[i] == Collected;
      }
    }
  }

  lemma ChosenSame(names: seq<string>, stages: seq<Stage>, j: nat, stage: Stage)
    requires j < |stages| == |names| && stages[j] != Collected && stage != Collected
    ensures Chosen(names, stages[j := stage]) == Chosen(names, stages)
  {
    var after := stages[j := stage];
    assert forall i :: 0 <= i < |names| ==> (after[i] == Collected <==> stages[i] == Collected);
  }

  lemma ChosenNone(names: seq<string>, stages: seq<Stage>)
    requires |stages| == |names| && forall j :: 0 <= j < |stages| ==> stages[j] == Waiting
    ensures Chosen(names, stages) == {}
  {
  }
}

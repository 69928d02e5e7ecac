/** The k-means map-reduce of the nodes: shared stores, messages, and the six handlers. */
module MapReduce {
  import opened Wrappers
  import opened Basics
  import Lloyd
  import opened RoundRobin

  const EPSILON: real := 1.0

  // ----- values -----

  /** A data point; `value` is its normalized value, `groupId` is unset until a mapper saw it. */
  datatype Space = Space(id: string, value: real, groupId: Option<string>)

  datatype Group = Group(id: string, barycentre: real)

  datatype Reduced = Reduced(isFinished: bool, delta: real)

  datatype Message =
    | Input
    | Map(topic: string, spaceIds: seq<string>)
    | MapFinished(name: string)
    | Shuffle
    | Reduce(groupId: string)
    | ReduceFinished(group: string, delta: real)

  /** The host configuration and the two csv files. */
  datatype Host = Host(mapTopics: seq<string>, nbOfIteration: int, data: seq<Space>, groups: seq<Group>)

  /** The replicated stores and the static iteration counter. */
  datatype Store = Store(
    spaces: seq<Space>,
    groups: seq<Group>,
    mapFinished: map<string, bool>,
    reduceFinished: map<string, Reduced>,
    iteration: nat)

  datatype Outcome = Outcome(store: Store, sent: seq<Message>)

  function SpaceKey(s: Space): string { s.id }

  function GroupKey(g: Group): string { g.id }

  function Ids<T>(key: T -> string, items: seq<T>): (r: seq<string>)
    ensures |r| == |items|
    ensures forall i :: 0 <= i < |items| ==> r[i] == key(items[i])
  {
    seq(|items|, i requires 0 <= i < |items| => key(items[i]))
  }

  lemma IdsEmpty(groups: seq<Group>)
    ensures Ids(GroupKey, groups[..0]) == []
  {
  }

  lemma IdsGrow(groups: seq<Group>, g: nat)
    requires g < |groups|
    ensures Ids(GroupKey, groups[..g + 1]) == Ids(GroupKey, groups[..g]) + [groups[g].id]
  {
  }

  function Values(spaces: seq<Space>): (r: seq<real>)
    ensures |r| == |spaces|
    ensures forall i :: 0 <= i < |spaces| ==> r[i] == spaces[i].value
  {
    seq(|spaces|, i requires 0 <= i < |spaces| => spaces[i].value)
  }

  function Centres(groups: seq<Group>): (r: seq<real>)
    ensures |r| == |groups|
    ensures forall g :: 0 <= g < |groups| ==> r[g] == groups[g].barycentre
  {
    seq(|groups|, g requires 0 <= g < |groups| => groups[g].barycentre)
  }

  // ----- what the stores do -----

  /** `AddOrUpdate` on a store enumerated in insertion order. */
  function Upsert<T>(key: T -> string, items: seq<T>, item: T): seq<T> {
    if items == [] then [item]
    else if key(items[0]) == key(item) then [item] + items[1..]
    else [items[0]] + Upsert(key, items[1..], item)
  }

  function UpsertAll<T>(key: T -> string, items: seq<T>, added: seq<T>): seq<T> {
    if added == [] then items
    else Upsert(key, UpsertAll(key, items, added[..|added| - 1]), added[|added| - 1])
  }

  function FindGroup(groups: seq<Group>, id: string): (r: Option<Group>)
    ensures r.None? <==> forall g :: 0 <= g < |groups| ==> groups[g].id != id
    ensures r.Some? ==> r.value in groups && r.value.id == id
  {
    if groups == [] then None
    else if groups[0].id == id then Some(groups[0])
    else FindGroup(groups[1..], id)
  }

  // ----- handlers as functions -----

  /** The ids of chunk `j` when the spaces are cut in `n` chunks of equal size; the last
      `count mod n` spaces are in no chunk. */
  function ChunkIds(spaces: seq<Space>, n: nat, j: nat): seq<string>
    requires j < n
  {
    var size := |spaces| / n;
    ChunkFits(|spaces|, n, j);
    Ids(SpaceKey, spaces[j * size..j * size + size])
  }

  lemma ChunkIsSlice(spaces: seq<Space>, n: nat, j: nat)
    requires j < n
    ensures var start := j * (|spaces| / n); 0 <= start <= start + |spaces| / n <= |spaces|
    ensures var start := j * (|spaces| / n);
      ChunkIds(spaces, n, j) == Ids(SpaceKey, spaces[start..start + |spaces| / n])
  {
    ChunkFits(|spaces|, n, j);
  }

  lemma TurnsAround(i: nat, n: nat)
    requires i < n
    ensures (i + 1) % n == if i + 1 == n then 0 else i + 1
  {
  }

  lemma ChunkFits(count: nat, n: nat, j: nat)
    requires j < n
    ensures j * (count / n) + count / n <= count
  {
    var size := count / n;
    assert n * size <= count;
    assert j * size + size == (j + 1) * size;
    MulMonotone(j + 1, n, size);
  }

  /** Loads the csv files into empty stores, then sends one chunk of space ids to each mapper. */
  function OnInput(h: Host, st: Store): (o: Outcome)
    ensures |o.sent| == |h.mapTopics|
  {
    var loaded := if st.spaces == [] || st.groups == []
                  then st.(spaces := UpsertAll(SpaceKey, st.spaces, h.data),
                           groups := UpsertAll(GroupKey, st.groups, h.groups))
                  else st;
    var n := |h.mapTopics|;
    Outcome(loaded, seq(n, j requires 0 <= j < n => Map(h.mapTopics[j], ChunkIds(loaded.spaces, n, j))))
  }

  function Assigned(space: Space, groups: seq<Group>): Space
    requires groups != []
  {
    space.(groupId := Some(groups[Lloyd.Nearest(space.value, Centres(groups))].id))
  }

  predicate Selects(spaces: seq<Space>, ids: seq<string>) {
    exists i :: 0 <= i < |spaces| && spaces[i].id in ids
  }

  function MapAll(spaces: seq<Space>, ids: seq<string>, groups: seq<Group>): (r: seq<Space>)
    requires groups == [] ==> !Selects(spaces, ids)
    ensures |r| == |spaces|
    ensures forall i :: 0 <= i < |spaces| ==>
      r[i] == if spaces[i].id in ids then Assigned(spaces[i], groups) else spaces[i]
  {
    seq(|spaces|, i requires 0 <= i < |spaces| =>
      if spaces[i].id in ids then Assigned(spaces[i], groups) else spaces[i])
  }

  /** Assigns each selected space to its closest group. Repeated ids, or no group to choose from,
      make every retry throw. */
  function OnMap(st: Store, topic: string, ids: seq<string>): Option<Outcome> {
    if !Distinct(ids) || (st.groups == [] && Selects(st.spaces, ids)) then None
    else Some(Outcome(st.(spaces := MapAll(st.spaces, ids, st.groups)), [MapFinished(topic)]))
  }

  function Raised(flags: map<string, bool>): set<string> {
    set id | id in flags && flags[id]
  }

  function Lowered(flags: map<string, bool>): map<string, bool> {
    map id | id in flags :: false
  }

  /** Raises the mapper's flag; when as many flags are up as there are mappers, lowers them and
      starts the shuffle. */
  function OnMapFinished(h: Host, st: Store, name: string): Outcome {
    var flags := st.mapFinished[name := true];
    if |Raised(flags)| == |h.mapTopics| then Outcome(st.(mapFinished := Lowered(flags)), [Shuffle])
    else Outcome(st.(mapFinished := flags), [])
  }

  function OnShuffle(st: Store): Outcome {
    Outcome(st, seq(|st.groups|, g requires 0 <= g < |st.groups| => Reduce(st.groups[g].id)))
  }

  /** The values of the spaces assigned to a group, in store order. */
  function InGroup(spaces: seq<Space>, id: string): seq<real> {
    if spaces == [] then []
    else
      var last := spaces[|spaces| - 1];
      InGroup(spaces[..|spaces| - 1], id) + (if last.groupId == Some(id) then [last.value] else [])
  }

  predicate AllAssigned(spaces: seq<Space>) {
    forall i :: 0 <= i < |spaces| ==> spaces[i].groupId.Some?
  }

  /** Moves the group to the average of its spaces, 0 if it has none. A space never mapped, or an
      unknown group, throws. */
  function OnReduce(st: Store, id: string): Option<Outcome> {
    if !AllAssigned(st.spaces) then None
    else match FindGroup(st.groups, id)
      case None => None
      case Some(group) =>
        var barycentre := Lloyd.Mean(InGroup(st.spaces, id));
        Some(Outcome(st.(groups := Upsert(GroupKey, st.groups, Group(id, barycentre))),
                     [ReduceFinished(id, Lloyd.Abs(barycentre - group.barycentre))]))
  }

  function Finished(results: map<string, Reduced>): set<string> {
    set id | id in results && results[id].isFinished
  }

  function Settled(results: map<string, Reduced>): set<string> {
    set id | id in results && results[id].delta <= EPSILON
  }

  function Unfinished(results: map<string, Reduced>): map<string, Reduced> {
    map id | id in results :: results[id].(isFinished := false)
  }

  function Incremented(st: Store): Store {
    st.(reduceFinished := Unfinished(st.reduceFinished),
        mapFinished := Lowered(st.mapFinished),
        iteration := st.iteration + 1)
  }

  /** A fixed number of iterations when one is configured, otherwise until no group moved by more
      than EPSILON. */
  predicate HasMore(h: Host, st: Store) {
    if h.nbOfIteration >= 0 then st.iteration < h.nbOfIteration
    else |st.groups| != |Settled(st.reduceFinished)|
  }

  function OnReduceFinished(h: Host, st: Store, id: string, delta: real): Outcome {
    var received := st.(reduceFinished := st.reduceFinished[id := Reduced(true, delta)]);
    if |Finished(received.reduceFinished)| == |received.groups| then
      var next := Incremented(received);
      Outcome(next, if HasMore(h, next) then [Input] else [])
    else Outcome(received, [])
  }

  function Handle(h: Host, st: Store, m: Message): Option<Outcome> {
    match m
    case Input => Some(OnInput(h, st))
    case Map(topic, ids) => OnMap(st, topic, ids)
    case MapFinished(name) => Some(OnMapFinished(h, st, name))
    case Shuffle => Some(OnShuffle(st))
    case Reduce(id) => OnReduce(st, id)
    case ReduceFinished(id, delta) => Some(OnReduceFinished(h, st, id, delta))
  }

  // ----- the handlers -----

  /** The handlers around the stores they share. Every method returns what it publishes; `None`
      means that it threw, having changed nothing. */
  class Node {
    const host: Host
    const mappers: RoundRobinAlgorithm
    const attribution: RoundRobinAttributionStrategy
    var spaces: seq<Space>
    var groups: seq<Group>
    var mapFinished: map<string, bool>
    var reduceFinished: map<string, Reduced>
    var iteration: nat

    ghost predicate Valid()
      reads this, mappers, attribution, attribution.algorithm
    {
      && mappers.Valid() && mappers.elements == host.mapTopics && mappers.roundRobinIndex == 0
      && attribution.Valid() && attribution.algorithm != mappers
    }

    ghost function State(): Store
      reads this
    {
      Store(spaces, groups, mapFinished, reduceFinished, iteration)
    }

    constructor (host: Host, reduceRoutingKeys: seq<string>)
      requires host.mapTopics != [] && reduceRoutingKeys != []
      ensures Valid() && fresh(mappers) && fresh(attribution) && fresh(attribution.algorithm)
      ensures this.host == host && attribution.asked == []
      ensures State() == Store([], [], map[], map[], 1)
    {
      this.host := host;
      mappers := new RoundRobinAlgorithm(host.mapTopics);
      attribution := new RoundRobinAttributionStrategy(reduceRoutingKeys);
      spaces, groups, mapFinished, reduceFinished, iteration := [], [], map[], map[], 1;
    }

    method HandleInput() returns (sent: seq<Message>)
      requires Valid()
      modifies this, mappers
      ensures Valid()
      ensures Outcome(State(), sent) == OnInput(host, old(State()))
    {
      ghost var before := State();
      if spaces == [] || groups == [] {
        spaces := UpsertAll(SpaceKey, spaces, host.data);
        groups := UpsertAll(GroupKey, groups, host.groups);
      }
      assert State() == OnInput(host, before).store;
      sent := SendSpacesToMappers();
    }

    method SendSpacesToMappers() returns (sent: seq<Message>)
      requires Valid()
      modifies mappers
      ensures Valid()
      ensures |sent| == |host.mapTopics|
      ensures forall j :: 0 <= j < |sent| ==>
        sent[j] == Map(host.mapTopics[j], ChunkIds(spaces, |host.mapTopics|, j))
    {
      hide ChunkIds;
      var nbOfMapTopics := |host.mapTopics|;
      var chunkSize := |spaces| / nbOfMapTopics;
      sent := [];
      for i := 0 to nbOfMapTopics
        invariant mappers.Valid() && mappers.roundRobinIndex == (if i == nbOfMapTopics then 0 else i)
        invariant |sent| == i
        invariant forall j :: 0 <= j < i ==>
          sent[j] == Map(host.mapTopics[j], ChunkIds(spaces, nbOfMapTopics, j))
      {
        var startIndex := i * chunkSize;
        var mapTopic := mappers.GetNextElement();
        var endIndex := startIndex + chunkSize;
        ChunkIsSlice(spaces, nbOfMapTopics, i);
        TurnsAround(i, nbOfMapTopics);
        endIndex := if endIndex >= |spaces| then |spaces| else endIndex;
        sent := sent + [Map(mapTopic, Ids(SpaceKey, spaces[startIndex..endIndex]))];
      }
    }

    method HandleMap(topic: string, ids: seq<string>) returns (sent: Option<seq<Message>>)
      modifies this
      ensures match OnMap(old(State()), topic, ids)
        case None => sent == None && State() == old(State())
        case Some(o) => sent == Some(o.sent) && State() == o.store
    {
      if !Distinct(ids) { return None; }
      var mapped := spaces;
      var i := 0;
      while i < |mapped|
        invariant 0 <= i <= |mapped| == |spaces|
        invariant groups == [] ==> forall k :: 0 <= k < i ==> spaces[k].id !in ids
        invariant forall k :: 0 <= k < i ==>
          mapped[k] == if spaces[k].id in ids then Assigned(spaces[k], groups) else spaces[k]
        invariant forall k :: i <= k < |mapped| ==> mapped[k] == spaces[k]
      {
        if mapped[i].id in ids {
          if groups == [] { return None; }
          mapped := mapped[i := Assigned(mapped[i], groups)];
        }
        i := i + 1;
      }
      assert mapped == MapAll(spaces, ids, groups);
      spaces := mapped;
      sent := Some([MapFinished(topic)]);
    }

    method HandleMapFinished(name: string) returns (sent: seq<Message>)
      modifies this
      ensures Outcome(State(), sent) == OnMapFinished(host, old(State()), name)
    {
      mapFinished := mapFinished[name := true];
      if |Raised(mapFinished)| == |host.mapTopics| {
        mapFinished := Lowered(mapFinished);
        sent := [Shuffle];
      } else {
        sent := [];
      }
    }

    /** Each group is reduced by the reducer it is attributed to. */
    method HandleShuffle() returns (sent: seq<Message>, topics: seq<string>)
      requires Valid()
      modifies attribution, attribution.algorithm
      ensures Valid()
      ensures Outcome(State(), sent) == OnShuffle(old(State()))
      ensures attribution.asked == old(attribution.asked) + Ids(GroupKey, groups)
      ensures Answers(attribution.algorithm.elements, attribution.asked)
           == Answers(attribution.algorithm.elements, old(attribution.asked)) + topics
    {
      hide Answers, Attribute, Run, Ids;
      sent, topics := [], [];
      IdsEmpty(groups);
      for g := 0 to |groups|
        invariant Valid()
        invariant |sent| == g && forall k :: 0 <= k < g ==> sent[k] == Reduce(groups[k].id)
        invariant attribution.asked == old(attribution.asked) + Ids(GroupKey, groups[..g])
        invariant Answers(attribution.algorithm.elements, attribution.asked)
               == Answers(attribution.algorithm.elements, old(attribution.asked)) + topics
      {
        var topic := attribution.GetTopicFrom(groups[g].id);
        sent, topics := sent + [Reduce(groups[g].id)], topics + [topic];
        IdsGrow(groups, g);
      }
      assert groups[..|groups|] == groups;
    }

    method HandleReduce(groupId: string) returns (sent: Option<seq<Message>>)
      modifies this
      ensures match OnReduce(old(State()), groupId)
        case None => sent == None && State() == old(State())
        case Some(o) => sent == Some(o.sent) && State() == o.store
    {
      var members := [];
      var i := 0;
      while i < |spaces|
        invariant 0 <= i <= |spaces|
        invariant AllAssigned(spaces[..i]) && members == InGroup(spaces[..i], groupId)
      {
        assert spaces[..i + 1][..i] == spaces[..i];
        if spaces[i].groupId == None { return None; }
        if spaces[i].groupId.value == groupId { members := members + [spaces[i].value]; }
        i := i + 1;
      }
      assert spaces[..|spaces|] == spaces;
      var group := FindGroup(groups, groupId);
      if group == None { return None; }
      var newBarycentre := 0.0;
      if members != [] {
        newBarycentre := Lloyd.Sum(members) / |members| as real;
      }
      groups := Upsert(GroupKey, groups, Group(groupId, newBarycentre));
      sent := Some([ReduceFinished(groupId, Lloyd.Abs(newBarycentre - group.value.barycentre))]);
    }

    method IncrementIteration()
      modifies this
      ensures State() == Incremented(old(State()))
    {
      reduceFinished := Unfinished(reduceFinished);
      mapFinished := Lowered(mapFinished);
      iteration := iteration + 1;
    }

    method HandleReduceFinished(groupId: string, delta: real) returns (sent: seq<Message>)
      modifies this
      ensures Outcome(State(), sent) == OnReduceFinished(host, old(State()), groupId, delta)
    {
      reduceFinished := reduceFinished[groupId := Reduced(true, delta)];
      sent := [];
      if |Finished(reduceFinished)| == |groups| {
        IncrementIteration();
        if HasMore(host, Store(spaces, groups, mapFinished, reduceFinished, iteration)) {
          sent := [Input];
        }
      }
    }
  }
}

/** The step lemmas of the map-reduce protocol, and what they give for every run. */
module MapReduceProofs {
  import opened Wrappers
  import opened Basics
  import Lloyd
  import opened MapReduce
  import opened MapReduceRuns

  // ----- loading the csv files -----

  lemma {:induction false} UpsertNew<T>(key: T -> string, items: seq<T>, item: T)
    requires forall i :: 0 <= i < |items| ==> key(items[i]) != key(item)
    ensures Upsert(key, items, item) == items + [item]
  {
    if items != [] {
      UpsertNew(key, items[1..], item);
      assert [items[0]] + (items[1..] + [item]) == items + [item];
    }
  }

  lemma {:induction false} UpsertAllFresh<T>(key: T -> string, added: seq<T>)
    requires Distinct(Ids(key, added))
    ensures UpsertAll(key, [], added) == added
  {
    if added != [] {
      var n := |added| - 1;
      var front := added[..n];
      forall i, j | 0 <= i < j < n ensures Ids(key, front)[i] != Ids(key, front)[j] {
        assert Ids(key, added)[i] != Ids(key, added)[j];
      }
      UpsertAllFresh(key, front);
      forall i | 0 <= i < n ensures key(front[i]) != key(added[n]) {
        assert Ids(key, added)[i] != Ids(key, added)[n];
      }
      UpsertNew(key, front, added[n]);
      assert front + [added[n]] == added;
    }
  }

  lemma {:induction false} UpsertInPlace(groups: seq<Group>, g: nat, item: Group)
    requires g < |groups| && groups[g].id == item.id
    requires forall i :: 0 <= i < g ==> groups[i].id != item.id
    ensures Upsert(GroupKey, groups, item) == groups[g := item]
    decreases |groups|
  {
    if g > 0 {
      UpsertInPlace(groups[1..], g - 1, item);
      assert [groups[0]] + groups[1..][g - 1 := item] == groups[g := item];
    }
  }

  lemma {:induction false} FindDistinct(groups: seq<Group>, g: nat)
    requires g < |groups| && forall i :: 0 <= i < g ==> groups[i].id != groups[g].id
    ensures FindGroup(groups, groups[g].id) == Some(groups[g])
    decreases |groups|
  {
    if g > 0 { FindDistinct(groups[1..], g - 1); }
  }

  // ----- chunks -----

  lemma SameChunks(h: Host, spaces: seq<Space>, j: nat)
    requires SpacesKnown(h, spaces) && j < |h.mapTopics|
    ensures ChunkIds(spaces, |h.mapTopics|, j) == ChunkIds(h.data, |h.mapTopics|, j)
  {
    ChunkIsSlice(spaces, |h.mapTopics|, j);
    ChunkIsSlice(h.data, |h.mapTopics|, j);
  }

  /** Chunk `j` holds exactly the ids of its own index range, each once. */
  lemma ChunkContent(h: Host, j: nat)
    requires WellFormed(h) && j < |h.mapTopics|
    ensures Distinct(ChunkIds(h.data, |h.mapTopics|, j))
    ensures forall i :: 0 <= i < |h.data| ==>
      (h.data[i].id in ChunkIds(h.data, |h.mapTopics|, j) <==> InChunk(h, j, i))
  {
    hide ChunkIds;
    ChunkIsSlice(h.data, |h.mapTopics|, j);
    var start, size := j * (|h.data| / |h.mapTopics|), |h.data| / |h.mapTopics|;
    SliceContent(h.data, start, size);
  }

  lemma SliceContent(data: seq<Space>, start: nat, size: nat)
    requires start + size <= |data| && Distinct(Ids(SpaceKey, data))
    ensures Distinct(Ids(SpaceKey, data[start..start + size]))
    ensures forall i :: 0 <= i < |data| ==>
      (data[i].id in Ids(SpaceKey, data[start..start + size]) <==> start <= i < start + size)
  {
    var ids, all := Ids(SpaceKey, data[start..start + size]), Ids(SpaceKey, data);
    assert forall i :: 0 <= i < size ==> ids[i] == all[start + i];
    forall i | 0 <= i < |data| ensures data[i].id in ids <==> start <= i < start + size {
      if start <= i < start + size { assert ids[i - start] == data[i].id; }
      if data[i].id in ids {
        var k :| 0 <= k < |ids| && ids[k] == data[i].id;
        assert all[start + k] == all[i];
      }
    }
  }

  lemma FactorPositive(n: nat, size: nat)
    requires n * size > 0
    ensures size > 0
  {
  }

  lemma OwnerAmong(i: nat, n: nat, size: nat) returns (j: nat)
    requires i < n * size
    ensures j < n && j * size <= i < j * size + size
  {
    FactorPositive(n, size);
    j := i / size;
    assert i == j * size + i % size;
    if j >= n { MulMonotone(n, j, size); }
  }

  /** Every space is in some chunk, because the mappers divide the spaces evenly. */
  lemma OwnerOf(h: Host, i: nat) returns (j: nat)
    requires WellFormed(h) && i < |h.data|
    ensures j < |h.mapTopics| && InChunk(h, j, i)
  {
    hide Ids;
    assert |h.data| == |h.mapTopics| * (|h.data| / |h.mapTopics|);
    j := OwnerAmong(i, |h.mapTopics|, |h.data| / |h.mapTopics|);
  }

  lemma OwnerBelow(spaces: seq<Space>, n: nat, j: nat, i: nat)
    requires j < n && i < |spaces| && Distinct(Ids(SpaceKey, spaces))
    requires spaces[i].id in ChunkIds(spaces, n, j)
    ensures i < n * (|spaces| / n)
  {
    hide ChunkIds, Ids;
    var size := |spaces| / n;
    ChunkIsSlice(spaces, n, j);
    SliceContent(spaces, j * size, size);
    MulMonotone(j + 1, n, size);
    assert (j + 1) * size == j * size + size;
  }

  lemma OwnerExists(spaces: seq<Space>, n: nat, i: nat) returns (j: nat)
    requires 0 < n && i < |spaces| && Distinct(Ids(SpaceKey, spaces)) && i < n * (|spaces| / n)
    ensures j < n && spaces[i].id in ChunkIds(spaces, n, j)
  {
    hide ChunkIds, Ids;
    var size := |spaces| / n;
    j := OwnerAmong(i, n, size);
    ChunkIsSlice(spaces, n, j);
    SliceContent(spaces, j * size, size);
  }

  predicate SentToSomeMapper(spaces: seq<Space>, n: nat, i: nat)
    requires i < |spaces|
  {
    exists j :: 0 <= j < n && spaces[i].id in ChunkIds(spaces, n, j)
  }

  /** The chunks cover exactly the first `n * (count / n)` spaces: all of them only when `n`
      divides the count. */
  lemma ChunksCover(spaces: seq<Space>, n: nat)
    requires n > 0 && Distinct(Ids(SpaceKey, spaces))
    ensures forall i :: 0 <= i < |spaces| ==> (SentToSomeMapper(spaces, n, i) <==> i < n * (|spaces| / n))
    ensures n * (|spaces| / n) == |spaces| <==> |spaces| % n == 0
  {
    hide ChunkIds, Ids;
    forall i | 0 <= i < |spaces| ensures SentToSomeMapper(spaces, n, i) <==> i < n * (|spaces| / n) {
      if i < n * (|spaces| / n) { var j := OwnerExists(spaces, n, i); }
      if j :| 0 <= j < n && spaces[i].id in ChunkIds(spaces, n, j) { OwnerBelow(spaces, n, j, i); }
    }
  }

  // ----- steps -----

  lemma Delivered(h: Host, w: World, m: Message, o: Outcome, k: nat, phase: Phase)
    requires WellFormed(h) && Sized(h, phase)
    requires m in w.pending && Handle(h, w.store, m) == Some(o)
    requires w.pending - multiset{m} + multiset(o.sent) == Pending(h, k, phase)
    requires Holds(h, o.store, k, phase) && Onward(h, k, phase)
    ensures Inv(h, Deliver(h, w, m), k, phase)
  {
    hide Handle, Pending, Holds, Onward;
  }

  // ----- Input -----

  lemma InputLoads(h: Host, st: Store, k: nat)
    requires WellFormed(h) && Holds(h, st, k, Inputting)
    ensures SpacesKnown(h, OnInput(h, st).store.spaces)
    ensures GroupsAt(h, OnInput(h, st).store.groups, At(h, k))
    ensures OnInput(h, st).store == st.(spaces := OnInput(h, st).store.spaces, groups := OnInput(h, st).store.groups)
  {
    hide ChunkIds, Lloyd.Step;
    UpsertAllFresh(SpaceKey, h.data);
    UpsertAllFresh(GroupKey, h.groups);
  }

  lemma InputHolds(h: Host, st: Store, k: nat)
    requires WellFormed(h) && Holds(h, st, k, Inputting)
    ensures var phase := Mapping(seq(|h.mapTopics|, _ => Waiting));
      Sized(h, phase) && Holds(h, OnInput(h, st).store, k, phase)
  {
    hide At, Stops, GroupsAt, OnInput, Raised, Finished;
    var stages := seq(|h.mapTopics|, _ => Waiting);
    InputLoads(h, st, k);
    ChosenNone(h.mapTopics, stages);
    assert stages[0] == Waiting;
  }

  lemma InputPending(h: Host, st: Store, k: nat)
    requires WellFormed(h) && Holds(h, st, k, Inputting)
    ensures var stages := seq(|h.mapTopics|, _ => Waiting);
      multiset(OnInput(h, st).sent) == Union(MapParts(h, stages))
  {
    hide At, ChunkIds, GroupsAt, Raised, Finished, SpacesKnown;
    var stages := seq(|h.mapTopics|, _ => Waiting);
    var o := OnInput(h, st);
    InputLoads(h, st, k);
    forall j | 0 <= j < |stages| ensures MapParts(h, stages)[j] == multiset{o.sent[j]} {
      SameChunks(h, o.store.spaces, j);
    }
    UnionOfSingles(MapParts(h, stages), o.sent);
  }

  lemma InputStep(h: Host, w: World, k: nat)
    requires WellFormed(h) && Inv(h, w, k, Inputting)
    ensures Inv(h, Deliver(h, w, Input), k, Mapping(seq(|h.mapTopics|, _ => Waiting)))
  {
    hide OnInput, Holds, Union, MapParts, Stops, WellFormed;
    var o := OnInput(h, w.store);
    InputHolds(h, w.store, k);
    InputPending(h, w.store, k);
    assert multiset{Input} - multiset{Input} + multiset(o.sent) == multiset(o.sent);
    Delivered(h, w, Input, o, k, Mapping(seq(|h.mapTopics|, _ => Waiting)));
  }

  // ----- Map -----

  lemma MapAssigns(h: Host, st: Store, k: nat, stages: seq<Stage>, j: nat)
    requires WellFormed(h) && Sized(h, Mapping(stages)) && Holds(h, st, k, Mapping(stages)) && j < |stages|
    ensures var ids := ChunkIds(h.data, |h.mapTopics|, j);
      && OnMap(st, h.mapTopics[j], ids).Some?
      && var spaces := MapAll(st.spaces, ids, st.groups);
         SpacesKnown(h, spaces) && Located(h, k, spaces, stages[j := Reported])
  {
    hide At, ChunkIds, Chosen, Raised, Finished;
    var ids := ChunkIds(h.data, |h.mapTopics|, j);
    ChunkContent(h, j);
    assert Centres(st.groups) == At(h, k);
    var spaces := MapAll(st.spaces, ids, st.groups);
    forall l, i | 0 <= l < |stages| && stages[j := Reported][l] != Waiting && 0 <= i < |spaces| && InChunk(h, l, i)
      ensures spaces[i].groupId == Some(Home(h, k, i))
    {
      if InChunk(h, j, i) {
        assert h.data[i].id in ids;
      } else {
        assert stages[l] != Waiting;
      }
    }
  }

  lemma MapStep(h: Host, w: World, k: nat, stages: seq<Stage>, j: nat, m: Message)
    requires WellFormed(h) && Inv(h, w, k, Mapping(stages)) && j < |stages| && stages[j] == Waiting
    requires m in MapPart(h, j, Waiting)
    ensures m in w.pending && Handle(h, w.store, m).Some?
    ensures Inv(h, Deliver(h, w, m), k, Mapping(stages[j := Reported]))
  {
    hide At, ChunkIds, Stops, GroupsAt, Located, Chosen, Raised, Finished, Union, SpacesKnown;
    var after := stages[j := Reported];
    MapAssigns(h, w.store, k, stages, j);
    ChosenSame(h.mapTopics, stages, j, Reported);
    UnionUpdate(MapParts(h, stages), j, MapPart(h, j, Reported));
    assert MapParts(h, stages)[j] == multiset{m};
    assert MapParts(h, after) == MapParts(h, stages)[j := MapPart(h, j, Reported)];
    assert after[j] == Reported;
    assert multiset([MapFinished(h.mapTopics[j])]) == multiset{MapFinished(h.mapTopics[j])};
  }

  // ----- MapFinished -----

  lemma RaisedGrows(flags: map<string, bool>, name: string)
    ensures Raised(flags[name := true]) == Raised(flags) + {name}
    ensures Raised(Lowered(flags[name := true])) == {}
  {
  }

  lemma EverySpaceLocated(h: Host, k: nat, spaces: seq<Space>, stages: seq<Stage>)
    requires WellFormed(h) && |spaces| == |h.data| && |stages| == |h.mapTopics|
    requires Located(h, k, spaces, stages) && forall j :: 0 <= j < |stages| ==> stages[j] != Waiting
    ensures AllLocated(h, k, spaces)
  {
    hide InChunk, Home;
    forall i | 0 <= i < |spaces| ensures spaces[i].groupId == Some(Home(h, k, i)) {
      var j := OwnerOf(h, i);
    }
  }

  lemma MapFinishedHolds(h: Host, st: Store, k: nat, stages: seq<Stage>, j: nat)
    requires WellFormed(h) && j < |stages| && stages[j] == Reported
    requires Sized(h, Mapping(stages)) && Holds(h, st, k, Mapping(stages))
    ensures var after := stages[j := Collected];
      var o := OnMapFinished(h, st, h.mapTopics[j]);
      if AllCollected(after) then o.sent == [Shuffle] && Holds(h, o.store, k, Shuffling)
      else o.sent == [] && Holds(h, o.store, k, Mapping(after))
  {
    hide At, Home, GroupsAt, Chosen, Raised, Finished, Lowered, InChunk, Ids;
    var after := stages[j := Collected];
    RaisedGrows(st.mapFinished, h.mapTopics[j]);
    ChosenGrows(h.mapTopics, stages, j);
    ChosenCounted(h.mapTopics, after);
    if AllCollected(after) {
      AllMapped(stages, j);
      EverySpaceLocated(h, k, st.spaces, stages);
    } else {
      forall l, i | 0 <= l < |after| && after[l] != Waiting && 0 <= i < |st.spaces| && InChunk(h, l, i)
        ensures st.spaces[i].groupId == Some(Home(h, k, i))
      {
        assert stages[l] != Waiting;
      }
    }
  }

  lemma AllMapped(stages: seq<Stage>, j: nat)
    requires j < |stages| && stages[j] == Reported && AllCollected(stages[j := Collected])
    ensures forall l :: 0 <= l < |stages| ==> stages[l] != Waiting
  {
    forall l | 0 <= l < |stages| ensures stages[l] != Waiting {
      assert stages[j := Collected][l] == Collected;
    }
  }

  lemma MapFinishedPending(h: Host, stages: seq<Stage>, j: nat)
    requires |stages| == |h.mapTopics| && j < |stages| && stages[j] == Reported
    ensures var m := MapFinished(h.mapTopics[j]);
      && m in Union(MapParts(h, stages))
      && Union(MapParts(h, stages[j := Collected])) == Union(MapParts(h, stages)) - multiset{m}
    ensures AllCollected(stages[j := Collected]) ==> Union(MapParts(h, stages[j := Collected])) == multiset{}
  {
    hide Union, ChunkIds;
    var after := stages[j := Collected];
    UnionUpdate(MapParts(h, stages), j, MapPart(h, j, Collected));
    assert MapParts(h, stages)[j] == multiset{MapFinished(h.mapTopics[j])};
    assert MapParts(h, after) == MapParts(h, stages)[j := MapPart(h, j, Collected)];
    if AllCollected(after) { UnionEmpty(MapParts(h, after)); }
  }

  lemma MapFinishedStep(h: Host, w: World, k: nat, stages: seq<Stage>, j: nat)
    requires WellFormed(h) && Inv(h, w, k, Mapping(stages)) && j < |stages| && stages[j] == Reported
    ensures var m := MapFinished(h.mapTopics[j]); var after := stages[j := Collected];
      && m in w.pending
      && Inv(h, Deliver(h, w, m), k, if AllCollected(after) then Shuffling else Mapping(after))
  {
    hide OnMapFinished, Holds, Union, MapParts, Stops, AllCollected, Ids, Distinct;
    var m, after := MapFinished(h.mapTopics[j]), stages[j := Collected];
    var o := OnMapFinished(h, w.store, h.mapTopics[j]);
    MapFinishedHolds(h, w.store, k, stages, j);
    MapFinishedPending(h, stages, j);
    if AllCollected(after) {
      assert multiset(o.sent) == multiset{Shuffle};
      Delivered(h, w, m, o, k, Shuffling);
    } else {
      assert multiset(o.sent) == multiset{};
      Delivered(h, w, m, o, k, Mapping(after));
    }
  }

  // ----- Shuffle -----

  lemma ShuffleHolds(h: Host, st: Store, k: nat)
    requires WellFormed(h) && Holds(h, st, k, Shuffling)
    ensures var phase := Reducing(seq(|h.groups|, _ => Waiting)); Sized(h, phase) && Holds(h, st, k, phase)
  {
    hide At, Home, Finished, Raised, Ids, Chosen;
    var stages := seq(|h.groups|, _ => Waiting);
    ChosenNone(Ids(GroupKey, h.groups), stages);
    assert stages[0] == Waiting;
  }

  lemma ShufflePending(h: Host, st: Store, k: nat)
    requires h.groups != [] && GroupsAt(h, st.groups, At(h, k))
    ensures multiset(OnShuffle(st).sent) == Union(ReduceParts(h, k, seq(|h.groups|, _ => Waiting)))
  {
    hide At, Delta;
    UnionOfSingles(ReduceParts(h, k, seq(|h.groups|, _ => Waiting)), OnShuffle(st).sent);
  }

  lemma ShuffleStep(h: Host, w: World, k: nat)
    requires WellFormed(h) && Inv(h, w, k, Shuffling)
    ensures Inv(h, Deliver(h, w, Shuffle), k, Reducing(seq(|h.groups|, _ => Waiting)))
  {
    hide At, Stops, AllLocated, Finished, Raised, SpacesKnown, Ids, Distinct, Union, ReduceParts, GroupsAt;
    var o := OnShuffle(w.store);
    ShuffleHolds(h, w.store, k);
    ShufflePending(h, w.store, k);
    assert multiset{Shuffle} - multiset{Shuffle} + multiset(o.sent) == multiset(o.sent);
    Delivered(h, w, Shuffle, o, k, Reducing(seq(|h.groups|, _ => Waiting)));
  }

  // ----- Reduce -----

  /** The spaces a reducer finds under a group's id are that group's members in the sequential step. */
  lemma {:induction false} InGroupIsMembers(spaces: seq<Space>, groups: seq<Group>, a: Lloyd.Assignment, g: nat)
    requires |a| == |spaces| && Distinct(Ids(GroupKey, groups)) && g < |groups|
    requires forall i :: 0 <= i < |a| ==> a[i] < |groups| && spaces[i].groupId == Some(groups[a[i]].id)
    ensures InGroup(spaces, groups[g].id) == Lloyd.Members(Values(spaces), a, g)
    decreases |spaces|
  {
    if spaces != [] {
      var n := |spaces| - 1;
      InGroupIsMembers(spaces[..n], groups, a[..n], g);
      assert Values(spaces)[..n] == Values(spaces[..n]);
      var ids := Ids(GroupKey, groups);
      assert ids[a[n]] == groups[a[n]].id && ids[g] == groups[g].id;
    }
  }

  lemma {:induction false} ReducedMean(h: Host, k: nat, spaces: seq<Space>, g: nat)
    requires WellFormed(h) && SpacesKnown(h, spaces) && AllLocated(h, k, spaces) && g < |h.groups|
    ensures Lloyd.Mean(InGroup(spaces, h.groups[g].id)) == At(h, k + 1)[g]
  {
    hide InGroup, Lloyd.Mean, Lloyd.Nearest, Lloyd.Members, Distinct, Ids;
    var xs, cs := Values(h.data), At(h, k);
    var a := Lloyd.Assign(xs, cs);
    assert Values(spaces) == xs;
    InGroupIsMembers(spaces, h.groups, a, g);
    assert At(h, k + 1) == Lloyd.Step(xs, cs);
  }

  lemma {:induction false} GroupFound(h: Host, groups: seq<Group>, centres: seq<real>, g: nat)
    requires WellFormed(h) && GroupsAt(h, groups, centres) && g < |h.groups|
    ensures FindGroup(groups, h.groups[g].id) == Some(groups[g])
    ensures forall b :: Upsert(GroupKey, groups, Group(h.groups[g].id, b)) == groups[g := Group(h.groups[g].id, b)]
  {
    hide Upsert, FindGroup;
    var ids := Ids(GroupKey, h.groups);
    forall i | 0 <= i < g ensures groups[i].id != groups[g].id {
      assert ids[i] != ids[g];
    }
    FindDistinct(groups, g);
    forall b ensures Upsert(GroupKey, groups, Group(h.groups[g].id, b)) == groups[g := Group(h.groups[g].id, b)] {
      UpsertInPlace(groups, g, Group(h.groups[g].id, b));
    }
  }

  lemma ReduceOutcome(h: Host, st: Store, k: nat, stages: seq<Stage>, g: nat)
    requires WellFormed(h) && Sized(h, Reducing(stages)) && Holds(h, st, k, Reducing(stages))
    requires g < |stages| && stages[g] == Waiting
    ensures var id := h.groups[g].id;
      OnReduce(st, id) == Some(Outcome(st.(groups := st.groups[g := Group(id, At(h, k + 1)[g])]),
                                       [ReduceFinished(id, Delta(h, k, g))]))
  {
    hide At, InGroup, Lloyd.Mean, Upsert, FindGroup, Distinct, Ids, Chosen, Finished, Raised;
    ReducedMean(h, k, st.spaces, g);
    GroupFound(h, st.groups, Mixed(h, k, stages), g);
  }

  lemma ReduceHolds(h: Host, st: Store, k: nat, stages: seq<Stage>, g: nat)
    requires WellFormed(h) && Sized(h, Reducing(stages)) && Holds(h, st, k, Reducing(stages))
    requires g < |stages| && stages[g] == Waiting
    ensures var after := Reducing(stages[g := Reported]);
      Sized(h, after)
      && Holds(h, st.(groups := st.groups[g := Group(h.groups[g].id, At(h, k + 1)[g])]), k, after)
  {
    hide At, Home, Chosen, Finished, Raised, Delta;
    var after := stages[g := Reported];
    ChosenSame(Ids(GroupKey, h.groups), stages, g, Reported);
    assert after[g] == Reported;
  }

  lemma ReducePending(h: Host, k: nat, stages: seq<Stage>, g: nat)
    requires |stages| == |h.groups| && g < |stages| && stages[g] == Waiting
    ensures var m := Reduce(h.groups[g].id);
      && m in Union(ReduceParts(h, k, stages))
      && Union(ReduceParts(h, k, stages[g := Reported]))
         == Union(ReduceParts(h, k, stages)) - multiset{m} + multiset([ReduceFinished(h.groups[g].id, Delta(h, k, g))])
  {
    hide Union, Delta;
    var after := stages[g := Reported];
    UnionUpdate(ReduceParts(h, k, stages), g, ReducePart(h, k, g, Reported));
    assert ReduceParts(h, k, stages)[g] == multiset{Reduce(h.groups[g].id)};
    assert ReduceParts(h, k, after) == ReduceParts(h, k, stages)[g := ReducePart(h, k, g, Reported)];
  }

  lemma ReduceStep(h: Host, w: World, k: nat, stages: seq<Stage>, g: nat)
    requires WellFormed(h) && Inv(h, w, k, Reducing(stages)) && g < |stages| && stages[g] == Waiting
    ensures var m := Reduce(h.groups[g].id);
      && m in w.pending && Handle(h, w.store, m).Some?
      && Inv(h, Deliver(h, w, m), k, Reducing(stages[g := Reported]))
  {
    hide OnReduce, Union, ReduceParts, Stops, At, Delta, Ids, Distinct, AllLocated, Recorded, Chosen, Mixed;
    ReduceOutcome(h, w.store, k, stages, g);
    ReduceHolds(h, w.store, k, stages, g);
    ReducePending(h, k, stages, g);
    var id := h.groups[g].id;
    var o := Outcome(w.store.(groups := w.store.groups[g := Group(id, At(h, k + 1)[g])]),
                     [ReduceFinished(id, Delta(h, k, g))]);
    Delivered(h, w, Reduce(id), o, k, Reducing(stages[g := Reported]));
  }

  // ----- ReduceFinished -----

  lemma FinishedGrows(results: map<string, Reduced>, id: string, delta: real)
    ensures Finished(results[id := Reduced(true, delta)]) == Finished(results) + {id}
    ensures Finished(Unfinished(results)) == {}
    ensures Unfinished(results).Keys == results.Keys
  {
  }

  lemma LoweredRaisesNone(flags: map<string, bool>)
    ensures Raised(Lowered(flags)) == {}
  {
  }

  lemma SettledUnfinished(results: map<string, Reduced>)
    ensures Settled(Unfinished(results)) == Settled(results)
  {
  }

  /** When all results are in, the stopping test counts a calm iteration exactly. */
  lemma SettledIsCalm(h: Host, k: nat, results: map<string, Reduced>, stages: seq<Stage>)
    requires WellFormed(h) && |stages| == |h.groups| && AllCollected(stages)
    requires results.Keys <= Elements(Ids(GroupKey, h.groups)) && Recorded(h, k, results, stages)
    ensures |Settled(results)| == |h.groups| <==> Calm(h, k)
  {
    hide Delta;
    var names := Ids(GroupKey, h.groups);
    assert Settled(results) <= Elements(names);
    FullCount(names, Settled(results));
    forall g | 0 <= g < |h.groups| ensures names[g] in Settled(results) <==> Delta(h, k, g) <= EPSILON {
      assert stages[g] == Collected;
    }
  }

  lemma RecordedGrows(h: Host, k: nat, results: map<string, Reduced>, stages: seq<Stage>, g: nat)
    requires WellFormed(h) && |stages| == |h.groups| && g < |stages| && Recorded(h, k, results, stages)
    requires results.Keys <= Elements(Ids(GroupKey, h.groups))
    ensures var after := results[h.groups[g].id := Reduced(true, Delta(h, k, g))];
      && Recorded(h, k, after, stages[g := Collected])
      && after.Keys <= Elements(Ids(GroupKey, h.groups))
  {
    hide Delta;
    var names := Ids(GroupKey, h.groups);
    var after := results[h.groups[g].id := Reduced(true, Delta(h, k, g))];
    assert names[g] in Elements(names);
    forall l | 0 <= l < |stages| && stages[g := Collected][l] == Collected
      ensures h.groups[l].id in after && after[h.groups[l].id].delta == Delta(h, k, l)
    {
      if l < g { assert names[l] != names[g]; }
      if g < l { assert names[g] != names[l]; }
    }
  }

  /** Where the run stands after a group's result came in. */
  function AfterResult(h: Host, k: nat, stages: seq<Stage>): (nat, Phase)
    requires h.groups != []
  {
    if !AllCollected(stages) then (k, Reducing(stages))
    else if Stops(h, k + 1) then (k + 1, Done)
    else (k + 1, Inputting)
  }

  lemma MixedEnds(h: Host, k: nat, stages: seq<Stage>)
    requires |stages| == |h.groups| && h.groups != [] && forall l :: 0 <= l < |stages| ==> stages[l] != Waiting
    ensures Mixed(h, k, stages) == At(h, k + 1)
  {
    hide At;
  }

  lemma LastResult(h: Host, st: Store, k: nat, stages: seq<Stage>, g: nat)
    requires WellFormed(h) && Sized(h, Reducing(stages)) && Holds(h, st, k, Reducing(stages))
    requires g < |stages| && stages[g] == Reported && AllCollected(stages[g := Collected])
    ensures var o := OnReduceFinished(h, st, h.groups[g].id, Delta(h, k, g));
      && o.sent == (if Stops(h, k + 1) then [] else [Input])
      && Holds(h, o.store, k + 1, if Stops(h, k + 1) then Done else Inputting)
  {
    hide At, Delta, Finished, Settled, Chosen, Raised, Lowered, Unfinished, AllLocated, Recorded, Calm, Ids, Mixed;
    var after := stages[g := Collected];
    var id, names := h.groups[g].id, Ids(GroupKey, h.groups);
    var results := st.reduceFinished[id := Reduced(true, Delta(h, k, g))];
    FinishedGrows(st.reduceFinished, id, Delta(h, k, g));
    FinishedGrows(results, id, Delta(h, k, g));
    NameOf(h, g);
    ChosenGrows(names, stages, g);
    ChosenCounted(names, after);
    LoweredRaisesNone(st.mapFinished);
    SettledUnfinished(results);
    RecordedGrows(h, k, st.reduceFinished, stages, g);
    SettledIsCalm(h, k, results, after);
    AllMapped(stages, g);
    MixedEnds(h, k, stages);
  }

  lemma NameOf(h: Host, g: nat)
    requires g < |h.groups|
    ensures |Ids(GroupKey, h.groups)| == |h.groups| && Ids(GroupKey, h.groups)[g] == h.groups[g].id
  {
  }

  lemma EarlierResult(h: Host, st: Store, k: nat, stages: seq<Stage>, g: nat)
    requires WellFormed(h) && Sized(h, Reducing(stages)) && Holds(h, st, k, Reducing(stages))
    requires g < |stages| && stages[g] == Reported && !AllCollected(stages[g := Collected])
    ensures var o := OnReduceFinished(h, st, h.groups[g].id, Delta(h, k, g));
      o.sent == [] && Holds(h, o.store, k, Reducing(stages[g := Collected]))
  {
    hide At, Delta, Finished, Chosen, Raised, AllLocated, Recorded, Ids, AllCollected;
    var after := stages[g := Collected];
    var id, names := h.groups[g].id, Ids(GroupKey, h.groups);
    FinishedGrows(st.reduceFinished, id, Delta(h, k, g));
    NameOf(h, g);
    ChosenGrows(names, stages, g);
    ChosenCounted(names, after);
    RecordedGrows(h, k, st.reduceFinished, stages, g);
  }

  lemma ResultPending(h: Host, k: nat, stages: seq<Stage>, g: nat)
    requires |stages| == |h.groups| && g < |stages| && stages[g] == Reported
    ensures var m := ReduceFinished(h.groups[g].id, Delta(h, k, g));
      && m in Union(ReduceParts(h, k, stages))
      && Union(ReduceParts(h, k, stages[g := Collected])) == Union(ReduceParts(h, k, stages)) - multiset{m}
    ensures AllCollected(stages[g := Collected]) ==> Union(ReduceParts(h, k, stages[g := Collected])) == multiset{}
  {
    hide Union, Delta;
    var after := stages[g := Collected];
    UnionUpdate(ReduceParts(h, k, stages), g, ReducePart(h, k, g, Collected));
    assert ReduceParts(h, k, stages)[g] == multiset{ReduceFinished(h.groups[g].id, Delta(h, k, g))};
    assert ReduceParts(h, k, after) == ReduceParts(h, k, stages)[g := ReducePart(h, k, g, Collected)];
    if AllCollected(after) { UnionEmpty(ReduceParts(h, k, after)); }
  }

  lemma LastResultStep(h: Host, w: World, k: nat, stages: seq<Stage>, g: nat)
    requires WellFormed(h) && Inv(h, w, k, Reducing(stages)) && g < |stages| && stages[g] == Reported
    requires AllCollected(stages[g := Collected])
    ensures var m := ReduceFinished(h.groups[g].id, Delta(h, k, g));
      m in w.pending && Inv(h, Deliver(h, w, m), k + 1, if Stops(h, k + 1) then Done else Inputting)
  {
    hide OnReduceFinished, Holds, Union, ReduceParts, Stops, Delta, AllCollected, Ids, Distinct;
    var m := ReduceFinished(h.groups[g].id, Delta(h, k, g));
    var o := OnReduceFinished(h, w.store, h.groups[g].id, Delta(h, k, g));
    ResultPending(h, k, stages, g);
    LastResult(h, w.store, k, stages, g);
    SentAfterLast(h, k, o.sent);
    Delivered(h, w, m, o, k + 1, if Stops(h, k + 1) then Done else Inputting);
  }

  lemma SentAfterLast(h: Host, k: nat, sent: seq<Message>)
    requires h.groups != [] && sent == if Stops(h, k + 1) then [] else [Input]
    ensures multiset{} + multiset(sent) == Pending(h, k + 1, if Stops(h, k + 1) then Done else Inputting)
  {
    hide Stops;
  }

  lemma EarlierResultStep(h: Host, w: World, k: nat, stages: seq<Stage>, g: nat)
    requires WellFormed(h) && Inv(h, w, k, Reducing(stages)) && g < |stages| && stages[g] == Reported
    requires !AllCollected(stages[g := Collected])
    ensures var m := ReduceFinished(h.groups[g].id, Delta(h, k, g));
      m in w.pending && Inv(h, Deliver(h, w, m), k, Reducing(stages[g := Collected]))
  {
    hide OnReduceFinished, Holds, Union, ReduceParts, Stops, Delta, AllCollected, Ids, Distinct;
    var m := ReduceFinished(h.groups[g].id, Delta(h, k, g));
    var o := OnReduceFinished(h, w.store, h.groups[g].id, Delta(h, k, g));
    ResultPending(h, k, stages, g);
    EarlierResult(h, w.store, k, stages, g);
    assert multiset(o.sent) == multiset{};
    Delivered(h, w, m, o, k, Reducing(stages[g := Collected]));
  }

  lemma ReduceFinishedStep(h: Host, w: World, k: nat, stages: seq<Stage>, g: nat)
    requires WellFormed(h) && Inv(h, w, k, Reducing(stages)) && g < |stages| && stages[g] == Reported
    ensures var m := ReduceFinished(h.groups[g].id, Delta(h, k, g));
      var next := AfterResult(h, k, stages[g := Collected]);
      m in w.pending && Inv(h, Deliver(h, w, m), next.0, next.1)
  {
    hide Inv, Delta, AllCollected, Stops, Deliver;
    if AllCollected(stages[g := Collected]) {
      LastResultStep(h, w, k, stages, g);
    } else {
      EarlierResultStep(h, w, k, stages, g);
    }
  }

  // ----- errors and reloading, on any stores -----

  /** Exactly what makes a handler throw. */
  lemma ThrowsExactly(h: Host, st: Store, m: Message)
    ensures Handle(h, st, m).None? <==>
      match m
      case Map(_, ids) =>
        || (exists i, j :: 0 <= i < j < |ids| && ids[i] == ids[j])
        || (st.groups == [] && exists i :: 0 <= i < |st.spaces| && st.spaces[i].id in ids)
      case Reduce(id) =>
        || (exists i :: 0 <= i < |st.spaces| && st.spaces[i].groupId == None)
        || forall g :: 0 <= g < |st.groups| ==> st.groups[g].id != id
      case _ => false
  {
    hide OnInput, OnMapFinished, OnShuffle, OnReduceFinished, MapAll, InGroup, Upsert;
  }

  predicate KeysDistinct<T>(key: T -> string, items: seq<T>) {
    forall i, j :: 0 <= i < j < |items| ==> key(items[i]) != key(items[j])
  }

  lemma TailKeys<T(!new)>(key: T -> string, items: seq<T>)
    requires items != [] && KeysDistinct(key, items)
    ensures KeysDistinct(key, items[1..])
    ensures forall x :: x in items[1..] ==> key(x) != key(items[0])
    ensures forall x :: x in items <==> x == items[0] || x in items[1..]
  {
    forall x | x in items[1..] ensures key(x) != key(items[0]) {
      var i :| 0 <= i < |items[1..]| && items[1..][i] == x;
      assert items[i + 1] == x;
    }
    assert items == [items[0]] + items[1..];
  }

  lemma ConsKeys<T(!new)>(key: T -> string, first: T, rest: seq<T>)
    requires KeysDistinct(key, rest) && forall x :: x in rest ==> key(x) != key(first)
    ensures KeysDistinct(key, [first] + rest)
  {
    forall i, j | 0 <= i < j < |[first] + rest| ensures key(([first] + rest)[i]) != key(([first] + rest)[j]) {
      assert rest[j - 1] in rest;
    }
  }

  lemma {:induction false} UpsertMeans<T(!new)>(key: T -> string, items: seq<T>, item: T, r: seq<T>)
    requires KeysDistinct(key, items) && r == Upsert(key, items, item)
    ensures KeysDistinct(key, r)
    ensures forall x :: x in r <==> x == item || (x in items && key(x) != key(item))
    decreases |items|
  {
    hide KeysDistinct;
    if items == [] {
      OneKey(key, item);
    } else {
      TailKeys(key, items);
      if key(items[0]) == key(item) {
        ConsKeys(key, item, items[1..]);
      } else {
        var rest := Upsert(key, items[1..], item);
        UpsertMeans(key, items[1..], item, rest);
        ConsKeys(key, items[0], rest);
      }
    }
  }

  lemma OneKey<T>(key: T -> string, item: T)
    ensures KeysDistinct(key, [item])
  {
  }

  lemma {:induction false} UpsertAllMeans<T(!new)>(key: T -> string, items: seq<T>, added: seq<T>, r: seq<T>)
    requires KeysDistinct(key, items) && KeysDistinct(key, added) && r == UpsertAll(key, items, added)
    ensures KeysDistinct(key, r)
    ensures forall x :: x in r <==> x in added || (x in items && forall a :: a in added ==> key(a) != key(x))
    decreases |added|
  {
    if added != [] {
      hide Upsert;
      var n := |added| - 1;
      var front := UpsertAll(key, items, added[..n]);
      UpsertAllMeans(key, items, added[..n], front);
      UpsertMeans(key, front, added[n], r);
      assert added == added[..n] + [added[n]];
      assert forall a :: a in added[..n] ==> key(a) != key(added[n]);
    }
  }

  /** An Input loads the csv files if there are no spaces or no groups, and only then: every csv row
      is then stored under its id, and rows of other ids stay. */
  lemma InputReloads(h: Host, st: Store)
    requires KeysDistinct(SpaceKey, st.spaces) && KeysDistinct(SpaceKey, h.data)
    requires KeysDistinct(GroupKey, st.groups) && KeysDistinct(GroupKey, h.groups)
    ensures var after := OnInput(h, st).store;
      if st.spaces == [] || st.groups == [] then
        && (forall s :: s in after.spaces
              <==> s in h.data || (s in st.spaces && forall a :: a in h.data ==> a.id != s.id))
        && (forall g :: g in after.groups
              <==> g in h.groups || (g in st.groups && forall a :: a in h.groups ==> a.id != g.id))
      else after == st
  {
    hide ChunkIds, UpsertAll, KeysDistinct;
    UpsertAllMeans(SpaceKey, st.spaces, h.data, UpsertAll(SpaceKey, st.spaces, h.data));
    UpsertAllMeans(GroupKey, st.groups, h.groups, UpsertAll(GroupKey, st.groups, h.groups));
  }

  /** The reset between iterations, on any stores: every flag of both kinds is down, no entry is
      dropped, every delta is kept, the counter has advanced. */
  lemma ResetExactly(st: Store)
    ensures var after := Incremented(st);
      && after.iteration == st.iteration + 1 && after.spaces == st.spaces && after.groups == st.groups
      && after.mapFinished.Keys == st.mapFinished.Keys
      && (forall id :: id in after.mapFinished ==> !after.mapFinished[id])
      && after.reduceFinished.Keys == st.reduceFinished.Keys
      && forall id :: id in after.reduceFinished ==>
           !after.reduceFinished[id].isFinished && after.reduceFinished[id].delta == st.reduceFinished[id].delta
  {
  }
}

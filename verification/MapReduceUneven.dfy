/** The map-reduce completes an iteration exactly when the mappers divide the spaces evenly. */
module MapReduceUneven {
  import opened Wrappers
  import opened Basics
  import Lloyd
  import opened MapReduce
  import opened MapReduceRuns
  import opened MapReduceProofs
  import opened MapReduceTheorems

  /** No message concerns the last space, and no group was ever reduced. */
  predicate Harmless(h: Host, m: Message)
    requires h.data != []
  {
    match m
    case Map(_, ids) => h.data[|h.data| - 1].id !in ids
    case ReduceFinished(_, _) => false
    case _ => true
  }

  predicate Untouched(h: Host, st: Store)
    requires h.data != []
  {
    && st.iteration == 1
    && if st.spaces == [] then st.groups == []
       else st.groups == h.groups && SpacesKnown(h, st.spaces) && st.spaces[|h.data| - 1].groupId == None
  }

  ghost predicate Stale(h: Host, w: World)
    requires h.data != []
  {
    Untouched(h, w.store) && forall m :: m in w.pending ==> Harmless(h, m)
  }

  lemma IdsKnown(h: Host, spaces: seq<Space>)
    requires SpacesKnown(h, spaces)
    ensures Ids(SpaceKey, spaces) == Ids(SpaceKey, h.data)
  {
  }

  lemma LastInNoChunk(h: Host, spaces: seq<Space>, j: nat)
    requires Sensible(h) && |h.data| % |h.mapTopics| != 0 && SpacesKnown(h, spaces) && j < |h.mapTopics|
    ensures h.data[|h.data| - 1].id !in ChunkIds(spaces, |h.mapTopics|, j)
  {
    hide ChunkIds, Ids, Distinct;
    var n, last := |h.mapTopics|, |h.data| - 1;
    IdsKnown(h, spaces);
    ChunksCover(spaces, n);
    ChunkFits(|spaces|, n, n - 1);
    assert (n - 1) * (|spaces| / n) + |spaces| / n == n * (|spaces| / n);
    assert !SentToSomeMapper(spaces, n, last);
  }

  lemma InputKeepsStale(h: Host, st: Store)
    requires Sensible(h) && |h.data| % |h.mapTopics| != 0 && Untouched(h, st)
    ensures Untouched(h, OnInput(h, st).store)
    ensures forall m :: m in OnInput(h, st).sent ==> Harmless(h, m)
  {
    hide ChunkIds, Ids, Distinct, UpsertAll;
    UpsertAllFresh(SpaceKey, h.data);
    UpsertAllFresh(GroupKey, h.groups);
    var o := OnInput(h, st);
    forall j | 0 <= j < |h.mapTopics| ensures Harmless(h, o.sent[j]) {
      LastInNoChunk(h, o.store.spaces, j);
    }
  }

  lemma HandleKeepsStale(h: Host, st: Store, m: Message)
    requires Sensible(h) && |h.data| % |h.mapTopics| != 0 && Untouched(h, st) && Harmless(h, m)
    ensures m.Reduce? ==> Handle(h, st, m).None?
    ensures match Handle(h, st, m)
      case None => true
      case Some(o) => Untouched(h, o.store) && forall s :: s in o.sent ==> Harmless(h, s)
  {
    hide OnInput, ChunkIds, Ids, Distinct, InGroup, Upsert, Raised, Lowered, Lloyd.Nearest;
    match m
    case Input => InputKeepsStale(h, st);
    case Reduce(id) =>
      if st.spaces != [] { assert st.spaces[|h.data| - 1].groupId == None; }
    case _ =>
  }

  /** When the mappers do not divide the spaces evenly every Reduce throws, in every run, and no
      iteration is ever completed. */
  lemma {:induction false} UnevenNeverReduces(h: Host, ms: seq<Message>)
    requires Sensible(h) && |h.data| % |h.mapTopics| != 0 && Play(h, ms).Some?
    ensures Stale(h, Play(h, ms).value)
    ensures forall m :: m in Play(h, ms).value.pending && m.Reduce? ==> Handle(h, Play(h, ms).value.store, m).None?
  {
    hide Handle, Untouched, Distinct, Ids, Harmless;
    if ms == [] {
      StartIsStale(h);
    } else {
      var n := |ms| - 1;
      UnevenNeverReduces(h, ms[..n]);
      DeliverKeepsStale(h, Play(h, ms[..n]).value, ms[n]);
    }
    forall m | m in Play(h, ms).value.pending && m.Reduce? ensures Handle(h, Play(h, ms).value.store, m).None? {
      HandleKeepsStale(h, Play(h, ms).value.store, m);
    }
  }

  lemma StartIsStale(h: Host)
    requires h.data != []
    ensures Stale(h, Start())
  {
  }

  lemma DeliverKeepsStale(h: Host, w: World, m: Message)
    requires Sensible(h) && |h.data| % |h.mapTopics| != 0 && Stale(h, w) && m in w.pending
    ensures Stale(h, Deliver(h, w, m))
  {
    hide Handle, Untouched, Distinct, Ids, Harmless;
    HandleKeepsStale(h, w.store, m);
    var next := Deliver(h, w, m);
    forall x | x in next.pending ensures Harmless(h, x) {
      if x !in w.pending {
        assert Handle(h, w.store, m).Some? && x in Handle(h, w.store, m).value.sent;
      }
    }
  }

  /** Any run extends to a complete one. */
  lemma CompleteRun(h: Host, ms: seq<Message>) returns (full: seq<Message>)
    requires WellFormed(h) && Play(h, ms).Some?
    ensures ms <= full && Play(h, full).Some? && Play(h, full).value.pending == multiset{}
    decreases Rounds(h) * PerIteration(h) - |ms|
  {
    hide PerIteration, Rounds, Deliver, Handle, WellFormed, GroupsAt;
    full := ms;
    var w := Play(h, ms).value;
    EveryRunIsSequential(h, ms);
    if w.pending != multiset{} {
      var m :| m in w.pending;
      var next := ms + [m];
      assert next[..|next| - 1] == ms;
      EveryRunIsSequential(h, next);
      full := CompleteRun(h, next);
    }
  }

  /** Some run completes an iteration if and only if the number of mappers divides the number of spaces. */
  lemma {:induction false} CompletesIffEven(h: Host)
    requires Sensible(h)
    ensures (exists ms :: Play(h, ms).Some? && Play(h, ms).value.store.iteration > 1)
            <==> |h.data| % |h.mapTopics| == 0
  {
    hide Play, Rounds, Stops, At, Steps, GroupsAt, Ids, Distinct;
    if |h.data| % |h.mapTopics| == 0 {
      PlayNothing(h);
      var full := CompleteRun(h, []);
      var k, phase := RunInv(h, full);
      QuietIsDone(h, Play(h, full).value, k, phase);
    } else if ms :| Play(h, ms).Some? && Play(h, ms).value.store.iteration > 1 {
      UnevenNeverReduces(h, ms);
    }
  }

  lemma {:induction false} PlayNothing(h: Host)
    ensures Play(h, []) == Some(Start())
  {
  }
}

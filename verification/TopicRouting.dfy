/** Publish/subscribe routing through the topic trie. `Hub` is the broker's state as a value; the
    class `BrokerHub` carries it out on the mutable tree and the two shared dictionaries. */
module TopicRouting {
  import opened TopicPaths
  import opened TopicTree

  datatype Subscription = Subscription(routingKey: string, contract: string)

  datatype Publication = Publication(contract: string, routingKey: string, message: seq<char>)

  datatype Hub = Hub(topics: set<Path>, subscriptions: map<string, Subscription>, queues: map<string, seq<Publication>>)

  datatype Op =
    | Advertise(routingKey: string)
    | UnAdvertise(routingKey: string)
    | Subscribe(queue: string, subscription: Subscription)
    | Unsubscribe(queue: string)
    | Publish(publication: Publication)

  /** The subscription's topics contain the routing key: its node matches the pattern, or it is the
      empty string, which is also the root's path. */
  predicate Selects(topics: set<Path>, pattern: Path, routingKey: string)
    requires pattern != []
  {
    || (Split(routingKey) in topics && Matches(pattern, Split(routingKey)))
    || (routingKey == "" && pattern[0] == ALL_SUBSEQUENT)
  }

  /** Looking up this subscription's topics fails on a duplicate dictionary key. */
  predicate LookupThrows(topics: set<Path>, s: Subscription) {
    [""] in topics && Split(s.routingKey)[0] == ALL_SUBSEQUENT
  }

  predicate PublishThrows(h: Hub) {
    exists q :: q in h.subscriptions && LookupThrows(h.topics, h.subscriptions[q])
  }

  predicate Receives(h: Hub, q: string, p: Publication) {
    && q in h.subscriptions
    && Selects(h.topics, Split(h.subscriptions[q].routingKey), p.routingKey)
    && h.subscriptions[q].contract == p.contract
  }

  ghost function Apply(h: Hub, op: Op): Hub {
    match op
    case Advertise(r) => h.(topics := AddPath(h.topics, Split(r)))
    case UnAdvertise(r) => h.(topics := if IsLeaf(h.topics, Split(r)) then RemovePath(h.topics, Split(r)) else h.topics)
    case Subscribe(q, s) => Hub(h.topics,
      if q in h.subscriptions then h.subscriptions else h.subscriptions[q := s],
      if q in h.queues then h.queues else h.queues[q := []])
    case Unsubscribe(q) => Hub(h.topics, h.subscriptions - {q}, h.queues - {q})
    case Publish(p) =>
      if PublishThrows(h) then h
      else h.(queues := map q | q in h.queues :: if Receives(h, q, p) then h.queues[q] + [p] else h.queues[q])
  }

  const EMPTY := Hub({[]}, map[], map[])

  ghost function Run(ops: seq<Op>): Hub {
    if ops == [] then EMPTY else Apply(Run(ops[..|ops| - 1]), ops[|ops| - 1])
  }

  // ----- the services on the mutable tree -----

  class BrokerHub {
    const topics: Topics
    var subscriptions: map<string, Subscription>
    var queues: map<string, seq<Publication>>

    ghost predicate Valid()
      reads this, topics, topics.nodes.Values
    {
      topics.Valid() && subscriptions.Keys == queues.Keys
    }

    ghost function State(): Hub
      reads this, topics
    {
      Hub(topics.nodes.Keys, subscriptions, queues)
    }

    constructor ()
      ensures Valid() && State() == EMPTY
    {
      topics := new Topics();
      subscriptions, queues := map[], map[];
    }

    method Advertise(routingKey: string)
      requires Valid()
      modifies topics`nodes, topics.nodes.Values
      ensures Valid() && State() == Apply(old(State()), Op.Advertise(routingKey))
    {
      var added := topics.AddTopicNodes(routingKey);
    }

    method UnAdvertise(routingKey: string)
      requires Valid()
      modifies topics`nodes, topics.nodes.Values
      ensures Valid() && State() == Apply(old(State()), Op.UnAdvertise(routingKey))
    {
      var removed := topics.RemoveTopicNodes(routingKey);
    }

    /** `TryAdd` in both dictionaries. */
    method AddSubscription(queue: string, subscription: Subscription)
      requires Valid()
      modifies this`subscriptions, this`queues
      ensures Valid() && State() == Apply(old(State()), Op.Subscribe(queue, subscription))
    {
      if queue !in subscriptions {
        subscriptions := subscriptions[queue := subscription];
      }
      if queue !in queues {
        queues := queues[queue := []];
      }
    }

    method RemoveSubscription(queue: string)
      requires Valid()
      modifies this`subscriptions, this`queues
      ensures Valid() && State() == Apply(old(State()), Op.Unsubscribe(queue))
    {
      subscriptions := subscriptions - {queue};
      queues := queues - {queue};
    }

    /** Whether the topics of a pattern contain the routing key; not ok when the lookup throws. */
    method TopicsContain(pattern: string, routingKey: string) returns (ok: bool, found: bool)
      requires Valid()
      ensures ok <==> !(Split(pattern)[0] == ALL_SUBSEQUENT && [""] in topics.nodes)
      ensures ok ==> (found <==> Selects(topics.nodes.Keys, Split(pattern), routingKey))
    {
      var nodesMap;
      ok, nodesMap := topics.GetTopicNodes(pattern);
      found := routingKey in nodesMap;
      if ok {
        hide Covers, Represents;
        forall p ensures Matches(Split(pattern), p) <==> Covers(Split(pattern), p) {
          MatchesIsCovers(Split(pattern), p);
        }
        PathStringFound(topics.nodes, Split(pattern), routingKey, nodesMap.Keys);
      }
    }

    /** The queues whose subscription selects the routing key. */
    method GetQueues(routingKey: string) returns (ok: bool, selected: set<string>)
      requires Valid()
      ensures ok <==> !PublishThrows(State())
      ensures ok ==> forall q :: q in selected <==>
                q in subscriptions && Selects(topics.nodes.Keys, Split(subscriptions[q].routingKey), routingKey)
    {
      selected := {};
      ok := true;
      var rest := subscriptions.Keys;
      while rest != {}
        invariant rest <= subscriptions.Keys
        invariant forall q :: q in subscriptions && q !in rest ==> !LookupThrows(topics.nodes.Keys, subscriptions[q])
        invariant forall q :: q in selected <==>
                    && q in subscriptions && q !in rest
                    && Selects(topics.nodes.Keys, Split(subscriptions[q].routingKey), routingKey)
        decreases rest
      {
        var q :| q in rest;
        var found;
        ok, found := TopicsContain(subscriptions[q].routingKey, routingKey);
        if !ok {
          assert LookupThrows(State().topics, State().subscriptions[q]);
          return;
        }
        if found {
          selected := selected + {q};
        }
        rest := rest - {q};
      }
    }

    /** Appends to one queue, unless the contract differs. */
    method AddPublication(queue: string, publication: Publication)
      requires Valid()
      modifies this`queues
      ensures Valid()
      ensures queues == if queue in subscriptions && subscriptions[queue].contract == publication.contract
                        then old(queues)[queue := old(queues)[queue] + [publication]] else old(queues)
    {
      if queue !in subscriptions || subscriptions[queue].contract != publication.contract || queue !in queues {
        return;
      }
      queues := queues[queue := queues[queue] + [publication]];
    }

    method Publish(publication: Publication) returns (ok: bool)
      requires Valid()
      modifies this`queues
      ensures Valid() && State() == Apply(old(State()), Op.Publish(publication))
      ensures ok <==> !PublishThrows(old(State()))
    {
      hide Represents, Selects, PublishThrows;
      var selected;
      ghost var h := State();
      ok, selected := GetQueues(publication.routingKey);
      if !ok {
        return;
      }
      var rest := selected;
      while rest != {}
        invariant Valid() && rest <= selected
        invariant queues.Keys == h.queues.Keys
        invariant forall q :: q in queues ==>
                    queues[q] == if q !in rest && Receives(h, q, publication)
                                 then h.queues[q] + [publication] else h.queues[q]
        decreases rest
      {
        var q :| q in rest;
        AddPublication(q, publication);
        rest := rest - {q};
      }
      assert State().queues == Apply(h, Op.Publish(publication)).queues;
    }
  }

  lemma ProperAt(t: Nodes, p: Path)
    requires Represents(t) && p in t
    ensures Proper(p) && [] in t
  {
  }

  /** A path string found in the dictionary selects. */
  lemma {:induction false} FoundSelects(t: Nodes, pattern: Path, p: Path)
    requires Represents(t) && pattern != [] && p in t && Matches(pattern, p)
    ensures Selects(t.Keys, pattern, Join(p))
  {
    hide Represents;
    ProperAt(t, p);
    if p == [] {
      assert Join(p) == "";
    } else {
      SplitJoin(p);
    }
  }

  /** A routing key is among the path strings of the matched nodes exactly if its node matches, or
      if it is empty and the root matches. */
  lemma {:induction false} PathStringFound(t: Nodes, pattern: Path, routingKey: string, keys: set<string>)
    requires Represents(t) && pattern != []
    requires forall p :: p in t && Matches(pattern, p) ==> Join(p) in keys
    requires forall key :: key in keys ==> exists p :: p in t && Matches(pattern, p) && Join(p) == key
    ensures routingKey in keys <==> Selects(t.Keys, pattern, routingKey)
  {
    hide Represents, Split, Join;
    JoinSplit(routingKey);
    if routingKey in keys {
      var p :| p in t && Matches(pattern, p) && Join(p) == routingKey;
      FoundSelects(t, pattern, p);
    }
    if routingKey == "" && pattern[0] == ALL_SUBSEQUENT {
      RootString();
      RootMatches(t, pattern);
    }
  }

  lemma RootString()
    ensures Join([]) == ""
  {
  }

  lemma {:induction false} RootMatches(t: Nodes, pattern: Path)
    requires Represents(t) && pattern != [] && pattern[0] == ALL_SUBSEQUENT
    ensures [] in t && Matches(pattern, [])
  {
  }

  // ----- runs -----

  predicate NoEmptyTopLevel(ops: seq<Op>) {
    forall i :: 0 <= i < |ops| && ops[i].Advertise? ==> Split(ops[i].routingKey)[0] != ""
  }

  /** In every run the tree stays prefix-closed and every subscription has its queue; without a
      top-level empty key, no publish ever throws. */
  lemma {:induction false} RunInvariant(ops: seq<Op>)
    ensures var h := Run(ops);
            && PrefixClosed(h.topics)
            && h.subscriptions.Keys == h.queues.Keys
            && (NoEmptyTopLevel(ops) ==> [""] !in h.topics && !PublishThrows(h))
  {
    if ops != [] {
      var front, op := ops[..|ops| - 1], ops[|ops| - 1];
      RunInvariant(front);
      var h := Run(front);
      match op
      case Advertise(r) =>
        AddKeepsClosed(h.topics, Split(r));
        if [""] in Prefixes(Split(r)) {
          var k :| 0 <= k <= |Split(r)| && [""] == Split(r)[..k];
          assert Split(r)[0] == [""][0];
        }
      case UnAdvertise(r) =>
        if IsLeaf(h.topics, Split(r)) {
          RemoveKeepsClosed(h.topics, Split(r));
        }
      case _ =>
    }
  }

  /** What matching patterns one by one would give: a queue's pattern matches the routing key and
      its contract is the publication's. */
  predicate Wanted(h: Hub, q: string, p: Publication) {
    && q in h.subscriptions
    && Covers(Split(h.subscriptions[q].routingKey), Split(p.routingKey))
    && h.subscriptions[q].contract == p.contract
  }

  /** The publication went once to exactly the wanted queues, and nothing else changed. */
  predicate Agrees(before: Hub, after: Hub, p: Publication) {
    && after.subscriptions == before.subscriptions && after.topics == before.topics
    && after.queues.Keys == before.queues.Keys
    && forall q :: q in before.queues ==>
         after.queues[q] == before.queues[q] + (if Wanted(before, q, p) then [p] else [])
  }

  /** Once the routing key is a node, the trie selects what matching would. */
  lemma {:induction false} SelectsIsMatching(topics: set<Path>, pattern: Path, routingKey: string)
    requires pattern != [] && Split(routingKey) in topics
    ensures Selects(topics, pattern, routingKey) <==> Matches(pattern, Split(routingKey))
  {
  }

  lemma ReceivesIsWanted(h: Hub, q: string, p: Publication)
    requires Split(p.routingKey) in h.topics
    ensures Receives(h, q, p) <==> Wanted(h, q, p)
  {
    hide Selects, Matches, Covers, Split;
    if q in h.subscriptions {
      MatchesIsCovers(Split(h.subscriptions[q].routingKey), Split(p.routingKey));
      SelectsIsMatching(h.topics, Split(h.subscriptions[q].routingKey), p.routingKey);
    }
  }

  lemma PublishAgrees(before: Hub, p: Publication)
    requires before.subscriptions.Keys == before.queues.Keys && Split(p.routingKey) in before.topics
    ensures Agrees(before, Apply(before, Publish(p)), p)
            <==> !(PublishThrows(before) && exists q :: Wanted(before, q, p))
  {
    hide Receives, Wanted, PublishThrows;
    var after := Apply(before, Publish(p));
    forall q ensures Receives(before, q, p) <==> Wanted(before, q, p) {
      ReceivesIsWanted(before, q, p);
    }
    if PublishThrows(before) {
      if q :| Wanted(before, q, p) {
        WantedHasQueue(before, q, p);
        assert before.queues[q] != before.queues[q] + [p];
      }
    }
  }

  lemma WantedHasQueue(h: Hub, q: string, p: Publication)
    requires Wanted(h, q, p) && h.subscriptions.Keys == h.queues.Keys
    ensures q in h.queues
  {
    assert q in h.subscriptions.Keys;
  }

  lemma {:induction false} AdvertiseAdds(h: Hub, routingKey: string)
    requires PrefixClosed(h.topics)
    ensures Split(routingKey) in Apply(h, Advertise(routingKey)).topics
  {
    AddKeepsClosed(h.topics, Split(routingKey));
  }

  lemma {:induction false} Advertised(ops: seq<Op>, p: Publication)
    ensures var ops1 := ops + [Advertise(p.routingKey)];
            && Run(ops + [Advertise(p.routingKey), Publish(p)]) == Apply(Run(ops1), Publish(p))
            && Run(ops1).subscriptions.Keys == Run(ops1).queues.Keys
            && Split(p.routingKey) in Run(ops1).topics
  {
    hide Apply;
    var ops1 := ops + [Advertise(p.routingKey)];
    var ops2 := ops + [Advertise(p.routingKey), Publish(p)];
    assert ops1[..|ops1| - 1] == ops && ops2[..|ops2| - 1] == ops1;
    RunInvariant(ops1);
    RunInvariant(ops);
    AdvertiseAdds(Run(ops), p.routingKey);
  }

  /** Index agreement, exactly: after any operations, advertising a routing key and publishing under
      it reaches exactly the queues that matching would, if and only if no subscription's lookup
      throws or no queue wants the publication. */
  lemma {:induction false} IndexAgreementExactly(ops: seq<Op>, p: Publication)
    ensures var before := Run(ops + [Advertise(p.routingKey)]);
            var after := Run(ops + [Advertise(p.routingKey), Publish(p)]);
            Agrees(before, after, p) <==> !(PublishThrows(before) && exists q :: Wanted(before, q, p))
  {
    hide Run, Apply, Agrees, PublishThrows, Wanted;
    Advertised(ops, p);
    PublishAgrees(Run(ops + [Advertise(p.routingKey)]), p);
  }

  /** Without a top-level empty key the trie and matching always agree. */
  lemma {:induction false} IndexAgreement(ops: seq<Op>, p: Publication)
    requires NoEmptyTopLevel(ops) && Split(p.routingKey)[0] != ""
    ensures Agrees(Run(ops + [Advertise(p.routingKey)]), Run(ops + [Advertise(p.routingKey), Publish(p)]), p)
  {
    hide Run, Apply, Agrees, PublishThrows, Wanted;
    IndexAgreementExactly(ops, p);
    RunInvariant(ops + [Advertise(p.routingKey)]);
  }

  /** A subscription to everything misses a publication under a key that starts with the separator. */
  lemma EmptyKeyExample(contract: string, message: seq<char>)
    ensures var p := Publication(contract, "/x", message);
            var ops := [Op.Subscribe("q", Subscription("#", contract))];
            var before := Run(ops + [Advertise("/x")]);
            && Wanted(before, "q", p)
            && Run(ops + [Advertise("/x"), Publish(p)]) == before
            && !Agrees(before, before, p)
  {
    var p := Publication(contract, "/x", message);
    var ops := [Op.Subscribe("q", Subscription("#", contract))];
    var before := Run(ops + [Advertise("/x")]);
    ExampleSplits();
    Advertised(ops, p);
    assert (ops + [Advertise("/x")])[..1] == ops && ops[..0] == [];
    assert Run(ops).subscriptions == map["q" := Subscription("#", contract)];
    assert ["", "x"][..1] == [""];
    assert LookupThrows(before.topics, before.subscriptions["q"]);
    assert before.queues["q"] != before.queues["q"] + [p];
  }

  lemma ExampleSplits()
    ensures Split("/x") == ["", "x"] && Split("#") == ["#"]
  {
    SplitPlain("#", "");
    SplitPlain("x", "");
    SplitPlain("", "x");
    assert "" + [SEPARATOR] + "x" == "/x";
  }

  // ----- what a run stores, told from its operations alone -----

  /** The queue was subscribed at step `i` and has not been unsubscribed since. */
  predicate Standing(ops: seq<Op>, q: string, i: nat) {
    && i < |ops| && ops[i].Subscribe? && ops[i].queue == q
    && forall j :: i < j < |ops| ==> ops[j] != Op.Unsubscribe(q)
  }

  /** Step `i` is the earliest subscription of the queue after its last unsubscription. */
  predicate First(ops: seq<Op>, q: string, i: nat) {
    && Standing(ops, q, i)
    && forall k :: 0 <= k < i ==> !Standing(ops, q, k)
  }

  lemma StandingGrows(ops: seq<Op>, q: string, i: nat)
    requires ops != []
    ensures var n := |ops| - 1;
            Standing(ops, q, i) <==>
              || (Standing(ops[..n], q, i) && ops[n] != Op.Unsubscribe(q))
              || (i == n && ops[n].Subscribe? && ops[n].queue == q)
  {
    var n := |ops| - 1;
    if Standing(ops[..n], q, i) && ops[n] != Op.Unsubscribe(q) {
      forall j | i < j < |ops| ensures ops[j] != Op.Unsubscribe(q) {
        if j < n { assert ops[..n][j] == ops[j]; }
      }
    }
    if Standing(ops, q, i) && i < n {
      forall j | i < j < n ensures ops[..n][j] != Op.Unsubscribe(q) {
        assert ops[..n][j] == ops[j];
      }
    }
  }

  lemma FirstExists(ops: seq<Op>, q: string, i: nat) returns (k: nat)
    requires Standing(ops, q, i)
    ensures First(ops, q, k)
    decreases i
  {
    if j: nat :| 0 <= j < i && Standing(ops, q, j) {
      k := FirstExists(ops, q, j);
    } else {
      k := i;
    }
  }

  /** Who is subscribed, and to what: in every run the subscription of a queue is the earliest one after
      its last unsubscription, and there is none otherwise. */
  lemma {:induction false} SubscriptionExactly(ops: seq<Op>, q: string)
    ensures q in Run(ops).subscriptions <==> exists i: nat :: Standing(ops, q, i)
    ensures forall i: nat :: First(ops, q, i) ==>
              q in Run(ops).subscriptions && Run(ops).subscriptions[q] == ops[i].subscription
  {
    if ops != [] {
      var n := |ops| - 1;
      var front, op := ops[..n], ops[n];
      SubscriptionExactly(front, q);
      SubscriptionsAfter(Run(front), op, q);
      hide Apply, Standing;
      forall i: nat
        ensures Standing(ops, q, i) <==>
          (Standing(front, q, i) && op != Op.Unsubscribe(q)) || (i == n && op.Subscribe? && op.queue == q)
      {
        StandingGrows(ops, q, i);
      }
      StandingBelow(front, q);
      if i: nat :| Standing(front, q, i) && op != Op.Unsubscribe(q) {
        assert Standing(ops, q, i);
      }
      if op.Subscribe? && op.queue == q {
        assert Standing(ops, q, n);
        assert forall j: nat :: Standing(front, q, j) ==> Standing(ops, q, j) && j < n;
      }
      forall i: nat | First(ops, q, i)
        ensures q in Run(ops).subscriptions && Run(ops).subscriptions[q] == ops[i].subscription
      {
        if i < n {
          assert First(front, q, i);
        }
      }
    }
  }

  lemma StandingBelow(ops: seq<Op>, q: string)
    ensures forall i: nat :: Standing(ops, q, i) ==> i < |ops|
  {
  }

  /** What one operation does to one queue's subscription. */
  lemma SubscriptionsAfter(h: Hub, op: Op, q: string)
    ensures var h' := Apply(h, op);
      && (q in h'.subscriptions <==>
            (q in h.subscriptions && op != Op.Unsubscribe(q)) || (op.Subscribe? && op.queue == q))
      && (q in h.subscriptions && q in h'.subscriptions ==> h'.subscriptions[q] == h.subscriptions[q])
      && (q !in h.subscriptions && q in h'.subscriptions ==> op.Subscribe? && h'.subscriptions[q] == op.subscription)
  {
    hide AddPath, RemovePath, Receives, PublishThrows;
  }

  lemma {:induction false} RunNext(ops: seq<Op>, op: Op)
    ensures Run(ops + [op]) == Apply(Run(ops), op)
  {
    assert (ops + [op])[..|ops|] == ops;
  }

  /** A queue that subscribes while it is not subscribed, be it again after an Unsubscribe, starts empty. */
  lemma {:induction false} FreshQueue(ops: seq<Op>, q: string, s: Subscription)
    requires forall i: nat :: !Standing(ops, q, i)
    ensures q in Run(ops + [Op.Subscribe(q, s)]).queues && Run(ops + [Op.Subscribe(q, s)]).queues[q] == []
  {
    SubscriptionExactly(ops, q);
    RunInvariant(ops);
    RunNext(ops, Op.Subscribe(q, s));
    hide Run;
    assert q !in Run(ops).subscriptions.Keys;
  }

  /** Only a publication adds to a queue, and only its own Unsubscribe drops it. */
  lemma {:induction false} QueuesKept(ops: seq<Op>, op: Op, q: string)
    requires q in Run(ops).queues && !op.Publish? && op != Op.Unsubscribe(q)
    ensures q in Run(ops + [op]).queues && Run(ops + [op]).queues[q] == Run(ops).queues[q]
  {
    hide Run, AddPath, RemovePath;
    RunNext(ops, op);
  }

  /** A publication under a key that is no node reaches nobody, except under the empty key. */
  lemma {:induction false} UnadvertisedReachesNobody(ops: seq<Op>, p: Publication)
    requires Split(p.routingKey) !in Run(ops).topics && p.routingKey != ""
    ensures Run(ops + [Publish(p)]) == Run(ops)
  {
    hide Run, PublishThrows;
    RunNext(ops, Publish(p));
    var h := Run(ops);
    assert forall q :: !Receives(h, q, p);
    assert h.queues == Apply(h, Publish(p)).queues;
  }

  /** Advertising adds exactly the prefixes of the path. */
  lemma {:induction false} AdvertiseExactly(ops: seq<Op>, routingKey: string)
    ensures var before, after := Run(ops), Run(ops + [Advertise(routingKey)]);
      && after.subscriptions == before.subscriptions && after.queues == before.queues
      && forall p :: p in after.topics <==> p in before.topics || p <= Split(routingKey)
  {
    hide Run;
    RunNext(ops, Advertise(routingKey));
    forall p | p <= Split(routingKey) ensures p in Prefixes(Split(routingKey)) {
      assert p == Split(routingKey)[..|p|];
    }
  }

  /** Unadvertising a leaf removes it from the leaves, and with it every path that led only to it;
      unadvertising anything else changes nothing. */
  lemma {:induction false} UnAdvertiseExactly(ops: seq<Op>, routingKey: string)
    ensures var before, after := Run(ops), Run(ops + [UnAdvertise(routingKey)]); var path := Split(routingKey);
      && after.subscriptions == before.subscriptions && after.queues == before.queues
      && (if path in Leaves(before.topics)
          then path !in after.topics && Leaves(after.topics) == Leaves(before.topics) - {path}
               && forall p :: p in after.topics <==> p in Closure(Leaves(before.topics) - {path})
          else after.topics == before.topics)
  {
    RunInvariant(ops);
    RunNext(ops, UnAdvertise(routingKey));
    hide Run, RemovePath;
    var before, path := Run(ops), Split(routingKey);
    if IsLeaf(before.topics, path) {
      RemoveLeaves(before.topics, path);
      RemoveIsClosure(before.topics, path);
      LeafGone(before.topics, path);
    }
  }

  lemma LeafGone(t: set<Path>, p: Path)
    requires PrefixClosed(t) && IsLeaf(t, p)
    ensures p !in RemovePath(t, p)
  {
    LonelyLeaf(t, p);
    assert p == p[..|p|] && p in Dangling(t, p, 1);
  }
}

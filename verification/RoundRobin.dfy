/** Round-robin attribution of groups to reducers: each new group id takes the next topic in
    turn, and keeps it. */
module RoundRobin {
  import opened Basics

  // ----- specification -----

  /** What the strategy remembers: the position of the next topic and who holds which topic. */
  datatype Attribution = Attribution(index: nat, topics: map<string, string>)

  /** One call: a known id gets its topic again, a new one takes the next in turn. */
  function Attribute(a: Attribution, elements: seq<string>, id: string): (r: (Attribution, string))
    requires a.index < |elements|
    ensures r.0.index < |elements|
  {
    if id in a.topics then (a, a.topics[id])
    else
      var topic := elements[a.index];
      (Attribution((a.index + 1) % |elements|, a.topics[id := topic]), topic)
  }

  /** The state after a whole sequence of calls. */
  function Run(elements: seq<string>, ids: seq<string>): (a: Attribution)
    requires elements != []
    ensures a.index < |elements|
  {
    if ids == [] then Attribution(0, map[])
    else Attribute(Run(elements, ids[..|ids| - 1]), elements, ids[|ids| - 1]).0
  }

  /** The topic each call of the sequence returned. */
  function Answers(elements: seq<string>, ids: seq<string>): (r: seq<string>)
    requires elements != []
    ensures |r| == |ids|
  {
    if ids == [] then []
    else
      Answers(elements, ids[..|ids| - 1])
      + [Attribute(Run(elements, ids[..|ids| - 1]), elements, ids[|ids| - 1]).1]
  }

  /** The ids that hold topic `t`. */
  function Held(topics: map<string, string>, t: string): set<string> {
    set id | id in topics && topics[id] == t
  }

  // ----- properties of every run -----

  predicate AllFrom(topics: map<string, string>, elements: seq<string>) {
    forall id :: id in topics ==> topics[id] in elements
  }

  lemma AttributeKeeps(a: Attribution, elements: seq<string>, id: string)
    requires a.index < |elements| && AllFrom(a.topics, elements)
    ensures var (b, topic) := Attribute(a, elements, id);
      && AllFrom(b.topics, elements)
      && b.topics.Keys == a.topics.Keys + {id} && b.topics[id] == topic
      && forall other :: other in a.topics ==> b.topics[other] == a.topics[other]
  {
  }

  /** Every call, early or late, was answered with the one topic the id holds at the end. */
  lemma {:induction false} AnswersAreSticky(elements: seq<string>, ids: seq<string>)
    requires elements != []
    ensures Run(elements, ids).topics.Keys == Elements(ids) && AllFrom(Run(elements, ids).topics, elements)
    ensures forall i :: 0 <= i < |ids| ==> Answers(elements, ids)[i] == Run(elements, ids).topics[ids[i]]
  {
    if ids != [] {
      hide Attribute;
      var front, id := ids[..|ids| - 1], ids[|ids| - 1];
      AnswersAreSticky(elements, front);
      AttributeKeeps(Run(elements, front), elements, id);
      assert Elements(ids) == Elements(front) + {id} by { assert ids == front + [id]; }
      forall i | 0 <= i < |ids| ensures Answers(elements, ids)[i] == Run(elements, ids).topics[ids[i]] {
        if i < |front| { assert front[i] in Elements(front); }
      }
    }
  }

  /** Equal ids always get the same topic. */
  lemma {:induction false} EqualIdsShareTopic(elements: seq<string>, ids: seq<string>, i: nat, j: nat)
    requires elements != [] && i < |ids| && j < |ids| && ids[i] == ids[j]
    ensures Answers(elements, ids)[i] == Answers(elements, ids)[j]
  {
    AnswersAreSticky(elements, ids);
  }

  /** The share of the topic at position `j` once `m` ids are spread over `r` topics. */
  function Share(m: nat, r: nat, j: nat): nat
    requires r > 0
  {
    m / r + (if j < m % r then 1 else 0)
  }

  lemma DivideUniquely(q: nat, r: nat, t: nat)
    requires t < r
    ensures (q * r + t) / r == q && (q * r + t) % r == t
  {
    var n := q * r + t;
    var q', t' := n / r, n % r;
    assert n == q' * r + t';
    if q' < q {
      MulGap(q', q, r);
    } else if q' > q {
      MulGap(q, q', r);
    }
  }

  lemma ShareGrows(m: nat, r: nat, j: nat)
    requires j < r
    ensures Share(m + 1, r, j) == Share(m, r, j) + (if j == m % r then 1 else 0)
    ensures (m + 1) % r == (m % r + 1) % r
  {
    var q, t := m / r, m % r;
    assert m == q * r + t;
    if t + 1 < r {
      DivideUniquely(q, r, t + 1);
      assert m + 1 == q * r + (t + 1);
      DivideUniquely(0, r, t + 1);
    } else {
      assert m + 1 == (q + 1) * r + 0;
      DivideUniquely(q + 1, r, 0);
      DivideUniquely(1, r, 0);
    }
  }

  lemma HeldGrows(topics: map<string, string>, id: string, topic: string, t: string)
    requires id !in topics
    ensures |Held(topics[id := topic], t)| == |Held(topics, t)| + (if t == topic then 1 else 0)
  {
    if t == topic {
      assert Held(topics[id := topic], t) == Held(topics, t) + {id};
    } else {
      assert Held(topics[id := topic], t) == Held(topics, t);
    }
  }

  lemma MapGrows(topics: map<string, string>, id: string, topic: string)
    requires id !in topics
    ensures |topics[id := topic]| == |topics| + 1
  {
    assert topics[id := topic].Keys == topics.Keys + {id};
    assert |topics[id := topic].Keys| == |topics.Keys| + 1;
  }

  lemma AttributeKeepsShares(a: Attribution, elements: seq<string>, id: string, j: nat)
    requires Distinct(elements) && j < |elements|
    requires a.index == |a.topics| % |elements|
    requires |Held(a.topics, elements[j])| == Share(|a.topics|, |elements|, j)
    ensures var b := Attribute(a, elements, id).0;
      b.index == |b.topics| % |elements| && |Held(b.topics, elements[j])| == Share(|b.topics|, |elements|, j)
  {
    hide Held, Share;
    if id !in a.topics {
      var topic := elements[a.index];
      HeldGrows(a.topics, id, topic, elements[j]);
      MapGrows(a.topics, id, topic);
      ShareGrows(|a.topics|, |elements|, j);
    }
  }

  lemma {:induction false} SharesOf(elements: seq<string>, ids: seq<string>, j: nat)
    requires Distinct(elements) && j < |elements|
    ensures var a := Run(elements, ids);
      a.index == |a.topics| % |elements| && |Held(a.topics, elements[j])| == Share(|a.topics|, |elements|, j)
  {
    if ids == [] {
      assert Run(elements, ids).topics == map[];
      assert Held(map[], elements[j]) == {};
    } else {
      SharesOf(elements, ids[..|ids| - 1], j);
      AttributeKeepsShares(Run(elements, ids[..|ids| - 1]), elements, ids[|ids| - 1], j);
    }
  }

  function Ceiling(m: nat, r: nat): nat
    requires r > 0
  {
    (m + r - 1) / r
  }

  lemma CeilingValue(m: nat, r: nat)
    requires r > 0
    ensures Ceiling(m, r) == m / r + (if m % r == 0 then 0 else 1)
  {
    var q, t := m / r, m % r;
    assert m == q * r + t;
    if t == 0 {
      DivideUniquely(q, r, r - 1);
    } else {
      assert m + r - 1 == (q + 1) * r + (t - 1);
      DivideUniquely(q + 1, r, t - 1);
    }
  }

  /** After any calls naming `m` distinct ids, each of `r` distinct reducers holds floor(m/r) or
      ceil(m/r) of them. */
  lemma {:induction false} Balanced(elements: seq<string>, ids: seq<string>, topic: string)
    requires Distinct(elements) && topic in elements
    ensures var m := |Elements(ids)|;
      |Held(Run(elements, ids).topics, topic)| in {m / |elements|, Ceiling(m, |elements|)}
  {
    hide Held, Attribute, Answers, Distinct;
    var j :| 0 <= j < |elements| && elements[j] == topic;
    AnswersAreSticky(elements, ids);
    SharesOf(elements, ids, j);
    var a := Run(elements, ids);
    assert |a.topics| == |a.topics.Keys|;
    CeilingValue(|a.topics|, |elements|);
  }

  // ----- the objects -----

  class RoundRobinAlgorithm {
    const elements: seq<string>
    var roundRobinIndex: nat

    ghost predicate Valid()
      reads this
    {
      roundRobinIndex < |elements|
    }

    constructor (elements: seq<string>)
      requires elements != []
      ensures Valid() && this.elements == elements && roundRobinIndex == 0
    {
      this.elements := elements;
      roundRobinIndex := 0;
    }

    method GetNextElement() returns (topic: string)
      requires Valid()
      modifies this
      ensures Valid()
      ensures topic == elements[old(roundRobinIndex)]
      ensures roundRobinIndex == (old(roundRobinIndex) + 1) % |elements|
    {
      topic := elements[roundRobinIndex];
      roundRobinIndex := (roundRobinIndex + 1) % |elements|;
    }
  }

  class RoundRobinAttributionStrategy {
    const algorithm: RoundRobinAlgorithm
    var groupIdTopicDict: map<string, string>
    /** Every group id asked for so far, in order. */
    ghost var asked: seq<string>

    ghost predicate Valid()
      reads this, algorithm
    {
      && algorithm.Valid()
      && Attribution(algorithm.roundRobinIndex, groupIdTopicDict) == Run(algorithm.elements, asked)
    }

    constructor (reduceRoutingKeys: seq<string>)
      requires reduceRoutingKeys != []
      ensures Valid() && fresh(algorithm)
      ensures algorithm.elements == reduceRoutingKeys && asked == []
    {
      algorithm := new RoundRobinAlgorithm(reduceRoutingKeys);
      groupIdTopicDict := map[];
      asked := [];
    }

    /** The answers, over the object's whole life, are those of the run of all its calls. */
    method GetTopicFrom(groupId: string) returns (topic: string)
      requires Valid()
      modifies this, algorithm
      ensures Valid()
      ensures asked == old(asked) + [groupId]
      ensures Answers(algorithm.elements, asked) == Answers(algorithm.elements, old(asked)) + [topic]
    {
      asked := asked + [groupId];
      assert asked[..|asked| - 1] == old(asked);
      if groupId in groupIdTopicDict {
        return groupIdTopicDict[groupId];
      }
      topic := algorithm.GetNextElement();
      groupIdTopicDict := groupIdTopicDict[groupId := topic];
    }
  }
}

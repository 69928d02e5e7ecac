/** The topic trie as linked objects: children dictionaries and parent references changed in place.
    A ghost map from paths to nodes says which object stands for which path; every operation is
    proved against the path sets of `TopicPaths`. */
module TopicTree {
  import opened Basics
  import opened TopicPaths

  class TopicNode {
    var key: string
    var parent: TopicNode?
    var children: map<string, TopicNode>

    constructor (key: string, parent: TopicNode?)
      ensures this.key == key && this.parent == parent && children == map[]
    {
      this.key, this.parent, children := key, parent, map[];
    }
  }

  type Nodes = map<Path, TopicNode>

  ghost predicate LinkedUp(t: Nodes, p: Path)
    requires p in t && p != []
    reads t.Values
  {
    Up(p) in t && t[p].parent == t[Up(p)] && t[p].key == p[|p| - 1]
  }

  ghost predicate LinkedDown(t: Nodes, p: Path)
    requires p in t
    reads t.Values
  {
    && (forall k :: k in t[p].children <==> Down(p, k) in t)
    && (forall k :: k in t[p].children ==> t[p].children[k] == t[Down(p, k)])
  }

  ghost predicate AllUp(t: Nodes)
    reads t.Values
  {
    forall p :: p in t && p != [] ==> LinkedUp(t, p)
  }

  ghost predicate AllDown(t: Nodes)
    reads t.Values
  {
    forall p :: p in t ==> LinkedDown(t, p)
  }

  ghost predicate OnePathEach(t: Nodes) {
    forall p, q :: p in t && q in t && t[p] == t[q] ==> p == q
  }

  /** The objects form the tree of the paths in `t`: every node reachable under exactly one path,
      parent and child links inverse to each other, the root without parent. */
  ghost predicate Represents(t: Nodes)
    reads t.Values
  {
    && [] in t && t[[]].parent == null
    && (forall p :: p in t ==> Proper(p))
    && OnePathEach(t) && AllUp(t) && AllDown(t)
  }

  lemma RepresentsClosed(t: Nodes)
    requires Represents(t)
    ensures PrefixClosed(t.Keys)
  {
    forall p | p in t.Keys && p != [] ensures Up(p) in t.Keys {
      assert LinkedUp(t, p);
    }
  }

  /** `Represents` taken apart. */
  lemma RepresentsParts(t: Nodes)
    requires Represents(t)
    ensures [] in t && t[[]].parent == null && AllUp(t) && AllDown(t) && OnePathEach(t)
    ensures forall p :: p in t ==> Proper(p)
  {
  }

  /** `Represents` put together. */
  lemma RepresentsWhole(t: Nodes)
    requires [] in t && t[[]].parent == null && AllUp(t) && AllDown(t) && OnePathEach(t)
    requires forall p :: p in t ==> Proper(p)
    ensures Represents(t)
  {
  }

  lemma ChildrenAt(t: Nodes, at: Path)
    requires Represents(t) && at in t
    ensures PrefixClosed(t.Keys)
    ensures forall k :: k in t[at].children <==> Down(at, k) in t
    ensures forall k :: k in t[at].children ==> t[at].children[k] == t[Down(at, k)]
  {
    RepresentsClosed(t);
    assert LinkedDown(t, at);
  }

  lemma ParentAt(t: Nodes, at: Path)
    requires Represents(t) && at in t
    ensures t[at].parent == null <==> at == []
    ensures at != [] ==> Up(at) in t && t[at].parent == t[Up(at)] && t[at].key == at[|at| - 1]
  {
    assert at != [] ==> LinkedUp(t, at);
  }

  // ----- adding -----

  lemma NewChildUp(t: Nodes, at: Path, k: string, next: TopicNode)
    requires AllUp(t) && at in t && next.parent == t[at] && next.key == k && Down(at, k) !in t
    ensures AllUp(t[Down(at, k) := next])
  {
    var t' := t[Down(at, k) := next];
    assert Up(Down(at, k)) == at;
    forall p | p in t' && p != [] ensures LinkedUp(t', p) {
      assert p != Down(at, k) ==> LinkedUp(t, p);
    }
  }

  lemma NewChildDown(t: Nodes, at: Path, k: string, next: TopicNode)
    requires at in t && Down(at, k) !in t && next.children == map[]
    requires forall j :: Down(Down(at, k), j) !in t
    requires forall p :: p in t && p != at ==> LinkedDown(t, p)
    requires forall j :: j in t[at].children <==> Down(at, j) in t || j == k
    requires forall j :: j in t[at].children ==> t[at].children[j] == if j == k then next else t[Down(at, j)]
    ensures AllDown(t[Down(at, k) := next])
  {
    var c := Down(at, k);
    var t' := t[c := next];
    assert |c| == |at| + 1;
    forall p | p in t' ensures LinkedDown(t', p) {
      forall j ensures Down(p, j) == c <==> p == at && j == k {
        DownApart(p, j, at, k);
      }
      assert |Down(c, k)| == |c| + 1;
      assert p in t && p != at ==> LinkedDown(t, p);
    }
  }

  /** Hangs a fresh node under `at` for the key `k`. */
  method AddChild(ghost t: Nodes, node: TopicNode, k: string, ghost at: Path) returns (next: TopicNode, ghost t': Nodes)
    requires Represents(t) && at in t && t[at] == node
    requires k !in node.children && SEPARATOR !in k
    modifies node
    ensures fresh(next)
    ensures Represents(t') && t' == t[Down(at, k) := next]
    ensures t'.Values == t.Values + {next}
  {
    hide Represents, OnePathEach, Down, Proper;
    RepresentsParts(t);
    ChildrenAt(t, at);
    NothingBelowMissing(t, Down(at, k));
    next := new TopicNode(k, node);
    NewNodeOnce(t, Down(at, k), next);
    node.children := node.children[k := next];
    t' := t[Down(at, k) := next];
    forall p | p in t && p != [] ensures LinkedUp(t, p) {
      assert old(LinkedUp(t, p));
    }
    forall p | p in t && p != at ensures LinkedDown(t, p) {
      assert old(LinkedDown(t, p));
    }
    NewChildUp(t, at, k, next);
    NewChildDown(t, at, k, next);
    ProperDown(at, k);
    RepresentsWhole(t');
  }

  lemma NothingBelowMissing(t: Nodes, c: Path)
    requires Represents(t) && c !in t
    ensures forall j :: Down(c, j) !in t
  {
    forall j ensures Down(c, j) !in t {
      assert Up(Down(c, j)) == c;
      assert Down(c, j) in t ==> LinkedUp(t, Down(c, j));
    }
  }

  lemma NewNodeOnce(t: Nodes, c: Path, next: TopicNode)
    requires OnePathEach(t) && c !in t && next !in t.Values
    ensures OnePathEach(t[c := next]) && t[c := next].Values == t.Values + {next}
  {
    var t' := t[c := next];
    assert c in t'.Keys && forall p :: p in t ==> p in t'.Keys;
  }

  lemma ProperDown(at: Path, k: string)
    requires Proper(at) && SEPARATOR !in k
    ensures Proper(Down(at, k)) && Down(at, k) != []
  {
  }

  lemma DownApart(p: Path, j: string, at: Path, k: string)
    ensures Down(p, j) == Down(at, k) <==> p == at && j == k
  {
    assert Up(Down(p, j)) == p && Up(Down(at, k)) == at;
  }

  /** The child for the key, created if it is missing. */
  method NextNode(ghost t: Nodes, node: TopicNode, key: string, ghost at: Path)
    returns (next: TopicNode, added: bool, ghost t': Nodes)
    requires Represents(t) && at in t && t[at] == node && SEPARATOR !in key
    modifies node
    ensures Represents(t') && t'.Keys == t.Keys + {Down(at, key)}
    ensures t'[Down(at, key)] == next
    ensures forall p :: p in t ==> t'[p] == t[p]
    ensures fresh(t'.Values - t.Values)
    ensures added <==> Down(at, key) !in t
  {
    ChildrenAt(t, at);
    if key in node.children {
      return node.children[key], false, t;
    }
    next, t' := AddChild(t, node, key, at);
    added := true;
  }

  /** Walks down along the keys, creating the missing nodes; returns whether the last was new. */
  method AddNodesFrom(ghost t: Nodes, node: TopicNode, patternKeys: Path, index: nat)
    returns (added: bool, ghost t': Nodes)
    requires Represents(t) && Proper(patternKeys) && index < |patternKeys|
    requires patternKeys[..index] in t && t[patternKeys[..index]] == node
    modifies t.Values
    ensures Represents(t') && t'.Keys == AddPath(t.Keys, patternKeys)
    ensures forall p :: p in t ==> t'[p] == t[p]
    ensures fresh(t'.Values - t.Values)
    ensures added <==> patternKeys !in t
    decreases |patternKeys| - index
  {
    hide Represents, AddPath, PrefixClosed;
    var key := patternKeys[index];
    assert Down(patternKeys[..index], key) == patternKeys[..index + 1];
    var nextNode, nextNodeAdded;
    ghost var t1;
    nextNode, nextNodeAdded, t1 := NextNode(t, node, key, patternKeys[..index]);
    AddPathStep(t.Keys, patternKeys, index, t1.Keys);
    if index < |patternKeys| - 1 {
      added, t' := AddNodesFrom(t1, nextNode, patternKeys, index + 1);
    } else {
      assert patternKeys[..index + 1] == patternKeys;
      RepresentsClosed(t1);
      AddPresent(t1.Keys, patternKeys);
      added, t' := nextNodeAdded, t1;
    }
  }

  lemma AddPathStep(t: set<Path>, p: Path, index: nat, t1: set<Path>)
    requires index < |p| && t1 == t + {p[..index + 1]}
    ensures AddPath(t1, p) == AddPath(t, p)
  {
    assert p[..index + 1] in Prefixes(p);
  }

  // ----- reading -----

  /** Collects the keys from the node up to the root. */
  method GetTopicPath(ghost t: Nodes, start: TopicNode, ghost at: Path) returns (path: string)
    requires Represents(t) && at in t && t[at] == start
    ensures path == Join(at)
  {
    hide Represents, Join;
    var topicKeys: Path := [];
    var node: TopicNode := start;
    ghost var p := at;
    ParentAt(t, p);
    while node.parent != null
      invariant p in t && t[p] == node && p + topicKeys == at
      invariant node.parent == null <==> p == []
      decreases |p|
    {
      ParentAt(t, p);
      topicKeys := [node.key] + topicKeys;
      assert p == Up(p) + [p[|p| - 1]];
      node := node.parent;
      p := Up(p);
      ParentAt(t, p);
    }
    assert [] + topicKeys == topicKeys;
    path := Join(topicKeys);
  }

  /** The nodes strictly below `at`, as paths. */
  function Below(t: set<Path>, at: Path): set<Path> {
    Subtree(t, at) - {at}
  }

  /** The list of nodes standing for a list of paths. */
  ghost predicate NodesOf(t: Nodes, ps: seq<Path>, nodes: seq<TopicNode>) {
    |ps| == |nodes| && forall i :: 0 <= i < |ps| ==> ps[i] in t && t[ps[i]] == nodes[i]
  }

  /** The part of the subtree that hangs under the given child keys. */
  function BelowKeys(t: set<Path>, at: Path, keys: set<string>): set<Path> {
    set p | p in Below(t, at) && |p| > |at| && p[|at|] in keys
  }

  lemma BelowKeysStep(t: set<Path>, at: Path, keys: set<string>, k: string)
    requires PrefixClosed(t) && Down(at, k) in t && k !in keys
    ensures BelowKeys(t, at, keys + {k}) == BelowKeys(t, at, keys) + Subtree(t, Down(at, k))
    ensures BelowKeys(t, at, keys) !! Subtree(t, Down(at, k))
    ensures Subtree(t, Down(at, k)) == Below(t, Down(at, k)) + {Down(at, k)}
  {
    var c := Down(at, k);
    assert c <= c;
    forall p ensures p in Subtree(t, c) <==> p in Below(t, at) && |p| > |at| && p[|at|] == k {
      if p in Subtree(t, c) {
        assert c == p[..|at| + 1];
        assert at == c[..|at|] == p[..|at|];
      }
      if p in Below(t, at) && |p| > |at| && p[|at|] == k {
        assert p[..|at| + 1] == c;
      }
    }
  }

  lemma BelowAllKeys(t: set<Path>, at: Path, keys: set<string>)
    requires PrefixClosed(t) && forall k :: Down(at, k) in t ==> k in keys
    ensures BelowKeys(t, at, keys) == Below(t, at)
    ensures BelowKeys(t, at, {}) == {}
  {
    forall p | p in Below(t, at) ensures p in BelowKeys(t, at, keys) {
      BelowChild(t, at, p);
    }
  }

  /** Appends every node below `node` to the list, children before their parents. */
  method GetAllChildren(ghost t: Nodes, node: TopicNode, nodes: seq<TopicNode>, ghost at: Path)
    returns (nodes': seq<TopicNode>, ghost paths: seq<Path>)
    requires Represents(t) && at in t && t[at] == node
    ensures |nodes| <= |nodes'| && nodes'[..|nodes|] == nodes
    ensures NodesOf(t, paths, nodes'[|nodes|..])
    ensures Distinct(paths) && Elements(paths) == Below(t.Keys, at)
    decreases Subtree(t.Keys, at)
  {
    hide Represents, PrefixClosed, Below, BelowKeys;
    nodes', paths := nodes, [];
    ChildrenAt(t, at);
    BelowAllKeys(t.Keys, at, node.children.Keys);
    if node.children == map[] {
      assert node.children.Keys == {};
      return;
    }
    var rest := node.children.Keys;
    assert node.children.Keys - rest == {};
    while rest != {}
      invariant rest <= node.children.Keys
      invariant |nodes| <= |nodes'| && nodes'[..|nodes|] == nodes
      invariant NodesOf(t, paths, nodes'[|nodes|..])
      invariant Distinct(paths) && Elements(paths) == BelowKeys(t.Keys, at, node.children.Keys - rest)
      decreases rest
    {
      var k :| k in rest;
      var child := node.children[k];
      SubtreeShrinks(t.Keys, at, k);
      ghost var done := node.children.Keys - rest;
      BelowKeysStep(t.Keys, at, done, k);
      ghost var before := nodes';
      ghost var below;
      nodes', below := GetAllChildren(t, child, nodes', Down(at, k));
      nodes' := nodes' + [child];
      ChildAppended(t, Down(at, k), child, below, nodes'[|before|..]);
      AppendPaths(t, paths, before[|nodes|..], below + [Down(at, k)], nodes'[|before|..]);
      assert nodes'[|nodes|..] == before[|nodes|..] + nodes'[|before|..];
      paths := paths + (below + [Down(at, k)]);
      rest := rest - {k};
      assert node.children.Keys - rest == done + {k};
    }
    assert node.children.Keys - rest == node.children.Keys;
  }

  lemma ChildAppended(t: Nodes, at: Path, node: TopicNode, below: seq<Path>, nodes: seq<TopicNode>)
    requires at in t && t[at] == node
    requires |nodes| > 0 && nodes[|nodes| - 1] == node && NodesOf(t, below, nodes[..|nodes| - 1])
    requires Distinct(below) && Elements(below) == Below(t.Keys, at)
    ensures NodesOf(t, below + [at], nodes)
    ensures Distinct(below + [at]) && Elements(below + [at]) == Below(t.Keys, at) + {at}
  {
    assert nodes == nodes[..|nodes| - 1] + [node];
    AppendPaths(t, below, nodes[..|nodes| - 1], [at], [node]);
  }

  lemma AppendPaths(t: Nodes, ps: seq<Path>, ns: seq<TopicNode>, ps': seq<Path>, ns': seq<TopicNode>)
    requires NodesOf(t, ps, ns) && NodesOf(t, ps', ns')
    requires Distinct(ps) && Distinct(ps') && Elements(ps) !! Elements(ps')
    ensures NodesOf(t, ps + ps', ns + ns')
    ensures Distinct(ps + ps') && Elements(ps + ps') == Elements(ps) + Elements(ps')
  {
    var all := ps + ps';
    forall i, j | 0 <= i < j < |all| ensures all[i] != all[j] {
      if i < |ps| <= j {
        assert ps[i] in Elements(ps) && ps'[j - |ps|] in Elements(ps');
      }
    }
  }

  // ----- looking up a pattern -----

  /** The nodes at or below `at` whose remaining path matches the pattern. */
  function MatchesAt(t: set<Path>, at: Path, pattern: Path): set<Path> {
    set p | p in Subtree(t, at) && Matches(pattern, p[|at|..])
  }

  /** The only two paths that share a path string. */
  predicate Clash(s: set<Path>) {
    [] in s && [""] in s
  }

  /** The dictionary `m` holds exactly the nodes of the paths in `s`, under their path strings. */
  ghost predicate Indexes(m: map<string, TopicNode>, t: Nodes, s: set<Path>) {
    && s <= t.Keys && !Clash(s)
    && (forall p :: p in s ==> Join(p) in m && m[Join(p)] == t[p])
    && (forall key :: key in m ==> exists p :: p in s && Join(p) == key)
  }

  /** `nodesMap.Add(node.GetTopicPath(), node)`: false when the key is already there, where the
      dictionary throws. */
  method AddEntry(ghost t: Nodes, m: map<string, TopicNode>, node: TopicNode, ghost at: Path, ghost s: set<Path>)
    returns (ok: bool, m': map<string, TopicNode>)
    requires Represents(t) && at in t && t[at] == node && at !in s
    requires Indexes(m, t, s)
    ensures ok <==> !Clash(s + {at})
    ensures ok ==> Indexes(m', t, s + {at})
  {
    var path := GetTopicPath(t, node, at);
    PathTaken(m, t, s, at);
    if path in m {
      return false, m;
    }
    ok, m' := true, m[path := node];
    EntryAdded(m, t, s, at);
  }

  /** A path string is taken only by the one other path that shares it. */
  lemma {:induction false} PathTaken(m: map<string, TopicNode>, t: Nodes, s: set<Path>, at: Path)
    requires Represents(t) && Indexes(m, t, s) && at in t && at !in s
    ensures Join(at) in m <==> Clash(s + {at})
  {
    forall p | p in s ensures Join(p) == Join(at) <==> {p, at} == {[], [""]} {
      JoinApart(p, at);
    }
    if Join(at) in m {
      var p :| p in s && Join(p) == Join(at);
      assert [] in {p, at} && [""] in {p, at};
    }
    if Clash(s + {at}) {
      var other := if at == [] then [""] else [];
      assert other in s && {other, at} == {[], [""]};
    }
  }

  lemma {:induction false} EntryAdded(m: map<string, TopicNode>, t: Nodes, s: set<Path>, at: Path)
    requires Indexes(m, t, s) && at in t && !Clash(s + {at}) && Join(at) !in m
    ensures Indexes(m[Join(at) := t[at]], t, s + {at})
  {
    var m' := m[Join(at) := t[at]];
    forall p | p in s + {at} ensures Join(p) in m' && m'[Join(p)] == t[p] {
      if p != at {
        assert Join(p) in m;
      }
    }
    forall key | key in m' ensures exists p :: p in s + {at} && Join(p) == key {
      if key == Join(at) {
        assert at in s + {at};
      } else {
        var p :| p in s && Join(p) == key;
        assert p in s + {at};
      }
    }
  }

  method AddEntries(ghost t: Nodes, m: map<string, TopicNode>, nodes: seq<TopicNode>, ghost paths: seq<Path>,
      ghost s: set<Path>)
    returns (ok: bool, m': map<string, TopicNode>)
    requires Represents(t) && NodesOf(t, paths, nodes) && Distinct(paths) && Elements(paths) !! s
    requires Indexes(m, t, s)
    ensures ok <==> !Clash(s + Elements(paths))
    ensures ok ==> Indexes(m', t, s + Elements(paths))
  {
    hide Represents, Indexes;
    ok, m' := true, m;
    var i := 0;
    assert s + Elements(paths[..0]) == s;
    NoClash(m, t, s);
    while i < |nodes|
      invariant 0 <= i <= |nodes| && ok
      invariant !Clash(s + Elements(paths[..i])) && Indexes(m', t, s + Elements(paths[..i]))
    {
      assert paths[i] in Elements(paths);
      assert s + Elements(paths[..i + 1]) == s + Elements(paths[..i]) + {paths[i]};
      ok, m' := AddEntry(t, m', nodes[i], paths[i], s + Elements(paths[..i]));
      if !ok {
        assert s + Elements(paths[..i + 1]) <= s + Elements(paths);
        return;
      }
      i := i + 1;
    }
    assert paths[..i] == paths;
  }

  lemma NoClash(m: map<string, TopicNode>, t: Nodes, s: set<Path>)
    requires Indexes(m, t, s)
    ensures !Clash(s)
  {
  }

  /** The matches that go through the given children of `at`. */
  function MatchesThrough(t: set<Path>, at: Path, pattern: Path, keys: set<string>): set<Path> {
    set p | p in MatchesAt(t, at, pattern) && |p| > |at| && p[|at|] in keys
  }

  predicate Steps(pattern: Path, k: string) {
    pattern != [] && pattern[0] != ALL_SUBSEQUENT && (pattern[0] == SUBSEQUENT || pattern[0] == k)
  }

  lemma MatchesThroughStep(t: set<Path>, at: Path, pattern: Path, keys: set<string>, k: string)
    requires Steps(pattern, k) && k !in keys
    ensures MatchesThrough(t, at, pattern, keys + {k})
         == MatchesThrough(t, at, pattern, keys) + MatchesAt(t, Down(at, k), pattern[1..])
    ensures MatchesThrough(t, at, pattern, keys) !! MatchesAt(t, Down(at, k), pattern[1..])
    ensures MatchesAt(t, Down(at, k), pattern[1..]) <= MatchesAt(t, at, pattern)
  {
    var c := Down(at, k);
    forall p ensures p in MatchesAt(t, c, pattern[1..])
                <==> p in MatchesAt(t, at, pattern) && |p| > |at| && p[|at|] == k {
      if c <= p {
        assert c == p[..|at| + 1] && at == c[..|at|] == p[..|at|];
      }
      if at <= p && |p| > |at| {
        assert p[|at|..][0] == p[|at|] && p[|at|..][1..] == p[|c|..];
        if p[|at|] == k { assert p[..|at| + 1] == c; }
      }
    }
  }

  /** A wildcard goes through all children, a literal key through its own. */
  lemma MatchesThroughAll(t: set<Path>, at: Path, pattern: Path, keys: set<string>)
    requires PrefixClosed(t) && pattern != [] && pattern[0] != ALL_SUBSEQUENT
    requires forall k :: Down(at, k) in t && Steps(pattern, k) ==> k in keys
    ensures MatchesThrough(t, at, pattern, keys) == MatchesAt(t, at, pattern)
    ensures MatchesThrough(t, at, pattern, {}) == {}
  {
    forall p | p in MatchesAt(t, at, pattern) ensures p in MatchesThrough(t, at, pattern, keys) {
      var rest := p[|at|..];
      assert rest != [] && rest[0] == p[|at|];
      BelowChild(t, at, p);
    }
  }

  lemma MatchesAllSubsequent(t: set<Path>, at: Path, pattern: Path)
    requires pattern != [] && pattern[0] == ALL_SUBSEQUENT && at in t
    ensures MatchesAt(t, at, pattern) == {at} + Below(t, at)
    ensures at !in Below(t, at)
  {
  }

  lemma MatchesEmptyPattern(t: set<Path>, at: Path)
    requires at in t
    ensures MatchesAt(t, at, []) == {at}
  {
    forall p | p in MatchesAt(t, at, []) ensures p == at {
      assert p[|at|..] == [] && at == p[..|at|];
    }
  }

  /** Either the child is the match, or the rest of the pattern is looked up below it. */
  method VisitChild(ghost t: Nodes, m: map<string, TopicNode>, child: TopicNode, patternKeys: Path, index: nat,
      ghost at: Path, ghost s: set<Path>)
    returns (ok: bool, m': map<string, TopicNode>)
    requires Represents(t) && at in t && t[at] == child && index < |patternKeys|
    requires Indexes(m, t, s) && MatchesAt(t.Keys, at, patternKeys[index + 1..]) !! s
    ensures ok <==> !Clash(s + MatchesAt(t.Keys, at, patternKeys[index + 1..]))
    ensures ok ==> Indexes(m', t, s + MatchesAt(t.Keys, at, patternKeys[index + 1..]))
    decreases |patternKeys| - index, 0
  {
    hide Represents, Indexes, Clash;
    if index == |patternKeys| - 1 {
      MatchesEmptyPattern(t.Keys, at);
      hide MatchesAt;
      ok, m' := AddEntry(t, m, child, at, s);
    } else {
      ok, m' := GetNodesFrom(t, m, child, patternKeys, index + 1, at, s);
    }
  }

  method GetNodesFrom(ghost t: Nodes, m: map<string, TopicNode>, node: TopicNode, patternKeys: Path, index: nat,
      ghost at: Path, ghost s: set<Path>)
    returns (ok: bool, m': map<string, TopicNode>)
    requires Represents(t) && at in t && t[at] == node && index < |patternKeys|
    requires Indexes(m, t, s) && MatchesAt(t.Keys, at, patternKeys[index..]) !! s
    ensures ok <==> !Clash(s + MatchesAt(t.Keys, at, patternKeys[index..]))
    ensures ok ==> Indexes(m', t, s + MatchesAt(t.Keys, at, patternKeys[index..]))
    decreases |patternKeys| - index, 2
  {
    hide Represents, Indexes, MatchesAt, MatchesThrough, Below, PrefixClosed;
    var key := patternKeys[index];
    ghost var pattern := patternKeys[index..];
    assert pattern[0] == key && pattern[1..] == patternKeys[index + 1..];
    ChildrenAt(t, at);
    if key == ALL_SUBSEQUENT {
      MatchesAllSubsequent(t.Keys, at, pattern);
      assert s + MatchesAt(t.Keys, at, pattern) == (s + {at}) + Below(t.Keys, at);
      ok, m' := AddEntry(t, m, node, at, s);
      if !ok {
        return;
      }
      var nodes;
      ghost var paths;
      nodes, paths := GetAllChildren(t, node, [], at);
      assert nodes[0..] == nodes;
      ok, m' := AddEntries(t, m', nodes, paths, s + {at});
    } else if key == SUBSEQUENT {
      ok, m' := VisitChildren(t, m, node, patternKeys, index, at, s);
    } else if key in node.children {
      MatchesThroughAll(t.Keys, at, pattern, {key});
      MatchesThroughStep(t.Keys, at, pattern, {}, key);
      assert {} + {key} == {key};
      assert {} + MatchesAt(t.Keys, Down(at, key), pattern[1..]) == MatchesAt(t.Keys, Down(at, key), pattern[1..]);
      ok, m' := VisitChild(t, m, node.children[key], patternKeys, index, Down(at, key), s);
    } else {
      MatchesThroughAll(t.Keys, at, pattern, {});
      NoClash(m, t, s);
      assert s + MatchesAt(t.Keys, at, pattern) == s;
      ok, m' := true, m;
    }
  }

  /** One level of `*`: every child in turn. */
  method VisitChildren(ghost t: Nodes, m: map<string, TopicNode>, node: TopicNode, patternKeys: Path, index: nat,
      ghost at: Path, ghost s: set<Path>)
    returns (ok: bool, m': map<string, TopicNode>)
    requires Represents(t) && at in t && t[at] == node && index < |patternKeys| && patternKeys[index] == SUBSEQUENT
    requires Indexes(m, t, s) && MatchesAt(t.Keys, at, patternKeys[index..]) !! s
    ensures ok <==> !Clash(s + MatchesAt(t.Keys, at, patternKeys[index..]))
    ensures ok ==> Indexes(m', t, s + MatchesAt(t.Keys, at, patternKeys[index..]))
    decreases |patternKeys| - index, 1
  {
    hide Represents, Indexes, MatchesAt, MatchesThrough, PrefixClosed;
    ghost var pattern := patternKeys[index..];
    assert pattern[0] == SUBSEQUENT && pattern[1..] == patternKeys[index + 1..];
    ChildrenAt(t, at);
    MatchesThroughAll(t.Keys, at, pattern, node.children.Keys);
    NoClash(m, t, s);
    ok, m' := true, m;
    var rest := node.children.Keys;
    ghost var done: set<string> := {};
    assert s + MatchesThrough(t.Keys, at, pattern, done) == s;
    while rest != {}
      invariant rest <= node.children.Keys && done == node.children.Keys - rest && ok
      invariant !Clash(s + MatchesThrough(t.Keys, at, pattern, done))
      invariant Indexes(m', t, s + MatchesThrough(t.Keys, at, pattern, done))
      decreases rest
    {
      var k :| k in rest;
      MatchesThroughStep(t.Keys, at, pattern, done, k);
      ghost var so := s + MatchesThrough(t.Keys, at, pattern, done);
      ghost var more := MatchesAt(t.Keys, Down(at, k), pattern[1..]);
      assert s + MatchesThrough(t.Keys, at, pattern, done + {k}) == so + more;
      ok, m' := VisitChild(t, m', node.children[k], patternKeys, index, Down(at, k), so);
      if !ok {
        MatchesThroughSome(t.Keys, at, pattern, done + {k});
        return;
      }
      done := done + {k};
      rest := rest - {k};
    }
    assert done == node.children.Keys;
  }

  lemma MatchesThroughSome(t: set<Path>, at: Path, pattern: Path, keys: set<string>)
    ensures MatchesThrough(t, at, pattern, keys) <= MatchesAt(t, at, pattern)
  {
  }

  // ----- removing -----

  lemma LeafGoneUp(t: Nodes, gone: Path)
    requires AllUp(t) && gone in t && forall k :: Down(gone, k) !in t
    ensures AllUp(t - {gone})
  {
    var t' := t - {gone};
    forall p | p in t' && p != [] ensures LinkedUp(t', p) {
      assert LinkedUp(t, p);
      assert Down(Up(p), p[|p| - 1]) == p;
    }
  }

  lemma LeafGoneDown(t: Nodes, at: Path, key: string)
    requires at in t && Down(at, key) in t
    requires forall p :: p in t && p != at ==> LinkedDown(t, p)
    requires forall k :: k in t[at].children <==> Down(at, k) in t && k != key
    requires forall k :: k in t[at].children ==> t[at].children[k] == t[Down(at, k)]
    ensures AllDown(t - {Down(at, key)})
  {
    var gone := Down(at, key);
    var t' := t - {gone};
    forall p | p in t' ensures LinkedDown(t', p) {
      forall k ensures Down(p, k) == gone <==> p == at && k == key {
        DownApart(p, k, at, key);
      }
      assert p != at ==> LinkedDown(t, p);
    }
  }

  /** Takes a childless node out of its parent's dictionary. */
  method RemoveChild(ghost t: Nodes, node: TopicNode, key: string, ghost at: Path) returns (ghost t': Nodes)
    requires Represents(t) && at in t && t[at] == node && key in node.children
    requires Down(at, key) in t && t[Down(at, key)].children == map[]
    modifies node
    ensures Represents(t') && t' == t - {Down(at, key)}
    ensures node.parent == old(node.parent) && node.key == old(node.key)
  {
    hide Represents, OnePathEach, Proper, Down;
    RepresentsParts(t);
    ChildrenAt(t, at);
    ChildrenAt(t, Down(at, key));
    DownLonger(at, key);
    node.children := node.children - {key};
    t' := t - {Down(at, key)};
    forall p | p in t && p != [] ensures LinkedUp(t, p) {
      assert old(LinkedUp(t, p));
    }
    forall p | p in t && p != at ensures LinkedDown(t, p) {
      assert old(LinkedDown(t, p));
    }
    LeafGoneUp(t, Down(at, key));
    LeafGoneDown(t, at, key);
    OnePathFewer(t, Down(at, key));
    RepresentsWhole(t');
  }

  lemma DownLonger(at: Path, key: string)
    ensures Down(at, key) != [] && Down(at, key) != at
  {
    assert |Down(at, key)| == |at| + 1;
  }

  lemma OnePathFewer(t: Nodes, gone: Path)
    requires OnePathEach(t)
    ensures OnePathEach(t - {gone})
  {
  }

  /** An ancestor has lost its last child exactly when it led to nothing but the removed leaf. */
  lemma PruneStep(t: set<Path>, p: Path, j: nat)
    requires PrefixClosed(t) && IsLeaf(t, p) && j < |p|
    ensures (forall k :: Down(p[..j], k) !in t - Dangling(t, p, j + 1)) <==> Lonely(t, p, j)
    ensures j >= 1 ==> Dangling(t, p, j) == Dangling(t, p, j + 1) + (if Lonely(t, p, j) then {p[..j]} else {})
    ensures p[..j] in t - Dangling(t, p, j + 1)
  {
    var at := p[..j];
    PrefixClosedTakes(t, p, j);
    if Lonely(t, p, j) {
      forall k ensures Down(at, k) !in t - Dangling(t, p, j + 1) {
        if Down(at, k) in t {
          LonelyChild(t, p, j, k);
        }
      }
    }
    if forall k :: Down(at, k) !in t - Dangling(t, p, j + 1) {
      forall q | q in t && at <= q ensures q <= p {
        if q != at {
          BelowChild(t, at, q);
          var c := Down(at, q[|at|]);
          assert c in Dangling(t, p, j + 1);
          var i :| 1 <= i <= |p| && j + 1 <= i && Lonely(t, p, i) && c == p[..i];
          assert i == j + 1;
        }
      }
    }
  }

  lemma LonelyChild(t: set<Path>, p: Path, j: nat, k: string)
    requires j < |p| && Lonely(t, p, j) && Down(p[..j], k) in t
    ensures Down(p[..j], k) in Dangling(t, p, j + 1)
  {
    var c := Down(p[..j], k);
    assert p[..j] == c[..j];
    assert c <= p;
    PrefixLength(p, c);
    forall q | q in t && p[..j + 1] <= q ensures q <= p {
      assert p[..j] == p[..j + 1][..j] == q[..j];
    }
    assert Lonely(t, p, j + 1);
  }

  /** Walks from the removed leaf's parent to the root, unhooking every node left childless. */
  method Prune(ghost t: set<Path>, ghost t1: Nodes, node: TopicNode, ghost p: Path) returns (ghost t': Nodes)
    requires PrefixClosed(t) && IsLeaf(t, p)
    requires Represents(t1) && t1.Keys == t - Dangling(t, p, |p|)
    requires p != [] && Up(p) in t1 && t1[Up(p)] == node
    modifies t1.Values
    ensures Represents(t') && t'.Keys == RemovePath(t, p)
    ensures forall q :: q in t' ==> q in t1 && t'[q] == t1[q]
  {
    hide Represents, PrefixClosed, Dangling, Lonely, IsLeaf;
    t' := t1;
    var parent: TopicNode? := node;
    ghost var j: int := |p| - 1;
    PruneStep(t, p, j);
    while parent != null
      invariant -1 <= j < |p|
      invariant Represents(t') && t'.Keys == t - Dangling(t, p, if j < 0 then 1 else j + 1)
      invariant j >= 0 <==> parent != null
      invariant j >= 0 ==> p[..j] in t' && t'[p[..j]] == parent
      invariant t'.Values <= t1.Values
      invariant forall q :: q in t' ==> q in t1 && t'[q] == t1[q]
      decreases j
    {
      assert j >= 0;
      ghost var at := p[..j];
      PruneStep(t, p, j);
      ChildrenAt(t', at);
      ParentAt(t', at);
      NoChildren(t', at);
      if parent.children == map[] {
        if parent.parent != null {
          UpOfPrefix(p, j);
          ChildrenAt(t', Up(at));
          t' := RemoveChild(t', parent.parent, parent.key, Up(at));
        }
      }
      parent := parent.parent;
      j := j - 1;
      if j >= 0 {
        UpOfPrefix(p, j + 1);
        PruneStep(t, p, j);
      }
    }
  }

  lemma NoChildren(t: Nodes, at: Path)
    requires Represents(t) && at in t
    ensures t[at].children == map[] <==> forall k :: Down(at, k) !in t.Keys
  {
    ChildrenAt(t, at);
    if t[at].children != map[] {
      assert t[at].children.Keys != {};
      var k :| k in t[at].children.Keys;
      assert Down(at, k) in t.Keys;
    }
  }

  lemma UpOfPrefix(p: Path, j: nat)
    requires 1 <= j <= |p|
    ensures p[..j] != [] && Up(p[..j]) == p[..j - 1] && Down(p[..j - 1], p[..j][j - 1]) == p[..j]
  {
  }

  method RemoveNodesFrom(ghost t: Nodes, node: TopicNode, patternKeys: Path, index: nat)
    returns (removed: bool, ghost t': Nodes)
    requires Represents(t) && index < |patternKeys|
    requires patternKeys[..index] in t && t[patternKeys[..index]] == node
    modifies t.Values
    ensures Represents(t')
    ensures removed <==> IsLeaf(t.Keys, patternKeys)
    ensures removed ==> t'.Keys == RemovePath(t.Keys, patternKeys)
    ensures !removed ==> t' == t && forall n :: n in t.Values ==> unchanged(n)
    ensures forall q :: q in t' ==> q in t && t'[q] == t[q]
    decreases |patternKeys| - index
  {
    hide Represents, PrefixClosed, RemovePath;
    var key := patternKeys[index];
    ghost var at := patternKeys[..index];
    assert Down(at, key) == patternKeys[..index + 1];
    ChildrenAt(t, at);
    if index == |patternKeys| - 1 {
      assert patternKeys[..index + 1] == patternKeys;
      if key !in node.children {
        return false, t;
      }
      ChildrenAt(t, patternKeys);
      NoChildren(t, patternKeys);
      if node.children[key].children != map[] {
        return false, t;
      }
      ghost var t1 := RemoveChild(t, node, key, at);
      OnlyItselfDangles(t.Keys, patternKeys);
      t' := Prune(t.Keys, t1, node, patternKeys);
      return true, t';
    }
    if key in node.children {
      removed, t' := RemoveNodesFrom(t, node.children[key], patternKeys, index + 1);
      return;
    }
    if patternKeys in t.Keys {
      PrefixClosedTakes(t.Keys, patternKeys, index + 1);
    }
    return false, t;
  }

  lemma OnlyItselfDangles(t: set<Path>, p: Path)
    requires PrefixClosed(t) && IsLeaf(t, p)
    ensures t - Dangling(t, p, |p|) == t - {p}
  {
    LonelyLeaf(t, p);
    assert p[..|p|] == p;
  }

  // ----- the whole tree -----

  class Topics {
    var root: TopicNode
    ghost var nodes: Nodes

    ghost predicate Valid()
      reads this, nodes.Values
    {
      Represents(nodes) && [] in nodes && nodes[[]] == root
    }

    constructor ()
      ensures Valid() && fresh(nodes.Values) && nodes.Keys == {[]}
    {
      var node := new TopicNode("default_root_should_never_appear_in_path", null);
      root := node;
      nodes := map[[] := node];
    }

    method AddTopicNodes(pattern: string) returns (added: bool)
      requires Valid()
      modifies this`nodes, nodes.Values
      ensures Valid() && nodes.Keys == AddPath(old(nodes.Keys), Split(pattern))
      ensures added <==> Split(pattern) !in old(nodes)
      ensures fresh(nodes.Values - old(nodes.Values))
    {
      JoinSplit(pattern);
      added, nodes := AddNodesFrom(nodes, root, Split(pattern), 0);
    }

    /** False when the dictionary throws on a duplicate key, which needs a top-level empty key. */
    method GetTopicNodes(pattern: string) returns (ok: bool, nodesMap: map<string, TopicNode>)
      requires Valid()
      ensures ok <==> !(Split(pattern)[0] == "#" && [""] in nodes)
      ensures ok ==>
        && (forall p :: p in nodes && Covers(Split(pattern), p) ==>
              Join(p) in nodesMap && nodesMap[Join(p)] == nodes[p])
        && (forall key :: key in nodesMap ==> exists p :: p in nodes && Covers(Split(pattern), p) && Join(p) == key)
    {
      hide Covers;
      var keys := Split(pattern);
      ok, nodesMap := GetNodesFrom(nodes, map[], root, keys, 0, [], {});
      assert keys[0..] == keys;
      ghost var matches := MatchesAt(nodes.Keys, [], keys);
      assert {} + matches == matches;
      forall p ensures p in matches <==> p in nodes && Covers(keys, p) {
        assert p[0..] == p;
        MatchesIsCovers(keys, p);
      }
      RootAndEmpty(keys);
    }

    method RemoveTopicNodes(pattern: string) returns (removed: bool)
      requires Valid()
      modifies this`nodes, nodes.Values
      ensures Valid()
      ensures removed <==> IsLeaf(old(nodes.Keys), Split(pattern))
      ensures nodes.Keys == if removed then RemovePath(old(nodes.Keys), Split(pattern)) else old(nodes.Keys)
      ensures !removed ==> nodes == old(nodes) && forall n :: n in old(nodes.Values) ==> unchanged(n)
    {
      removed, nodes := RemoveNodesFrom(nodes, root, Split(pattern), 0);
    }

    /** Every leaf once. */
    method GetTopicLeafs() returns (leafs: seq<TopicNode>)
      requires Valid()
      ensures Distinct(leafs)
      ensures forall p :: p in Leaves(nodes.Keys) ==> nodes[p] in leafs
      ensures forall n :: n in leafs ==> exists p :: p in Leaves(nodes.Keys) && nodes[p] == n
    {
      hide Represents, IsLeaf;
      var all;
      ghost var allPaths;
      all, allPaths := GetAllChildren(nodes, root, [], []);
      assert all[0..] == all;
      leafs := [];
      ghost var paths: seq<Path> := [];
      var i := 0;
      while i < |all|
        invariant 0 <= i <= |all|
        invariant NodesOf(nodes, paths, leafs) && Distinct(paths)
        invariant Elements(paths) == LeavesAmong(nodes.Keys, allPaths[..i])
      {
        var n := all[i];
        ghost var p := allPaths[i];
        LeafHere(nodes, p);
        assert p in Elements(allPaths) && p in Below(nodes.Keys, []);
        LeavesAmongStep(nodes.Keys, allPaths, i);
        if n.children == map[] {
          assert n == nodes[p];
          AppendPaths(nodes, paths, leafs, [p], [n]);
          leafs, paths := leafs + [n], paths + [p];
        }
        i := i + 1;
      }
      assert allPaths[..i] == allPaths;
      AllLeaves(nodes.Keys, allPaths);
      NodesOnce(nodes, paths, leafs);
    }
  }

  /** Distinct paths stand for distinct nodes, and each node of the list for one of them. */
  lemma NodesOnce(t: Nodes, paths: seq<Path>, list: seq<TopicNode>)
    requires Represents(t) && NodesOf(t, paths, list) && Distinct(paths)
    ensures Distinct(list)
    ensures forall p :: p in Elements(paths) ==> p in t && t[p] in list
    ensures forall n :: n in list ==> exists p :: p in Elements(paths) && p in t && t[p] == n
  {
    forall n | n in list ensures exists p :: p in Elements(paths) && p in t && t[p] == n {
      var i :| 0 <= i < |list| && list[i] == n;
      assert paths[i] in Elements(paths);
    }
  }

  /** Only a pattern that starts with "#" covers both paths of the empty string. */
  lemma RootAndEmpty(pattern: Path)
    requires pattern != []
    ensures Covers(pattern, []) && Covers(pattern, [""]) <==> pattern[0] == "#"
  {
    MatchesIsCovers(pattern, []);
    MatchesIsCovers(pattern, [""]);
  }

  ghost function LeavesAmong(t: set<Path>, ps: seq<Path>): set<Path> {
    set p | p in ps && IsLeaf(t, p)
  }

  lemma LeavesAmongStep(t: set<Path>, ps: seq<Path>, i: nat)
    requires i < |ps| && Distinct(ps)
    ensures LeavesAmong(t, ps[..i + 1]) == LeavesAmong(t, ps[..i]) + (if IsLeaf(t, ps[i]) then {ps[i]} else {})
    ensures ps[i] !in LeavesAmong(t, ps[..i])
    ensures Elements([ps[i]]) == {ps[i]}
  {
    assert ps[..i + 1] == ps[..i] + [ps[i]];
  }

  lemma AllLeaves(t: set<Path>, ps: seq<Path>)
    requires Elements(ps) == Below(t, [])
    ensures LeavesAmong(t, ps) == Leaves(t)
  {
    forall p ensures p in ps <==> p in t && p != [] {
      assert p in Elements(ps) <==> p in Below(t, []);
      assert [] <= p;
    }
  }

  /** `IsLeaf` of a node agrees with its path. */
  lemma LeafHere(t: Nodes, p: Path)
    requires Represents(t) && p in t
    ensures p != [] ==> (t[p].children == map[] <==> IsLeaf(t.Keys, p))
  {
    NoChildren(t, p);
  }
}

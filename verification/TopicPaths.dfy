/** Topics as paths of keys: splitting and joining, wildcard matching, and what adding and removing
    a topic means for a set of paths. Everything here is about values; the mutable tree is in
    `TopicTree`. */
module TopicPaths {
  type Path = seq<string>

  const SEPARATOR := '/'
  const ALL_SUBSEQUENT := "#"
  const SUBSEQUENT := "*"

  // ----- strings and paths -----

  function Split(s: string): (p: Path)
    ensures |p| >= 1
  {
    if s == "" then [""]
    else
      var rest := Split(s[1..]);
      if s[0] == SEPARATOR then [""] + rest else [[s[0]] + rest[0]] + rest[1..]
  }

  function Join(p: Path): string {
    if p == [] then ""
    else if |p| == 1 then p[0]
    else p[0] + [SEPARATOR] + Join(p[1..])
  }

  /** Keys as `Split` produces them: none contains the separator. */
  predicate Proper(p: Path) {
    forall i :: 0 <= i < |p| ==> SEPARATOR !in p[i]
  }

  lemma {:induction false} JoinSplit(s: string)
    ensures Join(Split(s)) == s && Proper(Split(s))
  {
    if s != "" {
      JoinSplit(s[1..]);
      var rest := Split(s[1..]);
      if s[0] == SEPARATOR {
        assert ([""] + rest)[1..] == rest;
        assert Join(Split(s)) == "" + [SEPARATOR] + Join(rest);
      } else {
        var p := [[s[0]] + rest[0]] + rest[1..];
        assert p[1..] == rest[1..];
        assert Join(p) == [s[0]] + Join(rest);
      }
      assert s == [s[0]] + s[1..];
    }
  }

  lemma {:induction false} SplitPlain(k: string, s: string)
    requires SEPARATOR !in k
    ensures Split(k) == [k]
    ensures Split(k + [SEPARATOR] + s) == [k] + Split(s)
  {
    if k == "" {
      assert (k + [SEPARATOR] + s)[1..] == s;
    } else {
      SplitPlain(k[1..], s);
      assert (k + [SEPARATOR] + s)[1..] == k[1..] + [SEPARATOR] + s;
      assert k == [k[0]] + k[1..];
    }
  }

  lemma {:induction false} SplitJoin(p: Path)
    requires Proper(p) && p != []
    ensures Split(Join(p)) == p
  {
    if |p| == 1 {
      SplitPlain(p[0], "");
    } else {
      SplitJoin(p[1..]);
      SplitPlain(p[0], Join(p[1..]));
      assert p == [p[0]] + p[1..];
    }
  }

  /** Joining keeps paths apart, except that the root and the path of one empty key share "". */
  lemma {:induction false} JoinApart(p: Path, q: Path)
    requires Proper(p) && Proper(q)
    ensures Join(p) == Join(q) <==> p == q || {p, q} == {[], [""]}
  {
    if p != [] { SplitJoin(p); }
    if q != [] { SplitJoin(q); }
    assert Split("") == [""];
    if {p, q} == {[], [""]} {
      assert p in {p, q} && q in {p, q};
    }
  }

  // ----- matching -----

  /** `#` stands for the node it is reached at and everything below, whatever follows it; `*` for
      exactly one level; any other key for itself. */
  predicate Matches(pattern: Path, path: Path) {
    if pattern == [] then path == []
    else if pattern[0] == ALL_SUBSEQUENT then true
    else path != [] && (pattern[0] == SUBSEQUENT || pattern[0] == path[0]) && Matches(pattern[1..], path[1..])
  }

  /** How many keys of a pattern come before its first "#". */
  function Levels(pattern: Path): (n: nat)
    ensures n <= |pattern|
    ensures forall i :: 0 <= i < n ==> pattern[i] != "#"
    ensures n < |pattern| ==> pattern[n] == "#"
  {
    if pattern == [] || pattern[0] == "#" then 0 else 1 + Levels(pattern[1..])
  }

  /** The meaning of a pattern, level by level: up to the first "#" every level is a "*" or the key
      itself; a "#" lets the path be any longer, without one the lengths agree. */
  predicate Covers(pattern: Path, path: Path) {
    var n := Levels(pattern);
    && (if n < |pattern| then |path| >= n else |path| == n)
    && forall i :: 0 <= i < n ==> pattern[i] == "*" || pattern[i] == path[i]
  }

  /** The recursive match of the lookup is that meaning. */
  lemma {:induction false} MatchesIsCovers(pattern: Path, path: Path)
    ensures Matches(pattern, path) <==> Covers(pattern, path)
    decreases |pattern|
  {
    if pattern != [] && pattern[0] != "#" && path != [] {
      MatchesIsCovers(pattern[1..], path[1..]);
      var n := Levels(pattern[1..]);
      if Covers(pattern, path) {
        forall i | 0 <= i < n ensures pattern[1..][i] == "*" || pattern[1..][i] == path[1..][i] {
          assert pattern[i + 1] == "*" || pattern[i + 1] == path[i + 1];
        }
      }
      if Matches(pattern, path) {
        forall i | 0 <= i < n + 1 ensures pattern[i] == "*" || pattern[i] == path[i] {
          if i > 0 { assert pattern[1..][i - 1] == "*" || pattern[1..][i - 1] == path[1..][i - 1]; }
        }
      }
    }
  }

  /** One more character in front: a new empty key before '/', a longer first key otherwise. */
  function Prepend(c: char, p: Path): Path
    requires p != []
  {
    if c == '/' then [""] + p else [[c] + p[0]] + p[1..]
  }

  lemma {:induction false} SplitHead(c: char, s: string)
    ensures Split([c] + s) == Prepend(c, Split(s))
  {
    assert ([c] + s)[1..] == s;
  }

  lemma PrependAppend(c: char, p: Path, q: Path)
    requires p != []
    ensures Prepend(c, p + q) == Prepend(c, p) + q
  {
    assert (p + q)[1..] == p[1..] + q;
  }

  /** Splitting cuts at every '/' and nowhere else. */
  lemma {:induction false} SplitAtSlash(s: string, t: string)
    ensures Split(s + "/" + t) == Split(s) + Split(t)
  {
    hide Split, Prepend;
    if s == "" {
      SplitHead('/', t);
      EmptySplit();
      PrependSlash(Split(t));
      assert "" + "/" + t == ['/'] + t;
    } else {
      SplitAtSlash(s[1..], t);
      SplitHead(s[0], s[1..]);
      SplitHead(s[0], s[1..] + "/" + t);
      assert s == [s[0]] + s[1..];
      assert s + "/" + t == [s[0]] + (s[1..] + "/" + t);
      PrependAppend(s[0], Split(s[1..]), Split(t));
    }
  }

  lemma {:induction false} SplitWithoutSlash(s: string)
    requires '/' !in s
    ensures Split(s) == [s]
  {
    if s != "" {
      SplitWithoutSlash(s[1..]);
      assert s == [s[0]] + s[1..];
    }
  }

  lemma PrependSlash(p: Path)
    requires p != []
    ensures Prepend('/', p) == [""] + p
  {
  }

  lemma EmptySplit()
    ensures Split("") == [""]
  {
  }

  // ----- trees as sets of paths -----

  function Up(p: Path): Path
    requires p != []
  {
    p[..|p| - 1]
  }

  function Down(p: Path, k: string): Path {
    p + [k]
  }

  ghost predicate PrefixClosed(t: set<Path>) {
    [] in t && forall p :: p in t && p != [] ==> Up(p) in t
  }

  function Prefixes(p: Path): set<Path> {
    set k | 0 <= k <= |p| :: p[..k]
  }

  /** The paths at or below `at`. */
  function Subtree(t: set<Path>, at: Path): set<Path> {
    set p | p in t && at <= p
  }

  ghost predicate IsLeaf(t: set<Path>, p: Path) {
    p in t && p != [] && forall k :: Down(p, k) !in t
  }

  ghost function Leaves(t: set<Path>): set<Path> {
    set p | p in t && IsLeaf(t, p)
  }

  ghost predicate Covered(leaves: set<Path>, q: Path) {
    exists p :: p in leaves && q <= p
  }

  /** All prefixes of the given paths, and the root. */
  ghost function Closure(leaves: set<Path>): iset<Path> {
    iset q | q == [] || Covered(leaves, q)
  }

  lemma {:induction false} PrefixClosedTakes(t: set<Path>, p: Path, k: nat)
    requires PrefixClosed(t) && p in t && k <= |p|
    ensures p[..k] in t
    decreases |p|
  {
    if k == |p| {
      assert p[..k] == p;
    } else {
      PrefixClosedTakes(t, Up(p), k);
      assert Up(p)[..k] == p[..k];
    }
  }

  lemma SubtreeShrinks(t: set<Path>, at: Path, k: string)
    requires at in t
    ensures Subtree(t, Down(at, k)) < Subtree(t, at)
  {
    forall p | p in Subtree(t, Down(at, k)) ensures p in Subtree(t, at) {
      assert at == Down(at, k)[..|at|] == p[..|at|];
    }
    assert at in Subtree(t, at) && at !in Subtree(t, Down(at, k));
  }

  /** Every path below `at` other than `at` itself lies below exactly one child. */
  lemma BelowChild(t: set<Path>, at: Path, p: Path)
    requires PrefixClosed(t) && p in Subtree(t, at) && p != at
    ensures |p| > |at| && Down(at, p[|at|]) in t && Down(at, p[|at|]) <= p
  {
    assert Down(at, p[|at|]) == p[..|at| + 1];
    PrefixClosedTakes(t, p, |at| + 1);
  }

  /** Every path is a prefix of some leaf, unless it is the root of an empty tree. */
  lemma {:induction false} LeafBelow(t: set<Path>, p: Path) returns (leaf: Path)
    requires PrefixClosed(t) && p in t && (p != [] || t != {[]})
    ensures IsLeaf(t, leaf) && p <= leaf
    decreases Subtree(t, p)
  {
    if p != [] && IsLeaf(t, p) {
      leaf := p;
    } else {
      var k;
      if p == [] {
        var q :| q in t && q != [];
        BelowChild(t, [], q);
        k := q[0];
      } else {
        k :| Down(p, k) in t;
      }
      SubtreeShrinks(t, p, k);
      leaf := LeafBelow(t, Down(p, k));
      assert p == Down(p, k)[..|p|] == leaf[..|p|];
    }
  }

  /** A tree is its leaves and their prefixes. */
  lemma TreeIsClosure(t: set<Path>)
    requires PrefixClosed(t)
    ensures forall q :: q in t <==> q in Closure(Leaves(t))
  {
    forall q ensures q in t <==> q in Closure(Leaves(t)) {
      if q in t && q != [] {
        var leaf := LeafBelow(t, q);
        assert leaf in Leaves(t);
      }
      if q in Closure(Leaves(t)) && q != [] {
        var p :| p in Leaves(t) && q <= p;
        PrefixClosedTakes(t, p, |q|);
        PrefixLength(p, q);
      }
    }
  }

  // ----- adding -----

  function AddPath(t: set<Path>, p: Path): set<Path> {
    t + Prefixes(p)
  }

  lemma AddKeepsClosed(t: set<Path>, p: Path)
    requires PrefixClosed(t)
    ensures PrefixClosed(AddPath(t, p)) && p in AddPath(t, p)
  {
    assert p == p[..|p|];
    forall q | q in AddPath(t, p) && q != [] ensures Up(q) in AddPath(t, p) {
      if q !in t {
        var k :| 0 <= k <= |p| && q == p[..k];
        assert Up(q) == p[..k - 1];
      }
    }
  }

  lemma AddPresent(t: set<Path>, p: Path)
    requires PrefixClosed(t)
    ensures AddPath(t, p) == t <==> p in t
  {
    assert p == p[..|p|];
    if p in t {
      forall q | q in Prefixes(p) ensures q in t {
        var k :| 0 <= k <= |p| && q == p[..k];
        PrefixClosedTakes(t, p, k);
      }
    }
  }

  // ----- removing -----

  /** Nothing but prefixes of `p` lies at or below its prefix of length `i`. */
  predicate Lonely(t: set<Path>, p: Path, i: nat)
    requires i <= |p|
  {
    forall q :: q in t && p[..i] <= q ==> q <= p
  }

  /** The prefixes of `p`, of length at least `from`, that only lead to `p`. */
  function Dangling(t: set<Path>, p: Path, from: nat): set<Path> {
    set i | 1 <= i <= |p| && from <= i && Lonely(t, p, i) :: p[..i]
  }

  /** Removing a leaf takes along every ancestor left without children. */
  function RemovePath(t: set<Path>, p: Path): set<Path> {
    t - Dangling(t, p, 1)
  }

  lemma PrefixLength(p: Path, q: Path)
    requires q <= p
    ensures p[..|q|] == q
  {
  }

  lemma NextPrefix(p: Path, n: nat)
    requires n < |p|
    ensures Down(p[..n], p[n]) == p[..n + 1] <= p
  {
  }

  lemma LonelyLeaf(t: set<Path>, p: Path)
    requires IsLeaf(t, p) && PrefixClosed(t)
    ensures Lonely(t, p, |p|)
  {
    forall q | q in t && p[..|p|] <= q ensures q <= p {
      assert p[..|p|] == p;
      if q != p {
        BelowChild(t, p, q);
      }
    }
  }

  /** Lonely prefixes are those no other leaf passes through. */
  lemma LonelyMeansNoOtherLeaf(t: set<Path>, p: Path, i: nat)
    requires PrefixClosed(t) && IsLeaf(t, p) && 1 <= i <= |p|
    ensures Lonely(t, p, i) <==> forall l :: IsLeaf(t, l) && p[..i] <= l ==> l == p
  {
    if Lonely(t, p, i) {
      forall l | IsLeaf(t, l) && p[..i] <= l ensures l == p {
        if l != p {
          assert l <= p;
          PrefixLength(p, l);
          NextPrefix(p, |l|);
          PrefixClosedTakes(t, p, |l| + 1);
        }
      }
    } else if forall l :: IsLeaf(t, l) && p[..i] <= l ==> l == p {
      var q :| q in t && p[..i] <= q && !(q <= p);
      assert q != [];
      var l := LeafBelow(t, q);
    }
  }

  /** Removing leaf `p` leaves exactly the prefixes of the other leaves. */
  lemma RemoveIsClosure(t: set<Path>, p: Path)
    requires PrefixClosed(t) && IsLeaf(t, p)
    ensures forall q :: q in RemovePath(t, p) <==> q in Closure(Leaves(t) - {p})
  {
    TreeIsClosure(t);
    forall q ensures q in RemovePath(t, p) <==> q in Closure(Leaves(t) - {p}) {
      if q != [] {
        if q <= p {
          PrefixLength(p, q);
          LonelyMeansNoOtherLeaf(t, p, |q|);
          PrefixClosedTakes(t, p, |q|);
          assert q in Dangling(t, p, 1) <==> Lonely(t, p, |q|) by {
            if q in Dangling(t, p, 1) {
              var i :| 1 <= i <= |p| && Lonely(t, p, i) && q == p[..i];
              assert i == |q|;
            }
          }
          if l :| IsLeaf(t, l) && q <= l && l != p { assert l in Leaves(t) - {p}; }
        } else {
          assert q !in Dangling(t, p, 1);
          if q in t {
            var l := LeafBelow(t, q);
            assert l in Leaves(t) - {p};
          }
        }
      } else {
        assert q !in Dangling(t, p, 1);
      }
    }
  }

  lemma RemoveKeepsClosed(t: set<Path>, p: Path)
    requires PrefixClosed(t) && IsLeaf(t, p)
    ensures PrefixClosed(RemovePath(t, p))
  {
    RemoveIsClosure(t, p);
    forall q | q in RemovePath(t, p) && q != [] ensures Up(q) in RemovePath(t, p) {
      var l :| l in Leaves(t) - {p} && q <= l;
      assert Up(q) <= l;
    }
  }

  lemma PrefixCovered(leaves: set<Path>, l: Path, n: nat)
    requires l in leaves && n <= |l|
    ensures l[..n] in Closure(leaves)
  {
    assert l[..n] <= l;
  }

  /** The leaf set afterwards is the old one without `p`: pruning never uncovers a new leaf. */
  lemma RemoveLeaves(t: set<Path>, p: Path)
    requires PrefixClosed(t) && IsLeaf(t, p)
    ensures Leaves(RemovePath(t, p)) == Leaves(t) - {p}
  {
    RemoveIsClosure(t, p);
    var t' := RemovePath(t, p);
    forall q ensures q in Leaves(t') <==> q in Leaves(t) - {p} {
      if q in Leaves(t') {
        var l :| l in Leaves(t) - {p} && q <= l;
        if q != l {
          PrefixLength(l, q);
          NextPrefix(l, |q|);
          PrefixCovered(Leaves(t) - {p}, l, |q| + 1);
        }
      }
      if q in Leaves(t) - {p} {
        assert q <= q;
        assert q in Closure(Leaves(t) - {p});
      }
    }
  }

  /** Removing what was just added restores the tree exactly when the path was new and its addition
      covered no leaf, or when it already was an inner path and nothing happened at all. */
  lemma RemoveAfterAdd(t: set<Path>, p: Path)
    requires PrefixClosed(t) && p != []
    ensures var t' := AddPath(t, p);
            var after := if IsLeaf(t', p) then RemovePath(t', p) else t';
            after == t <==>
              if p in t then !IsLeaf(t, p)
              else forall i :: 0 < i < |p| ==> !IsLeaf(t, p[..i])
  {
    var t' := AddPath(t, p);
    AddKeepsClosed(t, p);
    AddPresent(t, p);
    if p in t {
      if IsLeaf(t, p) {
        LonelyLeaf(t, p);
        assert p == p[..|p|] && p in Dangling(t, p, 1);
      }
    } else {
      NewPathIsLeaf(t, p);
      RemoveIsClosure(t', p);
      if i :| 0 < i < |p| && IsLeaf(t, p[..i]) {
        CoveredLeafIsLost(t, p, i);
      } else {
        forall q ensures q in RemovePath(t', p) <==> q in t {
          if q in t { OldPathSurvives(t, p, q); }
          if q in RemovePath(t', p) && q !in t { NewPathGoes(t, p, q); }
        }
      }
    }
  }

  lemma NewPathIsLeaf(t: set<Path>, p: Path)
    requires PrefixClosed(t) && p != [] && p !in t
    ensures IsLeaf(AddPath(t, p), p)
  {
    AddKeepsClosed(t, p);
    forall k ensures Down(p, k) !in AddPath(t, p) {
      assert Up(Down(p, k)) == p;
    }
  }

  lemma CoveredLeafIsLost(t: set<Path>, p: Path, i: nat)
    requires PrefixClosed(t) && p !in t && 0 < i < |p| && IsLeaf(t, p[..i])
    ensures p[..i] in t && p[..i] !in RemovePath(AddPath(t, p), p)
  {
    var t' := AddPath(t, p);
    LonelyLeaf(t, p[..i]);
    forall q | q in t' && p[..i] <= q ensures q <= p {
      if q in t {
        assert p[..i][..i] == p[..i];
        assert q <= p[..i];
      }
    }
    assert Lonely(t', p, i);
    assert p[..i] in Dangling(t', p, 1);
  }

  lemma OldPathSurvives(t: set<Path>, p: Path, q: Path)
    requires PrefixClosed(t) && p != [] && p !in t && q in t
    requires forall i :: 0 < i < |p| ==> !IsLeaf(t, p[..i])
    ensures q in RemovePath(AddPath(t, p), p)
  {
    var t' := AddPath(t, p);
    assert p[..|p|] == p;
    if q in Dangling(t', p, 1) {
      var i :| 1 <= i <= |p| && Lonely(t', p, i) && q == p[..i];
      var l := LeafBelow(t, q);
      assert l in t' && p[..i] <= l;
      assert l <= p;
      PrefixLength(p, l);
    }
  }

  lemma NewPathGoes(t: set<Path>, p: Path, q: Path)
    requires PrefixClosed(t) && p != [] && p !in t && q !in t && q in AddPath(t, p)
    ensures q !in RemovePath(AddPath(t, p), p)
  {
    var t' := AddPath(t, p);
    var i :| 0 <= i <= |p| && q == p[..i];
    forall r | r in t' && p[..i] <= r ensures r <= p {
      if r in t {
        PrefixLength(r, q);
        PrefixClosedTakes(t, r, i);
      }
    }
    assert Lonely(t', p, i);
    assert q in Dangling(t', p, 1);
  }
}

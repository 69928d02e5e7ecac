/** One sequential k-means step over exact reals, and why iterating it makes progress. */
module Lloyd {
  function Abs(x: real): real {
    if x < 0.0 then -x else x
  }

  function Sq(x: real): real {
    x * x
  }

  /** The closest of the first `n` centres, the earliest one on a tie (`OrderBy(...).First()`). */
  function NearestAmong(x: real, centres: seq<real>, n: nat): (r: nat)
    requires 1 <= n <= |centres|
    ensures r < n
    ensures forall j :: 0 <= j < n ==> Abs(centres[r] - x) <= Abs(centres[j] - x)
    ensures forall j :: 0 <= j < r ==> Abs(centres[r] - x) < Abs(centres[j] - x)
  {
    if n == 1 then 0
    else
      var best := NearestAmong(x, centres, n - 1);
      if Abs(centres[n - 1] - x) < Abs(centres[best] - x) then n - 1 else best
  }

  function Nearest(x: real, centres: seq<real>): (r: nat)
    requires centres != []
    ensures r < |centres|
    ensures forall j :: 0 <= j < |centres| ==> Abs(centres[r] - x) <= Abs(centres[j] - x)
    ensures forall j :: 0 <= j < r ==> Abs(centres[r] - x) < Abs(centres[j] - x)
  {
    NearestAmong(x, centres, |centres|)
  }

  type Assignment = seq<nat>

  function Assign(xs: seq<real>, centres: seq<real>): (a: Assignment)
    requires centres != []
    ensures |a| == |xs|
    ensures forall i :: 0 <= i < |xs| ==> a[i] == Nearest(xs[i], centres)
  {
    seq(|xs|, i requires 0 <= i < |xs| => Nearest(xs[i], centres))
  }

  function Sum(vs: seq<real>): real {
    if vs == [] then 0.0 else Sum(vs[..|vs| - 1]) + vs[|vs| - 1]
  }

  /** The values assigned to group `g`, in order. */
  function Members(xs: seq<real>, a: Assignment, g: nat): seq<real>
    requires |a| == |xs|
  {
    if xs == [] then []
    else
      Members(xs[..|xs| - 1], a[..|a| - 1], g) + (if a[|a| - 1] == g then [xs[|xs| - 1]] else [])
  }

  /** The average of the members, 0 for an empty group. */
  function Mean(vs: seq<real>): real {
    if vs == [] then 0.0 else Sum(vs) / |vs| as real
  }

  /** One iteration: assign every value to its nearest centre, then average each group. */
  function Step(xs: seq<real>, centres: seq<real>): (centres': seq<real>)
    requires centres != []
    ensures |centres'| == |centres|
    ensures forall g :: 0 <= g < |centres| ==> centres'[g] == Mean(Members(xs, Assign(xs, centres), g))
  {
    var a := Assign(xs, centres);
    seq(|centres|, g requires 0 <= g < |centres| => Mean(Members(xs, a, g)))
  }

  function Iterate(xs: seq<real>, centres: seq<real>, k: nat): (r: seq<real>)
    requires centres != []
    ensures |r| == |centres|
  {
    if k == 0 then centres else Step(xs, Iterate(xs, centres, k - 1))
  }

  // ----- squared error -----

  predicate InRange(a: Assignment, m: nat) {
    forall i :: 0 <= i < |a| ==> a[i] < m
  }

  function Cost(xs: seq<real>, a: Assignment, centres: seq<real>): real
    requires |a| == |xs| && InRange(a, |centres|)
  {
    if xs == [] then 0.0
    else Cost(xs[..|xs| - 1], a[..|a| - 1], centres) + Sq(xs[|xs| - 1] - centres[a[|a| - 1]])
  }

  /** The sum of squared distances to the nearest centres. */
  function Error(xs: seq<real>, centres: seq<real>): real
    requires centres != []
  {
    Cost(xs, Assign(xs, centres), centres)
  }

  function Spread(vs: seq<real>, c: real): real {
    if vs == [] then 0.0 else Spread(vs[..|vs| - 1], c) + Sq(vs[|vs| - 1] - c)
  }

  /** The squared error group by group, for the first `m` groups. */
  function GroupCost(xs: seq<real>, a: Assignment, centres: seq<real>, m: nat): real
    requires |a| == |xs| && m <= |centres|
  {
    if m == 0 then 0.0 else GroupCost(xs, a, centres, m - 1) + Spread(Members(xs, a, m - 1), centres[m - 1])
  }

  /** What moving group `g` is worth: its size times its squared move. */
  function Gain(xs: seq<real>, a: Assignment, from: seq<real>, to: seq<real>, g: nat): real
    requires |a| == |xs| && g < |from| && g < |to|
  {
    |Members(xs, a, g)| as real * Sq(to[g] - from[g])
  }

  /** What the moves of the first `m` groups are worth together. */
  function Progress(xs: seq<real>, a: Assignment, from: seq<real>, to: seq<real>, m: nat): real
    requires |a| == |xs| && m <= |from| && m <= |to|
  {
    if m == 0 then 0.0
    else Progress(xs, a, from, to, m - 1) + Gain(xs, a, from, to, m - 1)
  }

  lemma SqNonnegative(x: real)
    ensures Sq(x) >= 0.0
  {
  }

  lemma SqMonotone(x: real, y: real)
    requires Abs(x) <= Abs(y)
    ensures Sq(x) <= Sq(y)
  {
    assert Sq(x) == Abs(x) * Abs(x);
    assert Sq(y) == Abs(y) * Abs(y);
    SquareMonotone(Abs(x), Abs(y));
  }

  lemma SquareMonotone(a: real, b: real)
    requires 0.0 <= a <= b
    ensures a * a <= b * b
  {
    assert b * b - a * a == (b - a) * (b + a);
  }

  lemma {:induction false} CostNonnegative(xs: seq<real>, a: Assignment, centres: seq<real>)
    requires |a| == |xs| && InRange(a, |centres|)
    ensures Cost(xs, a, centres) >= 0.0
  {
    if xs != [] {
      CostNonnegative(xs[..|xs| - 1], a[..|a| - 1], centres);
      SqNonnegative(xs[|xs| - 1] - centres[a[|a| - 1]]);
    }
  }

  lemma AssignFront(xs: seq<real>, centres: seq<real>)
    requires xs != [] && centres != []
    ensures Assign(xs, centres)[..|xs| - 1] == Assign(xs[..|xs| - 1], centres)
    ensures Assign(xs, centres)[|xs| - 1] == Nearest(xs[|xs| - 1], centres)
  {
    hide Nearest;
  }

  lemma NearestSquared(x: real, centres: seq<real>, g: nat)
    requires g < |centres|
    ensures Sq(x - centres[Nearest(x, centres)]) <= Sq(x - centres[g])
  {
    hide Nearest, Sq;
    SqMonotone(centres[Nearest(x, centres)] - x, centres[g] - x);
    SqSymmetric(centres[Nearest(x, centres)], x);
    SqSymmetric(centres[g], x);
  }

  /** No assignment costs less than the nearest one. */
  lemma {:induction false} NearestIsBest(xs: seq<real>, a: Assignment, centres: seq<real>)
    requires |a| == |xs| && InRange(a, |centres|) && centres != []
    ensures Error(xs, centres) <= Cost(xs, a, centres)
  {
    hide Nearest, Assign, Sq;
    if xs != [] {
      var front, x := xs[..|xs| - 1], xs[|xs| - 1];
      NearestIsBest(front, a[..|a| - 1], centres);
      AssignFront(xs, centres);
      NearestSquared(x, centres, a[|a| - 1]);
    }
  }

  lemma SqSymmetric(x: real, y: real)
    ensures Sq(x - y) == Sq(y - x)
  {
  }

  lemma SpreadGrows(xs: seq<real>, a: Assignment, g: nat, c: real)
    requires |a| == |xs| && xs != []
    ensures Spread(Members(xs, a, g), c) == Spread(Members(xs[..|xs| - 1], a[..|a| - 1], g), c)
              + (if a[|a| - 1] == g then Sq(xs[|xs| - 1] - c) else 0.0)
  {
    hide Sq;
    var before := Members(xs[..|xs| - 1], a[..|a| - 1], g);
    if a[|a| - 1] == g {
      var after := before + [xs[|xs| - 1]];
      assert after[..|after| - 1] == before;
    } else {
      assert before + [] == before;
    }
  }

  /** Adding one value to a group adds its squared distance to the grouped sum. */
  lemma {:induction false} GroupCostGrows(xs: seq<real>, a: Assignment, centres: seq<real>, m: nat)
    requires |a| == |xs| && xs != [] && InRange(a, |centres|) && m <= |centres|
    ensures GroupCost(xs, a, centres, m) == GroupCost(xs[..|xs| - 1], a[..|a| - 1], centres, m)
              + (if a[|a| - 1] < m then Sq(xs[|xs| - 1] - centres[a[|a| - 1]]) else 0.0)
    decreases m
  {
    hide Sq, Spread, Members;
    if m > 0 {
      GroupCostGrows(xs, a, centres, m - 1);
      SpreadGrows(xs, a, m - 1, centres[m - 1]);
    }
  }

  lemma {:induction false} CostByGroup(xs: seq<real>, a: Assignment, centres: seq<real>)
    requires |a| == |xs| && InRange(a, |centres|)
    ensures Cost(xs, a, centres) == GroupCost(xs, a, centres, |centres|)
    decreases |xs|
  {
    hide Sq, GroupCost, Spread, Members;
    if xs == [] {
      GroupCostEmpty(a, centres, |centres|);
    } else {
      CostByGroup(xs[..|xs| - 1], a[..|a| - 1], centres);
      GroupCostGrows(xs, a, centres, |centres|);
    }
  }

  lemma {:induction false} GroupCostEmpty(a: Assignment, centres: seq<real>, m: nat)
    requires a == [] && m <= |centres|
    ensures GroupCost([], a, centres, m) == 0.0
  {
    if m > 0 { GroupCostEmpty(a, centres, m - 1); }
  }

  lemma SqShift(x: real, mu: real, c: real)
    ensures Sq(x - c) == Sq(x - mu) + 2.0 * ((mu - c) * (x - mu)) + Sq(mu - c)
  {
  }

  lemma Distribute(a: real, b: real, c: real)
    ensures a * b + a * c == a * (b + c)
    ensures b * a + c * a == (b + c) * a
  {
  }

  lemma ShiftStep(n: real, s: real, x: real, mu: real, c: real, toC: real, toMu: real)
    requires toC == toMu + 2.0 * ((mu - c) * (s - n * mu)) + n * Sq(mu - c)
    ensures toC + Sq(x - c)
         == toMu + Sq(x - mu) + 2.0 * ((mu - c) * (s + x - (n + 1.0) * mu)) + (n + 1.0) * Sq(mu - c)
  {
    hide Sq;
    SqShift(x, mu, c);
    Distribute(mu - c, s - n * mu, x - mu);
    Distribute(mu, n, 1.0);
    Distribute(Sq(mu - c), n, 1.0);
    assert s - n * mu + (x - mu) == s + x - (n + 1.0) * mu;
  }

  /** The squared distances to any point, split at another point. */
  lemma {:induction false} SpreadShifts(vs: seq<real>, mu: real, c: real)
    ensures Spread(vs, c)
         == Spread(vs, mu) + 2.0 * ((mu - c) * (Sum(vs) - |vs| as real * mu)) + |vs| as real * Sq(mu - c)
  {
    hide Sq;
    if vs == [] {
      Zero(mu, mu - c);
    } else {
      var front, x := vs[..|vs| - 1], vs[|vs| - 1];
      SpreadShifts(front, mu, c);
      ShiftStep(|front| as real, Sum(front), x, mu, c, Spread(front, c), Spread(front, mu));
    }
  }

  lemma Zero(mu: real, d: real)
    ensures 2.0 * (d * (0.0 - 0.0 * mu)) + 0.0 * Sq(d) == 0.0
  {
  }

  lemma {:induction false} MeanTimesSize(vs: seq<real>)
    requires vs != []
    ensures |vs| as real * Mean(vs) == Sum(vs)
  {
    var n, s := |vs| as real, Sum(vs);
    assert s / n * n == s;
  }

  /** Moving the centre to the mean lowers the spread by size times the squared move. */
  lemma {:induction false} SpreadAtMean(vs: seq<real>, c: real)
    ensures Spread(vs, c) == Spread(vs, Mean(vs)) + |vs| as real * Sq(Mean(vs) - c)
  {
    hide Sq, Mean;
    var mu := Mean(vs);
    if vs == [] {
      Zero(mu, mu - c);
    } else {
      MeanTimesSize(vs);
      SpreadShifts(vs, mu, c);
      Zeroed(mu - c, Sum(vs) - |vs| as real * mu);
    }
  }

  lemma Zeroed(d: real, r: real)
    requires r == 0.0
    ensures 2.0 * (d * r) == 0.0
  {
  }

  lemma {:induction false} AveragingGains(xs: seq<real>, a: Assignment, from: seq<real>, to: seq<real>, m: nat)
    requires |a| == |xs| && m <= |from| == |to|
    requires forall g :: 0 <= g < |to| ==> to[g] == Mean(Members(xs, a, g))
    ensures GroupCost(xs, a, from, m) == GroupCost(xs, a, to, m) + Progress(xs, a, from, to, m)
    decreases m
  {
    hide Sq, Mean, Spread, Members;
    if m > 0 {
      AveragingGains(xs, a, from, to, m - 1);
      SpreadAtMean(Members(xs, a, m - 1), from[m - 1]);
    }
  }

  /** Every iteration lowers the error by at least the sum over the groups of size times squared
      move; empty groups may move for free. */
  lemma {:induction false} StepLowersError(xs: seq<real>, centres: seq<real>)
    requires centres != []
    ensures Error(xs, Step(xs, centres))
         <= Error(xs, centres) - Progress(xs, Assign(xs, centres), centres, Step(xs, centres), |centres|)
  {
    hide Assign, Nearest, Cost, GroupCost, Progress, Mean, Members;
    var a := Assign(xs, centres);
    var next := Step(xs, centres);
    NearestIsBest(xs, a, next);
    CostByGroup(xs, a, centres);
    CostByGroup(xs, a, next);
    AveragingGains(xs, a, centres, next, |centres|);
  }

  // ----- iterations that move a nonempty group by more than 1 -----

  /** Some group that has members moved by more than `epsilon`. */
  predicate BigMove(xs: seq<real>, centres: seq<real>, epsilon: real)
    requires centres != []
  {
    exists g :: 0 <= g < |centres| && Members(xs, Assign(xs, centres), g) != []
             && Abs(Step(xs, centres)[g] - centres[g]) > epsilon
  }

  lemma GainNonnegative(xs: seq<real>, a: Assignment, from: seq<real>, to: seq<real>, g: nat)
    requires |a| == |xs| && g < |from| && g < |to|
    ensures Gain(xs, a, from, to, g) >= 0.0
  {
    hide Sq, Members;
    SqNonnegative(to[g] - from[g]);
    ScaleUp(|Members(xs, a, g)| as real, Sq(to[g] - from[g]));
  }

  lemma {:induction false} ProgressNonnegative(xs: seq<real>, a: Assignment, from: seq<real>, to: seq<real>, m: nat)
    requires |a| == |xs| && m <= |from| && m <= |to|
    ensures Progress(xs, a, from, to, m) >= 0.0
  {
    hide Gain;
    if m > 0 {
      ProgressNonnegative(xs, a, from, to, m - 1);
      GainNonnegative(xs, a, from, to, m - 1);
    }
  }

  lemma {:induction false} ProgressCoversGroup(xs: seq<real>, a: Assignment, from: seq<real>, to: seq<real>, m: nat,
      g: nat)
    requires |a| == |xs| && g < m <= |from| && m <= |to|
    ensures Progress(xs, a, from, to, m) >= Gain(xs, a, from, to, g)
    decreases m
  {
    hide Gain;
    GainNonnegative(xs, a, from, to, m - 1);
    if g == m - 1 {
      ProgressNonnegative(xs, a, from, to, m - 1);
    } else {
      ProgressCoversGroup(xs, a, from, to, m - 1, g);
    }
  }

  lemma LargeSquare(d: real)
    requires Abs(d) > 1.0
    ensures Sq(d) > 1.0
  {
    var e := Abs(d);
    assert Sq(d) == e * e;
    assert e * e - 1.0 == (e - 1.0) * (e + 1.0);
  }

  lemma ScaleUp(n: real, q: real)
    requires q >= 0.0 && n >= 0.0
    ensures n * q >= 0.0
    ensures n >= 1.0 ==> n * q >= q
  {
    if n >= 1.0 { assert n * q - q == (n - 1.0) * q; }
  }

  lemma {:induction false} ProgressOfBigMove(xs: seq<real>, a: Assignment, from: seq<real>, to: seq<real>, m: nat,
      g: nat)
    requires |a| == |xs| && g < m <= |from| && m <= |to|
    requires Members(xs, a, g) != [] && Abs(to[g] - from[g]) > 1.0
    ensures Progress(xs, a, from, to, m) > 1.0
  {
    hide Sq, Abs, Members, Progress;
    var d := to[g] - from[g];
    ProgressCoversGroup(xs, a, from, to, m, g);
    LargeSquare(d);
    ScaleUp(|Members(xs, a, g)| as real, Sq(d));
  }

  /** How many of the first `k` iterations moved a nonempty group by more than 1. */
  function BigMoves(xs: seq<real>, centres: seq<real>, k: nat): nat
    requires centres != []
  {
    if k == 0 then 0
    else BigMoves(xs, centres, k - 1) + (if BigMove(xs, Iterate(xs, centres, k - 1), 1.0) then 1 else 0)
  }

  lemma ErrorNonnegative(xs: seq<real>, centres: seq<real>)
    requires centres != []
    ensures Error(xs, centres) >= 0.0
  {
    hide Cost, Nearest;
    CostNonnegative(xs, Assign(xs, centres), centres);
  }

  lemma StepPays(xs: seq<real>, c: seq<real>)
    requires c != []
    ensures Error(xs, Step(xs, c)) + (if BigMove(xs, c, 1.0) then 1.0 else 0.0) <= Error(xs, c)
  {
    hide Error, Assign, Progress, Members, Abs, Step;
    var a := Assign(xs, c);
    StepLowersError(xs, c);
    ProgressNonnegative(xs, a, c, Step(xs, c), |c|);
    if BigMove(xs, c, 1.0) {
      var g :| 0 <= g < |c| && Members(xs, a, g) != [] && Abs(Step(xs, c)[g] - c[g]) > 1.0;
      ProgressOfBigMove(xs, a, c, Step(xs, c), |c|, g);
    }
  }

  /** Iterations with a big move are paid for by the initial error: there are at most its floor. */
  lemma {:induction false} BigMovesBounded(xs: seq<real>, centres: seq<real>, k: nat)
    requires centres != []
    ensures BigMoves(xs, centres, k) as real + Error(xs, Iterate(xs, centres, k)) <= Error(xs, centres)
    ensures BigMoves(xs, centres, k) <= Error(xs, centres).Floor
  {
    hide Error, Step, BigMove;
    if k > 0 {
      BigMovesBounded(xs, centres, k - 1);
      StepPays(xs, Iterate(xs, centres, k - 1));
    }
    ErrorNonnegative(xs, Iterate(xs, centres, k));
  }
}

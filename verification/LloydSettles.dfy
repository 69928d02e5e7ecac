/** The k-means iteration always reaches a fixed point, within as many steps as there are ways to
    assign the values to the groups. */
module LloydSettles {
  import opened Basics
  import opened Lloyd

  // ----- assignments as numbers -----

  function Pow(m: nat, n: nat): nat {
    if n == 0 then 1 else Pow(m, n - 1) * m
  }

  /** The assignment read as a number in base `m`. */
  function Code(a: Assignment, m: nat): nat {
    if a == [] then 0 else Code(a[..|a| - 1], m) * m + a[|a| - 1]
  }

  lemma {:induction false} CodeBounded(a: Assignment, m: nat)
    requires InRange(a, m)
    ensures Code(a, m) < Pow(m, |a|)
  {
    if a != [] {
      CodeBounded(a[..|a| - 1], m);
      MulGap(Code(a[..|a| - 1], m), Pow(m, |a| - 1), m);
    }
  }

  lemma DigitsUnique(p: nat, q: nat, d: nat, e: nat, m: nat)
    requires d < m && e < m && p * m + d == q * m + e
    ensures p == q && d == e
  {
    if p < q { MulGap(p, q, m); }
    if q < p { MulGap(q, p, m); }
  }

  lemma {:induction false} CodeInjective(a: Assignment, b: Assignment, m: nat)
    requires |a| == |b| && InRange(a, m) && InRange(b, m) && Code(a, m) == Code(b, m)
    ensures a == b
    decreases |a|
  {
    if a != [] {
      var n := |a| - 1;
      DigitsUnique(Code(a[..n], m), Code(b[..n], m), a[n], b[n], m);
      CodeInjective(a[..n], b[..n], m);
      assert a == a[..n] + [a[n]] && b == b[..n] + [b[n]];
    }
  }

  // ----- pigeonhole -----

  function Upto(n: nat): (r: set<nat>)
    ensures |r| == n && forall i :: i in r <==> 0 <= i < n
  {
    if n == 0 then {} else Upto(n - 1) + {n - 1}
  }

  lemma Pigeonhole(codes: seq<nat>, bound: nat) returns (i: nat, j: nat)
    requires |codes| > bound && forall i :: 0 <= i < |codes| ==> codes[i] < bound
    ensures i < j < |codes| && codes[i] == codes[j]
  {
    if Distinct(codes) {
      DistinctSize(codes);
      SubsetSize(Elements(codes), Upto(bound));
    }
    i, j :| 0 <= i < j < |codes| && codes[i] == codes[j];
  }

  /** Two of the first `m^n + 1` iterations assign every value alike. */
  lemma AssignmentRepeats(xs: seq<real>, centres: seq<real>) returns (i: nat, j: nat)
    requires centres != []
    ensures i < j <= Pow(|centres|, |xs|)
    ensures Assign(xs, Iterate(xs, centres, i)) == Assign(xs, Iterate(xs, centres, j))
  {
    hide Code, Pow, Iterate, Nearest;
    var m, bound := |centres|, Pow(|centres|, |xs|);
    var codes := seq(bound + 1, t requires 0 <= t <= bound => Code(Assign(xs, Iterate(xs, centres, t)), m));
    forall t | 0 <= t < |codes| ensures codes[t] < bound {
      CodeBounded(Assign(xs, Iterate(xs, centres, t)), m);
    }
    i, j := Pigeonhole(codes, bound);
    CodeInjective(Assign(xs, Iterate(xs, centres, i)), Assign(xs, Iterate(xs, centres, j)), m);
  }

  // ----- no progress, no move -----

  lemma IterateNext(xs: seq<real>, centres: seq<real>, k: nat)
    requires centres != []
    ensures Iterate(xs, centres, k + 1) == Step(xs, Iterate(xs, centres, k))
  {
  }

  lemma {:induction false} ErrorFalls(xs: seq<real>, centres: seq<real>, i: nat, j: nat)
    requires centres != [] && i <= j
    ensures Error(xs, Iterate(xs, centres, j)) <= Error(xs, Iterate(xs, centres, i))
    decreases j
  {
    hide Error, Step, BigMove, Iterate;
    if i < j {
      ErrorFalls(xs, centres, i, j - 1);
      IterateNext(xs, centres, j - 1);
      StepPays(xs, Iterate(xs, centres, j - 1));
    }
  }

  lemma SquareRootPositive(e: real, s: real)
    requires e > 0.0 && s == e * e
    ensures s > 0.0
  {
    assert s / e == e;
  }

  lemma SqOfPositive(e: real)
    requires e > 0.0
    ensures Sq(e) > 0.0
  {
    SquareRootPositive(e, Sq(e));
  }

  lemma SqPositive(d: real)
    requires d != 0.0
    ensures Sq(d) > 0.0
  {
    hide Sq;
    if d > 0.0 { SqOfPositive(d); } else { SqOfPositive(-d); }
    SqSymmetric(0.0, d);
    assert d - 0.0 == d && 0.0 - d == -d;
  }

  lemma {:induction false} EmptyAtZero(xs: seq<real>, c: seq<real>, g: nat)
    requires g < |c|
    ensures Members(xs, Assign(xs, c), g) == [] ==> Step(xs, c)[g] == 0.0
  {
    hide Members, Assign;
  }

  /** When the error does not fall, a group either stays or is empty and goes to 0. */
  lemma NoGainNoMove(xs: seq<real>, c: seq<real>, g: nat)
    requires g < |c| && Error(xs, Step(xs, c)) == Error(xs, c)
    ensures Step(xs, c)[g] == c[g] || Step(xs, c)[g] == 0.0
  {
    hide Error, Sq, Abs, Members, Assign, Progress, Step;
    var a, next := Assign(xs, c), Step(xs, c);
    var members := Members(xs, a, g);
    StepLowersError(xs, c);
    assert |next| == |c|;
    EmptyAtZero(xs, c, g);
    if members != [] {
      ProgressCoversGroup(xs, a, c, next, |c|, g);
      SqNonnegative(next[g] - c[g]);
      ScaleUp(|members| as real, Sq(next[g] - c[g]));
      if next[g] != c[g] { SqPositive(next[g] - c[g]); }
    }
  }

  /** While the error does not fall, a group keeps its place or rests at 0. */
  lemma {:induction false} StaysOrRests(xs: seq<real>, centres: seq<real>, i: nat, j: nat, g: nat)
    requires i <= j && g < |centres|
    requires Error(xs, Iterate(xs, centres, i)) == Error(xs, Iterate(xs, centres, j))
    ensures Iterate(xs, centres, j)[g] == Iterate(xs, centres, i)[g] || Iterate(xs, centres, j)[g] == 0.0
    decreases j
  {
    hide Error, Step, Iterate;
    if i < j {
      ErrorFalls(xs, centres, i, j - 1);
      ErrorFalls(xs, centres, j - 1, j);
      IterateNext(xs, centres, j - 1);
      StaysOrRests(xs, centres, i, j - 1, g);
      NoGainNoMove(xs, Iterate(xs, centres, j - 1), g);
    }
  }

  lemma SameAssignmentSameStep(xs: seq<real>, c: seq<real>, d: seq<real>)
    requires |c| == |d| > 0 && Assign(xs, c) == Assign(xs, d)
    ensures Step(xs, c) == Step(xs, d)
  {
    hide Assign, Mean, Members;
  }

  lemma RestsWhenBack(xs: seq<real>, centres: seq<real>, i: nat, j: nat, g: nat)
    requires i < j && g < |centres| && Iterate(xs, centres, i) == Iterate(xs, centres, j)
    ensures Iterate(xs, centres, i + 1)[g] == Iterate(xs, centres, i)[g]
  {
    hide Error, Iterate;
    ErrorFalls(xs, centres, i, i + 1);
    ErrorFalls(xs, centres, i + 1, j);
    StaysOrRests(xs, centres, i, i + 1, g);
    StaysOrRests(xs, centres, i + 1, j, g);
  }

  /** A fixed point is reached within `m^n` iterations, whatever the values and the first centres. */
  lemma FixedPointReached(xs: seq<real>, centres: seq<real>) returns (k: nat)
    requires centres != []
    ensures k <= Pow(|centres|, |xs|)
    ensures Iterate(xs, centres, k + 1) == Iterate(xs, centres, k)
  {
    hide Assign, Step, Iterate, Pow;
    var i, j := AssignmentRepeats(xs, centres);
    SameAssignmentSameStep(xs, Iterate(xs, centres, i), Iterate(xs, centres, j));
    IterateNext(xs, centres, i);
    IterateNext(xs, centres, j);
    k := i + 1;
    forall g | 0 <= g < |centres| ensures Iterate(xs, centres, k + 1)[g] == Iterate(xs, centres, k)[g] {
      RestsWhenBack(xs, centres, k, j + 1, g);
    }
  }
}

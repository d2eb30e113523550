/** Longest-processing-time list scheduling over `m` lanes, as the greedy loop of
    `_select_race_package_plans` performs it, and Graham's bound on its makespan.

    An assignment is a sequence `a`: item `i` goes to lane `a[i]`. */
module Scheduling {

  /** What lane `k` holds once the first `n` items are placed. */
  function Load(w: seq<real>, a: seq<nat>, k: nat, n: nat): real
    requires n <= |w| && n <= |a|
  {
    if n == 0 then 0.0
    else Load(w, a, k, n - 1) + (if a[n - 1] == k then w[n - 1] else 0.0)
  }

  function Sum(s: seq<real>): real {
    if s == [] then 0.0 else Sum(s[..|s| - 1]) + s[|s| - 1]
  }

  /** `k` times `x`, as repeated addition. */
  function Times(k: nat, x: real): real {
    if k == 0 then 0.0 else Times(k - 1, x) + x
  }

  function Totals(w: seq<real>, a: seq<nat>, m: nat, n: nat): (t: seq<real>)
    requires n <= |w| && n <= |a|
    ensures |t| == m
  {
    seq(m, k requires 0 <= k < m => Load(w, a, k, n))
  }

  /** The first index at which `t` is least: `min(range(m), key=(t[i], i))`. */
  function ArgMin(t: seq<real>): (r: nat)
    requires |t| > 0
    ensures r < |t|
    ensures forall k :: 0 <= k < |t| ==> t[r] <= t[k]
    ensures forall k :: 0 <= k < r ==> t[r] < t[k]
  {
    if |t| == 1 then 0
    else
      var q := ArgMin(t[..|t| - 1]);
      if t[|t| - 1] < t[q] then |t| - 1 else q
  }

  /** The lanes the greedy loop picks for the first `n` items. */
  function Targets(w: seq<real>, m: nat, n: nat): (a: seq<nat>)
    requires m > 0 && n <= |w|
    ensures |a| == n
    ensures forall i :: 0 <= i < n ==> a[i] < m
  {
    if n == 0 then []
    else
      var a := Targets(w, m, n - 1);
      a + [ArgMin(Totals(w, a, m, n - 1))]
  }

  ghost predicate Assigns(a: seq<nat>, m: nat) {
    forall i :: 0 <= i < |a| ==> a[i] < m
  }

  ghost predicate Positive(w: seq<real>) {
    forall i :: 0 <= i < |w| ==> w[i] > 0.0
  }

  ghost predicate Descending(w: seq<real>) {
    forall i, j :: 0 <= i <= j < |w| ==> w[i] >= w[j]
  }

  // ---------------------------------------------------------------- sums and loads

  lemma {:induction false} LoadAgree(w: seq<real>, v: seq<real>, a: seq<nat>, b: seq<nat>, k: nat, n: nat)
    requires n <= |w| && n <= |v| && n <= |a| && n <= |b|
    requires a[..n] == b[..n]
    requires forall i :: 0 <= i < n && a[i] == k ==> w[i] == v[i]
    ensures Load(w, a, k, n) == Load(v, b, k, n)
  {
    if n > 0 {
      assert a[n - 1] == a[..n][n - 1] == b[..n][n - 1];
      assert a[..n - 1] == a[..n][..n - 1] == b[..n][..n - 1] == b[..n - 1];
      LoadAgree(w, v, a, b, k, n - 1);
    }
  }

  lemma {:induction false} LoadNonNegative(w: seq<real>, a: seq<nat>, k: nat, n: nat)
    requires n <= |w| && n <= |a|
    requires forall i :: 0 <= i < n ==> w[i] >= 0.0
    ensures Load(w, a, k, n) >= 0.0
  {
    if n > 0 { LoadNonNegative(w, a, k, n - 1); }
  }

  lemma {:induction false} LoadMonotone(w: seq<real>, a: seq<nat>, k: nat, n: nat, n': nat)
    requires n <= n' <= |w| && n' <= |a|
    requires forall i :: 0 <= i < n' ==> w[i] >= 0.0
    ensures Load(w, a, k, n) <= Load(w, a, k, n')
    decreases n'
  {
    if n < n' { LoadMonotone(w, a, k, n, n' - 1); }
  }

  lemma {:induction false} LoadCovers(w: seq<real>, a: seq<nat>, i: nat, n: nat)
    requires i < n <= |w| && n <= |a|
    requires forall j :: 0 <= j < n ==> w[j] >= 0.0
    ensures w[i] <= Load(w, a, a[i], n)
  {
    LoadNonNegative(w, a, a[i], i);
    LoadMonotone(w, a, a[i], i + 1, n);
  }

  lemma {:induction false} SumUpdate(s: seq<real>, i: nat, d: real)
    requires i < |s|
    ensures Sum(s[i := s[i] + d]) == Sum(s) + d
  {
    var n := |s| - 1;
    var s' := s[i := s[i] + d];
    if i == n {
      assert s'[..n] == s[..n];
    } else {
      assert s'[..n] == s[..n][i := s[..n][i] + d];
      SumUpdate(s[..n], i, d);
    }
  }

  lemma {:induction false} SumZero(s: seq<real>)
    requires forall i :: 0 <= i < |s| ==> s[i] == 0.0
    ensures Sum(s) == 0.0
  {
    if s != [] { SumZero(s[..|s| - 1]); }
  }

  lemma {:induction false} SumBelow(s: seq<real>, c: real)
    requires forall i :: 0 <= i < |s| ==> s[i] <= c
    ensures Sum(s) <= Times(|s|, c)
  {
    if s != [] { SumBelow(s[..|s| - 1], c); }
  }

  lemma {:induction false} SumAbove(s: seq<real>, c: real)
    requires forall i :: 0 <= i < |s| ==> c <= s[i]
    ensures Times(|s|, c) <= Sum(s)
  {
    if s != [] { SumAbove(s[..|s| - 1], c); }
  }

  lemma {:induction false} TimesIsProduct(k: nat, x: real)
    ensures Times(k, x) == k as real * x
  {
    if k > 0 {
      TimesIsProduct(k - 1, x);
      assert k as real * x == (k - 1) as real * x + x;
    }
  }

  /** Nothing is lost or duplicated: the lane totals add up to the items placed. */
  lemma {:induction false} TotalsConserve(w: seq<real>, a: seq<nat>, m: nat, n: nat)
    requires n <= |w| && n <= |a| && Assigns(a, m)
    ensures Sum(Totals(w, a, m, n)) == Sum(w[..n])
  {
    if n == 0 {
      SumZero(Totals(w, a, m, 0));
    } else {
      TotalsConserve(w, a, m, n - 1);
      var t := Totals(w, a, m, n - 1);
      var k := a[n - 1];
      SumUpdate(t, k, w[n - 1]);
      assert Totals(w, a, m, n) == t[k := t[k] + w[n - 1]];
      assert w[..n][..n - 1] == w[..n - 1];
    }
  }

  lemma {:induction false} TargetsExtend(w: seq<real>, m: nat, n: nat, n': nat)
    requires m > 0 && n <= n' <= |w|
    ensures Targets(w, m, n')[..n] == Targets(w, m, n)
    decreases n'
  {
    if n < n' {
      TargetsExtend(w, m, n, n' - 1);
      assert Targets(w, m, n')[..n] == Targets(w, m, n' - 1)[..n];
    }
  }

  /** One turn of the loop: only the least loaded lane changes, by the new item. */
  lemma {:induction false} GreedyStep(w: seq<real>, m: nat, n: nat)
    requires m > 0 && 0 < n <= |w|
    ensures var a, a' := Targets(w, m, n - 1), Targets(w, m, n);
            var t := ArgMin(Totals(w, a, m, n - 1));
            a' == a + [t] &&
            forall k: nat :: Load(w, a', k, n) == Load(w, a, k, n - 1) + (if k == t then w[n - 1] else 0.0)
  {
    var a, a' := Targets(w, m, n - 1), Targets(w, m, n);
    forall k: nat
      ensures Load(w, a', k, n) ==
              Load(w, a, k, n - 1) + (if k == ArgMin(Totals(w, a, m, n - 1)) then w[n - 1] else 0.0)
    {
      assert a'[..n - 1] == a[..n - 1];
      LoadAgree(w, w, a', a, k, n - 1);
    }
  }

  // ---------------------------------------------------------------- list scheduling

  /** At every step of the loop no two totals differ by more than the largest item placed so far. */
  lemma {:induction false} Spread(w: seq<real>, m: nat, n: nat, largest: real, j: nat, k: nat)
    requires m > 0 && n <= |w| && j < m && k < m
    requires 0.0 <= largest && forall i :: 0 <= i < n ==> 0.0 <= w[i] <= largest
    ensures Load(w, Targets(w, m, n), j, n) - Load(w, Targets(w, m, n), k, n) <= largest
  {
    if n > 0 {
      var a := Targets(w, m, n - 1);
      var t := ArgMin(Totals(w, a, m, n - 1));
      GreedyStep(w, m, n);
      Spread(w, m, n - 1, largest, j, k);
      assert Totals(w, a, m, n - 1)[t] <= Totals(w, a, m, n - 1)[k];
    }
  }

  /** Lane `j` minus `largest`, and every other lane, reach `t[j] - largest`. */
  lemma {:induction false} LiftedFloor(t: seq<real>, j: nat, largest: real)
    requires j < |t| && 0.0 <= largest
    requires forall i :: 0 <= i < |t| ==> t[j] - largest <= t[i]
    ensures Times(|t|, t[j] - largest) <= Sum(t) - largest
  {
    var low := t[j := t[j] + (0.0 - largest)];
    SumAbove(low, t[j] - largest);
    SumUpdate(t, j, 0.0 - largest);
  }

  lemma {:induction false} ListRoom(w: seq<real>, m: nat, n: nat, largest: real, j: nat)
    requires m > 0 && n <= |w| && j < m
    requires 0.0 <= largest && forall i :: 0 <= i < n ==> 0.0 <= w[i] <= largest
    ensures Times(m, Load(w, Targets(w, m, n), j, n) - largest) <= Sum(w[..n]) - largest
  {
    var t := Totals(w, Targets(w, m, n), m, n);
    forall i | 0 <= i < m ensures t[j] - largest <= t[i] {
      Spread(w, m, n, largest, j, i);
    }
    TotalsConserve(w, Targets(w, m, n), m, n);
    LiftedFloor(t, j, largest);
  }

  lemma {:induction false} ProductGrows(a: real, x: real, y: real)
    ensures 0.0 <= a && x <= y ==>
              a * x <= a * y
  {
  }

  lemma {:induction false} ProductUndone(a: real, b: real, x: real)
    ensures a * b == 1.0 ==>
              a * (b * x) == x
  {
    if a * b == 1.0 {
      assert a * (b * x) == (a * b) * x;
    }
  }

  lemma {:induction false} ProductOfRest(t: real, x: real)
    ensures (1.0 - t) * x == x - t * x
  {
  }

  lemma {:induction false} ProductOfDifference(r: real, x: real, y: real)
    ensures r * (x - y) == r * x - r * y
  {
  }

  lemma {:induction false} Quotient(total: real, r: real, t: real)
    ensures r > 0.0 && t == 1.0 / r ==>
              total / r == t * total
  {
  }

  /** The reciprocal of the number of lanes. */
  lemma {:induction false} Reciprocal(m: nat) returns (t: real)
    requires m > 0
    ensures t == 1.0 / m as real && t * m as real == 1.0 && 0.0 < t <= 1.0
  {
    t := 1.0 / m as real;
  }

  lemma {:induction false} ScaleDown(x: real, total: real, m: nat, largest: real)
    requires m > 0 && Times(m, x - largest) <= total - largest
    ensures x <= total / m as real + (1.0 - 1.0 / m as real) * largest
  {
    TimesIsProduct(m, x - largest);
    var t := Reciprocal(m);
    ProductGrows(t, m as real * (x - largest), total - largest);
    ProductUndone(t, m as real, x - largest);
    ProductOfDifference(t, total, largest);
    ProductOfRest(t, largest);
    Quotient(total, m as real, t);
  }

  /** Hence the heaviest lane is at most total/m + (1 - 1/m) * largest. */
  lemma {:induction false} ListBound(w: seq<real>, m: nat, n: nat, largest: real, j: nat)
    requires m > 0 && n <= |w| && j < m
    requires 0.0 <= largest && forall i :: 0 <= i < n ==> 0.0 <= w[i] <= largest
    ensures Load(w, Targets(w, m, n), j, n)
            <= Sum(w[..n]) / m as real + (1.0 - 1.0 / m as real) * largest
  {
    ListRoom(w, m, n, largest, j);
    ScaleDown(Load(w, Targets(w, m, n), j, n), Sum(w[..n]), m, largest);
  }

  // ---------------------------------------------------------------- Graham's LPT bound

  /** How many of the first `n` items lane `k` holds. */
  function Held(a: seq<nat>, k: nat, n: nat): nat
    requires n <= |a|
  {
    if n == 0 then 0 else Held(a, k, n - 1) + (if a[n - 1] == k then 1 else 0)
  }

  /** Two for an item that is alone in its lane, one for any other. */
  function Shares(a: seq<nat>, n: nat): (s: seq<real>)
    requires n <= |a|
    ensures |s| == n
  {
    seq(n, i requires 0 <= i < n => if Held(a, a[i], n) == 1 then 2.0 else 1.0)
  }

  lemma {:induction false} LoadUniform(w: seq<real>, a: seq<nat>, k: nat, n: nat, c: real)
    requires n <= |w| && n <= |a|
    requires forall i :: 0 <= i < n && a[i] == k ==> w[i] == c
    ensures Load(w, a, k, n) == c * Held(a, k, n) as real
  {
    if n > 0 { LoadUniform(w, a, k, n - 1, c); }
  }

  /** Items above a third of `c` fill a lane faster than a third apiece. */
  lemma {:induction false} LoadAboveThirds(w: seq<real>, a: seq<nat>, k: nat, n: nat, c: real)
    requires n <= |w| && n <= |a|
    requires forall i :: 0 <= i < n ==> 3.0 * w[i] > c
    ensures Held(a, k, n) == 0 ==> Load(w, a, k, n) == 0.0
    ensures Held(a, k, n) > 0 ==> 3.0 * Load(w, a, k, n) > c * Held(a, k, n) as real
  {
    if n > 0 { LoadAboveThirds(w, a, k, n - 1, c); }
  }

  /** A lane that holds one item weighs what that item weighs. */
  lemma {:induction false} AloneWeighs(w: seq<real>, a: seq<nat>, i: nat, n: nat)
    requires i < n <= |w| && n <= |a|
    requires Held(a, a[i], n) == 1
    ensures Load(w, a, a[i], n) == w[i]
  {
    if i == n - 1 {
      EmptyWeighs(w, a, a[i], n - 1);
    } else {
      HoldsItem(a, i, n - 1);
      AloneWeighs(w, a, i, n - 1);
    }
  }

  lemma {:induction false} HoldsItem(a: seq<nat>, i: nat, n: nat)
    requires i < n <= |a|
    ensures Held(a, a[i], n) >= 1
  {
    if i < n - 1 { HoldsItem(a, i, n - 1); }
  }

  lemma {:induction false} EmptyWeighs(w: seq<real>, a: seq<nat>, k: nat, n: nat)
    requires n <= |w| && n <= |a| && Held(a, k, n) == 0
    ensures Load(w, a, k, n) == 0.0
  {
    if n > 0 { EmptyWeighs(w, a, k, n - 1); }
  }

  /** If a lane within `c` has no room for one more item of weight `p`, it holds a share of two. */
  lemma {:induction false} FullLaneShares(w: seq<real>, a: seq<nat>, k: nat, n: nat, p: real, c: real)
    requires n <= |w| && n <= |a|
    requires forall i :: 0 <= i < n ==> 3.0 * w[i] > c
    requires 0.0 < p <= c
    requires c - p < Load(w, a, k, n) <= c
    ensures Load(Shares(a, n), a, k, n) == 2.0
  {
    LoadAboveThirds(w, a, k, n, c);
    var held := Held(a, k, n);
    if held >= 3 { ThreeOverflow(c, held, Load(w, a, k, n)); }
    assert held == 1 || held == 2;
    LoadUniform(Shares(a, n), a, k, n, if held == 1 then 2.0 else 1.0);
  }

  lemma {:induction false} ThreeOverflow(c: real, held: nat, load: real)
    ensures c > 0.0 && held >= 3 && 3.0 * load > c * held as real ==>
              load > c
  {
    if c > 0.0 && held >= 3 && 3.0 * load > c * held as real {
      assert c * held as real >= c * 3.0;
    }
  }

  /** What the other assignment can have put in one lane by item `n`: nothing, one item, a share of
      two, or more than `c`. */
  lemma {:induction false} OtherLaneShares(w: seq<real>, s: seq<real>, b: seq<nat>, k: nat, n: nat, p: real, c: real)
    requires n <= |w| && n <= |s| && n <= |b|
    requires p > 0.0
    requires forall i :: 0 <= i < n ==> 3.0 * w[i] > c && w[i] >= p && (s[i] == 1.0 || s[i] == 2.0)
    requires forall i :: 0 <= i < n && s[i] == 2.0 ==> w[i] + p > c
    ensures var load, share := Load(w, b, k, n), Load(s, b, k, n);
            || load > c
            || (share == 0.0 && load == 0.0)
            || (share == 1.0 && 3.0 * load > c && load >= p)
            || (share == 2.0 && (3.0 * load > 2.0 * c || load + p > c))
  {
    if n > 0 { OtherLaneShares(w, s, b, k, n - 1, p, c); }
  }

  /** Every lane is within `c` once the first `n` items are placed. */
  ghost predicate Within(w: seq<real>, a: seq<nat>, m: nat, n: nat, c: real)
    requires n <= |w| && n <= |a|
  {
    forall k :: 0 <= k < m ==> Load(w, a, k, n) <= c
  }

  /** In the greedy assignment, lanes with no room left hold a share of two each. */
  lemma {:induction false} GreedyShares(w: seq<real>, a: seq<nat>, m: nat, n: nat, p: real, c: real)
    requires n <= |w| && n == |a| && Assigns(a, m)
    requires forall i :: 0 <= i < n ==> 3.0 * w[i] > c
    requires 0.0 < p <= c && Within(w, a, m, n, c)
    requires forall k :: 0 <= k < m ==> Load(w, a, k, n) > c - p
    ensures Sum(Shares(a, n)) >= Times(m, 2.0)
  {
    var s := Shares(a, n);
    var t := Totals(s, a, m, n);
    forall k | 0 <= k < m ensures t[k] == 2.0 {
      FullLaneShares(w, a, k, n, p, c);
    }
    TotalsConserve(s, a, m, n);
    assert s[..n] == s;
    SumAbove(t, 2.0);
  }

  /** No assignment within `c` can hold a share of more than two in any lane. */
  lemma {:induction false} OtherShares(w: seq<real>, s: seq<real>, b: seq<nat>, m: nat, n: nat, p: real, c: real)
    requires n <= |w| && n == |s| && n <= |b| && Assigns(b, m)
    requires p > 0.0 && Within(w, b, m, n, c)
    requires forall i :: 0 <= i < n ==> 3.0 * w[i] > c && w[i] >= p && (s[i] == 1.0 || s[i] == 2.0)
    requires forall i :: 0 <= i < n && s[i] == 2.0 ==> w[i] + p > c
    ensures Sum(s) <= Times(m, 2.0)
  {
    var t := Totals(s, b, m, n);
    forall k | 0 <= k < m ensures t[k] <= 2.0 {
      OtherLaneShares(w, s, b, k, n, p, c);
    }
    TotalsConserve(s, b, m, n);
    assert s[..n] == s;
    SumBelow(t, 2.0);
  }

  /** Graham's counting argument. While every item so far is above a third of `c`, and some other
      assignment keeps every lane within `c`, some lane still has room for item `n`. */
  lemma {:induction false} RoomWhileBig(w: seq<real>, m: nat, n: nat, b: seq<nat>, c: real) returns (k: nat)
    requires m > 0 && n < |w| <= |b| && Assigns(b, m) && Positive(w) && Descending(w)
    requires 3.0 * w[n] > c
    requires Within(w, b, m, n + 1, c)
    requires Within(w, Targets(w, m, n), m, n, c)
    ensures k < m && Load(w, Targets(w, m, n), k, n) + w[n] <= c
  {
    var a := Targets(w, m, n);
    var p := w[n];
    if k' :| 0 <= k' < m && Load(w, a, k', n) + p <= c {
      k := k';
    } else {
      LoadCovers(w, b, n, n + 1);
      GreedyShares(w, a, m, n, p, c);
      var s := Shares(a, n) + [1.0];
      assert s[..n] == Shares(a, n);
      forall i | 0 <= i < n + 1 && s[i] == 2.0 ensures w[i] + p > c {
        AloneWeighs(w, a, i, n);
      }
      OtherShares(w, s, b, m, n + 1, p, c);
      assert false;
    }
  }

  /** Placing item `n` keeps the lane it goes to within `bound`. */
  ghost predicate Fits(w: seq<real>, m: nat, n: nat, bound: real)
    requires m > 0 && n < |w|
  {
    var a := Targets(w, m, n);
    Load(w, a, ArgMin(Totals(w, a, m, n)), n) + w[n] <= bound
  }

  /** Carried along the greedy loop: `bound` on every prefix, and `c` itself as long as every item is
      above a third of `c`. */
  lemma {:induction false} LptPrefix(w: seq<real>, m: nat, n: nat, b: seq<nat>, c: real, bound: real)
    requires m > 0 && n <= |w| == |b| && Assigns(b, m) && Positive(w) && Descending(w)
    requires 0.0 <= c <= bound && Within(w, b, m, |w|, c)
    requires forall j :: 0 <= j < |w| && 3.0 * w[j] <= c ==> Fits(w, m, j, bound)
    ensures Within(w, Targets(w, m, n), m, n, bound)
    ensures n > 0 && 3.0 * w[n - 1] > c ==> Within(w, Targets(w, m, n), m, n, c)
  {
    if n > 0 {
      LptPrefix(w, m, n - 1, b, c, bound);
      GreedyStep(w, m, n);
      if 3.0 * w[n - 1] > c {
        var a := Targets(w, m, n - 1);
        var totals := Totals(w, a, m, n - 1);
        assert Within(w, a, m, n - 1, c);
        WithinPrefix(w, b, m, n, c);
        var k := RoomWhileBig(w, m, n - 1, b, c);
        assert totals[ArgMin(totals)] <= totals[k];
      } else {
        assert Fits(w, m, n - 1, bound);
      }
    }
  }

  lemma {:induction false} WithinPrefix(w: seq<real>, b: seq<nat>, m: nat, n: nat, c: real)
    requires n <= |w| == |b| && Positive(w) && Within(w, b, m, |w|, c)
    ensures Within(w, b, m, n, c)
  {
    forall k | 0 <= k < m ensures Load(w, b, k, n) <= c {
      LoadMonotone(w, b, k, n, |w|);
    }
  }

  lemma {:induction false} LeastBelowAverage(t: seq<real>)
    requires |t| > 0
    ensures Times(|t|, t[ArgMin(t)]) <= Sum(t)
  {
    SumAbove(t, t[ArgMin(t)]);
  }

  /** Lanes within `c` hold at most m * c together. */
  lemma {:induction false} OtherCeiling(w: seq<real>, m: nat, n: nat, b: seq<nat>, c: real)
    requires n <= |w| && n <= |b| && Assigns(b, m) && Within(w, b, m, n, c)
    ensures Sum(w[..n]) <= Times(m, c)
  {
    SumBelow(Totals(w, b, m, n), c);
    TotalsConserve(w, b, m, n);
  }

  /** An item of weight `p`, at most a third of `c`, is placed on a lane of load `low`, and `m` such
      lanes and the item together need no more than `m` lanes of `c`. */
  ghost predicate Roomy(m: nat, low: real, c: real, p: real) {
    Times(m, low) + p <= Times(m, c) && 3.0 * p <= c
  }

  lemma {:induction false} LeastRoom(w: seq<real>, m: nat, n: nat, b: seq<nat>, c: real)
    requires m > 0 && n < |w| == |b| && Assigns(b, m) && Positive(w)
    requires Within(w, b, m, |w|, c) && 3.0 * w[n] <= c
    ensures var a := Targets(w, m, n);
            Roomy(m, Load(w, a, ArgMin(Totals(w, a, m, n)), n), c, w[n])
  {
    var t := Totals(w, Targets(w, m, n), m, n);
    TotalsConserve(w, Targets(w, m, n), m, n);
    LeastBelowAverage(t);
    WithinPrefix(w, b, m, n + 1, c);
    OtherCeiling(w, m, n + 1, b, c);
    assert w[..n + 1][..n] == w[..n];
  }

  lemma {:induction false} LptWithin(w: seq<real>, m: nat, b: seq<nat>, c: real, bound: real)
    requires m > 0 && |w| == |b| && Assigns(b, m) && Positive(w) && Descending(w)
    requires 0.0 <= c <= bound && Within(w, b, m, |w|, c)
    requires forall low, p :: Roomy(m, low, c, p) ==> low + p <= bound
    ensures Within(w, Targets(w, m, |w|), m, |w|, bound)
  {
    forall j | 0 <= j < |w| && 3.0 * w[j] <= c ensures Fits(w, m, j, bound) {
      LeastRoom(w, m, j, b, c);
    }
    LptPrefix(w, m, |w|, b, c, bound);
  }

  /** Graham's factor 4/3 - 1/(3m) for `m` lanes. */
  function Graham(m: nat): real
    requires m > 0
  {
    4.0 / 3.0 - 1.0 / (3.0 * m as real)
  }

  lemma {:induction false} GrahamByReciprocal(m: nat, t: real)
    ensures m > 0 && t == 1.0 / m as real ==>
              Graham(m) == 4.0 / 3.0 - t / 3.0
  {
  }

  lemma {:induction false} GrahamProduct(factor: real, t: real, c: real)
    ensures factor == 4.0 / 3.0 - t / 3.0 ==>
              factor * c == c + (1.0 - t) * (c / 3.0)
  {
  }

  /** The item's share of the lanes fits into the gap. */
  lemma {:induction false} ShareFits(m: nat, t: real, low: real, c: real, p: real)
    requires m > 0 && t * m as real == 1.0 && 0.0 < t && Times(m, low) + p <= Times(m, c)
    ensures t * p <= c - low
  {
    TimesIsProduct(m, low);
    TimesIsProduct(m, c);
    ProductOfDifference(m as real, c, low);
    ProductGrows(t, p, m as real * (c - low));
    ProductUndone(t, m as real, c - low);
  }

  /** What is left of the item is at most what is left of a third. */
  lemma {:induction false} RestFits(t: real, c: real, p: real)
    ensures t <= 1.0 && 3.0 * p <= c ==>
              p - t * p <= (1.0 - t) * (c / 3.0)
  {
    if t <= 1.0 && 3.0 * p <= c {
      ProductOfRest(t, p);
      ProductGrows(1.0 - t, p, c / 3.0);
    }
  }

  lemma {:induction false} GrahamArithmetic(m: nat, low: real, c: real, p: real)
    requires m > 0 && Roomy(m, low, c, p)
    ensures low + p <= Graham(m) * c
  {
    var t := Reciprocal(m);
    GrahamByReciprocal(m, t);
    ShareFits(m, t, low, c, p);
    RestFits(t, c, p);
    GrahamProduct(Graham(m), t, c);
  }

  lemma {:induction false} GrahamFactor(m: nat, c: real)
    ensures m > 0 && c >= 0.0 ==>
              c <= Graham(m) * c
  {
    if m > 0 && c >= 0.0 {
      var t := Reciprocal(m);
      GrahamByReciprocal(m, t);
      GrahamProduct(Graham(m), t, c);
      ProductGrows(1.0 - t, 0.0, c / 3.0);
    }
  }
}

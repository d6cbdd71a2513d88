/**
 How good the plan is.  `plan_shards` promises balanced shards; the theorem is Graham's: the heaviest
 shard is at most 4/3 - 1/(3m) times the heaviest shard of any division of the same files into m shards.
 The comparison is with every schedule, so no optimum has to be computed.
 */
module ShardBound {
  import opened ShardPlanner

  /** Any way of dividing `files` into `m` shards. */
  ghost predicate Schedule(alt: seq<seq<string>>, files: seq<string>, m: nat) {
    |alt| == m && multiset(Flatten(alt)) == multiset(files)
  }

  /** The load of the heaviest shard. */
  function Makespan(bins: seq<seq<string>>, w: Weigh): (t: real)
    requires bins != []
    ensures forall i :: 0 <= i < |bins| ==> Sum(bins[i], w) <= t
    ensures exists i :: 0 <= i < |bins| && Sum(bins[i], w) == t
  {
    if |bins| == 1 then Sum(bins[0], w)
    else
      var t := Makespan(bins[1..], w);
      assert forall i :: 1 <= i < |bins| ==> bins[i] == bins[1..][i - 1];
      if t <= Sum(bins[0], w) then Sum(bins[0], w)
      else
        var i :| 0 <= i < |bins| - 1 && Sum(bins[1..][i], w) == t;
        assert bins[i + 1] == bins[1..][i];
        t
  }

  // ------------------------------------------------------------------ totals against per-bin bounds

  /** `n` copies of `c` added up. */
  function Times(n: nat, c: real): real {
    if n == 0 then 0.0 else c + Times(n - 1, c)
  }

  lemma {:induction false} TimesIsProduct(n: nat, c: real)
    ensures Times(n, c) == n as real * c
  {
    if n > 0 {
      TimesIsProduct(n - 1, c);
      assert n as real == (n - 1) as real + 1.0;
      assert ((n - 1) as real + 1.0) * c == (n - 1) as real * c + c;
    }
  }

  lemma ProductSign(a: real, b: real)
    requires a >= 0.0 && b >= 0.0
    ensures a * b >= 0.0
    ensures a > 0.0 && b > 0.0 ==> a * b > 0.0
  {
  }

  lemma SumLast(b: seq<string>, w: Weigh)
    requires b != []
    ensures Sum(b, w) == Sum(b[..|b| - 1], w) + w(b[|b| - 1])
  {
    var n := |b| - 1;
    assert b == b[..n] + [b[n]];
    SumAppend(b[..n], [b[n]], w);
    assert Sum([b[n]], w) == w(b[n]);
  }

  /** Dividing a bound by a positive factor. */
  lemma AtMostQuotient(c: real, d: real, bound: real)
    requires d > 0.0 && c * d <= bound
    ensures c <= bound / d
  {
    var q := bound / d;
    var e := c - q;
    assert q * d == bound;
    assert (q + e) * d == q * d + e * d;
    if e > 0.0 {
      ProductSign(e, d);
    }
  }

  lemma {:induction false} TotalAtMost(bins: seq<seq<string>>, w: Weigh, c: real)
    requires forall i :: 0 <= i < |bins| ==> Sum(bins[i], w) <= c
    ensures Sum(Flatten(bins), w) <= Times(|bins|, c)
  {
    if bins != [] {
      TotalAtMost(bins[1..], w, c);
      SumAppend(bins[0], Flatten(bins[1..]), w);
    }
  }

  lemma {:induction false} TotalAtLeast(bins: seq<seq<string>>, w: Weigh, c: real)
    requires forall i :: 0 <= i < |bins| ==> Sum(bins[i], w) >= c
    ensures Sum(Flatten(bins), w) >= Times(|bins|, c)
  {
    if bins != [] {
      TotalAtLeast(bins[1..], w, c);
      SumAppend(bins[0], Flatten(bins[1..]), w);
    }
  }

  lemma {:induction false} InSomeBin(bins: seq<seq<string>>, f: string)
    requires f in Flatten(bins)
    ensures exists i :: 0 <= i < |bins| && f in bins[i]
  {
    if f !in bins[0] {
      InSomeBin(bins[1..], f);
      var i :| 0 <= i < |bins[1..]| && f in bins[1..][i];
      assert f in bins[i + 1];
    }
  }

  /** A file of a schedule weighs no more than the schedule's heaviest shard. */
  lemma FileAtMost(alt: seq<seq<string>>, f: string, w: Weigh, t: real)
    requires (forall g :: w(g) >= 0.0) && f in Flatten(alt)
    requires forall i :: 0 <= i < |alt| ==> Sum(alt[i], w) <= t
    ensures w(f) <= t
  {
    InSomeBin(alt, f);
    var i :| 0 <= i < |alt| && f in alt[i];
    SumNonNegative(alt[i], w);
  }

  // ------------------------------------------------------------------ the gap and the 2 - 1/m bound

  /** No bin without its last-placed file is heavier than any bin. */
  ghost predicate Gap(bins: seq<seq<string>>, w: Weigh) {
    forall i, j :: 0 <= i < |bins| && 0 <= j < |bins| && bins[i] != [] ==>
      Sum(bins[i][..|bins[i]| - 1], w) <= Sum(bins[j], w)
  }

  lemma PlaceKeepsGap(bins: seq<seq<string>>, f: string, w: Weigh)
    requires bins != [] && (forall g :: w(g) >= 0.0) && Gap(bins, w)
    ensures Gap(Place(bins, f, w), w)
  {
    var k := Lightest(Loads(bins, w));
    var r := Place(bins, f, w);
    SumAppend(bins[k], [f], w);
    assert Sum([f], w) == w(f);
    assert r[k][..|r[k]| - 1] == bins[k];
    forall i, j | 0 <= i < |r| && 0 <= j < |r| && r[i] != []
      ensures Sum(r[i][..|r[i]| - 1], w) <= Sum(r[j], w)
    {
      assert Sum(bins[j], w) <= Sum(r[j], w);
      assert Sum(bins[k], w) <= Sum(bins[j], w);
    }
  }

  lemma {:induction false} GreedyGap(bins: seq<seq<string>>, fs: seq<string>, w: Weigh)
    requires bins != [] && (forall g :: w(g) >= 0.0) && Gap(bins, w)
    ensures Gap(Greedy(bins, fs, w), w)
    decreases |fs|
  {
    if fs != [] {
      PlaceKeepsGap(bins, fs[0], w);
      GreedyGap(Place(bins, fs[0], w), fs[1..], w);
    }
  }

  /** The bound of list scheduling in any order: 2 - 1/m of `t`. */
  function Twice(m: nat, t: real): real
    requires m >= 1
  {
    (2.0 * m as real - 1.0) * t / m as real
  }

  lemma TwiceArithmetic(m: nat, c: real, t: real)
    requires m >= 1 && m as real * c <= 2.0 * (m as real * t) - t
    ensures c <= Twice(m, t)
  {
    var r := m as real;
    assert (2.0 * r - 1.0) * t == 2.0 * (r * t) - t;
    assert c * r == r * c;
    AtMostQuotient(c, r, (2.0 * r - 1.0) * t);
  }

  /** A bin that is `gap` plus one file, over a total of at least m gaps and that file. */
  lemma ListArithmetic(m: nat, gap: real, last: real, t: real)
    requires m >= 1 && Times(m, gap) + last <= Times(m, t) && last <= t
    ensures gap + last <= Twice(m, t)
  {
    TimesIsProduct(m, gap);
    TimesIsProduct(m, t);
    var r := m as real;
    ProductSign(r - 1.0, t - last);
    assert (r - 1.0) * (t - last) == r * t - t - r * last + last;
    assert r * (gap + last) == r * gap + r * last;
    TwiceArithmetic(m, gap + last, t);
  }

  /** Placing files in any order: the heaviest bin is at most 2 - 1/m times any schedule's. */
  lemma ListSchedulingBound(fs: seq<string>, m: nat, w: Weigh, alt: seq<seq<string>>)
    requires m >= 1 && (forall g :: w(g) >= 0.0) && Schedule(alt, fs, m)
    ensures Gap(Greedy(Empties(m), fs, w), w)
    ensures Makespan(Greedy(Empties(m), fs, w), w) <= Twice(m, Makespan(alt, w))
  {
    var bins := Greedy(Empties(m), fs, w);
    GreedyGap(Empties(m), fs, w);
    var i :| 0 <= i < m && Sum(bins[i], w) == Makespan(bins, w);
    GreedyPermutes(Empties(m), fs, w);
    EmptiesFlat(m);
    var gap, last := SplitLast(bins, i, w, alt, Makespan(alt, w));
    ListArithmetic(m, gap, last, Makespan(alt, w));
  }

  /** A bin as a gap plus one file: both fit m times, once, into the total of any schedule. */
  lemma SplitLast(bins: seq<seq<string>>, i: nat, w: Weigh, alt: seq<seq<string>>, t: real)
    returns (gap: real, last: real)
    requires i < |bins| == |alt| && (forall g :: w(g) >= 0.0) && Gap(bins, w)
    requires multiset(Flatten(bins)) == multiset(Flatten(alt))
    requires forall k :: 0 <= k < |alt| ==> Sum(alt[k], w) <= t
    ensures Sum(bins[i], w) == gap + last
    ensures Times(|bins|, gap) + last <= Times(|bins|, t) && last <= t
  {
    TotalAtMost(alt, w, t);
    SumPermutation(Flatten(bins), Flatten(alt), w);
    if bins[i] == [] {
      gap, last := 0.0, 0.0;
      SumNonNegative(alt[0], w);
      SumNonNegative(Flatten(bins), w);
      TimesIsProduct(|bins|, 0.0);
    } else {
      var n := |bins[i]| - 1;
      gap, last := Sum(bins[i][..n], w), w(bins[i][n]);
      PlacedFileAtMost(bins, i, n, alt, w, t);
      TotalWithoutLast(bins, i, w, gap);
      SumLast(bins[i], w);
    }
  }

  lemma {:induction false} FlattenHas(bins: seq<seq<string>>, i: nat, n: nat)
    requires i < |bins| && n < |bins[i]|
    ensures bins[i][n] in Flatten(bins)
  {
    if i > 0 {
      FlattenHas(bins[1..], i - 1, n);
    }
  }

  lemma PlacedFileAtMost(bins: seq<seq<string>>, i: nat, n: nat, alt: seq<seq<string>>, w: Weigh, t: real)
    requires i < |bins| && n < |bins[i]| && forall g :: w(g) >= 0.0
    requires multiset(Flatten(bins)) == multiset(Flatten(alt))
    requires forall k :: 0 <= k < |alt| ==> Sum(alt[k], w) <= t
    ensures w(bins[i][n]) <= t
  {
    FlattenHas(bins, i, n);
    assert bins[i][n] in multiset(Flatten(bins));
    FileAtMost(alt, bins[i][n], w, t);
  }

  lemma TakeOutLast(bins: seq<seq<string>>, i: nat, n: nat)
    requires i < |bins| && |bins[i]| == n + 1
    ensures multiset(Flatten(bins[i := bins[i][..n]]) + [bins[i][n]]) == multiset(Flatten(bins))
  {
    var less, f := bins[i := bins[i][..n]], bins[i][n];
    FlattenUpdate(bins, i, bins[i][..n]);
    assert bins[i] == bins[i][..n] + [f];
    BagCancel(multiset(Flatten(less)) + multiset{f}, multiset(bins[i][..n]), multiset(Flatten(bins)));
  }

  /**
   If bin `i` is `gap` plus its last file and no bin is lighter than `gap`, the total is at least m gaps and that
   file.
   */
  lemma TotalWithoutLast(bins: seq<seq<string>>, i: nat, w: Weigh, gap: real)
    requires i < |bins| && bins[i] != [] && Sum(bins[i][..|bins[i]| - 1], w) == gap
    requires forall j :: 0 <= j < |bins| ==> gap <= Sum(bins[j], w)
    ensures Times(|bins|, gap) + w(bins[i][|bins[i]| - 1]) <= Sum(Flatten(bins), w)
  {
    var n := |bins[i]| - 1;
    var less := bins[i := bins[i][..n]];
    TakeOutLast(bins, i, n);
    SumPermutation(Flatten(less) + [bins[i][n]], Flatten(bins), w);
    SumAppend(Flatten(less), [bins[i][n]], w);
    TotalAtLeast(less, w, gap);
  }

  // ------------------------------------------------------------------ the 4/3 - 1/(3m) bound

  /** How much of a bin's room for two files of weight at least `p` a file takes, under a ceiling `t`. */
  function Room(w: Weigh, p: real, t: real): Weigh {
    f => if w(f) < p then 0.0 else if w(f) + p > t then 2.0 else 1.0
  }

  lemma {:induction false} RoomForcesLoad(b: seq<string>, w: Weigh, p: real, t: real)
    requires (forall g :: w(g) >= 0.0) && 3.0 * p > t
    ensures Sum(b, Room(w, p, t)) > 0.0 ==> Sum(b, w) >= p
    ensures Sum(b, Room(w, p, t)) > 1.0 ==> Sum(b, w) >= 2.0 * p || Sum(b, w) > t - p
    ensures Sum(b, Room(w, p, t)) > 2.0 ==> Sum(b, w) > t
  {
    if b != [] {
      RoomForcesLoad(b[1..], w, p, t);
      SumNonNegative(b[1..], w);
      SumNonNegative(b[1..], Room(w, p, t));
    }
  }

  lemma LoadForcesRoom(b: seq<string>, w: Weigh, p: real, t: real)
    requires Sum(b, w) > t - p && p <= t
    requires forall i :: 0 <= i < |b| ==> w(b[i]) >= p
    ensures Sum(b, Room(w, p, t)) >= 2.0
  {
    var r := Room(w, p, t);
    if |b| == 1 {
      assert Sum(b[1..], w) == 0.0 && Sum(b[1..], r) == 0.0;
    } else {
      assert Sum(b, r) == r(b[0]) + (r(b[1]) + Sum(b[1..][1..], r));
      SumNonNegative(b[1..][1..], r);
    }
  }

  /** If every file is heavier than a third of the ceiling, the lightest bin still has room for the next one. */
  lemma BigFilesFit(bins: seq<seq<string>>, x: string, rest: seq<string>, alt: seq<seq<string>>, w: Weigh, t: real)
    requires |bins| == |alt| && bins != [] && (forall g :: w(g) >= 0.0)
    requires multiset(Flatten(bins)) + multiset([x] + rest) == multiset(Flatten(alt))
    requires forall i :: 0 <= i < |bins| ==> forall j :: 0 <= j < |bins[i]| ==> w(bins[i][j]) >= w(x)
    requires forall i :: 0 <= i < |alt| ==> Sum(alt[i], w) <= t
    requires 3.0 * w(x) > t
    ensures exists i :: 0 <= i < |bins| && Sum(bins[i], w) + w(x) <= t
  {
    if forall i :: 0 <= i < |bins| ==> Sum(bins[i], w) > t - w(x) {
      var r := Room(w, w(x), t);
      assert x in multiset(Flatten(alt)) by { assert x in multiset([x] + rest); }
      FileAtMost(alt, x, w, t);
      forall i | 0 <= i < |bins| ensures Sum(bins[i], r) >= 2.0 {
        LoadForcesRoom(bins[i], w, w(x), t);
      }
      forall i | 0 <= i < |alt| ensures Sum(alt[i], r) <= 2.0 {
        RoomForcesLoad(alt[i], w, w(x), t);
      }
      TotalAtLeast(bins, r, 2.0);
      TotalAtMost(alt, r, 2.0);
      TotalsAgree(bins, x, rest, alt, r);
      SumNonNegative(rest, r);
      assert false;
    }
  }

  lemma TotalsAgree(bins: seq<seq<string>>, x: string, rest: seq<string>, alt: seq<seq<string>>, w: Weigh)
    requires multiset(Flatten(bins)) + multiset([x] + rest) == multiset(Flatten(alt))
    ensures Sum(Flatten(alt), w) == Sum(Flatten(bins), w) + w(x) + Sum(rest, w)
  {
    SumPermutation(Flatten(bins) + ([x] + rest), Flatten(alt), w);
    SumAppend(Flatten(bins), [x] + rest, w);
    assert ([x] + rest)[1..] == rest;
  }

  /** The bound: 4/3 - 1/(3m) of `t`. */
  function FourThirds(m: nat, t: real): real
    requires m >= 1
  {
    (4.0 * m as real - 1.0) * t / (3.0 * m as real)
  }

  lemma FourThirdsArithmetic(m: nat, c: real, t: real)
    requires m >= 1 && 3.0 * (m as real * c) <= 4.0 * (m as real * t) - t
    ensures c <= FourThirds(m, t)
  {
    var r := m as real;
    assert (4.0 * r - 1.0) * t == 4.0 * (r * t) - t;
    assert c * (3.0 * r) == 3.0 * (r * c);
    AtMostQuotient(c, 3.0 * r, (4.0 * r - 1.0) * t);
  }

  lemma SmallFileArithmetic(m: nat, low: real, x: real, t: real)
    requires m >= 1 && Times(m, low) + x <= Times(m, t) && 3.0 * x <= t
    ensures low + x <= FourThirds(m, t)
  {
    TimesIsProduct(m, low);
    TimesIsProduct(m, t);
    var r := m as real;
    ProductSign(r - 1.0, t - 3.0 * x);
    assert (r - 1.0) * (t - 3.0 * x) == r * t - t - 3.0 * (r * x) + 3.0 * x;
    assert r * (low + x) == r * low + r * x;
    FourThirdsArithmetic(m, low + x, t);
  }

  lemma BigFileArithmetic(m: nat, c: real, t: real)
    requires m >= 1 && c <= t && t >= 0.0
    ensures c <= FourThirds(m, t)
  {
    var r := m as real;
    ProductSign(r, t - c);
    assert r * (t - c) == r * t - r * c;
    ProductSign(r - 1.0, t);
    assert (r - 1.0) * t == r * t - t;
    FourThirdsArithmetic(m, c, t);
  }

  /** The step of the theorem: the file about to be placed keeps its bin within the bound. */
  lemma PlacedWithinBound(bins: seq<seq<string>>, x: string, rest: seq<string>, alt: seq<seq<string>>, w: Weigh,
                          t: real)
    requires |bins| == |alt| && bins != [] && (forall g :: w(g) >= 0.0)
    requires multiset(Flatten(bins)) + multiset([x] + rest) == multiset(Flatten(alt))
    requires forall i :: 0 <= i < |bins| ==> forall j :: 0 <= j < |bins[i]| ==> w(bins[i][j]) >= w(x)
    requires forall i :: 0 <= i < |alt| ==> Sum(alt[i], w) <= t
    ensures Loads(bins, w)[Lightest(Loads(bins, w))] + w(x) <= FourThirds(|bins|, t)
  {
    var loads := Loads(bins, w);
    var low := loads[Lightest(loads)];
    SumNonNegative(alt[0], w);
    if 3.0 * w(x) > t {
      BigFilesFit(bins, x, rest, alt, w, t);
      BigFileArithmetic(|bins|, low + w(x), t);
    } else {
      TotalAtLeast(bins, w, low);
      TotalAtMost(alt, w, t);
      TotalsAgree(bins, x, rest, alt, w);
      SumNonNegative(rest, w);
      SmallFileArithmetic(|bins|, low, w(x), t);
    }
  }

  ghost predicate WithinBound(bins: seq<seq<string>>, w: Weigh, bound: real) {
    forall i :: 0 <= i < |bins| ==> Sum(bins[i], w) <= bound
  }

  lemma PlaceKeepsBound(bins: seq<seq<string>>, x: string, w: Weigh, bound: real)
    requires bins != [] && WithinBound(bins, w, bound)
    requires Loads(bins, w)[Lightest(Loads(bins, w))] + w(x) <= bound
    ensures WithinBound(Place(bins, x, w), w, bound)
  {
    PlacedLoads(bins, x, w);
    var r := Place(bins, x, w);
    forall i | 0 <= i < |r| ensures Sum(r[i], w) <= bound {
      assert Sum(r[i], w) == Loads(r, w)[i];
    }
  }

  /** The bins filled so far hold only files at least as heavy as those to come. */
  ghost predicate HeavierPlaced(bins: seq<seq<string>>, fs: seq<string>, w: Weigh) {
    forall i, k :: 0 <= i < |bins| && 0 <= k < |fs| ==>
      forall j :: 0 <= j < |bins[i]| ==> w(bins[i][j]) >= w(fs[k])
  }

  lemma PlaceKeepsHeavier(bins: seq<seq<string>>, fs: seq<string>, w: Weigh)
    requires bins != [] && fs != [] && HeavierPlaced(bins, fs, w)
    requires forall i, j :: 0 <= i < j < |fs| ==> w(fs[i]) >= w(fs[j])
    ensures HeavierPlaced(Place(bins, fs[0], w), fs[1..], w)
  {
  }

  ghost predicate Descending(fs: seq<string>, w: Weigh) {
    forall i, j :: 0 <= i < j < |fs| ==> w(fs[i]) >= w(fs[j])
  }

  /** The loop on its way: what is placed and what is to come make up the schedule compared with. */
  ghost predicate Placing(bins: seq<seq<string>>, fs: seq<string>, alt: seq<seq<string>>, w: Weigh, t: real) {
    && |bins| == |alt| && bins != [] && multiset(Flatten(bins)) + multiset(fs) == multiset(Flatten(alt))
    && Descending(fs, w) && HeavierPlaced(bins, fs, w) && WithinBound(alt, w, t)
  }

  lemma PlacingStep(bins: seq<seq<string>>, fs: seq<string>, alt: seq<seq<string>>, w: Weigh, t: real)
    requires Placing(bins, fs, alt, w, t) && fs != []
    ensures Placing(Place(bins, fs[0], w), fs[1..], alt, w, t)
  {
    assert fs == [fs[0]] + fs[1..];
    PlaceKeepsHeavier(bins, fs, w);
    PlacePermutes(bins, fs[0], w);
  }

  lemma PlacingStaysWithin(bins: seq<seq<string>>, fs: seq<string>, alt: seq<seq<string>>, w: Weigh, t: real)
    requires Placing(bins, fs, alt, w, t) && fs != [] && (forall g :: w(g) >= 0.0)
    requires WithinBound(bins, w, FourThirds(|bins|, t))
    ensures WithinBound(Place(bins, fs[0], w), w, FourThirds(|bins|, t))
  {
    assert fs == [fs[0]] + fs[1..];
    PlacedWithinBound(bins, fs[0], fs[1..], alt, w, t);
    PlaceKeepsBound(bins, fs[0], w, FourThirds(|bins|, t));
  }

  lemma {:induction false} GreedyWithinBound(bins: seq<seq<string>>, fs: seq<string>, alt: seq<seq<string>>, w: Weigh,
                                             t: real)
    requires Placing(bins, fs, alt, w, t) && (forall g :: w(g) >= 0.0) && WithinBound(bins, w, FourThirds(|bins|, t))
    ensures WithinBound(Greedy(bins, fs, w), w, FourThirds(|bins|, t))
    decreases |fs|
  {
    if fs != [] {
      PlacingStep(bins, fs, alt, w, t);
      PlacingStaysWithin(bins, fs, alt, w, t);
      GreedyWithinBound(Place(bins, fs[0], w), fs[1..], alt, w, t);
    }
  }

  /**
   The heaviest planned shard is at most 4/3 - 1/(3m) times the heaviest shard of any schedule of
   the same files.
   */
  lemma PlanWithinFourThirds(files: seq<string>, m: nat, w: Weigh, alt: seq<seq<string>>)
    requires m >= 1 && (forall g :: w(g) >= 0.0) && Schedule(alt, files, m)
    ensures Makespan(Plan(files, m, w), w) <= FourThirds(m, Makespan(alt, w))
  {
    var o := Ordered(files, w);
    var t := Makespan(alt, w);
    OrderedByWeight(files, w);
    EmptiesFlat(m);
    SumNonNegative(alt[0], w);
    BigFileArithmetic(m, 0.0, t);
    GreedyWithinBound(Empties(m), o, alt, w, t);
    PlanIsPermutation(files, m, w);
    var p := Plan(files, m, w);
    var i :| 0 <= i < m && Sum(p[i], w) == Makespan(p, w);
    assert Loads(p, w)[i] == Loads(Greedy(Empties(m), o, w), w)[i];
  }
}

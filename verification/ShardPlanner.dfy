/**
 The deterministic shard planner of scripts/ci/pytest_shards.py: longest-processing-time-first list
 scheduling.  Weights are exact reals; `bins` and `loads` are updated in a loop as in the source.
 */
module ShardPlanner {
  import opened Ordering

  type Weigh = string -> real

  /** `weights.get(f, fallback)` as a function of the file. */
  function WeightOf(weights: map<string, real>, fallback: real): Weigh {
    f => if f in weights then weights[f] else fallback
  }

  function Sum(xs: seq<string>, w: Weigh): real {
    if xs == [] then 0.0 else w(xs[0]) + Sum(xs[1..], w)
  }

  function Flatten(bins: seq<seq<string>>): seq<string> {
    if bins == [] then [] else bins[0] + Flatten(bins[1..])
  }

  function Loads(bins: seq<seq<string>>, w: Weigh): (r: seq<real>)
    ensures |r| == |bins|
    ensures forall i :: 0 <= i < |bins| ==> r[i] == Sum(bins[i], w)
  {
    seq(|bins|, i requires 0 <= i < |bins| => Sum(bins[i], w))
  }

  /** `min(range(n), key=lambda k: (loads[k], k))`: the first index of least load. */
  function Lightest(loads: seq<real>): (k: nat)
    requires loads != []
    ensures k < |loads|
    ensures forall i :: 0 <= i < |loads| ==> loads[k] <= loads[i]
    ensures forall i :: 0 <= i < k ==> loads[k] < loads[i]
  {
    if |loads| == 1 then 0
    else
      var k := Lightest(loads[..|loads| - 1]);
      if loads[|loads| - 1] < loads[k] then |loads| - 1 else k
  }

  /** The planner's processing order: weight descending, then path ascending. */
  predicate Before(w: Weigh, a: string, b: string) {
    w(a) > w(b) || (w(a) == w(b) && Le(a, b))
  }

  function Ordered(files: seq<string>, w: Weigh): (r: seq<string>)
    ensures multiset(r) == multiset(files)
  {
    Sort(files, (a, b) => Before(w, a, b))
  }

  lemma BeforeIsTotalOrder(w: Weigh)
    ensures TotalOrder((a, b) => Before(w, a, b))
  {
    LeIsTotalOrder();
    assert forall a, b :: Le(a, b) || Le(b, a);
    assert forall a, b :: Le(a, b) && Le(b, a) ==> a == b;
    assert forall a, b, c :: Le(a, b) && Le(b, c) ==> Le(a, c);
  }

  lemma OrderedByWeight(files: seq<string>, w: Weigh)
    ensures var o := Ordered(files, w); forall i, j :: 0 <= i < j < |o| ==> w(o[i]) >= w(o[j])
  {
    BeforeIsTotalOrder(w);
    SortSorts(files, (a, b) => Before(w, a, b));
  }

  function Empties(m: nat): (r: seq<seq<string>>)
    ensures |r| == m && forall i :: 0 <= i < m ==> r[i] == []
  {
    seq(m, _ => [])
  }

  /** One iteration of the planning loop. */
  function Place(bins: seq<seq<string>>, f: string, w: Weigh): (r: seq<seq<string>>)
    requires bins != []
    ensures |r| == |bins|
  {
    var k := Lightest(Loads(bins, w));
    bins[k := bins[k] + [f]]
  }

  /** The planning loop: the remaining files `fs` placed one after the other onto `bins`. */
  function Greedy(bins: seq<seq<string>>, fs: seq<string>, w: Weigh): (r: seq<seq<string>>)
    requires bins != []
    ensures |r| == |bins|
    decreases |fs|
  {
    if fs == [] then bins else Greedy(Place(bins, fs[0], w), fs[1..], w)
  }

  function SortBins(bins: seq<seq<string>>): (r: seq<seq<string>>)
    ensures |r| == |bins|
    ensures forall i :: 0 <= i < |bins| ==> r[i] == Sort(bins[i], Le)
  {
    seq(|bins|, i requires 0 <= i < |bins| => Sort(bins[i], Le))
  }

  /** What `plan_shards` returns. */
  function Plan(files: seq<string>, m: nat, w: Weigh): (r: seq<seq<string>>)
    requires m >= 1
    ensures |r| == m
  {
    SortBins(Greedy(Empties(m), Ordered(files, w), w))
  }

  /** The loop of `plan_shards`: `bins` and `loads` are updated together. */
  method PlaceAll(ordered: seq<string>, m: nat, w: Weigh) returns (bins: seq<seq<string>>)
    requires m >= 1
    ensures bins == Greedy(Empties(m), ordered, w)
  {
    bins := Empties(m);
    var loads := seq(m, _ => 0.0);
    assert loads == Loads(bins, w);
    var rest := ordered;
    while rest != []
      invariant |bins| == m && Greedy(bins, rest, w) == Greedy(Empties(m), ordered, w)
      invariant loads == Loads(bins, w)
      decreases |rest|
    {
      var f := rest[0];
      var k := Lightest(loads);
      PlacedLoads(bins, f, w);
      bins := bins[k := bins[k] + [f]];
      loads := loads[k := loads[k] + w(f)];
      rest := rest[1..];
    }
  }

  /** The loop, read from its end. */
  lemma {:induction false} GreedySnoc(bins: seq<seq<string>>, fs: seq<string>, f: string, w: Weigh)
    requires bins != []
    ensures Greedy(bins, fs + [f], w) == Place(Greedy(bins, fs, w), f, w)
    decreases |fs|
  {
    if fs == [] {
      assert fs + [f] == [f] && [f][1..] == [];
      assert Greedy(Place(bins, f, w), [], w) == Place(bins, f, w);
    } else {
      assert (fs + [f])[1..] == fs[1..] + [f];
      GreedySnoc(Place(bins, fs[0], w), fs[1..], f, w);
    }
  }

  /** `loads[idx] += w` keeps the running totals equal to the sums of the bins. */
  lemma PlacedLoads(bins: seq<seq<string>>, f: string, w: Weigh)
    requires bins != []
    ensures var loads := Loads(bins, w); var k := Lightest(loads);
            Loads(Place(bins, f, w), w) == loads[k := loads[k] + w(f)]
  {
    var loads := Loads(bins, w);
    var k := Lightest(loads);
    SumAppend(bins[k], [f], w);
    assert Sum([f], w) == w(f);
  }

  // ------------------------------------------------------------------ sums

  lemma {:induction false} SumAppend(xs: seq<string>, ys: seq<string>, w: Weigh)
    ensures Sum(xs + ys, w) == Sum(xs, w) + Sum(ys, w)
  {
    if xs == [] {
      assert xs + ys == ys;
    } else {
      assert (xs + ys)[1..] == xs[1..] + ys;
      SumAppend(xs[1..], ys, w);
    }
  }

  lemma SumWithout(ys: seq<string>, k: nat, w: Weigh)
    requires k < |ys|
    ensures Sum(ys, w) == w(ys[k]) + Sum(ys[..k] + ys[k + 1..], w)
  {
    assert ys == ys[..k] + ([ys[k]] + ys[k + 1..]);
    SumAppend(ys[..k], [ys[k]] + ys[k + 1..], w);
    SumAppend([ys[k]], ys[k + 1..], w);
    SumAppend(ys[..k], ys[k + 1..], w);
  }

  lemma {:induction false} SumPermutation(xs: seq<string>, ys: seq<string>, w: Weigh)
    requires multiset(xs) == multiset(ys)
    ensures Sum(xs, w) == Sum(ys, w)
    decreases |xs|
  {
    if xs == [] {
      assert |ys| == |multiset(ys)| == |multiset(xs)| == 0;
    } else {
      var k := HeadAmong(xs, ys);
      SumPermutation(xs[1..], ys[..k] + ys[k + 1..], w);
      SumWithout(ys, k, w);
    }
  }

  lemma {:induction false} SumNonNegative(xs: seq<string>, w: Weigh)
    requires forall f :: w(f) >= 0.0
    ensures Sum(xs, w) >= 0.0
    ensures forall i :: 0 <= i < |xs| ==> w(xs[i]) <= Sum(xs, w)
  {
    if xs != [] {
      SumNonNegative(xs[1..], w);
      assert forall i :: 1 <= i < |xs| ==> xs[i] == xs[1..][i - 1];
    }
  }

  lemma {:induction false} FlattenAppend(a: seq<seq<string>>, b: seq<seq<string>>)
    ensures Flatten(a + b) == Flatten(a) + Flatten(b)
  {
    if a == [] {
      assert a + b == b;
    } else {
      assert (a + b)[1..] == a[1..] + b;
      FlattenAppend(a[1..], b);
    }
  }

  /** Changing one bin changes the flattened multiset by exactly that bin. */
  lemma {:induction false} FlattenUpdate(bins: seq<seq<string>>, k: nat, b: seq<string>)
    requires k < |bins|
    ensures multiset(Flatten(bins[k := b])) + multiset(bins[k]) == multiset(Flatten(bins)) + multiset(b)
  {
    if k == 0 {
      assert bins[0 := b][1..] == bins[1..];
    } else {
      FlattenUpdate(bins[1..], k - 1, b);
      assert bins[k := b][1..] == bins[1..][k - 1 := b];
      calc {
        multiset(Flatten(bins[k := b])) + multiset(bins[k]);
        multiset(bins[0]) + (multiset(Flatten(bins[1..][k - 1 := b])) + multiset(bins[k]));
        multiset(bins[0]) + (multiset(Flatten(bins[1..])) + multiset(b));
        multiset(Flatten(bins)) + multiset(b);
      }
    }
  }

  lemma {:induction false} FlattenIsPermutation(a: seq<seq<string>>, b: seq<seq<string>>)
    requires |a| == |b| && forall i :: 0 <= i < |a| ==> multiset(a[i]) == multiset(b[i])
    ensures multiset(Flatten(a)) == multiset(Flatten(b))
  {
    if a != [] {
      FlattenIsPermutation(a[1..], b[1..]);
    }
  }

  lemma BagCancel(a: multiset<string>, b: multiset<string>, c: multiset<string>)
    requires a + b == c + b
    ensures a == c
  {
    assert a == (a + b) - b;
    assert c == (c + b) - b;
  }

  lemma PlacePermutes(bins: seq<seq<string>>, f: string, w: Weigh)
    requires bins != []
    ensures multiset(Flatten(Place(bins, f, w))) == multiset(Flatten(bins)) + multiset{f}
  {
    var k := Lightest(Loads(bins, w));
    FlattenUpdate(bins, k, bins[k] + [f]);
    assert multiset(bins[k] + [f]) == multiset(bins[k]) + multiset{f};
    BagCancel(multiset(Flatten(Place(bins, f, w))), multiset(bins[k]), multiset(Flatten(bins)) + multiset{f});
  }

  lemma {:induction false} GreedyPermutes(bins: seq<seq<string>>, fs: seq<string>, w: Weigh)
    requires bins != []
    ensures multiset(Flatten(Greedy(bins, fs, w))) == multiset(Flatten(bins)) + multiset(fs)
    decreases |fs|
  {
    if fs != [] {
      PlacePermutes(bins, fs[0], w);
      GreedyPermutes(Place(bins, fs[0], w), fs[1..], w);
      assert fs == [fs[0]] + fs[1..];
    }
  }

  lemma {:induction false} EmptiesFlat(m: nat)
    ensures Flatten(Empties(m)) == []
  {
    if m > 0 {
      assert Empties(m)[1..] == Empties(m - 1);
      EmptiesFlat(m - 1);
    }
  }

  // ------------------------------------------------------------------ what the plan is

  /** The plan is a permutation of its input, bin by bin in path order, and a bin's load is the sum of its files. */
  lemma PlanIsPermutation(files: seq<string>, m: nat, w: Weigh)
    requires m >= 1
    ensures multiset(Flatten(Plan(files, m, w))) == multiset(files)
    ensures forall i :: 0 <= i < m ==> Sorted(Plan(files, m, w)[i], Le)
    ensures Loads(Plan(files, m, w), w) == Loads(Greedy(Empties(m), Ordered(files, w), w), w)
  {
    var bins := Greedy(Empties(m), Ordered(files, w), w);
    GreedyPermutes(Empties(m), Ordered(files, w), w);
    EmptiesFlat(m);
    SortBinsPermutes(bins, w);
  }

  lemma SortBinsPermutes(bins: seq<seq<string>>, w: Weigh)
    ensures multiset(Flatten(SortBins(bins))) == multiset(Flatten(bins))
    ensures forall i :: 0 <= i < |bins| ==> Sorted(SortBins(bins)[i], Le)
    ensures Loads(SortBins(bins), w) == Loads(bins, w)
  {
    FlattenIsPermutation(SortBins(bins), bins);
    LeIsTotalOrder();
    forall i | 0 <= i < |bins| ensures Sorted(SortBins(bins)[i], Le) && Sum(SortBins(bins)[i], w) == Sum(bins[i], w) {
      SortSorts(bins[i], Le);
      SumPermutation(Sort(bins[i], Le), bins[i], w);
    }
  }

  /** The plan does not depend on the order in which the files were listed. */
  lemma PlanIgnoresOrder(files: seq<string>, files': seq<string>, m: nat, w: Weigh)
    requires m >= 1 && multiset(files) == multiset(files')
    ensures Plan(files, m, w) == Plan(files', m, w)
  {
    BeforeIsTotalOrder(w);
    SortIgnoresOrder(files, files', (a, b) => Before(w, a, b));
  }

  function EmptyBins(bins: seq<seq<string>>): (n: nat)
    ensures n <= |bins|
    ensures n == 0 <==> forall i :: 0 <= i < |bins| ==> bins[i] != []
  {
    if bins == [] then 0 else (if bins[0] == [] then 1 else 0) + EmptyBins(bins[1..])
  }

  lemma {:induction false} EmptyBinsUpdate(bins: seq<seq<string>>, k: nat, b: seq<string>)
    requires k < |bins| && b != []
    ensures EmptyBins(bins[k := b]) == EmptyBins(bins) - if bins[k] == [] then 1 else 0
  {
    if k == 0 {
      assert bins[0 := b][1..] == bins[1..];
    } else {
      assert bins[k := b][1..] == bins[1..][k - 1 := b];
      EmptyBinsUpdate(bins[1..], k - 1, b);
    }
  }

  lemma {:induction false} EmptiesAllEmpty(m: nat)
    ensures EmptyBins(Empties(m)) == m
  {
    if m > 0 {
      assert Empties(m)[1..] == Empties(m - 1);
      EmptiesAllEmpty(m - 1);
    }
  }

  /** With positive weights a file goes to an empty bin as long as there is one. */
  lemma PlaceFillsEmpty(bins: seq<seq<string>>, f: string, w: Weigh)
    requires bins != [] && forall f :: w(f) > 0.0
    ensures EmptyBins(Place(bins, f, w)) == if EmptyBins(bins) == 0 then 0 else EmptyBins(bins) - 1
  {
    var k := Lightest(Loads(bins, w));
    EmptyBinsUpdate(bins, k, bins[k] + [f]);
    if EmptyBins(bins) > 0 {
      var e :| 0 <= e < |bins| && bins[e] == [];
      assert Loads(bins, w)[e] == 0.0;
      SumNonNegative(bins[k], w);
    }
  }

  /** With positive weights, n further files fill exactly n of the empty bins, as far as there are any. */
  lemma {:induction false} GreedyFillsBins(bins: seq<seq<string>>, fs: seq<string>, w: Weigh)
    requires bins != [] && forall f :: w(f) > 0.0
    ensures EmptyBins(Greedy(bins, fs, w)) == if |fs| < EmptyBins(bins) then EmptyBins(bins) - |fs| else 0
    decreases |fs|
  {
    if fs != [] {
      PlaceFillsEmpty(bins, fs[0], w);
      GreedyFillsBins(Place(bins, fs[0], w), fs[1..], w);
    }
  }

  /** No shard is empty when there are at least as many files as shards. */
  lemma PlanLeavesNoShardEmpty(files: seq<string>, m: nat, w: Weigh)
    requires m >= 1 && |files| >= m && forall f :: w(f) > 0.0
    ensures forall i :: 0 <= i < m ==> Plan(files, m, w)[i] != []
  {
    var o := Ordered(files, w);
    assert |o| == |multiset(o)| == |files|;
    EmptiesAllEmpty(m);
    GreedyFillsBins(Empties(m), o, w);
    var bins := Greedy(Empties(m), o, w);
    forall i | 0 <= i < m ensures Plan(files, m, w)[i] != [] {
      assert |Sort(bins[i], Le)| == |bins[i]|;
    }
  }
}

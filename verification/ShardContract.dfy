/**
 What a caller of `plan_shards` may rely on, in terms of its own arguments: the committed timings, the
 fallback and the files.  Nothing here mentions how the planner computes.
 */
module ShardContract {
  import opened Ordering
  import opened ShardPlanner
  import opened ShardBound

  /** What a shard takes: of each file the committed timing, or the fallback where there is none. */
  ghost function Total(shard: seq<string>, weights: map<string, real>, fallback: real): real {
    if shard == [] then 0.0
    else (if shard[0] in weights then weights[shard[0]] else fallback) + Total(shard[1..], weights, fallback)
  }

  /** No shard takes more than `t`. */
  ghost predicate Within(shards: seq<seq<string>>, weights: map<string, real>, fallback: real, t: real) {
    forall i :: 0 <= i < |shards| ==> Total(shards[i], weights, fallback) <= t
  }

  /** By time descending, then by path ascending. */
  ghost predicate InOrder(order: seq<string>, weights: map<string, real>, fallback: real) {
    forall i, j :: 0 <= i < j < |order| ==>
      var a, b := Total([order[i]], weights, fallback), Total([order[j]], weights, fallback);
      a > b || (a == b && Le(order[i], order[j]))
  }

  /** Of the first `k` files of `order`, those that went to shard `i`. */
  ghost function Part(order: seq<string>, slots: seq<nat>, i: nat, k: nat): seq<string>
    requires k <= |order| == |slots|
  {
    if k == 0 then []
    else Part(order, slots, i, k - 1) + if slots[k - 1] == i then [order[k - 1]] else []
  }

  /** File `k` goes to the shard that takes least so far, the first of them. */
  ghost predicate GoesToLeast(order: seq<string>, slots: seq<nat>, m: nat, k: nat, weights: map<string, real>,
                              fallback: real)
    requires k < |order| == |slots|
  {
    && slots[k] < m
    && (forall i :: 0 <= i < m ==> Total(Part(order, slots, slots[k], k), weights, fallback)
                                   <= Total(Part(order, slots, i, k), weights, fallback))
    && (forall i :: 0 <= i < slots[k] ==> Total(Part(order, slots, slots[k], k), weights, fallback)
                                          < Total(Part(order, slots, i, k), weights, fallback))
  }

  /** The shards are what comes of handing out `order` file by file as `slots` says, each listed by path. */
  ghost predicate HandedOut(shards: seq<seq<string>>, order: seq<string>, slots: seq<nat>, weights: map<string, real>,
                            fallback: real) {
    && |slots| == |order|
    && (forall k :: 0 <= k < |order| ==> GoesToLeast(order, slots, |shards|, k, weights, fallback))
    && (forall i :: 0 <= i < |shards| ==>
          Sorted(shards[i], Le) && multiset(shards[i]) == multiset(Part(order, slots, i, |order|)))
  }

  /** The shards are the files handed out in order. */
  ghost predicate ByRule(shards: seq<seq<string>>, files: seq<string>, weights: map<string, real>, fallback: real) {
    exists order, slots ::
      && multiset(order) == multiset(files) && InOrder(order, weights, fallback)
      && HandedOut(shards, order, slots, weights, fallback)
  }

  /** `c` is at most 4/3 - 1/(3m) times `t`. */
  ghost predicate Near(m: nat, c: real, t: real) {
    3.0 * m as real * c <= (4.0 * m as real - 1.0) * t
  }

  ghost predicate Nearly(shards: seq<seq<string>>, weights: map<string, real>, fallback: real, t: real) {
    forall i :: 0 <= i < |shards| ==> Near(|shards|, Total(shards[i], weights, fallback), t)
  }

  /** However the files are divided, if no shard takes more than `t` then these nearly do not either. */
  ghost predicate NearBest(shards: seq<seq<string>>, files: seq<string>, weights: map<string, real>, fallback: real) {
    forall alt, t :: Schedule(alt, files, |shards|) && Within(alt, weights, fallback, t) ==>
      Nearly(shards, weights, fallback, t)
  }

  ghost predicate NoNegative(weights: map<string, real>, fallback: real) {
    fallback >= 0.0 && forall f :: f in weights ==> weights[f] >= 0.0
  }

  /** `plan_shards` */
  method PlanShards(files: seq<string>, weights: map<string, real>, m: nat, fallback: real)
    returns (shards: seq<seq<string>>)
    requires m >= 1
    ensures shards == Plan(files, m, WeightOf(weights, fallback))
    ensures |shards| == m && multiset(Flatten(shards)) == multiset(files)
    ensures ByRule(shards, files, weights, fallback)
    ensures NoNegative(weights, fallback) ==> NearBest(shards, files, weights, fallback)
  {
    var w := WeightOf(weights, fallback);
    var bins := PlaceAll(Ordered(files, w), m, w);
    shards := SortBins(bins);
    PlanIsPermutation(files, m, w);
    PlanIsByRule(files, m, weights, fallback);
    if NoNegative(weights, fallback) { PlanIsNearBest(files, m, weights, fallback); }
  }

  lemma {:induction false} TotalIsSum(shard: seq<string>, weights: map<string, real>, fallback: real)
    ensures Total(shard, weights, fallback) == Sum(shard, WeightOf(weights, fallback))
  {
    if shard != [] {
      TotalIsSum(shard[1..], weights, fallback);
    }
  }

  lemma TotalIsLoad(bins: seq<seq<string>>, i: nat, weights: map<string, real>, fallback: real)
    requires i < |bins|
    ensures Total(bins[i], weights, fallback) == Loads(bins, WeightOf(weights, fallback))[i]
  {
    TotalIsSum(bins[i], weights, fallback);
  }

  lemma TotalOfOne(f: string, weights: map<string, real>, fallback: real)
    ensures Total([f], weights, fallback) == WeightOf(weights, fallback)(f)
  {
    assert [f][1..] == [];
    assert Total([], weights, fallback) == 0.0;
  }

  /** The processing order in full, ties and all. */
  lemma OrderIsComplete(files: seq<string>, weights: map<string, real>, fallback: real)
    ensures InOrder(Ordered(files, WeightOf(weights, fallback)), weights, fallback)
  {
    var w := WeightOf(weights, fallback);
    var o := Ordered(files, w);
    BeforeIsTotalOrder(w);
    SortSorts(files, (a, b) => Before(w, a, b));
    forall i, j | 0 <= i < j < |o|
      ensures Total([o[i]], weights, fallback) > Total([o[j]], weights, fallback)
              || (Total([o[i]], weights, fallback) == Total([o[j]], weights, fallback) && Le(o[i], o[j]))
    {
      TotalOfOne(o[i], weights, fallback);
      TotalOfOne(o[j], weights, fallback);
      assert Before(w, o[i], o[j]);
    }
  }

  function BinsAfter(order: seq<string>, m: nat, w: Weigh, k: nat): (r: seq<seq<string>>)
    requires m >= 1 && k <= |order|
    ensures |r| == m
  {
    Greedy(Empties(m), order[..k], w)
  }

  function Slots(order: seq<string>, m: nat, w: Weigh): (r: seq<nat>)
    requires m >= 1
    ensures |r| == |order|
    ensures forall k :: 0 <= k < |order| ==> r[k] == Lightest(Loads(BinsAfter(order, m, w, k), w))
  {
    seq(|order|, k requires 0 <= k < |order| => Lightest(Loads(BinsAfter(order, m, w, k), w)))
  }

  lemma BinsNext(order: seq<string>, m: nat, w: Weigh, k: nat)
    requires m >= 1 && k < |order|
    ensures BinsAfter(order, m, w, k + 1) == Place(BinsAfter(order, m, w, k), order[k], w)
  {
    assert order[..k + 1] == order[..k] + [order[k]];
    GreedySnoc(Empties(m), order[..k], order[k], w);
  }

  lemma {:induction false} BinsAreParts(order: seq<string>, m: nat, w: Weigh, k: nat, i: nat)
    requires m >= 1 && k <= |order| && i < m
    ensures BinsAfter(order, m, w, k)[i] == Part(order, Slots(order, m, w), i, k)
  {
    if k > 0 {
      BinsAreParts(order, m, w, k - 1, i);
      BinsNext(order, m, w, k - 1);
    } else {
      assert order[..0] == [];
    }
  }

  lemma SlotIsLeast(order: seq<string>, m: nat, weights: map<string, real>, fallback: real, k: nat)
    requires m >= 1 && k < |order|
    ensures GoesToLeast(order, Slots(order, m, WeightOf(weights, fallback)), m, k, weights, fallback)
  {
    var w := WeightOf(weights, fallback);
    var slots := Slots(order, m, w);
    var bins := BinsAfter(order, m, w, k);
    forall i | 0 <= i < m ensures Total(Part(order, slots, i, k), weights, fallback) == Loads(bins, w)[i] {
      BinsAreParts(order, m, w, k, i);
      TotalIsLoad(bins, i, weights, fallback);
    }
  }

  lemma PlanIsHandedOut(files: seq<string>, m: nat, weights: map<string, real>, fallback: real)
    returns (slots: seq<nat>)
    requires m >= 1
    ensures var w := WeightOf(weights, fallback);
            HandedOut(Plan(files, m, w), Ordered(files, w), slots, weights, fallback)
  {
    var w := WeightOf(weights, fallback);
    var order, plan := Ordered(files, w), Plan(files, m, w);
    slots := Slots(order, m, w);
    forall k | 0 <= k < |order| ensures GoesToLeast(order, slots, m, k, weights, fallback) {
      SlotIsLeast(order, m, weights, fallback, k);
    }
    PlanIsPermutation(files, m, w);
    forall i | 0 <= i < m ensures multiset(plan[i]) == multiset(Part(order, slots, i, |order|)) {
      BinsAreParts(order, m, w, |order|, i);
      assert order[..|order|] == order;
    }
  }

  lemma FourThirdsTimes(m: nat, c: real, t: real, s: real)
    requires m >= 1 && c <= FourThirds(m, s) && s <= t
    ensures Near(m, c, t)
  {
    var r := m as real;
    var a, b := 4.0 * r - 1.0, 3.0 * r;
    ProductSign(a, t - s);
    ProductSign(b, FourThirds(m, s) - c);
    assert a * (t - s) == a * t - a * s;
    assert b * (FourThirds(m, s) - c) == b * FourThirds(m, s) - b * c;
    assert b * FourThirds(m, s) == a * s;
  }

  lemma HeaviestIsWithin(alt: seq<seq<string>>, weights: map<string, real>, fallback: real, t: real)
    requires alt != [] && Within(alt, weights, fallback, t)
    ensures Makespan(alt, WeightOf(weights, fallback)) <= t
  {
    var w := WeightOf(weights, fallback);
    var k :| 0 <= k < |alt| && Sum(alt[k], w) == Makespan(alt, w);
    TotalIsSum(alt[k], weights, fallback);
  }

  lemma NotHeavier(bins: seq<seq<string>>, i: nat, weights: map<string, real>, fallback: real)
    requires i < |bins|
    ensures Total(bins[i], weights, fallback) <= Makespan(bins, WeightOf(weights, fallback))
  {
    TotalIsSum(bins[i], weights, fallback);
  }

  lemma PlanIsWithin(files: seq<string>, m: nat, weights: map<string, real>, fallback: real, alt: seq<seq<string>>,
                     t: real)
    requires m >= 1 && NoNegative(weights, fallback) && Schedule(alt, files, m) && Within(alt, weights, fallback, t)
    ensures Nearly(Plan(files, m, WeightOf(weights, fallback)), weights, fallback, t)
  {
    var w := WeightOf(weights, fallback);
    var plan := Plan(files, m, w);
    PlanWithinFourThirds(files, m, w, alt);
    HeaviestIsWithin(alt, weights, fallback, t);
    forall i | 0 <= i < m ensures Near(m, Total(plan[i], weights, fallback), t) {
      NotHeavier(plan, i, weights, fallback);
      FourThirdsTimes(m, Total(plan[i], weights, fallback), t, Makespan(alt, w));
    }
  }

  lemma PlanIsByRule(files: seq<string>, m: nat, weights: map<string, real>, fallback: real)
    requires m >= 1
    ensures ByRule(Plan(files, m, WeightOf(weights, fallback)), files, weights, fallback)
  {
    var order := Ordered(files, WeightOf(weights, fallback));
    OrderIsComplete(files, weights, fallback);
    var slots := PlanIsHandedOut(files, m, weights, fallback);
    assert multiset(order) == multiset(files);
  }

  lemma PlanIsNearBest(files: seq<string>, m: nat, weights: map<string, real>, fallback: real)
    requires m >= 1 && NoNegative(weights, fallback)
    ensures NearBest(Plan(files, m, WeightOf(weights, fallback)), files, weights, fallback)
  {
    var plan := Plan(files, m, WeightOf(weights, fallback));
    forall alt, t | Schedule(alt, files, m) && Within(alt, weights, fallback, t)
      ensures Nearly(plan, weights, fallback, t)
    {
      PlanIsWithin(files, m, weights, fallback, alt, t);
    }
  }
}

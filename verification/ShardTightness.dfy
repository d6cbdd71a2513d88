/**
 The 4/3 - 1/(3m) bound on the planner cannot be improved, for any number m of shards: 2m + 1 files of
 weights 2m-1, 2m-1, 2m-2, 2m-2, ..., m+1, m+1, m, m, m attain it.
 */
module ShardTightness {
  import opened Ordering
  import opened ShardPlanner
  import opened ShardBound

  /** The weight of the file at position i of the family. */
  function Weight(m: nat, i: nat): real {
    if i >= 2 * m then m as real else (2 * m - 1 - i / 2) as real
  }

  lemma WeightFalls(m: nat, i: nat, j: nat)
    requires i <= j <= 2 * m
    ensures Weight(m, i) >= Weight(m, j) && (m > 0 ==> Weight(m, j) > 0.0)
  {
  }

  /** Positions that mirror each other around the middle. */
  lemma MirrorSum(m: nat, i: nat, j: nat)
    requires i < 2 * m && j < 2 * m && (i + j == 2 * m - 1 || i + j == 2 * m - 3)
    ensures Weight(m, i) + Weight(m, j) == if i + j == 2 * m - 1 then (3 * m - 1) as real else (3 * m) as real
  {
    assert i / 2 + j / 2 == (i + j - 1) / 2;
  }

  ghost predicate Family(fs: seq<string>, m: nat, w: Weigh) {
    |fs| == 2 * m + 1 && forall i :: 0 <= i < |fs| ==> w(fs[i]) == Weight(m, i)
  }

  // ------------------------------------------------------------------ the order of processing

  lemma AtLeastIsTotalOrder()
    ensures TotalOrder((a: real, b: real) => a >= b)
  {
  }

  /** Listed by weight, the files keep their weights at every position of the processing order. */
  lemma OrderedFamily(files: seq<string>, m: nat, w: Weigh)
    requires Family(files, m, w)
    ensures Family(Ordered(files, w), m, w)
  {
    var o := Ordered(files, w);
    var atLeast := (a: real, b: real) => a >= b;
    OrderedByWeight(files, w);
    MapBag(files, o, w);
    AtLeastIsTotalOrder();
    forall i, j | 0 <= i < j < |files| ensures Map(files, w)[i] >= Map(files, w)[j] { WeightFalls(m, i, j); }
    SortedUnique(Map(o, w), Map(files, w), atLeast);
    assert |o| == |Map(o, w)| == |files|;
    forall i | 0 <= i < |o| ensures w(o[i]) == Weight(m, i) { assert Map(o, w)[i] == Map(files, w)[i]; }
  }

  // ------------------------------------------------------------------ the loads alone

  /** What placing a file of weight x does to the loads. */
  function Grown(loads: seq<real>, x: real): (r: seq<real>)
    requires loads != []
    ensures |r| == |loads|
  {
    var k := Lightest(loads);
    loads[k := loads[k] + x]
  }

  function Zeros(m: nat): (r: seq<real>)
    ensures |r| == m && forall i :: 0 <= i < m ==> r[i] == 0.0
  {
    seq(m, _ => 0.0)
  }

  ghost predicate StepAt(hist: seq<seq<real>>, ws: seq<real>, i: nat)
    requires i < |ws| && i + 1 < |hist| && hist[i] != []
  {
    hist[i + 1] == Grown(hist[i], ws[i])
  }

  /** The loads before the first file and after each. */
  ghost predicate Trace(hist: seq<seq<real>>, ws: seq<real>, m: nat) {
    && m >= 1 && |hist| == |ws| + 1 && hist[0] == Zeros(m) && (forall i :: 0 <= i < |hist| ==> |hist[i]| == m)
    && (forall i :: 0 <= i < |ws| ==> StepAt(hist, ws, i))
  }

  function LoadsAfter(o: seq<string>, m: nat, w: Weigh, i: nat): (r: seq<real>)
    requires m >= 1 && i <= |o|
    ensures |r| == m
  {
    Loads(Greedy(Empties(m), o[..i], w), w)
  }

  lemma LoadsNext(o: seq<string>, m: nat, w: Weigh, i: nat)
    requires m >= 1 && i < |o|
    ensures LoadsAfter(o, m, w, i + 1) == Grown(LoadsAfter(o, m, w, i), w(o[i]))
  {
    assert o[..i + 1] == o[..i] + [o[i]];
    GreedySnoc(Empties(m), o[..i], o[i], w);
    PlacedLoads(Greedy(Empties(m), o[..i], w), o[i], w);
  }

  lemma LoadsFirst(o: seq<string>, m: nat, w: Weigh)
    requires m >= 1
    ensures LoadsAfter(o, m, w, 0) == Zeros(m)
  {
    assert o[..0] == [];
    forall i | 0 <= i < m ensures Loads(Empties(m), w)[i] == 0.0 { assert Empties(m)[i] == []; }
  }

  /** The planner's loads are a trace. */
  lemma GreedyTrace(o: seq<string>, m: nat, w: Weigh) returns (hist: seq<seq<real>>)
    requires m >= 1
    ensures Trace(hist, Map(o, w), m) && hist[|o|] == Loads(Greedy(Empties(m), o, w), w)
  {
    hist := seq(|o| + 1, i requires 0 <= i <= |o| => LoadsAfter(o, m, w, i));
    LoadsFirst(o, m, w);
    forall i | 0 <= i < |o| ensures StepAt(hist, Map(o, w), i) { LoadsNext(o, m, w, i); }
    assert o[..|o|] == o;
  }

  ghost predicate FamilyWeights(ws: seq<real>, m: nat) {
    |ws| == 2 * m + 1 && forall i :: 0 <= i < |ws| ==> ws[i] == Weight(m, i)
  }

  // ------------------------------------------------------------------ the first m files: one to a shard

  function Singles(m: nat, i: nat): (r: seq<real>)
    ensures |r| == m && forall j :: 0 <= j < m ==> r[j] == if j < i then Weight(m, j) else 0.0
  {
    seq(m, j requires 0 <= j < m => if j < i then Weight(m, j) else 0.0)
  }

  lemma FirstEmptyIsLightest(m: nat, i: nat)
    requires i < m
    ensures Lightest(Singles(m, i)) == i
  {
    var k := Lightest(Singles(m, i));
    assert Singles(m, i)[k] <= Singles(m, i)[i];
    if k < i { WeightFalls(m, k, k); }
  }

  lemma FirstStep(m: nat, i: nat)
    requires i < m
    ensures Grown(Singles(m, i), Weight(m, i)) == Singles(m, i + 1)
  {
    FirstEmptyIsLightest(m, i);
  }

  /** File i of the family went to the lightest shard. */
  ghost predicate Stepped(hist: seq<seq<real>>, m: nat, i: nat)
    requires i + 1 < |hist|
  {
    hist[i] != [] && hist[i + 1] == Grown(hist[i], Weight(m, i))
  }

  /** The loads while the family is placed. */
  ghost predicate Steps(hist: seq<seq<real>>, m: nat) {
    |hist| == 2 * m + 2 && hist[0] == Zeros(m) && forall i :: 0 <= i < 2 * m + 1 ==> Stepped(hist, m, i)
  }

  lemma FamilySteps(hist: seq<seq<real>>, ws: seq<real>, m: nat)
    requires Trace(hist, ws, m) && FamilyWeights(ws, m)
    ensures Steps(hist, m)
  {
    forall i | 0 <= i < 2 * m + 1 ensures Stepped(hist, m, i) {
      assert StepAt(hist, ws, i);
    }
  }

  lemma {:induction false} FirstRound(hist: seq<seq<real>>, m: nat, i: nat)
    requires Steps(hist, m) && i <= m
    ensures hist[i] == Singles(m, i)
  {
    if i == 0 {
      assert Zeros(m) == Singles(m, 0);
    } else {
      FirstRound(hist, m, i - 1);
      assert Stepped(hist, m, i - 1);
      FirstStep(m, i - 1);
    }
  }

  // ------------------------------------------------------------------ the next m files: every shard to 3m - 1

  function Full(m: nat): real {
    (3 * m - 1) as real
  }

  /** The loads once j shards are full, up to order. */
  function Filled(m: nat, j: nat): (r: seq<real>)
    ensures |r| == m && forall t :: 0 <= t < m ==> r[t] == if t + j < m then Weight(m, t) else Full(m)
  {
    seq(m, t requires 0 <= t < m => if t + j < m then Weight(m, t) else Full(m))
  }

  lemma LeastFilled(m: nat, j: nat)
    requires j < m
    ensures forall x :: x in Filled(m, j) ==> Weight(m, m - 1 - j) <= x
  {
    forall t | 0 <= t < m ensures Weight(m, m - 1 - j) <= Filled(m, j)[t] {
      if t + j < m { WeightFalls(m, t, m - 1 - j); } else { WeightFalls(m, 0, m - 1 - j); }
    }
  }

  function Replaced(b: multiset<real>, low: real, x: real): multiset<real> {
    b - multiset{low} + multiset{x}
  }

  lemma FilledNext(m: nat, j: nat)
    requires j < m
    ensures multiset(Filled(m, j + 1)) == Replaced(multiset(Filled(m, j)), Weight(m, m - 1 - j), Full(m))
  {
    assert Filled(m, j)[m - 1 - j := Full(m)] == Filled(m, j + 1);
  }

  /** As a bag, the loads change by the least one growing. */
  lemma GrownBag(loads: seq<real>, x: real, low: real)
    requires loads != [] && low in loads && forall y :: y in loads ==> low <= y
    ensures multiset(Grown(loads, x)) == Replaced(multiset(loads), low, low + x)
  {
    var k := Lightest(loads);
    assert loads[k] in loads;
    assert loads[k] == low;
  }

  lemma MirrorFull(m: nat, j: nat)
    requires j < m
    ensures Weight(m, m - 1 - j) + Weight(m, m + j) == Full(m)
  {
    MirrorSum(m, m - 1 - j, m + j);
  }

  /** j of the shards are full. */
  ghost predicate FullShards(loads: seq<real>, m: nat, j: nat) {
    multiset(loads) == multiset(Filled(m, j))
  }

  lemma BagStep(loads: seq<real>, x: real, low: real, full: real, now: multiset<real>, next: multiset<real>)
    requires loads != [] && multiset(loads) == now && low in now && (forall y :: y in now ==> low <= y)
    requires low + x == full && next == Replaced(now, low, full)
    ensures multiset(Grown(loads, x)) == next
  {
    assert forall y :: y in loads ==> y in now;
    assert low in multiset(loads);
    GrownBag(loads, x, low);
  }

  lemma LeastInFilled(m: nat, j: nat)
    requires j < m
    ensures Weight(m, m - 1 - j) in multiset(Filled(m, j))
    ensures forall y :: y in multiset(Filled(m, j)) ==> Weight(m, m - 1 - j) <= y
  {
    assert Filled(m, j)[m - 1 - j] == Weight(m, m - 1 - j);
    LeastFilled(m, j);
  }

  lemma SecondStep(before: seq<real>, after: seq<real>, m: nat, j: nat)
    requires before != [] && j < m && FullShards(before, m, j) && after == Grown(before, Weight(m, m + j))
    ensures FullShards(after, m, j + 1)
  {
    LeastInFilled(m, j);
    MirrorFull(m, j);
    FilledNext(m, j);
    BagStep(before, Weight(m, m + j), Weight(m, m - 1 - j), Full(m), multiset(Filled(m, j)),
            multiset(Filled(m, j + 1)));
  }

  lemma NoneFull(m: nat)
    ensures FullShards(Singles(m, m), m, 0)
  {
    assert Singles(m, m) == Filled(m, 0);
  }

  lemma SecondStart(hist: seq<seq<real>>, m: nat)
    requires Steps(hist, m)
    ensures FullShards(hist[m], m, 0)
  {
    FirstRound(hist, m, m);
    NoneFull(m);
  }

  lemma SecondNext(hist: seq<seq<real>>, m: nat, j: nat, i: nat)
    requires Steps(hist, m) && j < m && i == m + j && FullShards(hist[i], m, j)
    ensures FullShards(hist[i + 1], m, j + 1)
  {
    assert Stepped(hist, m, i);
    SecondStep(hist[i], hist[i + 1], m, j);
  }

  /** On the family the second m files level every shard at 3m - 1, whatever the ties. */
  lemma {:induction false} SecondRound(hist: seq<seq<real>>, m: nat, j: nat)
    requires Steps(hist, m) && j <= m
    ensures FullShards(hist[m + j], m, j)
  {
    if j == 0 {
      SecondStart(hist, m);
    } else {
      SecondRound(hist, m, j - 1);
      SecondNext(hist, m, j - 1, m + (j - 1));
    }
  }

  // ------------------------------------------------------------------ the last file

  lemma LastStep(loads: seq<real>, m: nat)
    requires m >= 1 && |loads| == m && forall i :: 0 <= i < m ==> loads[i] == Full(m)
    ensures var r := Grown(loads, m as real);
            (4 * m - 1) as real in r && forall x :: x in r ==> x <= (4 * m - 1) as real
  {
    var k := Lightest(loads);
    var r := Grown(loads, m as real);
    assert r[k] == (4 * m - 1) as real;
    forall i | 0 <= i < |r| ensures r[i] <= (4 * m - 1) as real {
      if i != k { assert r[i] == loads[i]; }
    }
  }

  lemma AllFull(loads: seq<real>, m: nat)
    requires FullShards(loads, m, m)
    ensures forall i :: 0 <= i < |loads| ==> loads[i] == Full(m)
  {
    forall i | 0 <= i < |loads| ensures loads[i] == Full(m) {
      assert loads[i] in multiset(loads);
      assert loads[i] in multiset(Filled(m, m));
      var t :| 0 <= t < m && Filled(m, m)[t] == loads[i];
    }
  }

  lemma LastFile(o: seq<string>, m: nat, w: Weigh)
    requires m >= 1 && Family(o, m, w)
    ensures var loads := Loads(Greedy(Empties(m), o, w), w);
            (4 * m - 1) as real in loads && forall x :: x in loads ==> x <= (4 * m - 1) as real
  {
    var ws := Map(o, w);
    var hist := GreedyTrace(o, m, w);
    FamilySteps(hist, ws, m);
    SecondRound(hist, m, m);
    AllFull(hist[2 * m], m);
    assert StepAt(hist, ws, 2 * m);
    LastStep(hist[2 * m], m);
  }

  lemma PlannedMakespan(files: seq<string>, m: nat, w: Weigh)
    requires m >= 1 && Family(Ordered(files, w), m, w)
    ensures Makespan(Plan(files, m, w), w) == (4 * m - 1) as real
  {
    var bins := Greedy(Empties(m), Ordered(files, w), w);
    LastFile(Ordered(files, w), m, w);
    SortBinsPermutes(bins, w);
    LargestLoad(Plan(files, m, w), w, (4 * m - 1) as real);
  }

  lemma LargestLoad(bins: seq<seq<string>>, w: Weigh, t: real)
    requires bins != [] && t in Loads(bins, w) && forall x :: x in Loads(bins, w) ==> x <= t
    ensures Makespan(bins, w) == t
  {
    var i :| 0 <= i < |bins| && Loads(bins, w)[i] == t;
    assert Sum(bins[i], w) <= Makespan(bins, w);
    var k :| 0 <= k < |bins| && Sum(bins[k], w) == Makespan(bins, w);
    assert Loads(bins, w)[k] in Loads(bins, w);
  }

  // ------------------------------------------------------------------ a schedule of height 3m

  function Pairs(o: seq<string>, n: nat, k: nat): (r: seq<seq<string>>)
    requires n <= |o| && k <= n
    ensures |r| == k && forall i :: 0 <= i < k ==> r[i] == [o[i], o[n - 1 - i]]
  {
    seq(k, i requires 0 <= i < k => [o[i], o[n - 1 - i]])
  }

  lemma Regroup(a: multiset<string>, b: multiset<string>, p: multiset<string>, q: multiset<string>)
    ensures (a + b) + (p + q) == (a + p) + (q + b)
  {
  }

  lemma FlattenSnoc(bins: seq<seq<string>>, b: seq<string>)
    ensures multiset(Flatten(bins + [b])) == multiset(Flatten(bins)) + multiset(b)
  {
    FlattenAppend(bins, [b]);
    FlattenOne(b);
  }

  lemma PrefixBag(o: seq<string>, k: nat)
    requires k < |o|
    ensures multiset(o[..k + 1]) == multiset(o[..k]) + multiset{o[k]}
  {
    assert o[..k + 1] == o[..k] + [o[k]];
  }

  lemma SuffixBag(o: seq<string>, k: nat, n: nat)
    requires k < n <= |o|
    ensures multiset(o[k..n]) == multiset{o[k]} + multiset(o[k + 1..n])
  {
    assert o[k..n] == [o[k]] + o[k + 1..n];
  }

  lemma PairsNext(o: seq<string>, n: nat, k: nat)
    requires n <= |o| && k < n
    ensures Pairs(o, n, k + 1) == Pairs(o, n, k) + [[o[k], o[n - 1 - k]]]
  {
  }

  lemma PairBag(a: string, b: string)
    ensures multiset([a, b]) == multiset{a} + multiset{b}
  {
  }

  lemma PairsStep(o: seq<string>, n: nat, k: nat, front: multiset<string>, back: multiset<string>)
    requires n <= |o| && k < n && multiset(Flatten(Pairs(o, n, k))) == front + back
    ensures multiset(Flatten(Pairs(o, n, k + 1))) == (front + multiset{o[k]}) + (multiset{o[n - 1 - k]} + back)
  {
    PairsNext(o, n, k);
    FlattenSnoc(Pairs(o, n, k), [o[k], o[n - 1 - k]]);
    PairBag(o[k], o[n - 1 - k]);
    Regroup(front, back, multiset{o[k]}, multiset{o[n - 1 - k]});
  }

  /** The k first and the k last of the first n. */
  function Ends(o: seq<string>, n: nat, k: nat): multiset<string>
    requires k <= n <= |o|
  {
    multiset(o[..k]) + multiset(o[n - k..n])
  }

  lemma EndsNext(o: seq<string>, n: nat, k: nat)
    requires k < n <= |o|
    ensures Ends(o, n, k + 1) == (multiset(o[..k]) + multiset{o[k]}) + (multiset{o[n - 1 - k]} + multiset(o[n - k..n]))
  {
    PrefixBag(o, k);
    SuffixBag(o, n - 1 - k, n);
  }

  lemma NoEnds(o: seq<string>, n: nat)
    requires n <= |o|
    ensures multiset(Flatten(Pairs(o, n, 0))) == Ends(o, n, 0)
  {
    assert o[..0] == [] && o[n - 0..n] == [];
  }

  lemma {:induction false} PairsFlat(o: seq<string>, n: nat, k: nat)
    requires k <= n <= |o|
    ensures multiset(Flatten(Pairs(o, n, k))) == Ends(o, n, k)
  {
    if k == 0 {
      NoEnds(o, n);
    } else {
      var j := k - 1;
      PairsFlat(o, n, j);
      PairsStep(o, n, j, multiset(o[..j]), multiset(o[n - j..n]));
      EndsNext(o, n, j);
    }
  }

  lemma FlattenOne(b: seq<string>)
    ensures Flatten([b]) == b
  {
    assert [b][1..] == [];
    assert Flatten([b]) == b + Flatten([]);
  }

  /** Mirrored pairs of the heavier files, and the three lightest together. */
  function Better(o: seq<string>, m: nat): (r: seq<seq<string>>)
    requires m >= 1 && |o| == 2 * m + 1
    ensures |r| == m
  {
    Pairs(o, 2 * m - 2, m - 1) + [[o[2 * m - 2], o[2 * m - 1], o[2 * m]]]
  }

  lemma BagOfThreeParts(o: seq<string>, k: nat, n: nat, last: seq<string>)
    requires k <= n <= |o| && last == o[n..]
    ensures multiset(o[..k]) + multiset(o[k..n]) + multiset(last) == multiset(o)
  {
    assert o[..n] == o[..k] + o[k..n];
    assert o == o[..n] + last;
  }

  lemma LastThree(o: seq<string>, n: nat)
    requires |o| == n + 3
    ensures [o[n], o[n + 1], o[n + 2]] == o[n..]
  {
  }

  lemma BetterIsSchedule(o: seq<string>, m: nat)
    requires m >= 1 && |o| == 2 * m + 1
    ensures multiset(Flatten(Better(o, m))) == multiset(o)
  {
    var n, k := 2 * m - 2, m - 1;
    assert n - k == k;
    var three := [o[n], o[n + 1], o[n + 2]];
    LastThree(o, n);
    PairsFlat(o, n, k);
    FlattenSnoc(Pairs(o, n, k), three);
    BagOfThreeParts(o, k, n, three);
  }

  lemma SumOfTwo(a: string, b: string, w: Weigh)
    ensures Sum([a, b], w) == w(a) + w(b)
  {
    assert [a, b][1..] == [b] && [b][1..] == [];
    assert Sum([b], w) == w(b) + Sum([], w);
  }

  lemma SumOfThree(a: string, b: string, c: string, w: Weigh)
    ensures Sum([a, b, c], w) == w(a) + w(b) + w(c)
  {
    assert [a, b, c][1..] == [b, c];
    SumOfTwo(b, c, w);
  }

  lemma BetterMakespan(o: seq<string>, m: nat, w: Weigh)
    requires m >= 1 && Family(o, m, w)
    ensures Makespan(Better(o, m), w) == (3 * m) as real
  {
    var alt, n := Better(o, m), 2 * m - 2;
    forall i | 0 <= i < m ensures Sum(alt[i], w) == (3 * m) as real {
      if i < m - 1 {
        assert alt[i] == [o[i], o[n - 1 - i]];
        SumOfTwo(o[i], o[n - 1 - i], w);
        MirrorSum(m, i, n - 1 - i);
      } else {
        assert alt[i] == [o[n], o[n + 1], o[n + 2]];
        SumOfThree(o[n], o[n + 1], o[n + 2], w);
      }
    }
    var k :| 0 <= k < m && Sum(alt[k], w) == Makespan(alt, w);
  }

  lemma BoundOf(m: nat)
    requires m >= 1
    ensures FourThirds(m, (3 * m) as real) == (4 * m - 1) as real
  {
    var r := m as real;
    assert (3 * m) as real == 3.0 * r && (4 * m - 1) as real == 4.0 * r - 1.0;
    Cancel(4.0 * r - 1.0, 3.0 * r);
  }

  lemma Cancel(a: real, b: real)
    requires b != 0.0
    ensures a * b / b == a
  {
  }

  /** For every number of shards the planner needs 4m - 1 where 3m would do, which is all the bound allows. */
  lemma BoundIsAttained(files: seq<string>, m: nat, w: Weigh) returns (alt: seq<seq<string>>)
    requires m >= 1 && Family(files, m, w)
    ensures Schedule(alt, files, m) && Makespan(Plan(files, m, w), w) == FourThirds(m, Makespan(alt, w))
  {
    var o := Ordered(files, w);
    OrderedFamily(files, m, w);
    PlannedMakespan(files, m, w);
    alt := Better(o, m);
    BetterIsSchedule(o, m);
    BetterMakespan(o, m, w);
    BoundOf(m);
  }

  // ------------------------------------------------------------------ an instance for every m

  function Name(i: nat): (r: string)
    ensures |r| == i
  {
    seq(i, _ => 'a')
  }

  /** Files told apart by the lengths of their names. */
  function Files(m: nat): (r: seq<string>)
    ensures |r| == 2 * m + 1 && forall i :: 0 <= i < |r| ==> r[i] == Name(i)
  {
    seq(2 * m + 1, i requires 0 <= i => Name(i))
  }

  function ByLength(m: nat): Weigh {
    f => Weight(m, |f|)
  }

  /** For every number of shards there are files on which the planner does as badly as the bound allows. */
  lemma BoundIsTight(m: nat) returns (files: seq<string>, w: Weigh, alt: seq<seq<string>>)
    requires m >= 1
    ensures NoDuplicates(files) && (forall f :: w(f) > 0.0) && Schedule(alt, files, m)
    ensures Makespan(Plan(files, m, w), w) == FourThirds(m, Makespan(alt, w))
  {
    files, w := Files(m), ByLength(m);
    forall f ensures w(f) > 0.0 { WeightIsPositive(m, |f|); }
    forall i, j | 0 <= i < j < |files| ensures files[i] != files[j] { assert |files[i]| == i && |files[j]| == j; }
    alt := BoundIsAttained(files, m, w);
  }

  lemma WeightIsPositive(m: nat, i: nat)
    requires m >= 1
    ensures Weight(m, i) > 0.0
  {
  }
}

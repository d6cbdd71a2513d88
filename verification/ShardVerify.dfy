/**
 The coverage proof of scripts/ci/pytest_shards.py: the partition checker, the file inventory and the
 decision of `verify [--collect]`.  Git, the file system and pytest collection are parameters.
 */
module ShardVerify {
  import opened Wrappers
  import opened Ordering
  import opened ShardPlanner
  import opened ShardContract

  datatype PartitionError =
    | Duplicate(file: string, earlier: nat, later: nat)
    | Unassigned(file: string)
    | Unexpected(file: string)
    | EmptyShard(shard: nat)

  /** What a valid assignment is: no empty shard, every expected file at exactly one position, nothing else. */
  ghost predicate IsPartition(shards: seq<seq<string>>, expected: seq<string>) {
    && (forall i :: 0 <= i < |shards| ==> shards[i] != [])
    && (forall i :: 0 <= i < |shards| ==> NoDuplicates(shards[i]))
    && (forall i, j :: 0 <= i < j < |shards| ==> forall f :: f in shards[i] ==> f !in shards[j])
    && (forall f :: f in expected <==> exists i :: 0 <= i < |shards| && f in shards[i])
  }

  // ------------------------------------------------------------------ duplicates and flattening

  lemma {:induction false} InFlatten(shards: seq<seq<string>>, f: string)
    ensures f in Flatten(shards) <==> exists i :: 0 <= i < |shards| && f in shards[i]
  {
    if shards != [] {
      InFlatten(shards[1..], f);
      if i :| 0 <= i < |shards[1..]| && f in shards[1..][i] {
        assert f in shards[i + 1];
      }
      if i :| 0 <= i < |shards| && f in shards[i] {
        assert i == 0 || shards[i] == shards[1..][i - 1];
      }
    }
  }

  ghost predicate Disjoint(shards: seq<seq<string>>) {
    && (forall i :: 0 <= i < |shards| ==> NoDuplicates(shards[i]))
    && (forall i, j :: 0 <= i < j < |shards| ==> forall f :: f in shards[i] ==> f !in shards[j])
  }

  lemma NoDuplicatesAppend(a: seq<string>, b: seq<string>)
    ensures NoDuplicates(a + b) <==> NoDuplicates(a) && NoDuplicates(b) && forall f :: f in a ==> f !in b
  {
    var c := a + b;
    if NoDuplicates(c) {
      forall i, j | 0 <= i < j < |b| ensures b[i] != b[j] { assert c[|a| + i] != c[|a| + j]; }
      forall i, j | 0 <= i < j < |a| ensures a[i] != a[j] { assert c[i] != c[j]; }
      forall f | f in a ensures f !in b {
        var i :| 0 <= i < |a| && a[i] == f;
        forall j | 0 <= j < |b| ensures b[j] != f { assert c[i] != c[|a| + j]; }
      }
    }
    if NoDuplicates(a) && NoDuplicates(b) && forall f :: f in a ==> f !in b {
      forall i, j | 0 <= i < j < |c| ensures c[i] != c[j] {
        if i < |a| <= j { assert c[i] in a && c[j] in b; }
        else if j < |a| { assert c[i] == a[i] && c[j] == a[j]; }
        else { assert c[i] == b[i - |a|] && c[j] == b[j - |a|]; }
      }
    }
  }

  lemma {:induction false} DisjointIsFlat(shards: seq<seq<string>>)
    ensures Disjoint(shards) <==> NoDuplicates(Flatten(shards))
  {
    if shards != [] {
      var rest := shards[1..];
      DisjointIsFlat(rest);
      NoDuplicatesAppend(shards[0], Flatten(rest));
      forall f ensures f in Flatten(rest) <==> exists i :: 0 <= i < |rest| && f in rest[i] { InFlatten(rest, f); }
      assert forall i :: 0 <= i < |rest| ==> rest[i] == shards[i + 1];
      if Disjoint(shards) {
        assert Disjoint(rest);
        forall f | f in shards[0] ensures f !in Flatten(rest) {
          assert forall i :: 0 <= i < |rest| ==> f !in rest[i];
        }
      }
      if NoDuplicates(Flatten(shards)) {
        forall i, j | 0 <= i < j < |shards| ensures forall f :: f in shards[i] ==> f !in shards[j] {
          if i == 0 {
            assert shards[j] == rest[j - 1];
          } else {
            assert shards[i] == rest[i - 1] && shards[j] == rest[j - 1];
          }
        }
        forall i | 0 <= i < |shards| ensures NoDuplicates(shards[i]) {
          if i > 0 { assert shards[i] == rest[i - 1]; }
        }
      }
    }
  }

  lemma PartitionIsFlat(shards: seq<seq<string>>, expected: seq<string>)
    ensures IsPartition(shards, expected) <==>
            && (forall i :: 0 <= i < |shards| ==> shards[i] != [])
            && NoDuplicates(Flatten(shards))
            && (forall f :: f in expected <==> f in Flatten(shards))
  {
    DisjointIsFlat(shards);
    forall f ensures f in Flatten(shards) <==> exists i :: 0 <= i < |shards| && f in shards[i] {
      InFlatten(shards, f);
    }
  }

  // ------------------------------------------------------------------ verify_partition

  ghost predicate Named(errors: seq<PartitionError>, f: string) {
    exists e :: e in errors && e.Duplicate? && e.file == f
  }

  /** A duplicate report names two shards that hold the file. */
  ghost predicate Truthful(errors: seq<PartitionError>, shards: seq<seq<string>>) {
    forall e :: e in errors ==>
      (e.Duplicate? && e.earlier <= e.later < |shards| && e.file in shards[e.earlier] && e.file in shards[e.later])
  }

  /** After scanning the files `visited`, all of them in shards up to `i`. */
  ghost predicate Scanned(shards: seq<seq<string>>, i: nat, visited: seq<string>,
                          errors: seq<PartitionError>, seen: map<string, nat>) {
    && (forall f :: f in seen <==> f in visited)
    && (forall f :: f in seen ==> seen[f] <= i && seen[f] < |shards| && f in shards[seen[f]])
    && (forall f :: Named(errors, f) <==> multiset(visited)[f] > 1)
    && Truthful(errors, shards)
  }

  /** The body of the scanning loop. */
  function ScanErrors(errors: seq<PartitionError>, seen: map<string, nat>, i: nat, f: string): seq<PartitionError> {
    if f in seen then errors + [Duplicate(f, seen[f], i)] else errors
  }

  lemma ScanStep(shards: seq<seq<string>>, i: nat, visited: seq<string>,
                 errors: seq<PartitionError>, seen: map<string, nat>, f: string)
    requires i < |shards| && f in shards[i] && Scanned(shards, i, visited, errors, seen)
    ensures Scanned(shards, i, visited + [f], ScanErrors(errors, seen, i, f), seen[f := i])
  {
    CountAppend(visited, f);
    assert f in seen <==> multiset(visited)[f] > 0;
    if f in seen {
      NamedAppend(errors, f, seen[f], i);
    }
  }

  lemma NamedAppend(errors: seq<PartitionError>, f: string, a: nat, b: nat)
    ensures forall g :: Named(errors + [Duplicate(f, a, b)], g) <==> Named(errors, g) || g == f
  {
    var more := errors + [Duplicate(f, a, b)];
    assert Duplicate(f, a, b) in more;
    assert forall e :: e in more <==> e in errors || e == Duplicate(f, a, b);
  }

  lemma FlattenPrefix(shards: seq<seq<string>>, i: nat)
    requires i < |shards|
    ensures Flatten(shards[..i + 1]) == Flatten(shards[..i]) + shards[i]
  {
    assert shards[..i + 1] == shards[..i] + [shards[i]];
    FlattenAppend(shards[..i], [shards[i]]);
    assert Flatten([shards[i]]) == shards[i];
  }

  /** One shard of the first loop of `verify_partition`. */
  method ScanShard(shards: seq<seq<string>>, i: nat, ghost before: seq<string>,
                   errors0: seq<PartitionError>, seen0: map<string, nat>)
    returns (errors: seq<PartitionError>, seen: map<string, nat>)
    requires i < |shards| && Scanned(shards, i, before, errors0, seen0)
    ensures Scanned(shards, i, before + shards[i], errors, seen)
  {
    errors, seen := errors0, seen0;
    var rest := shards[i];
    ghost var visited := before;
    while rest != []
      invariant visited + rest == before + shards[i]
      invariant forall f :: f in rest ==> f in shards[i]
      invariant Scanned(shards, i, visited, errors, seen)
      decreases |rest|
    {
      var f := rest[0];
      ScanStep(shards, i, visited, errors, seen, f);
      errors, seen := ScanErrors(errors, seen, i, f), seen[f := i];
      assert visited + [f] + rest[1..] == visited + rest;
      visited, rest := visited + [f], rest[1..];
    }
    assert visited + rest == visited;
  }

  /** The first loop of `verify_partition`, filling `seen` shard by shard. */
  method FindDuplicates(shards: seq<seq<string>>) returns (errors: seq<PartitionError>, seen: map<string, nat>)
    ensures Scanned(shards, |shards|, Flatten(shards), errors, seen)
  {
    errors, seen := [], map[];
    ghost var visited := Flatten(shards[..0]);
    for i := 0 to |shards|
      invariant visited == Flatten(shards[..i])
      invariant Scanned(shards, i, visited, errors, seen)
    {
      errors, seen := ScanShard(shards, i, visited, errors, seen);
      FlattenPrefix(shards, i);
      visited := visited + shards[i];
    }
    assert shards[..|shards|] == shards;
  }

  function Unassigneds(names: seq<string>): (r: seq<PartitionError>)
    ensures |r| == |names| && forall e :: e in r <==> e.Unassigned? && e.file in names
  {
    if names == [] then [] else [Unassigned(names[0])] + Unassigneds(names[1..])
  }

  function Unexpecteds(names: seq<string>): (r: seq<PartitionError>)
    ensures |r| == |names| && forall e :: e in r <==> e.Unexpected? && e.file in names
  {
    if names == [] then [] else [Unexpected(names[0])] + Unexpecteds(names[1..])
  }

  /** The last loop of `verify_partition`. */
  method FindEmpty(shards: seq<seq<string>>) returns (errors: seq<PartitionError>)
    ensures forall e :: e in errors <==> e.EmptyShard? && e.shard < |shards| && shards[e.shard] == []
  {
    errors := [];
    for i := 0 to |shards|
      invariant forall e :: e in errors <==> e.EmptyShard? && e.shard < i && shards[e.shard] == []
    {
      if shards[i] == [] {
        errors := errors + [EmptyShard(i)];
      }
    }
  }

  /** The four sections of a report on `shards`. */
  ghost predicate Report(shards: seq<seq<string>>, expected: seq<string>, duplicates: seq<PartitionError>,
                         missing: seq<PartitionError>, extra: seq<PartitionError>, empty: seq<PartitionError>) {
    && (forall f :: Named(duplicates, f) <==> multiset(Flatten(shards))[f] > 1)
    && Truthful(duplicates, shards)
    && (forall e :: e in missing <==> e.Unassigned? && e.file in expected && e.file !in Flatten(shards))
    && (forall e :: e in extra <==> e.Unexpected? && e.file !in expected && e.file in Flatten(shards))
    && (forall e :: e in empty <==> e.EmptyShard? && e.shard < |shards| && shards[e.shard] == [])
  }

  lemma NoDuplicateReports(shards: seq<seq<string>>, duplicates: seq<PartitionError>)
    requires forall f :: Named(duplicates, f) <==> multiset(Flatten(shards))[f] > 1
    requires Truthful(duplicates, shards)
    ensures duplicates == [] <==> NoDuplicates(Flatten(shards))
  {
    NoDuplicatesIsCount(Flatten(shards));
    if duplicates != [] {
      assert duplicates[0] in duplicates;
      assert Named(duplicates, duplicates[0].file);
    }
  }

  lemma ReportEmptyIffPartition(shards: seq<seq<string>>, expected: seq<string>, duplicates: seq<PartitionError>,
                                missing: seq<PartitionError>, extra: seq<PartitionError>, empty: seq<PartitionError>)
    requires Report(shards, expected, duplicates, missing, extra, empty)
    ensures duplicates == [] && missing == [] && extra == [] && empty == [] <==> IsPartition(shards, expected)
  {
    PartitionIsFlat(shards, expected);
    NoDuplicateReports(shards, duplicates);
    assert missing == [] <==> forall f :: f in expected ==> f in Flatten(shards) by {
      if missing == [] {
        forall f | f in expected ensures f in Flatten(shards) { assert Unassigned(f) !in missing; }
      } else {
        assert missing[0] in missing;
      }
    }
    assert extra == [] <==> forall f :: f in Flatten(shards) ==> f in expected by {
      if extra == [] {
        forall f | f in Flatten(shards) ensures f in expected { assert Unexpected(f) !in extra; }
      } else {
        assert extra[0] in extra;
      }
    }
    assert empty == [] <==> forall i :: 0 <= i < |shards| ==> shards[i] != [] by {
      if empty == [] {
        forall i | 0 <= i < |shards| ensures shards[i] != [] { assert EmptyShard(i) !in empty; }
      } else {
        assert empty[0] in empty;
      }
    }
  }

  /** A whole report, section after section. */
  ghost predicate ExactReport(shards: seq<seq<string>>, expected: seq<string>, errors: seq<PartitionError>) {
    && (forall f :: Named(errors, f) <==> multiset(Flatten(shards))[f] > 1)
    && (forall f :: Unassigned(f) in errors <==> f in expected && f !in Flatten(shards))
    && (forall f :: Unexpected(f) in errors <==> f !in expected && f in Flatten(shards))
    && (forall i: nat :: EmptyShard(i) in errors <==> i < |shards| && shards[i] == [])
    && (forall f, a: nat, b: nat :: Duplicate(f, a, b) in errors ==>
          a <= b < |shards| && f in shards[a] && f in shards[b])
  }

  /** Duplicates, then unassigned files, unexpected files and empty shards. */
  ghost function Section(e: PartitionError): nat {
    match e
    case Duplicate(_, _, _) => 0
    case Unassigned(_) => 1
    case Unexpected(_) => 2
    case EmptyShard(_) => 3
  }

  ghost predicate InSections(errors: seq<PartitionError>) {
    forall i, j :: 0 <= i < j < |errors| ==> Section(errors[i]) <= Section(errors[j])
  }

  ghost predicate OfSections(errors: seq<PartitionError>, low: nat, high: nat) {
    forall e :: e in errors ==> low <= Section(e) <= high
  }

  lemma NextSection(a: seq<PartitionError>, b: seq<PartitionError>, n: nat)
    requires InSections(a) && OfSections(a, 0, n) && OfSections(b, n + 1, n + 1)
    ensures InSections(a + b) && OfSections(a + b, 0, n + 1)
  {
    forall i | 0 <= i < |a| ensures Section(a[i]) <= n { assert a[i] in a; }
    forall j | 0 <= j < |b| ensures Section(b[j]) == n + 1 { assert b[j] in b; }
  }

  lemma ReportInSections(shards: seq<seq<string>>, expected: seq<string>, duplicates: seq<PartitionError>,
                         missing: seq<PartitionError>, extra: seq<PartitionError>, empty: seq<PartitionError>)
    requires Report(shards, expected, duplicates, missing, extra, empty)
    ensures InSections(duplicates + missing + extra + empty)
  {
    assert OfSections(duplicates, 0, 0) && OfSections(missing, 1, 1);
    assert OfSections(extra, 2, 2) && OfSections(empty, 3, 3);
    forall i | 0 <= i < |duplicates| ensures Section(duplicates[i]) == 0 { assert duplicates[i] in duplicates; }
    NextSection(duplicates, missing, 0);
    NextSection(duplicates + missing, extra, 1);
    NextSection(duplicates + missing + extra, empty, 2);
  }

  lemma SectionsMakeExactReport(shards: seq<seq<string>>, expected: seq<string>, duplicates: seq<PartitionError>,
                                missing: seq<PartitionError>, extra: seq<PartitionError>, empty: seq<PartitionError>,
                                errors: seq<PartitionError>)
    requires Report(shards, expected, duplicates, missing, extra, empty)
    requires forall e :: e in errors <==> e in duplicates || e in missing || e in extra || e in empty
    ensures ExactReport(shards, expected, errors)
  {
    forall f ensures Named(errors, f) <==> Named(duplicates, f) {
      if Named(duplicates, f) {
        var e :| e in duplicates && e.Duplicate? && e.file == f;
        assert e in errors;
      }
    }
  }

  /** `verify_partition`: its report is empty exactly for a partition, and says precisely what is wrong otherwise. */
  method VerifyPartition(shards: seq<seq<string>>, expected: seq<string>) returns (errors: seq<PartitionError>)
    ensures errors == [] <==> IsPartition(shards, expected)
    ensures ExactReport(shards, expected, errors) && InSections(errors)
  {
    var duplicates, seen := FindDuplicates(shards);
    var wanted := set f | f in expected;
    var missing := Unassigneds(SortedSet(wanted - seen.Keys));
    var extra := Unexpecteds(SortedSet(seen.Keys - wanted));
    var empty := FindEmpty(shards);
    errors := duplicates + missing + extra + empty;
    assert Report(shards, expected, duplicates, missing, extra, empty);
    ReportEmptyIffPartition(shards, expected, duplicates, missing, extra, empty);
    InFour(duplicates, missing, extra, empty);
    ReportInSections(shards, expected, duplicates, missing, extra, empty);
    SectionsMakeExactReport(shards, expected, duplicates, missing, extra, empty, errors);
  }

  lemma InFour(a: seq<PartitionError>, b: seq<PartitionError>, c: seq<PartitionError>, d: seq<PartitionError>)
    ensures forall e :: e in a + b + c + d <==> e in a || e in b || e in c || e in d
    ensures a + b + c + d == [] <==> a == [] && b == [] && c == [] && d == []
  {
    assert |a + b + c + d| == |a| + |b| + |c| + |d|;
  }

  // ------------------------------------------------------------------ the file inventory

  datatype Config = Config(shardCount: nat, roots: seq<string>, exclusions: seq<string>)

  predicate UnderRoot(path: string, root: string) {
    path == root || root + "/" <= path
  }

  predicate UnderSome(path: string, roots: seq<string>) {
    exists r :: r in roots && UnderRoot(path, r)
  }

  /** The path is one of the roots, or goes on from one with a slash. */
  ghost predicate Inside(path: string, roots: seq<string>) {
    exists i :: 0 <= i < |roots|
                && (path == roots[i]
                    || (|roots[i]| < |path| && path[..|roots[i]|] == roots[i] && path[|roots[i]|] == '/'))
  }

  lemma UnderRootIff(path: string, root: string)
    ensures UnderRoot(path, root) <==>
            path == root || (|root| < |path| && path[..|root|] == root && path[|root|] == '/')
  {
    if root + "/" <= path {
      assert path[..|root| + 1] == root + "/";
      assert path[..|root|] == path[..|root| + 1][..|root|] && path[|root|] == path[..|root| + 1][|root|];
    }
    if |root| < |path| && path[..|root|] == root && path[|root|] == '/' {
      assert path[..|root| + 1] == path[..|root|] + [path[|root|]];
    }
  }

  lemma InsideIff(path: string, roots: seq<string>)
    ensures UnderSome(path, roots) <==> Inside(path, roots)
  {
    forall r ensures UnderRoot(path, r) <==>
                     path == r || (|r| < |path| && path[..|r|] == r && path[|r|] == '/') {
      UnderRootIff(path, r);
    }
    if Inside(path, roots) {
      var i :| 0 <= i < |roots|
               && (path == roots[i]
                   || (|roots[i]| < |path| && path[..|roots[i]|] == roots[i] && path[|roots[i]|] == '/'));
      assert roots[i] in roots && UnderRoot(path, roots[i]);
    }
  }

  /** `managed_files`. `isTest` stands for the fnmatch globs on the base name. */
  function ManagedFiles(config: Config, tracked: seq<string>, isTest: string -> bool): (r: seq<string>)
    ensures NoDuplicates(r) && Sorted(r, Le)
    ensures forall p :: p in r <==> p in tracked && isTest(p) && p !in config.exclusions && Inside(p, config.roots)
  {
    assert forall p :: UnderSome(p, config.roots) <==> Inside(p, config.roots) by {
      forall p ensures UnderSome(p, config.roots) <==> Inside(p, config.roots) { InsideIff(p, config.roots); }
    }
    SortedSetSorts(set p | p in tracked && p !in config.exclusions && isTest(p) && UnderSome(p, config.roots));
    SortedSet(set p | p in tracked && p !in config.exclusions && isTest(p) && UnderSome(p, config.roots))
  }

  function Filter(xs: seq<string>, keep: string -> bool): (r: seq<string>)
    ensures forall x :: x in r <==> x in xs && keep(x)
  {
    if xs == [] then [] else (if keep(xs[0]) then [xs[0]] else []) + Filter(xs[1..], keep)
  }

  /** `unmanaged_pytest_files`. */
  function UnmanagedFiles(config: Config, tracked: seq<string>, isTest: string -> bool): (r: seq<string>)
    ensures Sorted(r, Le)
    ensures forall p :: p in r <==> p in tracked && isTest(p) && p !in config.exclusions && !Inside(p, config.roots)
  {
    assert forall p :: UnderSome(p, config.roots) <==> Inside(p, config.roots) by {
      forall p ensures UnderSome(p, config.roots) <==> Inside(p, config.roots) { InsideIff(p, config.roots); }
    }
    LeIsTotalOrder();
    var found := Filter(tracked, p => isTest(p) && p !in config.exclusions && !UnderSome(p, config.roots));
    var r := Sort(found, Le);
    SortSorts(found, Le);
    assert forall p :: p in r <==> p in multiset(r);
    assert forall p :: p in found <==> p in multiset(found);
    r
  }

  // ------------------------------------------------------------------ node collection

  datatype NodeError = Collapsed | Overlap(shard: nat) | NoNodes(shard: nat) | MissingNodes | ExtraNodes

  function Normalized(nodes: set<string>, normalize: string -> string): set<string> {
    set n | n in nodes :: normalize(n)
  }

  ghost predicate Injective(nodes: set<string>, normalize: string -> string) {
    forall a, b :: a in nodes && b in nodes && normalize(a) == normalize(b) ==> a == b
  }

  lemma {:induction false} ImageSize(nodes: set<string>, normalize: string -> string)
    ensures |Normalized(nodes, normalize)| <= |nodes|
    ensures |Normalized(nodes, normalize)| == |nodes| <==> Injective(nodes, normalize)
    decreases |nodes|
  {
    if nodes != {} {
      var x :| x in nodes;
      var rest := nodes - {x};
      ImageSize(rest, normalize);
      var image := Normalized(rest, normalize);
      assert Normalized(nodes, normalize) == image + {normalize(x)};
      if normalize(x) in image {
        assert image + {normalize(x)} == image;
        var y :| y in rest && normalize(y) == normalize(x);
        assert !Injective(nodes, normalize);
      } else {
        assert |image + {normalize(x)}| == |image| + 1;
        if Injective(rest, normalize) {
          forall a, b | a in nodes && b in nodes && normalize(a) == normalize(b) ensures a == b {
            assert a in rest ==> normalize(a) in image;
            assert b in rest ==> normalize(b) in image;
          }
        }
      }
    }
  }

  /** The per-shard collections split the canonical one: non-empty, disjoint, and covering it exactly. */
  ghost predicate NodesPartition(canonical: set<string>, parts: seq<set<string>>) {
    && (forall i :: 0 <= i < |parts| ==> parts[i] != {})
    && (forall i, j :: 0 <= i < j < |parts| ==> parts[i] !! parts[j])
    && (forall n :: n in canonical <==> exists i :: 0 <= i < |parts| && n in parts[i])
  }

  ghost predicate InSome(n: string, parts: seq<set<string>>, count: nat) {
    exists k :: 0 <= k < count <= |parts| && n in parts[k]
  }

  ghost predicate DisjointParts(parts: seq<set<string>>, count: nat) {
    && (forall k :: 0 <= k < count && k < |parts| ==> parts[k] != {})
    && (forall k, l :: 0 <= k < l < count && l < |parts| ==> parts[k] !! parts[l])
  }

  lemma DisjointPartsStep(parts: seq<set<string>>, i: nat, union: set<string>)
    requires i < |parts| && forall n :: n in union <==> InSome(n, parts, i)
    ensures DisjointParts(parts, i + 1) <==> DisjointParts(parts, i) && parts[i] != {} && union * parts[i] == {}
    ensures forall n :: n in union + parts[i] <==> InSome(n, parts, i + 1)
  {
    if union * parts[i] == {} {
      forall k | 0 <= k < i ensures parts[k] !! parts[i] {
        forall n | n in parts[k] ensures n !in parts[i] {
          assert InSome(n, parts, i);
          assert n !in union * parts[i];
        }
      }
    } else {
      var n :| n in union * parts[i];
      var k :| 0 <= k < i && n in parts[k];
      assert !(parts[k] !! parts[i]);
    }
    forall n ensures n in union + parts[i] <==> InSome(n, parts, i + 1) {
      if n in parts[i] { assert InSome(n, parts, i + 1); }
      else if InSome(n, parts, i) { var k :| 0 <= k < i && n in parts[k]; assert InSome(n, parts, i + 1); }
    }
  }

  /** The loop of `cmd_verify` over the per-shard collections, growing `errors` and `union`. */
  method ScanNodes(parts: seq<set<string>>) returns (errors: seq<NodeError>, union: set<string>)
    ensures errors == [] <==> DisjointParts(parts, |parts|)
    ensures forall n :: n in union <==> InSome(n, parts, |parts|)
  {
    errors, union := [], {};
    for i := 0 to |parts|
      invariant errors == [] <==> DisjointParts(parts, i)
      invariant forall n :: n in union <==> InSome(n, parts, i)
    {
      DisjointPartsStep(parts, i, union);
      if union * parts[i] != {} { errors := errors + [Overlap(i)]; }
      if parts[i] == {} { errors := errors + [NoNodes(i)]; }
      union := union + parts[i];
    }
  }

  function NormalizedAll(raw: seq<set<string>>, normalize: string -> string): (r: seq<set<string>>)
    ensures |r| == |raw| && forall i :: 0 <= i < |raw| ==> r[i] == Normalized(raw[i], normalize)
  {
    if raw == [] then [] else [Normalized(raw[0], normalize)] + NormalizedAll(raw[1..], normalize)
  }

  lemma NodesPartitionIffScanned(canonical: set<string>, parts: seq<set<string>>, union: set<string>)
    requires forall n :: n in union <==> InSome(n, parts, |parts|)
    ensures NodesPartition(canonical, parts) <==> DisjointParts(parts, |parts|) && canonical == union
  {
    assert forall n :: InSome(n, parts, |parts|) <==> exists i :: 0 <= i < |parts| && n in parts[i];
  }

  /** The collection part of `cmd_verify`. */
  method CheckNodes(canonicalRaw: set<string>, shardRaw: seq<set<string>>, normalize: string -> string)
    returns (errors: seq<NodeError>)
    ensures errors == [] <==>
            Injective(canonicalRaw, normalize)
            && NodesPartition(Normalized(canonicalRaw, normalize), NormalizedAll(shardRaw, normalize))
  {
    var canonical := Normalized(canonicalRaw, normalize);
    ImageSize(canonicalRaw, normalize);
    errors := if |canonical| != |canonicalRaw| then [Collapsed] else [];
    var scanned, union := ScanNodes(NormalizedAll(shardRaw, normalize));
    NodesPartitionIffScanned(canonical, NormalizedAll(shardRaw, normalize), union);
    errors := errors + scanned;
    if canonical - union != {} { errors := errors + [MissingNodes]; }
    if union - canonical != {} { errors := errors + [ExtraNodes]; }
    assert canonical == union <==> canonical - union == {} && union - canonical == {};
  }

  // ------------------------------------------------------------------ cmd_verify

  datatype Collection = Collection(canonical: set<string>, perShard: seq<set<string>>)
  datatype Verdict =
    | StaleExclusion
    | MissingRoot
    | Rejected(unmanaged: seq<string>, partition: seq<PartitionError>, nodes: seq<NodeError>)
    | Accepted

  ghost predicate NodesAccepted(collected: Option<Collection>, normalize: string -> string) {
    collected.Some? ==>
      && Injective(collected.value.canonical, normalize)
      && NodesPartition(Normalized(collected.value.canonical, normalize),
                        NormalizedAll(collected.value.perShard, normalize))
  }

  ghost predicate NoneStale(config: Config, tracked: seq<string>) {
    forall e :: e in config.exclusions ==> e in tracked
  }

  ghost predicate RootsExist(config: Config, rootDirs: set<string>) {
    forall r :: r in config.roots ==> r in rootDirs
  }

  ghost predicate AllManaged(config: Config, tracked: seq<string>, isTest: string -> bool) {
    forall p :: p in tracked && isTest(p) ==> p in config.exclusions || Inside(p, config.roots)
  }

  ghost predicate NoneEmpty(shards: seq<seq<string>>) {
    forall i :: 0 <= i < |shards| ==> shards[i] != []
  }

  /** What `build_plan` raises, if anything. */
  method CheckManifest(config: Config, tracked: seq<string>, rootDirs: set<string>) returns (raised: Option<Verdict>)
    ensures raised == if !NoneStale(config, tracked) then Some(StaleExclusion)
                      else if !RootsExist(config, rootDirs) then Some(MissingRoot) else None
  {
    if exists e :: e in config.exclusions && e !in tracked {
      return Some(StaleExclusion);
    }
    if exists r :: r in config.roots && r !in rootDirs {
      return Some(MissingRoot);
    }
    return None;
  }

  /**
   `build_plan` and the decision of `cmd_verify`.  `rootDirs` are the roots that exist as directories,
   `collected` what pytest collected when `--collect` was given.
   */
  method CmdVerify(config: Config, tracked: seq<string>, rootDirs: set<string>, isTest: string -> bool,
                   weights: map<string, real>, fallback: real,
                   collected: Option<Collection>, normalize: string -> string)
    returns (verdict: Verdict, shards: seq<seq<string>>)
    requires config.shardCount >= 1
    ensures shards == Plan(ManagedFiles(config, tracked, isTest), config.shardCount, WeightOf(weights, fallback))
    ensures verdict == Accepted <==>
            && NoneStale(config, tracked) && RootsExist(config, rootDirs) && AllManaged(config, tracked, isTest)
            && NoneEmpty(shards) && NodesAccepted(collected, normalize)
    ensures verdict == StaleExclusion <==> !NoneStale(config, tracked)
    ensures verdict == MissingRoot <==> NoneStale(config, tracked) && !RootsExist(config, rootDirs)
    ensures verdict.Rejected? ==>
              && verdict.unmanaged == UnmanagedFiles(config, tracked, isTest)
              && ExactReport(shards, ManagedFiles(config, tracked, isTest), verdict.partition)
              && (verdict.nodes == [] <==> NodesAccepted(collected, normalize))
  {
    var files := ManagedFiles(config, tracked, isTest);
    var unmanaged := UnmanagedFiles(config, tracked, isTest);
    shards := PlanShards(files, weights, config.shardCount, fallback);
    var raised := CheckManifest(config, tracked, rootDirs);
    if raised.Some? {
      return raised.value, shards;
    }
    var partition := VerifyPartition(shards, files);
    PlanPartitions(files, config.shardCount, WeightOf(weights, fallback));
    var nodes := [];
    if collected.Some? {
      nodes := CheckNodes(collected.value.canonical, collected.value.perShard, normalize);
    }
    verdict := if unmanaged == [] && partition == [] && nodes == [] then Accepted
               else Rejected(unmanaged, partition, nodes);
    NoneUnmanagedIff(config, tracked, isTest);
  }

  lemma NoneUnmanagedIff(config: Config, tracked: seq<string>, isTest: string -> bool)
    ensures UnmanagedFiles(config, tracked, isTest) == [] <==> AllManaged(config, tracked, isTest)
  {
    var unmanaged := UnmanagedFiles(config, tracked, isTest);
    if unmanaged != [] { assert unmanaged[0] in unmanaged; }
  }

  /** The planner only ever fails its own checker by leaving a shard empty. */
  lemma PlanPartitions(files: seq<string>, m: nat, w: Weigh)
    requires m >= 1 && NoDuplicates(files)
    ensures IsPartition(Plan(files, m, w), files) <==> forall i :: 0 <= i < m ==> Plan(files, m, w)[i] != []
  {
    var flat := Flatten(Plan(files, m, w));
    PlanIsPermutation(files, m, w);
    PartitionIsFlat(Plan(files, m, w), files);
    NoDuplicatesIsCount(files);
    NoDuplicatesIsCount(flat);
    assert forall f :: f in files <==> f in multiset(flat);
    assert forall f :: f in flat <==> f in multiset(flat);
  }

  /** The shards that hold a file. */
  ghost predicate InExactlyOne(shards: seq<seq<string>>, f: string) {
    exists i :: 0 <= i < |shards| && f in shards[i] && forall j :: 0 <= j < |shards| && j != i ==> f !in shards[j]
  }

  lemma PartitionedExactlyOnce(shards: seq<seq<string>>, expected: seq<string>, f: string)
    requires IsPartition(shards, expected) && f in expected
    ensures InExactlyOne(shards, f)
  {
    var i :| 0 <= i < |shards| && f in shards[i];
    forall j | 0 <= j < |shards| && j != i ensures f !in shards[j] {
      assert j < i || i < j;
    }
  }

  /** What acceptance guarantees about files: every tracked test is excluded on purpose or runs in exactly one shard. */
  lemma AcceptedCoversFiles(config: Config, tracked: seq<string>, isTest: string -> bool, w: Weigh, p: string)
    requires config.shardCount >= 1
    requires AllManaged(config, tracked, isTest)
    requires NoneEmpty(Plan(ManagedFiles(config, tracked, isTest), config.shardCount, w))
    requires p in tracked && isTest(p)
    ensures p in config.exclusions || InExactlyOne(Plan(ManagedFiles(config, tracked, isTest), config.shardCount, w), p)
  {
    var files := ManagedFiles(config, tracked, isTest);
    PlanPartitions(files, config.shardCount, w);
    if p !in config.exclusions {
      PartitionedExactlyOnce(Plan(files, config.shardCount, w), files, p);
    }
  }

  /** What acceptance guarantees about nodes: each canonical node is collected by exactly one shard. */
  lemma AcceptedCoversNodes(canonicalRaw: set<string>, shardRaw: seq<set<string>>, normalize: string -> string,
                            node: string)
    requires NodesAccepted(Some(Collection(canonicalRaw, shardRaw)), normalize)
    requires node in canonicalRaw
    ensures exists i :: 0 <= i < |shardRaw| && normalize(node) in Normalized(shardRaw[i], normalize)
              && forall j :: 0 <= j < |shardRaw| && j != i ==> normalize(node) !in Normalized(shardRaw[j], normalize)
  {
    var parts := NormalizedAll(shardRaw, normalize);
    assert normalize(node) in Normalized(canonicalRaw, normalize);
    var i :| 0 <= i < |parts| && normalize(node) in parts[i];
    forall j | 0 <= j < |shardRaw| && j != i ensures normalize(node) !in Normalized(shardRaw[j], normalize) {
      assert parts[j] == Normalized(shardRaw[j], normalize);
      assert j < i || i < j;
    }
  }
}

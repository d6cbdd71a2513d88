/**
 The bounded call-graph walk of scripts/resolve_route_permissions.py.  A function is an identity
 (a number); bodies are reduced to what the walk reads: the permissions they require and the calls
 they make.  Parsing and the OpenAPI document are outside the model.
 */
module RoutePermissions {
  import opened Wrappers

  datatype Call = Call(qualifier: Option<string>, name: string)
  datatype Body = Body(permissions: set<string>, calls: set<Call>)
  datatype Candidate = Candidate(stem: string, target: nat)

  /** `bodies` by identity, `table` by bare name, and the import aliases of the handler's file. */
  datatype Program = Program(bodies: map<nat, Body>, table: map<string, seq<Candidate>>, aliases: map<string, string>) {

    function Permissions(f: nat): set<string> {
      if f in bodies then bodies[f].permissions else {}
    }

    function Calls(f: nat): set<Call> {
      if f in bodies then bodies[f].calls else {}
    }

    /** `aliases.get(module or "", module)` */
    function Resolved(qualifier: Option<string>): Option<string> {
      var key := if qualifier.None? then "" else qualifier.value;
      if key in aliases then Some(aliases[key]) else qualifier
    }

    /** A qualified call is followed only into its own module; an unqualified one into every body of that name. */
    predicate Follows(c: Call, d: Candidate) {
      c.qualifier.None? || Some(d.stem) == c.qualifier || Some(d.stem) == Resolved(c.qualifier)
    }

    function Candidates(c: Call): seq<Candidate> {
      if c.name in table then table[c.name] else []
    }

    function Targets(c: Call): set<nat> {
      set d | d in Candidates(c) && Follows(c, d) :: d.target
    }

    /** The functions a body may call. */
    function Callees(f: nat): set<nat> {
      set c, h | c in Calls(f) && h in Targets(c) :: h
    }
  }

  // ------------------------------------------------------------------ the walk

  /** What `_resolve` collects from `f` with `n` calls left, never entering a function of the current path again. */
  ghost function Walk(p: Program, f: nat, n: nat, seen: set<nat>): set<string>
    decreases n, 0
  {
    if p.Permissions(f) != {} || n == 0 then p.Permissions(f) else WalkAll(p, p.Callees(f), n - 1, seen)
  }

  ghost function WalkAll(p: Program, hs: set<nat>, n: nat, seen: set<nat>): set<string>
    decreases n, 1
  {
    set h, x | h in hs && h !in seen && x in Walk(p, h, n, seen + {h}) :: x
  }

  /**
   `_resolve`.  The source visits the calls in sorted order; here any order is taken, so the contract
   also says that the order does not matter.
   */
  method Resolve(p: Program, f: nat, depth: nat, maxDepth: nat, seen: set<nat>) returns (found: set<string>)
    requires depth <= maxDepth
    ensures found == Walk(p, f, maxDepth - depth, seen)
    decreases maxDepth - depth, 1, 0
  {
    found := p.Permissions(f);
    if found != {} || depth >= maxDepth {
      return;
    }
    var todo := p.Calls(f);
    ghost var visited: set<nat> := {};
    while todo != {}
      invariant todo <= p.Calls(f)
      invariant visited == set c, h | c in p.Calls(f) - todo && h in p.Targets(c) :: h
      invariant found == WalkAll(p, visited, maxDepth - depth - 1, seen)
      decreases |todo|
    {
      var c :| c in todo;
      var more := ResolveCandidates(p, c, p.Candidates(c), depth + 1, maxDepth, seen);
      assert (set d | d in p.Candidates(c) && p.Follows(c, d) :: d.target) == p.Targets(c);
      visited := visited + p.Targets(c);
      found := found + more;
      todo := todo - {c};
    }
    assert visited == p.Callees(f);
  }

  /** The inner loop of `_resolve` over the candidates of one call. */
  method ResolveCandidates(p: Program, c: Call, candidates: seq<Candidate>, depth: nat, maxDepth: nat, seen: set<nat>)
    returns (found: set<string>)
    requires depth <= maxDepth
    ensures found == WalkAll(p, set d | d in candidates && p.Follows(c, d) :: d.target, maxDepth - depth, seen)
    decreases maxDepth - depth, 2, |candidates|
  {
    found := {};
    ghost var visited: set<nat> := {};
    for i := 0 to |candidates|
      invariant visited == set d | d in candidates[..i] && p.Follows(c, d) :: d.target
      invariant found == WalkAll(p, visited, maxDepth - depth, seen)
    {
      var d := candidates[i];
      assert candidates[..i + 1] == candidates[..i] + [d];
      if p.Follows(c, d) {
        visited := visited + {d.target};
        if d.target !in seen {
          var more := Resolve(p, d.target, depth, maxDepth, seen + {d.target});
          found := found + more;
        }
      }
    }
    assert candidates[..|candidates|] == candidates;
  }

  // ------------------------------------------------------------------ what it should collect

  ghost predicate Enforces(p: Program, f: nat, x: string) {
    f in p.bodies && x in p.bodies[f].permissions
  }

  ghost predicate Free(p: Program, f: nat) {
    f in p.bodies ==> p.bodies[f].permissions == {}
  }

  /** The call may mean this candidate: it names no module, the candidate's own, or an alias of it. */
  ghost predicate Means(p: Program, c: Call, d: Candidate) {
    && c.name in p.table && d in p.table[c.name]
    && match c.qualifier
       case None => true
       case Some(q) => q == d.stem || (q in p.aliases && p.aliases[q] == d.stem)
  }

  ghost predicate MayCall(p: Program, f: nat, h: nat) {
    f in p.bodies && exists c, d :: c in p.bodies[f].calls && Means(p, c, d) && d.target == h
  }

  lemma FollowedIsMeant(p: Program, c: Call, d: Candidate)
    ensures d in p.Candidates(c) && p.Follows(c, d) <==> Means(p, c, d)
  {
  }

  lemma CalleesAreMeant(p: Program, f: nat, h: nat)
    ensures h in p.Callees(f) <==> MayCall(p, f, h)
  {
    if h in p.Callees(f) {
      var c, d :| c in p.Calls(f) && d in p.Candidates(c) && p.Follows(c, d) && d.target == h;
      FollowedIsMeant(p, c, d);
    }
    if MayCall(p, f, h) {
      var c, d :| c in p.bodies[f].calls && Means(p, c, d) && d.target == h;
      FollowedIsMeant(p, c, d);
      assert h in p.Targets(c);
    }
  }

  /** A call path: each function may call the next, and all but the last enforce nothing themselves. */
  ghost predicate CallPath(p: Program, path: seq<nat>) {
    && path != []
    && (forall i :: 0 <= i < |path| - 1 ==> MayCall(p, path[i], path[i + 1]) && Free(p, path[i]))
  }

  ghost predicate Connects(p: Program, path: seq<nat>, f: nat, g: nat, n: nat) {
    CallPath(p, path) && path[0] == f && path[|path| - 1] == g && |path| <= n + 1
  }

  /** `g` is reachable from `f` in at most `n` calls through permission-free functions. */
  ghost predicate Reaches(p: Program, f: nat, g: nat, n: nat) {
    exists path :: Connects(p, path, f, g, n)
  }

  ghost predicate Simple(path: seq<nat>) {
    forall i, j :: 0 <= i < j < |path| ==> path[i] != path[j]
  }

  lemma ReachOneMore(p: Program, f: nat, h: nat, g: nat, n: nat)
    requires n > 0 && MayCall(p, f, h) && Free(p, f) && Reaches(p, h, g, n - 1)
    ensures Reaches(p, f, g, n)
  {
    var path :| Connects(p, path, h, g, n - 1);
    assert Connects(p, [f] + path, f, g, n);
  }

  lemma {:induction false} WalkIsReachable(p: Program, f: nat, n: nat, seen: set<nat>, x: string)
    requires x in Walk(p, f, n, seen)
    ensures exists g :: Reaches(p, f, g, n) && Enforces(p, g, x)
    decreases n
  {
    if p.Permissions(f) != {} || n == 0 {
      assert Connects(p, [f], f, f, n);
      assert Reaches(p, f, f, n);
    } else {
      var h :| h in p.Callees(f) && h !in seen && x in Walk(p, h, n - 1, seen + {h});
      WalkIsReachable(p, h, n - 1, seen + {h}, x);
      CalleesAreMeant(p, f, h);
      var g :| Reaches(p, h, g, n - 1) && Enforces(p, g, x);
      ReachOneMore(p, f, h, g, n);
    }
  }

  /** Cutting out a loop leaves a shorter call path between the same ends. */
  lemma {:induction false} Shorten(p: Program, path: seq<nat>, f: nat, g: nat, n: nat) returns (short: seq<nat>)
    requires Connects(p, path, f, g, n)
    ensures Connects(p, short, f, g, n) && Simple(short)
    decreases |path|
  {
    if Simple(path) {
      short := path;
    } else {
      var i, j :| 0 <= i < j < |path| && path[i] == path[j];
      var cut := path[..i] + path[j..];
      forall k | 0 <= k < |cut| - 1
        ensures MayCall(p, cut[k], cut[k + 1]) && Free(p, cut[k])
      {
        if k + 1 < i {
          assert cut[k] == path[k] && cut[k + 1] == path[k + 1];
        } else if k + 1 == i {
          assert cut[k] == path[k] && cut[k + 1] == path[j] == path[i];
        } else {
          assert cut[k] == path[k - i + j] && cut[k + 1] == path[k - i + j + 1];
        }
      }
      assert Connects(p, cut, f, g, n);
      short := Shorten(p, cut, f, g, n);
    }
  }

  /** A simple path whose tail avoids `seen` is followed to its end. */
  lemma {:induction false} SimplePathIsWalked(p: Program, path: seq<nat>, f: nat, g: nat, n: nat, seen: set<nat>)
    requires Connects(p, path, f, g, n) && Simple(path)
    requires forall i :: 1 <= i < |path| ==> path[i] !in seen
    ensures p.Permissions(g) <= Walk(p, f, n, seen)
    decreases |path|
  {
    if |path| > 1 {
      var h, rest := path[1], path[1..];
      assert MayCall(p, path[0], path[0 + 1]) && Free(p, path[0]);
      CalleesAreMeant(p, f, h);
      forall i | 0 <= i < |rest| - 1
        ensures MayCall(p, rest[i], rest[i + 1]) && Free(p, rest[i])
      {
        assert rest[i] == path[i + 1] && rest[i + 1] == path[i + 1 + 1];
      }
      assert Connects(p, rest, h, g, n - 1);
      SimplePathIsWalked(p, rest, h, g, n - 1, seen + {h});
      forall x | x in p.Permissions(g) ensures x in WalkAll(p, p.Callees(f), n - 1, seen) {
        assert x in Walk(p, h, n - 1, seen + {h});
      }
    }
  }

  /**
   On any call graph and for any bound, the walk from a handler collects exactly the permissions of the
   functions reachable within the bound through permission-free functions: the path-local visited set
   loses nothing.
   */
  lemma ResolveIsReachability(p: Program, f: nat, n: nat, x: string)
    ensures x in Walk(p, f, n, {f}) <==> exists g :: Reaches(p, f, g, n) && Enforces(p, g, x)
  {
    if x in Walk(p, f, n, {f}) {
      WalkIsReachable(p, f, n, {f}, x);
    }
    if g :| Reaches(p, f, g, n) && Enforces(p, g, x) {
      var path :| Connects(p, path, f, g, n);
      var short := Shorten(p, path, f, g, n);
      SimplePathIsWalked(p, short, f, g, n, {f});
    }
  }

  /** Following calls further never loses a permission. */
  lemma DeeperFindsMore(p: Program, f: nat, n: nat, n': nat)
    requires n <= n'
    ensures Walk(p, f, n, {f}) <= Walk(p, f, n', {f})
  {
    forall x | x in Walk(p, f, n, {f}) ensures x in Walk(p, f, n', {f}) {
      ResolveIsReachability(p, f, n, x);
      var g :| Reaches(p, f, g, n) && Enforces(p, g, x);
      var path :| Connects(p, path, f, g, n);
      assert Connects(p, path, f, g, n');
      ResolveIsReachability(p, f, n', x);
    }
  }

  // ------------------------------------------------------------------ which calls are followed

  lemma OneCallReaches(p: Program, f: nat, h: nat, n: nat)
    requires n >= 1 && Free(p, f) && MayCall(p, f, h)
    ensures Reaches(p, f, h, n)
  {
    assert Connects(p, [f, h], f, h, n);
  }

  /** A call `q.name` in a permission-free body. */
  ghost predicate CallsThrough(p: Program, f: nat, q: string, name: string) {
    f in p.bodies && p.bodies[f].permissions == {} && Call(Some(q), name) in p.bodies[f].calls
  }

  /** `h` is the function of that name in the module called `q` or in the one the alias `q` stands for. */
  ghost predicate Offers(p: Program, q: string, name: string, h: nat) {
    name in p.table && (Candidate(q, h) in p.table[name]
                        || (q in p.aliases && Candidate(p.aliases[q], h) in p.table[name]))
  }

  /** A qualified call is followed into its module, and into the module its qualifier is an alias of. */
  lemma QualifiedIsFollowed(p: Program, f: nat, q: string, name: string, h: nat, n: nat)
    requires n >= 1 && CallsThrough(p, f, q, name) && Offers(p, q, name, h)
    ensures Reaches(p, f, h, n)
  {
    var stem := if Candidate(q, h) in p.table[name] then q else p.aliases[q];
    assert Means(p, Call(Some(q), name), Candidate(stem, h));
    OneCallReaches(p, f, h, n);
  }

  /** An unqualified call reaches every function of the name. */
  lemma BareNameIsFollowed(p: Program, f: nat, name: string, d: Candidate, n: nat)
    requires n >= 1 && f in p.bodies && p.bodies[f].permissions == {} && Call(None, name) in p.bodies[f].calls
    requires name in p.table && d in p.table[name]
    ensures Reaches(p, f, d.target, n)
  {
    assert Means(p, Call(None, name), d);
    OneCallReaches(p, f, d.target, n);
  }

  /** The program without one candidate of one name. */
  function Without(p: Program, name: string, d: Candidate): Program {
    p.(table := map m | m in p.table :: if m == name then Dropped(p.table[m], d) else p.table[m])
  }

  function Dropped(ds: seq<Candidate>, d: Candidate): (r: seq<Candidate>)
    ensures forall x :: x in r <==> x in ds && x != d
  {
    if ds == [] then [] else (if ds[0] == d then [] else [ds[0]]) + Dropped(ds[1..], d)
  }

  /** No body calls `name` unqualified, under the module of `d`, or under an alias of it. */
  ghost predicate NobodyMeans(p: Program, name: string, d: Candidate) {
    forall f, c :: f in p.bodies && c in p.bodies[f].calls && c.name == name ==>
      c.qualifier.Some? && c.qualifier.value != d.stem
      && (c.qualifier.value in p.aliases ==> p.aliases[c.qualifier.value] != d.stem)
  }

  lemma ForeignIsNotCalled(p: Program, name: string, d: Candidate, f: nat, h: nat)
    requires NobodyMeans(p, name, d)
    ensures MayCall(p, f, h) <==> MayCall(Without(p, name, d), f, h)
  {
    var q := Without(p, name, d);
    if MayCall(p, f, h) {
      var c, x :| c in p.bodies[f].calls && Means(p, c, x) && x.target == h;
      assert Means(q, c, x);
    }
    if MayCall(q, f, h) {
      var c, x :| c in q.bodies[f].calls && Means(q, c, x) && x.target == h;
      assert Means(p, c, x);
    }
  }

  lemma SamePaths(p: Program, name: string, d: Candidate, path: seq<nat>)
    requires NobodyMeans(p, name, d)
    ensures CallPath(p, path) <==> CallPath(Without(p, name, d), path)
  {
    var q := Without(p, name, d);
    forall i | 0 <= i < |path| - 1
      ensures MayCall(p, path[i], path[i + 1]) && Free(p, path[i])
              <==> MayCall(q, path[i], path[i + 1]) && Free(q, path[i])
    {
      ForeignIsNotCalled(p, name, d, path[i], path[i + 1]);
    }
  }

  /** A namesake in a module no call means contributes nothing to any route: the table may as well not have it. */
  lemma NamesakeContributesNothing(p: Program, name: string, d: Candidate, f: nat, n: nat)
    requires NobodyMeans(p, name, d)
    ensures Walk(p, f, n, {f}) == Walk(Without(p, name, d), f, n, {f})
  {
    var q := Without(p, name, d);
    forall x ensures x in Walk(p, f, n, {f}) <==> x in Walk(q, f, n, {f}) {
      ResolveIsReachability(p, f, n, x);
      ResolveIsReachability(q, f, n, x);
      if g :| Reaches(p, f, g, n) && Enforces(p, g, x) {
        var path :| Connects(p, path, f, g, n);
        SamePaths(p, name, d, path);
        assert Connects(q, path, f, g, n) && Enforces(q, g, x);
      }
      if g :| Reaches(q, f, g, n) && Enforces(q, g, x) {
        var path :| Connects(q, path, f, g, n);
        SamePaths(p, name, d, path);
        assert Connects(p, path, f, g, n) && Enforces(p, g, x);
      }
    }
  }

  // ------------------------------------------------------------------ the route table

  const MAX_DEPTH: nat := 4

  datatype State = Requires | Open | Unknown

  /** The entry of one route: `handler` is the function matched by operation id, if any. */
  method RouteEntry(p: Program, handler: Option<nat>, verifiedOpen: bool) returns (state: State, names: set<string>)
    ensures forall x :: x in names <==>
            (handler.Some? && exists g :: Reaches(p, handler.value, g, 4) && Enforces(p, g, x))
    ensures state == if names != {} then Requires else if handler.Some? && verifiedOpen then Open else Unknown
    ensures handler.Some? ==>
              forall q, name, h, x ::
                CallsThrough(p, handler.value, q, name) && Offers(p, q, name, h) && Enforces(p, h, x) ==> x in names
  {
    if handler.None? {
      return Unknown, {};
    }
    var f := handler.value;
    names := Resolve(p, f, 0, MAX_DEPTH, {f});
    forall x ensures x in names <==> exists g :: Reaches(p, f, g, MAX_DEPTH) && Enforces(p, g, x) {
      ResolveIsReachability(p, f, MAX_DEPTH, x);
    }
    forall q, name, h, x | CallsThrough(p, f, q, name) && Offers(p, q, name, h) && Enforces(p, h, x)
        ensures x in names {
      QualifiedIsFollowed(p, f, q, name, h, MAX_DEPTH);
    }
    state := if names != {} then Requires else if verifiedOpen then Open else Unknown;
  }
}

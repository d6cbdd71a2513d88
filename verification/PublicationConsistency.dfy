/**
 `check_shared_field_consistency` of apps/api/secp_api/environment_publication_contract.py: the exact
 agreement between an environment definition and its topology, failing closed on the first contradiction.
 */
module PublicationConsistency {
  import opened Wrappers
  import opened Ordering

  datatype Role = Role(name: string, kind: string, network: string)
  datatype Declared = Declared(name: string, baseCidr: Option<string>, isolated: Option<bool>)
  datatype Node = Node(id: string, kind: string, network: Option<string>)
  datatype TopoNetwork = TopoNetwork(id: string, cidr: Option<string>, isolated: Option<bool>)
  datatype Edge = Edge(kind: string, source: string, target: string)

  datatype Definition = Definition(roles: seq<Role>, networks: seq<Declared>)
  datatype Topology = Topology(nodes: seq<Node>, networks: seq<TopoNetwork>, edges: seq<Edge>)

  datatype Verdict = Accepted | UnsupportedRoleKind | RoleMismatch(detail: string) | NetworkMismatch(detail: string)

  // ------------------------------------------------------------------ projections

  function RoleName(r: Role): string { r.name }
  function NetworkName(d: Declared): string { d.name }
  function TopoId(tn: TopoNetwork): string { tn.id }

  function ToSet(xs: seq<string>): set<string> {
    set x | x in xs
  }

  /** `len(xs) == len(set(xs))` */
  predicate Distinct(xs: seq<string>) {
    |ToSet(xs)| == |xs|
  }

  /** `{n["id"]: n for n in nodes if n["kind"] != "network"}`: a later node of the same id wins. */
  function Hosts(nodes: seq<Node>): (m: map<string, Node>)
    ensures forall id :: id in m ==> m[id] in nodes && m[id].id == id && m[id].kind != "network"
    ensures forall n :: n in nodes && n.kind != "network" ==> n.id in m
  {
    if nodes == [] then map[]
    else
      var last := |nodes| - 1;
      assert nodes == nodes[..last] + [nodes[last]];
      var m := Hosts(nodes[..last]);
      if nodes[last].kind != "network" then m[nodes[last].id := nodes[last]] else m
  }

  function NetworkNodes(nodes: seq<Node>): set<string> {
    set n | n in nodes && n.kind == "network" :: n.id
  }

  /** The targets of the network edges that leave one node, in order. */
  function Targets(edges: seq<Edge>, source: string): seq<string> {
    if edges == [] then []
    else
      var last := |edges| - 1;
      Targets(edges[..last], source)
      + if edges[last].kind == "network" && edges[last].source == source then [edges[last].target] else []
  }

  // ------------------------------------------------------------------ what consistency means

  /** Roles and host nodes correspond one to one, with the same kind and network. */
  ghost predicate RolesAgree(roles: seq<Role>, hosts: map<string, Node>) {
    && Distinct(Map(roles, RoleName)) && ToSet(Map(roles, RoleName)) == hosts.Keys
    && (forall r :: r in roles ==> HasHost(r, hosts))
  }

  predicate HasHost(r: Role, hosts: map<string, Node>) {
    r.name in hosts && hosts[r.name].kind == r.kind && hosts[r.name].network == Some(r.network)
  }

  predicate FieldsAgree(tn: TopoNetwork, d: Declared) {
    && (tn.cidr.None? || tn.cidr == d.baseCidr)
    && (tn.isolated.None? || tn.isolated.value == (if d.isolated.Some? then d.isolated.value else true))
  }

  /**
   Declared networks correspond one to one to topology networks and to network nodes, agreeing where the topology says
   something.
   */
  ghost predicate NetworksAgree(declared: seq<Declared>, networks: seq<TopoNetwork>, networkNodes: set<string>) {
    && Distinct(Map(declared, NetworkName)) && Distinct(Map(networks, TopoId))
    && ToSet(Map(declared, NetworkName)) == ToSet(Map(networks, TopoId)) == networkNodes
    && (forall d, tn :: d in declared && tn in networks && tn.id == d.name ==> FieldsAgree(tn, d))
  }

  /** Network edges run from hosts to network nodes, exactly one per host, to its own network. */
  ghost predicate EdgesAgree(edges: seq<Edge>, hosts: map<string, Node>, networkNodes: set<string>) {
    && (forall e :: e in edges ==> EndsRight(e, hosts, networkNodes))
    && (forall id :: id in hosts ==> AttachedOnce(Targets(edges, id), hosts[id].network))
  }

  predicate SupportedKind(kind: string) {
    kind != "service" && kind != "gateway"
  }

  /** No role is a service or a gateway. */
  ghost predicate AllSupported(roles: seq<Role>) {
    forall r :: r in roles ==> r.kind !in {"service", "gateway"}
  }

  ghost predicate Consistent(d: Definition, t: Topology) {
    && AllSupported(d.roles)
    && RolesAgree(d.roles, Hosts(t.nodes))
    && NetworksAgree(d.networks, t.networks, NetworkNodes(t.nodes))
    && EdgesAgree(t.edges, Hosts(t.nodes), NetworkNodes(t.nodes))
  }

  // ------------------------------------------------------------------ the check

  method KindsSupported(roles: seq<Role>) returns (ok: bool)
    ensures ok <==> AllSupported(roles)
  {
    for i := 0 to |roles|
      invariant AllSupported(roles[..i])
    {
      assert roles[..i + 1] == roles[..i] + [roles[i]];
      if !SupportedKind(roles[i].kind) { return false; }
    }
    assert roles[..|roles|] == roles;
    return true;
  }

  method CheckRoles(roles: seq<Role>, hosts: map<string, Node>) returns (v: Verdict)
    ensures v == Accepted <==> AllSupported(roles) && RolesAgree(roles, hosts)
    ensures v == UnsupportedRoleKind <==> !AllSupported(roles)
    ensures !v.NetworkMismatch?
  {
    var supported := KindsSupported(roles);
    if !supported {
      return UnsupportedRoleKind;
    }
    var names := Map(roles, RoleName);
    if !Distinct(names) {
      return RoleMismatch("duplicate role name");
    }
    if ToSet(names) != hosts.Keys {
      return RoleMismatch("role/node set mismatch");
    }
    RolesAreNamed(roles);
    v := CompareHosts(roles, hosts);
  }

  lemma RolesAreNamed(roles: seq<Role>)
    ensures forall r :: r in roles ==> r.name in ToSet(Map(roles, RoleName))
  {
    forall r | r in roles ensures r.name in ToSet(Map(roles, RoleName)) {
      var i :| 0 <= i < |roles| && roles[i] == r;
      assert Map(roles, RoleName)[i] == r.name;
    }
  }

  /** The loop that compares each role with the host of its name. */
  method CompareHosts(roles: seq<Role>, hosts: map<string, Node>) returns (v: Verdict)
    requires forall r :: r in roles ==> r.name in hosts
    ensures v == Accepted <==> forall r :: r in roles ==> HasHost(r, hosts)
    ensures v == Accepted || v.RoleMismatch?
  {
    for i := 0 to |roles|
      invariant forall k :: 0 <= k < i ==> HasHost(roles[k], hosts)
    {
      assert roles[i] in roles;
      var node := hosts[roles[i].name];
      if node.kind != roles[i].kind {
        return RoleMismatch("node kind");
      }
      if node.network != Some(roles[i].network) {
        return RoleMismatch("node network");
      }
    }
    return Accepted;
  }

  /** `topo_net_by_id` after the networks `done`. */
  ghost predicate Indexed(byId: map<string, TopoNetwork>, done: seq<TopoNetwork>) {
    && byId.Keys == ToSet(Map(done, TopoId)) && Distinct(Map(done, TopoId))
    && (forall tn :: tn in done ==> tn.id in byId && byId[tn.id] == tn)
  }

  lemma IndexStep(byId: map<string, TopoNetwork>, done: seq<TopoNetwork>, tn: TopoNetwork)
    requires Indexed(byId, done)
    ensures tn.id in byId ==> !Distinct(Map(done + [tn], TopoId))
    ensures tn.id !in byId ==> Indexed(byId[tn.id := tn], done + [tn])
  {
    KeysAppend(done, tn, TopoId);
    DistinctAppend(Map(done, TopoId), tn.id);
    assert tn.id in byId <==> tn.id in Map(done, TopoId);
    if tn.id !in byId {
      IndexMore(byId, done, tn);
    }
  }

  lemma IndexMore(byId: map<string, TopoNetwork>, done: seq<TopoNetwork>, tn: TopoNetwork)
    requires tn.id !in byId && forall x :: x in done ==> x.id in byId && byId[x.id] == x
    ensures forall x :: x in done + [tn] ==> x.id in byId[tn.id := tn] && byId[tn.id := tn][x.id] == x
  {
  }

  lemma IndexNext(byId: map<string, TopoNetwork>, networks: seq<TopoNetwork>, i: nat)
    requires i < |networks| && Indexed(byId, networks[..i])
    ensures networks[i].id in byId ==> !Distinct(Map(networks, TopoId))
    ensures networks[i].id !in byId ==> Indexed(byId[networks[i].id := networks[i]], networks[..i + 1])
  {
    IndexStep(byId, networks[..i], networks[i]);
    assert networks[..i + 1] == networks[..i] + [networks[i]];
    if networks[i].id in byId { NotDistinctSuffix(networks, i + 1); }
  }

  /** The loop that fills `topo_net_by_id`; it fails on a repeated id. */
  method IndexNetworks(networks: seq<TopoNetwork>) returns (byId: map<string, TopoNetwork>, ok: bool)
    ensures ok <==> Distinct(Map(networks, TopoId))
    ensures ok ==> Indexed(byId, networks)
  {
    byId := map[];
    for i := 0 to |networks|
      invariant Indexed(byId, networks[..i])
    {
      IndexNext(byId, networks, i);
      if networks[i].id in byId {
        return byId, false;
      }
      byId := byId[networks[i].id := networks[i]];
    }
    assert networks[..|networks|] == networks;
    ok := true;
  }

  /** The loop that compares cidr and isolation. */
  method CheckFields(declared: seq<Declared>, byId: map<string, TopoNetwork>) returns (v: Verdict)
    requires forall d :: d in declared ==> d.name in byId
    ensures v == Accepted <==> forall d :: d in declared ==> FieldsAgree(byId[d.name], d)
    ensures v == Accepted || v.NetworkMismatch?
  {
    for i := 0 to |declared|
      invariant forall k :: 0 <= k < i ==> FieldsAgree(byId[declared[k].name], declared[k])
    {
      var d := declared[i];
      assert d in declared;
      var tn := byId[d.name];
      if tn.cidr.Some? && tn.cidr != d.baseCidr {
        return NetworkMismatch("cidr");
      }
      if tn.isolated.Some? && tn.isolated.value != (if d.isolated.Some? then d.isolated.value else true) {
        return NetworkMismatch("isolated");
      }
    }
    return Accepted;
  }

  method CheckNetworks(declared: seq<Declared>, networks: seq<TopoNetwork>, networkNodes: set<string>)
      returns (v: Verdict)
    ensures v == Accepted <==> NetworksAgree(declared, networks, networkNodes)
    ensures v == Accepted || v.NetworkMismatch?
  {
    var names := Map(declared, NetworkName);
    if !Distinct(names) {
      return NetworkMismatch("duplicate network name");
    }
    var byId, ok := IndexNetworks(networks);
    if !ok {
      return NetworkMismatch("duplicate topology network");
    }
    if ToSet(names) != byId.Keys {
      return NetworkMismatch("network set mismatch");
    }
    if ToSet(names) != networkNodes {
      return NetworkMismatch("network-node set mismatch");
    }
    DeclaredAreNamed(declared);
    v := CheckFields(declared, byId);
    FieldsByIndex(declared, networks, byId);
  }

  lemma DeclaredAreNamed(declared: seq<Declared>)
    ensures forall d :: d in declared ==> d.name in ToSet(Map(declared, NetworkName))
  {
    forall d | d in declared ensures d.name in ToSet(Map(declared, NetworkName)) {
      var i :| 0 <= i < |declared| && declared[i] == d;
      assert Map(declared, NetworkName)[i] == d.name;
    }
  }

  lemma FieldsByIndex(declared: seq<Declared>, networks: seq<TopoNetwork>, byId: map<string, TopoNetwork>)
    requires Indexed(byId, networks) && forall d :: d in declared ==> d.name in byId
    ensures (forall d :: d in declared ==> FieldsAgree(byId[d.name], d))
            <==> (forall d, tn :: d in declared && tn in networks && tn.id == d.name ==> FieldsAgree(tn, d))
  {
    IndexedAreListed(networks, byId);
  }

  function Lookup(attachments: map<string, seq<string>>, source: string): seq<string> {
    if source in attachments then attachments[source] else []
  }

  /** `attachments` holds the targets of the network edges so far, by source. */
  ghost predicate Collected(attachments: map<string, seq<string>>, edges: seq<Edge>) {
    forall s :: Lookup(attachments, s) == Targets(edges, s)
  }

  predicate EndsRight(e: Edge, hosts: map<string, Node>, networkNodes: set<string>) {
    e.kind == "network" ==> e.source in hosts && e.target in networkNodes
  }

  /** What the loop builds. */
  function Gathered(edges: seq<Edge>): map<string, seq<string>> {
    if edges == [] then map[]
    else
      var n := |edges| - 1;
      var before, e := Gathered(edges[..n]), edges[n];
      if e.kind == "network" then before[e.source := Lookup(before, e.source) + [e.target]] else before
  }

  lemma {:induction false} GatheredIsCollected(edges: seq<Edge>)
    ensures Collected(Gathered(edges), edges)
    decreases |edges|
  {
    if edges != [] {
      var n := |edges| - 1;
      GatheredIsCollected(edges[..n]);
      forall s ensures Lookup(Gathered(edges), s) == Targets(edges, s) {
        assert Lookup(Gathered(edges[..n]), s) == Targets(edges[..n], s);
      }
    }
  }

  /** The first edge loop: it fills `attachments` and stops at an edge between the wrong kinds of node. */
  method CollectAttachments(edges: seq<Edge>, hosts: map<string, Node>, networkNodes: set<string>)
    returns (v: Verdict, attachments: map<string, seq<string>>)
    ensures v == Accepted <==> forall e :: e in edges ==> EndsRight(e, hosts, networkNodes)
    ensures v == Accepted ==> attachments == Gathered(edges)
    ensures v == Accepted || v.NetworkMismatch?
  {
    attachments := map[];
    for i := 0 to |edges|
      invariant forall k :: 0 <= k < i ==> EndsRight(edges[k], hosts, networkNodes)
      invariant attachments == Gathered(edges[..i])
    {
      var e := edges[i];
      assert e in edges;
      assert edges[..i + 1][..i] == edges[..i];
      if e.kind == "network" {
        if e.source !in hosts {
          return NetworkMismatch("edge source is not a host node"), attachments;
        }
        if e.target !in networkNodes {
          return NetworkMismatch("edge target is not a network node"), attachments;
        }
        attachments := attachments[e.source := Lookup(attachments, e.source) + [e.target]];
      }
    }
    assert edges[..|edges|] == edges;
    return Accepted, attachments;
  }

  /** Exactly one attachment, to the given network. */
  ghost predicate AttachedOnce(targets: seq<string>, network: Option<string>) {
    |targets| == 1 && Some(targets[0]) == network
  }

  method CheckEdges(edges: seq<Edge>, hosts: map<string, Node>, networkNodes: set<string>) returns (v: Verdict)
    ensures v == Accepted <==> EdgesAgree(edges, hosts, networkNodes)
    ensures v == Accepted || v.NetworkMismatch?
  {
    var attachments;
    v, attachments := CollectAttachments(edges, hosts, networkNodes);
    if v != Accepted {
      return;
    }
    GatheredIsCollected(edges);
    var todo := hosts.Keys;
    while todo != {}
      invariant todo <= hosts.Keys
      invariant forall id :: id in hosts && id !in todo ==> AttachedOnce(Targets(edges, id), hosts[id].network)
      decreases |todo|
    {
      var id :| id in todo;
      var targets := Lookup(attachments, id);
      assert targets == Targets(edges, id);
      if |targets| == 0 {
        return NetworkMismatch("missing attachment");
      }
      if |targets| > 1 {
        return NetworkMismatch("ambiguous attachment");
      }
      if Some(targets[0]) != hosts[id].network {
        return NetworkMismatch("incorrect network-edge target");
      }
      todo := todo - {id};
    }
    return Accepted;
  }

  /** The whole check: it accepts exactly the consistent pairs, and its code names the first group that fails. */
  method CheckSharedFields(d: Definition, t: Topology) returns (v: Verdict)
    ensures v == Accepted <==> Consistent(d, t)
    ensures v == UnsupportedRoleKind <==> !AllSupported(d.roles)
    ensures v.RoleMismatch? <==>
            AllSupported(d.roles) && !RolesAgree(d.roles, Hosts(t.nodes))
  {
    var networkNodes, hosts := NetworkNodes(t.nodes), Hosts(t.nodes);
    v := CheckRoles(d.roles, hosts);
    if v != Accepted {
      return;
    }
    v := CheckNetworks(d.networks, t.networks, networkNodes);
    if v != Accepted {
      return;
    }
    v := CheckEdges(t.edges, hosts, networkNodes);
  }

  // ------------------------------------------------------------------ supporting facts

  lemma KeysAppend<T>(xs: seq<T>, x: T, key: T -> string)
    ensures Map(xs + [x], key) == Map(xs, key) + [key(x)]
  {
  }

  lemma DistinctAppend(xs: seq<string>, x: string)
    ensures |ToSet(xs)| <= |xs|
    ensures Distinct(xs + [x]) <==> Distinct(xs) && x !in xs
    ensures ToSet(xs + [x]) == ToSet(xs) + {x}
    decreases |xs|
  {
    if xs != [] {
      var n := |xs| - 1;
      DistinctAppend(xs[..n], xs[n]);
      assert xs == xs[..n] + [xs[n]];
    }
    assert ToSet(xs + [x]) == ToSet(xs) + {x};
    if x in xs {
      assert ToSet(xs) + {x} == ToSet(xs);
    }
  }

  lemma NotDistinctSuffix(networks: seq<TopoNetwork>, i: nat)
    requires i <= |networks| && !Distinct(Map(networks[..i], TopoId))
    ensures !Distinct(Map(networks, TopoId))
  {
    var front, all := Map(networks[..i], TopoId), Map(networks, TopoId);
    SizeIffNoDuplicates(front);
    SizeIffNoDuplicates(all);
    var j, k :| 0 <= j < k < |front| && front[j] == front[k];
    assert all[j] == front[j] && all[k] == front[k];
  }

  lemma IndexedAreListed(networks: seq<TopoNetwork>, byId: map<string, TopoNetwork>)
    requires byId.Keys == ToSet(Map(networks, TopoId))
             && forall tn :: tn in networks ==> tn.id in byId && byId[tn.id] == tn
    ensures forall id :: id in byId ==> byId[id] in networks && byId[id].id == id
  {
    forall id | id in byId ensures byId[id] in networks && byId[id].id == id {
      var i :| 0 <= i < |networks| && Map(networks, TopoId)[i] == id;
      assert networks[i] in networks;
    }
  }

  // ------------------------------------------------------------------ what follows from acceptance

  /** Every role's network is declared. */
  lemma RoleNetworksAreDeclared(d: Definition, t: Topology, r: Role)
    requires Consistent(d, t) && r in d.roles
    ensures r.network in Map(d.networks, NetworkName)
  {
    var id := r.name;
    var hosts := Hosts(t.nodes);
    TargetsAreEdges(t.edges, id);
    assert r.network in Targets(t.edges, id);
  }

  lemma {:induction false} TargetsAreEdges(edges: seq<Edge>, source: string)
    ensures forall x :: x in Targets(edges, source) ==>
              exists e :: e in edges && e.kind == "network" && e.source == source && e.target == x
    decreases |edges|
  {
    if edges != [] {
      var last := |edges| - 1;
      TargetsAreEdges(edges[..last], source);
      assert edges == edges[..last] + [edges[last]];
      forall x | x in Targets(edges, source)
        ensures exists e :: e in edges && e.kind == "network" && e.source == source && e.target == x
      {
        if x in Targets(edges[..last], source) {
          var e :| e in edges[..last] && e.kind == "network" && e.source == source && e.target == x;
          assert e in edges;
        } else {
          assert edges[last] in edges;
        }
      }
    }
  }

  // ------------------------------------------------------------------ order does not matter

  lemma {:induction false} SameElements<T>(xs: seq<T>, ys: seq<T>)
    requires multiset(xs) == multiset(ys)
    ensures |xs| == |ys| && forall x :: x in xs <==> x in ys
  {
    assert |xs| == |multiset(xs)| && |ys| == |multiset(ys)|;
    forall x ensures x in xs <==> x in ys {
      assert x in xs <==> x in multiset(xs);
      assert x in ys <==> x in multiset(ys);
    }
  }

  /** The attachments of a node, as a bag, depend only on the bag of edges. */
  lemma {:induction false} TargetsIgnoreOrder(xs: seq<Edge>, ys: seq<Edge>, source: string)
    requires multiset(xs) == multiset(ys)
    ensures multiset(Targets(xs, source)) == multiset(Targets(ys, source))
    decreases |xs|
  {
    SameElements(xs, ys);
    if xs != [] {
      var n := |xs| - 1;
      assert xs[n] in ys;
      var k :| 0 <= k < |ys| && ys[k] == xs[n];
      var rest := ys[..k] + ys[k + 1..];
      WithoutOne(xs, n);
      WithoutOne(ys, k);
      assert xs[..n] + xs[n + 1..] == xs[..n];
      TargetsIgnoreOrder(xs[..n], rest, source);
      TargetsWithout(xs, n, source);
      TargetsWithout(ys, k, source);
    }
  }

  lemma WithoutOne<T>(ys: seq<T>, k: nat)
    requires k < |ys|
    ensures multiset(ys[..k] + ys[k + 1..]) == multiset(ys) - multiset{ys[k]}
  {
    assert ys == ys[..k] + [ys[k]] + ys[k + 1..];
  }

  lemma {:induction false} TargetsSplit(xs: seq<Edge>, ys: seq<Edge>, source: string)
    ensures Targets(xs + ys, source) == Targets(xs, source) + Targets(ys, source)
    decreases |ys|
  {
    if ys == [] {
      assert xs + ys == xs;
    } else {
      var n := |ys| - 1;
      assert (xs + ys)[..|xs| + n] == xs + ys[..n];
      TargetsSplit(xs, ys[..n], source);
    }
  }

  lemma TargetsWithout(ys: seq<Edge>, k: nat, source: string)
    requires k < |ys|
    ensures multiset(Targets(ys, source)) == multiset(Targets(ys[..k] + ys[k + 1..], source))
            + multiset(Targets([ys[k]], source))
  {
    assert ys == ys[..k] + ([ys[k]] + ys[k + 1..]);
    TargetsSplit(ys[..k], [ys[k]] + ys[k + 1..], source);
    TargetsSplit([ys[k]], ys[k + 1..], source);
    TargetsSplit(ys[..k], ys[k + 1..], source);
  }

  lemma KeysIgnoreOrder<T(!new)>(xs: seq<T>, ys: seq<T>, key: T -> string)
    requires multiset(xs) == multiset(ys)
    ensures ToSet(Map(xs, key)) == ToSet(Map(ys, key)) && (Distinct(Map(xs, key)) <==> Distinct(Map(ys, key)))
  {
    SameElements(xs, ys);
    KeysWithin(xs, ys, key);
    KeysWithin(ys, xs, key);
    assert ToSet(Map(xs, key)) == ToSet(Map(ys, key));
  }

  lemma KeysWithin<T>(xs: seq<T>, ys: seq<T>, key: T -> string)
    requires forall x :: x in xs ==> x in ys
    ensures ToSet(Map(xs, key)) <= ToSet(Map(ys, key))
  {
    forall n | n in Map(xs, key) ensures n in Map(ys, key) {
      var i :| 0 <= i < |xs| && Map(xs, key)[i] == n;
      assert xs[i] in ys;
      var j :| 0 <= j < |ys| && ys[j] == xs[i];
      assert Map(ys, key)[j] == n;
    }
  }

  /** No two host nodes share an id, as the topology contract guarantees. */
  ghost predicate UniqueHosts(nodes: seq<Node>) {
    forall a, b :: a in nodes && b in nodes && a.kind != "network" && b.kind != "network" && a.id == b.id ==> a == b
  }

  lemma NodesOfSame(xs: seq<Node>, ys: seq<Node>)
    requires multiset(xs) == multiset(ys) && UniqueHosts(xs)
    ensures Hosts(xs) == Hosts(ys) && NetworkNodes(xs) == NetworkNodes(ys)
  {
    SameElements(xs, ys);
    assert Hosts(xs).Keys == Hosts(ys).Keys by {
      forall id ensures id in Hosts(xs) <==> id in Hosts(ys) {
        assert id in Hosts(xs) ==> Hosts(xs)[id] in ys;
        assert id in Hosts(ys) ==> Hosts(ys)[id] in xs;
      }
    }
    forall id | id in Hosts(xs) ensures Hosts(xs)[id] == Hosts(ys)[id] {
      assert Hosts(ys)[id] in xs;
    }
  }

  lemma AttachedOnceByBag(t: seq<string>, u: seq<string>, network: Option<string>)
    requires multiset(t) == multiset(u) && AttachedOnce(t, network)
    ensures AttachedOnce(u, network)
  {
    SameElements(t, u);
    assert u[0] in t;
  }

  lemma EdgesOfSame(xs: seq<Edge>, ys: seq<Edge>, hosts: map<string, Node>, networkNodes: set<string>)
    requires multiset(xs) == multiset(ys) && EdgesAgree(xs, hosts, networkNodes)
    ensures EdgesAgree(ys, hosts, networkNodes)
  {
    SameElements(xs, ys);
    forall id | id in hosts ensures AttachedOnce(Targets(ys, id), hosts[id].network) {
      TargetsIgnoreOrder(xs, ys, id);
      AttachedOnceByBag(Targets(xs, id), Targets(ys, id), hosts[id].network);
    }
  }

  /** The same lists in another order. */
  ghost predicate Reordered(d: Definition, t: Topology, d': Definition, t': Topology) {
    && multiset(d.roles) == multiset(d'.roles) && multiset(d.networks) == multiset(d'.networks)
    && multiset(t.nodes) == multiset(t'.nodes) && multiset(t.networks) == multiset(t'.networks)
    && multiset(t.edges) == multiset(t'.edges)
  }

  /** With distinct host ids acceptance does not depend on the order of any of the lists. */
  lemma OrderDoesNotMatter(d: Definition, t: Topology, d': Definition, t': Topology)
    requires Reordered(d, t, d', t') && UniqueHosts(t.nodes) && Consistent(d, t)
    ensures Consistent(d', t')
  {
    SameElements(d.roles, d'.roles);
    SameElements(d.networks, d'.networks);
    SameElements(t.networks, t'.networks);
    KeysIgnoreOrder(d.roles, d'.roles, RoleName);
    KeysIgnoreOrder(d.networks, d'.networks, NetworkName);
    KeysIgnoreOrder(t.networks, t'.networks, TopoId);
    NodesOfSame(t.nodes, t'.nodes);
    EdgesOfSame(t.edges, t'.edges, Hosts(t.nodes), NetworkNodes(t.nodes));
  }

  /** A list with one of its nodes moved to the end. */
  lemma MovedLast(nodes: seq<Node>, n: Node) returns (moved: seq<Node>)
    requires n in nodes && n.kind != "network"
    ensures multiset(moved) == multiset(nodes) && n.id in Hosts(moved) && Hosts(moved)[n.id] == n
  {
    var k :| 0 <= k < |nodes| && nodes[k] == n;
    var rest := nodes[..k] + nodes[k + 1..];
    WithoutOne(nodes, k);
    moved := rest + [n];
    assert moved[..|rest|] == rest;
  }

  /** Of two different host nodes with one id only one can agree with the role of that name. */
  lemma OneHostAgrees(roles: seq<Role>, hosts: map<string, Node>, hosts': map<string, Node>, id: string)
    requires RolesAgree(roles, hosts) && RolesAgree(roles, hosts') && id in hosts && id in hosts'
    ensures hosts[id].kind == hosts'[id].kind && hosts[id].network == hosts'[id].network
  {
    assert id in ToSet(Map(roles, RoleName));
    var i :| 0 <= i < |roles| && Map(roles, RoleName)[i] == id;
    assert roles[i] in roles;
  }

  /**
   Order, exactly: what is accepted in one order is accepted in every order if and only if no two different
   host nodes share an id, which the topology contract guarantees and this check does not look at.
   */
  lemma EveryOrderAcceptedIff(d: Definition, t: Topology)
    requires Consistent(d, t)
    ensures (forall d', t' :: Reordered(d, t, d', t') ==> Consistent(d', t')) <==> UniqueHosts(t.nodes)
  {
    if UniqueHosts(t.nodes) {
      forall d', t' | Reordered(d, t, d', t') ensures Consistent(d', t') { OrderDoesNotMatter(d, t, d', t'); }
    } else {
      var a, b :| a in t.nodes && b in t.nodes && a.kind != "network" && b.kind != "network" && a.id == b.id && a != b;
      var first := MovedLast(t.nodes, a);
      var second := MovedLast(t.nodes, b);
      var t1, t2 := t.(nodes := first), t.(nodes := second);
      assert Reordered(d, t, d, t1) && Reordered(d, t, d, t2);
      if Consistent(d, t1) && Consistent(d, t2) {
        OneHostAgrees(d.roles, Hosts(first), Hosts(second), a.id);
      }
    }
  }

  // ------------------------------------------------------------------ a repeated host id

  function OneRole(): Definition {
    Definition([Role("h", "vm", "n")], [Declared("n", None, None)])
  }

  /** Two host nodes of one id, of different kinds, and the network they are on. */
  function TwoHosts(first: Node, second: Node): Topology {
    Topology([first, second] + [Node("n", "network", None)], [TopoNetwork("n", None, None)],
             [Edge("network", "h", "n")])
  }

  lemma HostsOfTwo(first: Node, second: Node)
    requires first.id == second.id == "h" && first.kind != "network" && second.kind != "network"
    ensures var nodes := TwoHosts(first, second).nodes;
            Hosts(nodes) == map["h" := second] && NetworkNodes(nodes) == {"n"}
  {
    var net := Node("n", "network", None);
    var nodes := [first, second] + [net];
    assert nodes[..2] == [first, second] && [first, second][..1] == [first] && [first][..0] == [];
    assert Hosts([first]) == map["h" := first];
    assert Hosts([first, second]) == map["h" := second];
    assert Hosts(nodes) == Hosts([first, second]);
    assert nodes[2] == net && NetworkNodes(nodes) == {"n"};
  }

  lemma OneRoleAgrees(host: Node)
    requires host == Node("h", "vm", Some("n"))
    ensures RolesAgree(OneRole().roles, map["h" := host])
  {
    var roles := OneRole().roles;
    assert Map(roles, RoleName) == ["h"] && ToSet(["h"]) == {"h"};
  }

  lemma OneNetworkAgrees()
    ensures NetworksAgree(OneRole().networks, [TopoNetwork("n", None, None)], {"n"})
  {
    assert Map(OneRole().networks, NetworkName) == ["n"] && ToSet(["n"]) == {"n"};
    assert Map([TopoNetwork("n", None, None)], TopoId) == ["n"];
  }

  lemma OneEdgeAgrees(host: Node)
    requires host == Node("h", "vm", Some("n"))
    ensures EdgesAgree([Edge("network", "h", "n")], map["h" := host], {"n"})
  {
    var edges := [Edge("network", "h", "n")];
    assert edges[..0] == [];
    assert Targets(edges, "h") == ["n"];
  }

  lemma Swapped(a: Node, b: Node, rest: seq<Node>)
    ensures multiset([a, b] + rest) == multiset([b, a] + rest)
  {
    var left: seq<Node>, right: seq<Node> := [a, b], [b, a];
    assert multiset(left) == multiset(right);
    assert multiset(left + rest) == multiset(left) + multiset(rest);
  }

  lemma LastHostDecides(first: Node, second: Node)
    requires first.id == second.id == "h" && first.kind != "network" && second.kind != "network"
    ensures second == Node("h", "vm", Some("n")) ==> Consistent(OneRole(), TwoHosts(first, second))
    ensures second.kind != "vm" ==> !Consistent(OneRole(), TwoHosts(first, second))
  {
    HostsOfTwo(first, second);
    assert OneRole().roles[0] in OneRole().roles;
    if second == Node("h", "vm", Some("n")) {
      OneRoleAgrees(second);
      OneNetworkAgrees();
      OneEdgeAgrees(second);
    }
  }

  /**
   A repeated host id is accepted when the node that agrees with the role comes last, and refused in the other order.
   */
  lemma RepeatedHostDependsOnOrder()
    ensures var vm, other := Node("h", "vm", Some("n")), Node("h", "lxc", Some("n"));
            && Consistent(OneRole(), TwoHosts(other, vm)) && !Consistent(OneRole(), TwoHosts(vm, other))
            && Reordered(OneRole(), TwoHosts(other, vm), OneRole(), TwoHosts(vm, other))
  {
    var vm, other := Node("h", "vm", Some("n")), Node("h", "lxc", Some("n"));
    LastHostDecides(other, vm);
    LastHostDecides(vm, other);
    Swapped(vm, other, [Node("n", "network", None)]);
  }
}

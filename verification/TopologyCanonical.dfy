/**
 The canonical topology object that publication reconstructs and hashes: `canonicalize` of
 apps/api/secp_api/topology_authoring_contract.py, used by `reconstruct_canonical_topology`.  Nodes, edges and
 networks are an id and the text of everything else; a zone also has its member list.
 */
module TopologyCanonical {
  import opened Ordering

  datatype Item = Item(id: string, rest: string)
  datatype Zone = Zone(id: string, rest: string, members: seq<string>)

  datatype Topology = Topology(schema: string, nodes: seq<Item>, edges: seq<Item>, networks: seq<Item>,
                               zones: seq<Zone>)

  type Key<!T> = T -> string

  function ItemId(x: Item): string { x.id }
  function ZoneId(z: Zone): string { z.id }

  function ById<T>(id: Key<T>): (T, T) -> bool {
    (x, y) => Le(id(x), id(y))
  }

  /** `sorted(xs, key=...)`: stable, by id. */
  function SortById<T>(xs: seq<T>, id: Key<T>): (r: seq<T>)
    ensures multiset(r) == multiset(xs) && |r| == |xs|
  {
    Sort(xs, ById(id))
  }

  function Normal(z: Zone): Zone {
    z.(members := Sort(z.members, Le))
  }

  /** The ordered document. */
  function Canonical(t: Topology): Topology {
    Topology(t.schema, SortById(t.nodes, ItemId), SortById(t.edges, ItemId), SortById(t.networks, ItemId),
             Map(SortById(t.zones, ZoneId), Normal))
  }

  // ------------------------------------------------------------------ what the order must not matter for

  ghost predicate UniqueIds<T>(xs: seq<T>, id: Key<T>) {
    NoDuplicates(Map(xs, id))
  }

  /** What validation guarantees. */
  ghost predicate Validated(t: Topology) {
    UniqueIds(t.nodes, ItemId) && UniqueIds(t.edges, ItemId) && UniqueIds(t.networks, ItemId)
    && UniqueIds(t.zones, ZoneId)
  }

  ghost predicate SameZone(y: Zone, z: Zone) {
    y.id == z.id && y.rest == z.rest && multiset(y.members) == multiset(z.members)
  }

  /** The same content in some order: the same items, and zones with the same members. */
  ghost predicate Equivalent(t: Topology, u: Topology) {
    && t.schema == u.schema
    && multiset(t.nodes) == multiset(u.nodes) && multiset(t.edges) == multiset(u.edges)
    && multiset(t.networks) == multiset(u.networks)
    && AllAmong(t.zones, u.zones) && AllAmong(u.zones, t.zones)
  }

  ghost predicate AllAmong(xs: seq<Zone>, ys: seq<Zone>) {
    forall z :: z in xs ==> exists y :: y in ys && SameZone(z, y)
  }

  // ------------------------------------------------------------------ sorting by a unique id

  lemma ByIdIsPreorder<T(!new)>(id: Key<T>)
    ensures Preorder(ById(id))
  {
    forall x: T, y: T ensures ById(id)(x, y) || ById(id)(y, x) { LeTotal(id(x), id(y)); }
    forall x: T, y: T, z: T | ById(id)(x, y) && ById(id)(y, z) ensures ById(id)(x, z) {
      LeTransitive(id(x), id(y), id(z));
    }
  }

  lemma SortedByIdIsSorted<T(!new)>(xs: seq<T>, id: Key<T>)
    ensures Sorted(Map(SortById(xs, id), id), Le)
  {
    ByIdIsPreorder(id);
    SortSorts(xs, ById(id));
    var a := SortById(xs, id);
    forall i, j | 0 <= i < j < |a| ensures Le(Map(a, id)[i], Map(a, id)[j]) {
      assert ById(id)(a[i], a[j]);
    }
  }

  lemma UniqueAfterSort<T(!new)>(xs: seq<T>, id: Key<T>)
    requires UniqueIds(xs, id)
    ensures UniqueIds(SortById(xs, id), id)
  {
    MapBag(xs, SortById(xs, id), id);
    NoDuplicatesIsCount(Map(xs, id));
    NoDuplicatesIsCount(Map(SortById(xs, id), id));
  }

  /** Sorted by a unique id, two lists with the same ids have them at the same places. */
  lemma SameIdsSamePlaces<T(!new)>(xs: seq<T>, ys: seq<T>, id: Key<T>)
    requires UniqueIds(xs, id) && UniqueIds(ys, id)
    requires forall k :: k in Map(xs, id) <==> k in Map(ys, id)
    ensures Map(SortById(xs, id), id) == Map(SortById(ys, id), id)
  {
    var a, b := Map(SortById(xs, id), id), Map(SortById(ys, id), id);
    MapBag(xs, SortById(xs, id), id);
    MapBag(ys, SortById(ys, id), id);
    SameMembersSameBag(Map(xs, id), Map(ys, id));
    SortedByIdIsSorted(xs, id);
    SortedByIdIsSorted(ys, id);
    LeIsTotalOrder();
    SortedUnique(a, b, Le);
  }

  lemma OnePlacePerId<T>(xs: seq<T>, id: Key<T>, i: nat, j: nat)
    requires UniqueIds(xs, id) && i < |xs| && j < |xs| && id(xs[i]) == id(xs[j])
    ensures i == j
  {
    assert Map(xs, id)[i] == Map(xs, id)[j];
  }

  lemma IdsOfItems<T>(xs: seq<T>, id: Key<T>)
    ensures forall k :: k in Map(xs, id) <==> exists x :: x in xs && id(x) == k
  {
    forall k | k in Map(xs, id) ensures exists x :: x in xs && id(x) == k {
      var i :| 0 <= i < |xs| && Map(xs, id)[i] == k;
      assert xs[i] in xs;
    }
    forall x | x in xs ensures id(x) in Map(xs, id) {
      var i :| 0 <= i < |xs| && xs[i] == x;
      assert Map(xs, id)[i] == id(x);
    }
  }

  /** Different order, same list after sorting by a unique id. */
  lemma SortByIdIff<T(!new)>(xs: seq<T>, ys: seq<T>, id: Key<T>)
    requires UniqueIds(xs, id) && UniqueIds(ys, id)
    ensures SortById(xs, id) == SortById(ys, id) <==> multiset(xs) == multiset(ys)
  {
    if multiset(xs) == multiset(ys) {
      var a, b := SortById(xs, id), SortById(ys, id);
      MapBag(xs, ys, id);
      SameBagSameMembers(Map(xs, id), Map(ys, id));
      SameIdsSamePlaces(xs, ys, id);
      UniqueAfterSort(xs, id);
      SameItems(a, b, id);
    }
  }

  lemma SameBagSameMembers(a: seq<string>, b: seq<string>)
    requires multiset(a) == multiset(b)
    ensures forall k :: k in a <==> k in b
  {
    assert forall k :: k in a <==> k in multiset(a);
    assert forall k :: k in b <==> k in multiset(b);
  }

  lemma SameItems<T>(a: seq<T>, b: seq<T>, id: Key<T>)
    requires multiset(a) == multiset(b) && UniqueIds(a, id) && Map(a, id) == Map(b, id)
    ensures a == b
  {
    assert |a| == |Map(a, id)| == |Map(b, id)| == |b|;
    forall i | 0 <= i < |a| ensures a[i] == b[i] {
      assert b[i] in multiset(a);
      var j :| 0 <= j < |a| && a[j] == b[i];
      assert Map(a, id)[i] == Map(b, id)[i];
      OnePlacePerId(a, id, i, j);
    }
  }

  // ------------------------------------------------------------------ zones

  lemma NormalIff(y: Zone, z: Zone)
    ensures Normal(y) == Normal(z) <==> SameZone(y, z)
  {
    LeIsTotalOrder();
    if multiset(y.members) == multiset(z.members) {
      SortIgnoresOrder(y.members, z.members, Le);
    }
  }

  function CanonicalZones(xs: seq<Zone>): seq<Zone> {
    Map(SortById(xs, ZoneId), Normal)
  }

  lemma EqualZonesAreSame(xs: seq<Zone>, ys: seq<Zone>)
    requires CanonicalZones(xs) == CanonicalZones(ys)
    ensures AllAmong(xs, ys)
  {
    var a, b := SortById(xs, ZoneId), SortById(ys, ZoneId);
    assert |a| == |Map(a, Normal)| == |Map(b, Normal)| == |b|;
    forall z | z in xs ensures exists y :: y in ys && SameZone(z, y) {
      assert z in multiset(a);
      var i :| 0 <= i < |a| && a[i] == z;
      assert Map(a, Normal)[i] == Map(b, Normal)[i];
      NormalIff(a[i], b[i]);
      assert b[i] in multiset(ys);
    }
  }

  lemma AmongIds(xs: seq<Zone>, ys: seq<Zone>)
    requires AllAmong(xs, ys)
    ensures forall k :: k in Map(xs, ZoneId) ==> k in Map(ys, ZoneId)
  {
    IdsOfItems(xs, ZoneId);
    IdsOfItems(ys, ZoneId);
  }

  lemma SamePlaceSameZone(xs: seq<Zone>, ys: seq<Zone>, a: seq<Zone>, b: seq<Zone>, i: nat)
    requires AllAmong(xs, ys) && multiset(a) == multiset(xs) && multiset(b) == multiset(ys) && UniqueIds(b, ZoneId)
    requires i < |a| && i < |b| && a[i].id == b[i].id
    ensures Normal(a[i]) == Normal(b[i])
  {
    var z := a[i];
    assert z in multiset(a) && z in multiset(xs);
    assert z in xs;
    var y :| y in ys && SameZone(z, y);
    SameZoneAtPlace(ys, b, i, y);
    NormalIff(a[i], b[i]);
  }

  lemma SameZonesAreEqual(xs: seq<Zone>, ys: seq<Zone>)
    requires UniqueIds(xs, ZoneId) && UniqueIds(ys, ZoneId) && AllAmong(xs, ys) && AllAmong(ys, xs)
    ensures CanonicalZones(xs) == CanonicalZones(ys)
  {
    var a, b := SortById(xs, ZoneId), SortById(ys, ZoneId);
    AmongIds(xs, ys);
    AmongIds(ys, xs);
    SameIdsSamePlaces(xs, ys, ZoneId);
    UniqueAfterSort(ys, ZoneId);
    var ids := Map(a, ZoneId);
    assert ids == Map(b, ZoneId) && |a| == |ids| == |b|;
    forall i | 0 <= i < |a| ensures Map(a, Normal)[i] == Map(b, Normal)[i] {
      assert a[i].id == ids[i] == b[i].id;
      SamePlaceSameZone(xs, ys, a, b, i);
    }
  }

  lemma SameZoneAtPlace(ys: seq<Zone>, b: seq<Zone>, i: nat, y: Zone)
    requires multiset(b) == multiset(ys) && UniqueIds(b, ZoneId) && y in ys && i < |b| && b[i].id == y.id
    ensures b[i] == y
  {
    assert y in multiset(b);
    var j :| 0 <= j < |b| && b[j] == y;
    OnePlacePerId(b, ZoneId, i, j);
  }

  // ------------------------------------------------------------------ the result

  /** Two validated documents have one canonical form exactly when they have the same content in some order. */
  lemma CanonicalIff(t: Topology, u: Topology)
    requires Validated(t) && Validated(u)
    ensures Canonical(t) == Canonical(u) <==> Equivalent(t, u)
  {
    SortByIdIff(t.nodes, u.nodes, ItemId);
    SortByIdIff(t.edges, u.edges, ItemId);
    SortByIdIff(t.networks, u.networks, ItemId);
    if CanonicalZones(t.zones) == CanonicalZones(u.zones) {
      EqualZonesAreSame(t.zones, u.zones);
      EqualZonesAreSame(u.zones, t.zones);
    }
    if AllAmong(t.zones, u.zones) && AllAmong(u.zones, t.zones) {
      SameZonesAreEqual(t.zones, u.zones);
    }
  }

  // ------------------------------------------------------------------ what the object holds

  /** The same items, by id. */
  ghost predicate Ordered<T>(xs: seq<T>, ys: seq<T>, id: Key<T>) {
    multiset(xs) == multiset(ys) && Sorted(Map(ys, id), Le)
  }

  /** The canonical object has each list of the document under its own name, by id, and each zone's members sorted. */
  lemma CanonicalHolds(t: Topology)
    ensures var c := Canonical(t);
            && c.schema == t.schema && Ordered(t.nodes, c.nodes, ItemId) && Ordered(t.edges, c.edges, ItemId)
            && Ordered(t.networks, c.networks, ItemId) && Sorted(Map(c.zones, ZoneId), Le)
            && AllAmong(t.zones, c.zones) && AllAmong(c.zones, t.zones)
            && (forall z :: z in c.zones ==> Sorted(z.members, Le))
  {
    SortedByIdIsSorted(t.nodes, ItemId);
    SortedByIdIsSorted(t.edges, ItemId);
    SortedByIdIsSorted(t.networks, ItemId);
    ZonesHold(t.zones);
  }

  lemma ZonesHold(zones: seq<Zone>)
    ensures var c := CanonicalZones(zones);
            && Sorted(Map(c, ZoneId), Le) && AllAmong(zones, c) && AllAmong(c, zones)
            && (forall z :: z in c ==> Sorted(z.members, Le))
  {
    var a, c := SortById(zones, ZoneId), CanonicalZones(zones);
    SortedByIdIsSorted(zones, ZoneId);
    assert Map(c, ZoneId) == Map(a, ZoneId);
    ZonesAreThere(zones);
    ZonesAreNormal(zones);
  }

  lemma ZonesAreThere(zones: seq<Zone>)
    ensures AllAmong(zones, CanonicalZones(zones))
  {
    var a, c := SortById(zones, ZoneId), CanonicalZones(zones);
    forall z | z in zones ensures exists y :: y in c && SameZone(z, y) {
      assert z in multiset(a);
      var i :| 0 <= i < |a| && a[i] == z;
      assert c[i] in c && SameZone(z, c[i]);
    }
  }

  lemma ZonesAreNormal(zones: seq<Zone>)
    ensures var c := CanonicalZones(zones); AllAmong(c, zones) && forall z :: z in c ==> Sorted(z.members, Le)
  {
    var a, c := SortById(zones, ZoneId), CanonicalZones(zones);
    LeIsTotalOrder();
    forall y | y in c ensures Sorted(y.members, Le) && exists z :: z in zones && SameZone(y, z) {
      var i :| 0 <= i < |c| && c[i] == y;
      SortSorts(a[i].members, Le);
      assert a[i] in multiset(zones) && SameZone(y, a[i]);
    }
  }
}

/**
 What a usable fact is worth, told from the raw observations and the contributions alone: which authority
 stands behind it, which names it had to enumerate, and where in its value each known node is found.
 */
module DiscoveryRules {
  import opened Wrappers
  import opened Ordering
  import opened DiscoveryValues
  import opened DiscoveryCommitment
  import opened DiscoveryProjection

  // ------------------------------------------------------------------ readings

  /** The run observed the field, and this is its value. */
  ghost predicate Saw(raw: Raw, field: Field, v: Value) {
    field in raw && raw[field].state == Observed && raw[field].value == Some(v)
  }

  ghost predicate SawFlag(raw: Raw, field: Field, key: string) {
    exists v :: Saw(raw, field, v) && v.Dict? && Lookup(v.entries, key) == Some(Bool(true))
  }

  ghost predicate Among(items: Items, x: Value) {
    items.Item? && (items.first == x || Among(items.rest, x))
  }

  /** The run observed the list of nodes. */
  ghost predicate NodesKnown(raw: Raw) {
    exists v :: Saw(raw, Required(NodeNames), v) && (v.List? || v.Tuple?)
  }

  ghost predicate KnownNode(raw: Raw, show: Show, node: string) {
    exists v, x :: Saw(raw, Required(NodeNames), v) && (v.List? || v.Tuple?) && Among(v.items, x) && show(x) == node
  }

  // ------------------------------------------------------------------ the facts

  ghost predicate FromControlPlane(f: Fact) {
    f in {TargetIdentity, ObservationTimestamp, WorkerIdentity, EvidenceSignature, WorkerReleaseFingerprint,
          TargetTlsIdentity}
  }

  ghost predicate Sourceless(f: Fact) {
    f in {ApiFeatureAvailability, CredentialIdentityReference}
  }

  ghost predicate AboutGuests(f: Fact) {
    f in {ExistingVmIds, ExistingLxcIds, Templates}
  }

  ghost predicate AboutSdn(f: Fact) {
    f in {ExistingSdnZones, ExistingVnets, ExistingSubnets, ExistingVlanUse, PendingSdnState}
  }

  /** Facts with one entry per node. */
  ghost predicate PerNode(f: Fact) {
    f in {NodeOnlineState, NodeCapacity, KernelVersion, NodeVersions, RawHostPackageVersion, ReleaseBuildIdentifier,
          Bridges, ManagementBridges, ManagementCidrs, StorageIds, ExistingVmIds, ExistingLxcIds, Templates}
  }

  /** Facts with an entry per thing of a node, and the fact that lists those things. */
  ghost function Things(f: Fact): Option<Fact> {
    if f == BridgeVlanAwareness then Some(Bridges)
    else if f in {StorageTypes, AllowedStorageContent, AvailableCapacity, IsoAndContainerTemplateAvailability}
      then Some(StorageIds)
    else None
  }

  lemma SourcesAre(f: Fact)
    ensures ControlPlaneSupplied(f) <==> FromControlPlane(f)
    ensures WithoutSource(f) <==> Sourceless(f)
  {
  }

  lemma GatesAre(f: Fact)
    ensures VmGated(f) <==> AboutGuests(f)
    ensures SdnGated(f) <==> AboutSdn(f)
  {
  }

  lemma ScopesAre(f: Fact)
    ensures NodeKeyed(f) <==> PerNode(f)
    ensures NodePrefixed(f) <==> Things(f).Some?
    ensures Things(f).Some? ==> Container(f) == Things(f).value
  {
  }

  // ------------------------------------------------------------------ where a node is found

  /** `node/thing` */
  ghost predicate IsThingOf(node: string, key: string) {
    |node| < |key| && key[..|node|] == node && key[|node|] == '/'
  }

  /** The value says something about the node: an entry, an entry of one of its things, or that it has none. */
  ghost predicate Found(f: Fact, raw: Raw, es: Entries, node: string) {
    if PerNode(f) then Lookup(es, node).Some?
    else
      || (exists key :: Lookup(es, key).Some? && IsThingOf(node, key))
      || (Things(f).Some?
          && exists v ::
               Saw(raw, Required(Things(f).value), v) && v.Dict? && Lookup(v.entries, node) == Some(Tuple(End)))
  }

  /** Somebody answered for the node, and nobody failed to. */
  ghost predicate AnsweredFor(cs: seq<Contribution>, node: string) {
    && (exists c :: c in cs && node != "" && NodeOf(c.subject) == node)
    && (forall c :: c in cs && node != "" && NodeOf(c.subject) == node ==> c.state == Observed)
  }

  ghost function Offered(sources: Sources, f: Fact): seq<Contribution> {
    if Required(f) in sources then sources[Required(f)] else []
  }

  /** The whole inventory is accounted for: every known node answered for, and found in the value. */
  ghost predicate Accounted(f: Fact, raw: Raw, sources: Sources, show: Show) {
    && NodesKnown(raw)
    && exists v :: Saw(raw, Required(f), v) && v.Dict? && AllFound(f, raw, v.entries, Offered(sources, f), show)
  }

  ghost predicate AllFound(f: Fact, raw: Raw, es: Entries, cs: seq<Contribution>, show: Show) {
    forall node :: KnownNode(raw, show, node) ==> AnsweredFor(cs, node) && Found(f, raw, es, node)
  }

  /** Every pending family was listed, and the subnets of every vnet. */
  ghost predicate PendingListed(raw: Raw) {
    && Required(PendingSdnState) in raw && raw[Required(PendingSdnState)].state == Observed
    && (forall family :: family in {"zones", "vnets", "controllers", "fabrics"} ==> Enumerates(raw, family))
    && exists v :: Saw(raw, Required(ExistingVnets), v) && v.Dict?
                   && forall vnet :: Lookup(v.entries, vnet).Some? ==> Enumerates(raw, "subnets@" + vnet)
  }

  ghost predicate Enumerates(raw: Raw, family: string) {
    exists v :: Saw(raw, Required(PendingSdnState), v) && v.Dict? && Lookup(v.entries, family).Some?
  }

  /** What has to hold before a fact may be decided from. */
  ghost predicate Warranted(f: Fact, raw: Raw, supplied: map<Fact, Observation>, sources: Sources, show: Show) {
    if FromControlPlane(f) then f in supplied && supplied[f].state == Observed
    else if Sourceless(f) then false
    else if f == ExactPveVersion then
      forall c :: c in {PveVersionMajor, PveVersionMinor, PveVersionPatch} ==> c in raw && raw[c].state == Observed
    else ReadWarranted(f, raw, sources, show)
  }

  ghost predicate ReadWarranted(f: Fact, raw: Raw, sources: Sources, show: Show) {
    && Required(f) in raw && raw[Required(f)].state == Observed
    && (AboutGuests(f) ==> SawFlag(raw, GuestReadAuthority, "vm_audit_granted"))
    && (AboutSdn(f) ==> SawFlag(raw, SdnReadAuthority, "cluster_sdn_readable"))
    && (f == PendingSdnState ==> PendingListed(raw))
    && (PerNode(f) || Things(f).Some? ==> Accounted(f, raw, sources, show))
  }

  // ------------------------------------------------------------------ the projection obeys them

  lemma SawIff(raw: Raw, field: Field, v: Value)
    ensures Saw(raw, field, v) <==> UsableValue(raw, field) == Some(v)
  {
  }

  lemma FlagIff(raw: Raw, field: Field, key: string)
    ensures SawFlag(raw, field, key) <==> HoldsTrue(UsableValue(raw, field), key)
  {
    var read := UsableValue(raw, field);
    if read.Some? { SawIff(raw, field, read.value); }
    if SawFlag(raw, field, key) {
      var v :| Saw(raw, field, v) && v.Dict? && Lookup(v.entries, key) == Some(Bool(true));
      SawIff(raw, field, v);
    }
  }

  lemma {:induction false} ShownIff(items: Items, show: Show, node: string)
    ensures node in Shown(items, show) <==> exists x :: Among(items, x) && show(x) == node
  {
    if items.Item? {
      ShownIff(items.rest, show, node);
      if show(items.first) == node { assert Among(items, items.first); }
      if node in Shown(items.rest, show) {
        var x :| Among(items.rest, x) && show(x) == node;
        assert Among(items, x);
      }
    }
  }

  lemma KnownIff(raw: Raw, show: Show, node: string)
    ensures NodesKnown(raw) <==> KnownNodes(raw, show).Some?
    ensures KnownNode(raw, show, node) <==> KnownNodes(raw, show).Some? && node in KnownNodes(raw, show).value
  {
    var read := UsableValue(raw, Required(NodeNames));
    if read.Some? {
      SawIff(raw, Required(NodeNames), read.value);
      if read.value.List? || read.value.Tuple? {
        ShownIff(read.value.items, show, node);
        assert NodesKnown(raw);
      }
    }
    if KnownNode(raw, show, node) {
      var v, x :| Saw(raw, Required(NodeNames), v) && (v.List? || v.Tuple?) && Among(v.items, x) && show(x) == node;
      SawIff(raw, Required(NodeNames), v);
    }
  }

  lemma ThingIff(node: string, key: string)
    ensures IsThingOf(node, key) <==> StartsWith(node, key)
  {
    if StartsWith(node, key) {
      assert key[..|node| + 1] == node + "/";
      assert key[|node|] == (node + "/")[|node|];
      assert key[..|node|] == (node + "/")[..|node|];
    }
    if IsThingOf(node, key) {
      assert key[..|node| + 1] == key[..|node|] + [key[|node|]];
    }
  }

  lemma FoundIff(f: Fact, raw: Raw, es: Entries, node: string)
    requires PerNode(f) || Things(f).Some?
    ensures Found(f, raw, es, node) <==> Covers(f, es, node, raw)
  {
    ScopesAre(f);
    if !PerNode(f) {
      forall key ensures IsThingOf(node, key) <==> StartsWith(node, key) { ThingIff(node, key); }
      NoneIff(raw, Required(Container(f)), node);
    }
  }

  lemma NoneIff(raw: Raw, field: Field, node: string)
    ensures (exists v :: Saw(raw, field, v) && v.Dict? && Lookup(v.entries, node) == Some(Tuple(End))) <==>
            var c := UsableValue(raw, field);
            c.Some? && c.value.Dict? && Lookup(c.value.entries, node) == Some(Tuple(End))
  {
    var read := UsableValue(raw, field);
    if read.Some? { SawIff(raw, field, read.value); }
    if v :| Saw(raw, field, v) && v.Dict? && Lookup(v.entries, node) == Some(Tuple(End)) { SawIff(raw, field, v); }
  }

  lemma CoveredNodeIff(f: Fact, raw: Raw, es: Entries, cs: seq<Contribution>, node: string)
    requires PerNode(f) || Things(f).Some?
    ensures AnsweredFor(cs, node) && Found(f, raw, es, node) <==> NodeCovered(node, Covers(f, es, node, raw), cs)
  {
    FoundIff(f, raw, es, node);
  }

  lemma AllFoundIff(f: Fact, raw: Raw, es: Entries, cs: seq<Contribution>, show: Show)
    requires (PerNode(f) || Things(f).Some?) && KnownNodes(raw, show).Some?
    ensures AllFound(f, raw, es, cs, show) <==>
            forall n :: n in KnownNodes(raw, show).value ==> NodeCovered(n, Covers(f, es, n, raw), cs)
  {
    forall node
      ensures KnownNode(raw, show, node) <==> node in KnownNodes(raw, show).value
      ensures AnsweredFor(cs, node) && Found(f, raw, es, node) <==> NodeCovered(node, Covers(f, es, node, raw), cs)
    {
      KnownIff(raw, show, node);
      CoveredNodeIff(f, raw, es, cs, node);
    }
  }

  lemma AccountedIs(f: Fact, raw: Raw, sources: Sources, show: Show)
    ensures Accounted(f, raw, sources, show) <==>
            var read := UsableValue(raw, Required(f));
            NodesKnown(raw) && read.Some? && read.value.Dict?
            && AllFound(f, raw, read.value.entries, Offered(sources, f), show)
  {
    var read := UsableValue(raw, Required(f));
    if read.Some? { SawIff(raw, Required(f), read.value); }
    if Accounted(f, raw, sources, show) {
      var v :| Saw(raw, Required(f), v) && v.Dict? && AllFound(f, raw, v.entries, Offered(sources, f), show);
      SawIff(raw, Required(f), v);
    }
  }

  lemma AccountedIff(f: Fact, raw: Raw, sources: Sources, show: Show)
    requires PerNode(f) || Things(f).Some?
    ensures Accounted(f, raw, sources, show) <==> EveryNodeCovered(f, raw, sources, show)
  {
    AccountedIs(f, raw, sources, show);
    KnownIff(raw, show, "");
    var read := UsableValue(raw, Required(f));
    if read.Some? && read.value.Dict? && NodesKnown(raw) {
      AllFoundIff(f, raw, read.value.entries, ContributionsTo(sources, f), show);
    }
  }

  lemma EnumeratesIff(raw: Raw, family: string)
    requires Required(PendingSdnState) in raw && raw[Required(PendingSdnState)].state == Observed
    ensures Enumerates(raw, family) <==> family in Keys(EntriesOf(raw[Required(PendingSdnState)].value))
  {
    var read := UsableValue(raw, Required(PendingSdnState));
    if read.Some? { SawIff(raw, Required(PendingSdnState), read.value); }
  }

  lemma PendingListedIff(raw: Raw)
    requires Required(PendingSdnState) in raw && raw[Required(PendingSdnState)].state == Observed
    ensures PendingListed(raw) <==> PendingEnumerated(raw[Required(PendingSdnState)], raw)
  {
    var es := EntriesOf(raw[Required(PendingSdnState)].value);
    forall family ensures Enumerates(raw, family) <==> family in Keys(es) { EnumeratesIff(raw, family); }
    assert forall family :: family in Families() <==> family in {"zones", "vnets", "controllers", "fabrics"};
    var read := UsableValue(raw, Required(ExistingVnets));
    if read.Some? { SawIff(raw, Required(ExistingVnets), read.value); }
    if PendingListed(raw) {
      var v :| Saw(raw, Required(ExistingVnets), v) && v.Dict?
               && forall vnet :: Lookup(v.entries, vnet).Some? ==> Enumerates(raw, "subnets@" + vnet);
      SawIff(raw, Required(ExistingVnets), v);
    }
  }

  lemma CompleteIff(f: Fact, raw: Raw, sources: Sources, show: Show)
    requires Required(f) in raw && raw[Required(f)].state == Observed
    ensures (f == PendingSdnState ==> PendingListed(raw))
            && (PerNode(f) || Things(f).Some? ==> Accounted(f, raw, sources, show))
            <==> Complete(f, raw, sources, show)
  {
    ScopesAre(f);
    if PerNode(f) || Things(f).Some? { AccountedIff(f, raw, sources, show); }
    if f == PendingSdnState { PendingListedIff(raw); }
  }

  lemma ReadWarrantedIff(f: Fact, raw: Raw, sources: Sources, show: Show)
    ensures ReadWarranted(f, raw, sources, show) <==> ReadEstablished(f, raw, sources, show)
  {
    GatesAre(f);
    FlagIff(raw, GuestReadAuthority, "vm_audit_granted");
    FlagIff(raw, SdnReadAuthority, "cluster_sdn_readable");
    if Required(f) in raw && raw[Required(f)].state == Observed { CompleteIff(f, raw, sources, show); }
  }

  lemma VersionComponentsAre(c: Field)
    ensures c in VersionComponents() <==> c in {PveVersionMajor, PveVersionMinor, PveVersionPatch}
  {
  }

  lemma WarrantedIff(f: Fact, raw: Raw, supplied: map<Fact, Observation>, sources: Sources, show: Show)
    ensures Warranted(f, raw, supplied, sources, show) <==> Established(f, raw, supplied, sources, show)
  {
    SourcesAre(f);
    ReadWarrantedIff(f, raw, sources, show);
    forall c ensures c in VersionComponents() <==> c in {PveVersionMajor, PveVersionMinor, PveVersionPatch} {
      VersionComponentsAre(c);
    }
  }

  /** The projected fact is usable exactly when it is warranted. */
  lemma UsableIffWarranted(f: Fact, raw: Raw, supplied: map<Fact, Observation>, sources: Sources, show: Show)
    ensures ProjectFact(f, raw, supplied, sources, show).state == Observed
            <==> Warranted(f, raw, supplied, sources, show)
  {
    UsableIff(f, raw, supplied, sources, show);
    WarrantedIff(f, raw, supplied, sources, show);
  }

  // ------------------------------------------------------------------ what a refusal says

  /** The authority the fact is behind was shown. */
  ghost predicate Authorised(f: Fact, raw: Raw) {
    && (AboutGuests(f) ==> SawFlag(raw, GuestReadAuthority, "vm_audit_granted"))
    && (AboutSdn(f) ==> SawFlag(raw, SdnReadAuthority, "cluster_sdn_readable"))
  }

  /** The field was read, behind its authority, and there is an inventory to account for. */
  ghost predicate Accountable(f: Fact, raw: Raw, es: Entries) {
    Saw(raw, Required(f), Dict(es)) && NodesKnown(raw) && Authorised(f, raw)
  }

  /** What is held against a node: its worst answer, or none at all, or answers that left it out of the value. */
  ghost predicate HeldAgainst(f: Fact, raw: Raw, es: Entries, cs: seq<Contribution>, node: string, o: NodeOutcome) {
    match o
    case NodeMissing => forall c :: c in cs ==> !(node != "" && NodeOf(c.subject) == node)
    case NodeDenied => Reported(node, cs, NodeDenied)
    case NodeFailed => !Reported(node, cs, NodeDenied) && Reported(node, cs, NodeFailed)
    case NodeUnsupported =>
      !Reported(node, cs, NodeDenied) && !Reported(node, cs, NodeFailed) && Reported(node, cs, NodeUnsupported)
    case AnsweredWithoutCovering => AnsweredFor(cs, node) && !Found(f, raw, es, node)
    case NodeObserved => false
  }

  lemma AnsweredIff(cs: seq<Contribution>, node: string)
    ensures AnsweredFor(cs, node) <==> Worst(OutcomesAbout(node, cs)) == NodeObserved
  {
    ObservedIff(node, cs);
  }

  lemma WorstIsHeld(f: Fact, raw: Raw, es: Entries, cs: seq<Contribution>, node: string)
    ensures var worst := Worst(OutcomesAbout(node, cs));
            worst != NodeObserved ==> HeldAgainst(f, raw, es, cs, node, worst)
  {
    OtherOutcomesIff(node, cs);
  }

  /** What was held against a node excludes that it was answered for, unless the answers left it out. */
  lemma HeldIsNotAnswered(f: Fact, raw: Raw, es: Entries, cs: seq<Contribution>, node: string, o: NodeOutcome)
    requires HeldAgainst(f, raw, es, cs, node, o) && AnsweredFor(cs, node)
    ensures o == AnsweredWithoutCovering && !Found(f, raw, es, node)
  {
    OtherOutcomesIff(node, cs);
    AnsweredIff(cs, node);
  }

  lemma JudgedIs(f: Fact, raw: Raw, es: Entries, cs: seq<Contribution>, node: string)
    requires PerNode(f) || Things(f).Some?
    ensures var o := Judged(node, CoveredBy(f, es, raw), cs);
            && (o == NodeObserved <==> AnsweredFor(cs, node) && Found(f, raw, es, node))
            && (o != NodeObserved ==> HeldAgainst(f, raw, es, cs, node, o))
  {
    FoundIff(f, raw, es, node);
    AnsweredIff(cs, node);
    WorstIsHeld(f, raw, es, cs, node);
  }

  lemma AuthorisedIff(f: Fact, raw: Raw)
    ensures Authorised(f, raw) <==> GatesOpen(f, raw)
  {
    GatesAre(f);
    FlagIff(raw, GuestReadAuthority, "vm_audit_granted");
    FlagIff(raw, SdnReadAuthority, "cluster_sdn_readable");
  }

  lemma AuthorisedIsRead(f: Fact, raw: Raw, supplied: map<Fact, Observation>, sources: Sources, show: Show)
    requires Authorised(f, raw) && Required(f) in raw && raw[Required(f)].state == Observed
    requires !FromControlPlane(f) && !Sourceless(f) && f != ExactPveVersion
    ensures ProjectFact(f, raw, supplied, sources, show) == ReadFact(f, raw[Required(f)], raw, sources, show)
  {
    SourcesAre(f);
    AuthorisedIff(f, raw);
    GatedProjection(f, raw, supplied, sources, show);
    OpenGate(f, raw, sources, show);
  }

  lemma PerNodeIsRead(f: Fact)
    requires PerNode(f) || Things(f).Some?
    ensures !FromControlPlane(f) && !Sourceless(f) && f != ExactPveVersion && f != PendingSdnState && NodeScoped(f)
  {
    ScopesAre(f);
  }

  lemma ReadIsCoverage(f: Fact, raw: Raw, supplied: map<Fact, Observation>, sources: Sources, show: Show, es: Entries)
    requires (PerNode(f) || Things(f).Some?) && Accountable(f, raw, es)
    ensures KnownNodes(raw, show).Some?
    ensures ProjectFact(f, raw, supplied, sources, show)
            == Coverage(f, raw[Required(f)], raw, KnownNodes(raw, show).value, Offered(sources, f))
  {
    PerNodeIsRead(f);
    KnownIff(raw, show, "");
    AuthorisedIsRead(f, raw, supplied, sources, show);
  }

  /**
   A fact refused for want of accounting names exactly the known nodes that are not accounted for, each with
   what is held against it; it reads as a missing privilege exactly when every one of them was denied.
   */
  lemma RefusalNames(f: Fact, raw: Raw, supplied: map<Fact, Observation>, sources: Sources, show: Show, es: Entries)
    requires (PerNode(f) || Things(f).Some?) && Accountable(f, raw, es)
    requires ProjectFact(f, raw, supplied, sources, show).state != Observed
    ensures var o, cs := ProjectFact(f, raw, supplied, sources, show), Offered(sources, f);
            && o.reason.NotAccounted? && o.value == None
            && (forall node :: node in o.reason.nodes <==>
                  KnownNode(raw, show, node) && !(AnsweredFor(cs, node) && Found(f, raw, es, node)))
            && (forall node :: node in o.reason.nodes ==>
                  HeldAgainst(f, raw, es, cs, node, o.reason.nodes[node]))
            && o.state == (if forall node :: node in o.reason.nodes ==> o.reason.nodes[node] == NodeDenied
                           then PermissionDenied else NotRequested)
  {
    var o, cs := ProjectFact(f, raw, supplied, sources, show), Offered(sources, f);
    ReadIsCoverage(f, raw, supplied, sources, show, es);
    var nodes := KnownNodes(raw, show).value;
    var unaccounted := Unaccounted(CoveredBy(f, es, raw), nodes, cs);
    assert o.reason == NotAccounted(unaccounted);
    forall node
      ensures node in unaccounted <==>
              KnownNode(raw, show, node) && !(AnsweredFor(cs, node) && Found(f, raw, es, node))
      ensures node in unaccounted ==> HeldAgainst(f, raw, es, cs, node, unaccounted[node])
    {
      KnownIff(raw, show, node);
      JudgedIs(f, raw, es, cs, node);
    }
  }

  /** The privilege to grant: of those the answers name the first in order, if they name any. */
  ghost predicate ToGrant(cs: seq<Contribution>, privilege: string) {
    if exists c :: c in cs && c.privilege != "" then
      (exists c :: c in cs && c.privilege == privilege != "")
      && forall c :: c in cs && c.privilege != "" ==> Le(privilege, c.privilege)
    else privilege == "unknown_privilege"
  }

  lemma DeniedPrivilegeIs(cs: seq<Contribution>)
    ensures ToGrant(cs, DeniedPrivilege(cs))
  {
    var named := set c | c in cs && c.privilege != "" :: c.privilege;
    SortedSetEmptyIff(named);
    SortedSetSorts(named);
    if c :| c in cs && c.privilege != "" {
      assert c.privilege in named;
      var first := SortedSet(named)[0];
      assert first in SortedSet(named) && first in named;
      forall d | d in cs && d.privilege != "" ensures Le(first, d.privilege) {
        assert d.privilege in SortedSet(named);
        var i :| 0 <= i < |SortedSet(named)| && SortedSet(named)[i] == d.privilege;
        LeTotal(first, first);
      }
    }
  }

  /** A fact refused because every node was denied says which privilege to grant. */
  lemma DenialNamesPrivilege(f: Fact, raw: Raw, supplied: map<Fact, Observation>, sources: Sources, show: Show,
                             es: Entries)
    requires (PerNode(f) || Things(f).Some?) && Accountable(f, raw, es)
    requires ProjectFact(f, raw, supplied, sources, show).state == PermissionDenied
    ensures ToGrant(Offered(sources, f), ProjectFact(f, raw, supplied, sources, show).privilege)
  {
    ReadIsCoverage(f, raw, supplied, sources, show, es);
    DeniedCoverage(f, raw[Required(f)], raw, KnownNodes(raw, show).value, Offered(sources, f));
    DeniedPrivilegeIs(Offered(sources, f));
  }

  lemma DeniedCoverage(f: Fact, o: Observation, raw: Raw, nodes: seq<string>, cs: seq<Contribution>)
    requires o.state == Observed && Coverage(f, o, raw, nodes, cs).state == PermissionDenied
    ensures Coverage(f, o, raw, nodes, cs).privilege == DeniedPrivilege(cs)
  {
  }

  /** In particular a node the value leaves out refuses the fact, however well it was answered for. */
  lemma LeftOutIsRefused(f: Fact, raw: Raw, supplied: map<Fact, Observation>, sources: Sources, show: Show, es: Entries,
                         node: string)
    requires (PerNode(f) || Things(f).Some?) && Accountable(f, raw, es)
    requires KnownNode(raw, show, node) && AnsweredFor(Offered(sources, f), node) && !Found(f, raw, es, node)
    ensures var o := ProjectFact(f, raw, supplied, sources, show);
            && o.state == NotRequested && o.reason.NotAccounted?
            && node in o.reason.nodes && o.reason.nodes[node] == AnsweredWithoutCovering
  {
    LeftOutIsNotUsable(f, raw, supplied, sources, show, es, node);
    RefusalNames(f, raw, supplied, sources, show, es);
    var m := ProjectFact(f, raw, supplied, sources, show).reason.nodes;
    HeldIsNotAnswered(f, raw, es, Offered(sources, f), node, m[node]);
  }

  lemma LeftOutIsNotUsable(f: Fact, raw: Raw, supplied: map<Fact, Observation>, sources: Sources, show: Show,
                           es: Entries, node: string)
    requires (PerNode(f) || Things(f).Some?) && Accountable(f, raw, es)
    requires KnownNode(raw, show, node) && !Found(f, raw, es, node)
    ensures ProjectFact(f, raw, supplied, sources, show).state != Observed
  {
    ReadIsCoverage(f, raw, supplied, sources, show, es);
    KnownIff(raw, show, node);
    var nodes, cs := KnownNodes(raw, show).value, Offered(sources, f);
    JudgedIs(f, raw, es, cs, node);
    NoneUnaccountedIff(CoveredBy(f, es, raw), nodes, cs);
  }

  // ------------------------------------------------------------------ identifiers in a reason

  ghost predicate Harmless(c: char) {
    ('a' <= c <= 'z') || ('A' <= c <= 'Z') || ('0' <= c <= '9') || c in "._@-"
  }

  /** `r` is `t` with a question mark for every other character. */
  ghost predicate Cleaned(t: string, r: string) {
    |r| == |t| && forall i :: 0 <= i < |t| ==> r[i] == if Harmless(t[i]) then t[i] else '?'
  }

  lemma {:induction false} ScrubbedIsCleaned(t: string)
    ensures Cleaned(t, Scrubbed(t))
  {
    if t != "" { ScrubbedIsCleaned(t[1..]); }
  }

  /** What a target wrote reaches a reason cleaned, cut after 64 characters, and never empty. */
  lemma SafeIdentifierIs(t: string)
    ensures var r := SafeIdentifier(t);
            if t == "" then r == "<empty>"
            else if |t| <= 64 then Cleaned(t, r)
            else |r| == 65 && Cleaned(t[..64], r[..64]) && r[64] == '~'
  {
    ScrubbedIsCleaned(t);
  }

  /** A vnet whose subnets nobody listed goes by this name. */
  ghost predicate UnlistedVnet(vnets: set<string>, es: Entries, name: string) {
    exists vnet :: vnet in vnets && Unlisted(es, vnet) && name == "subnets@" + SafeIdentifier(vnet)
  }

  ghost predicate Unlisted(es: Entries, vnet: string) {
    Lookup(es, "subnets@" + vnet) == None
  }

  lemma WalkedIff(es: Entries, vnet: string)
    ensures Walked(es)(vnet) <==> !Unlisted(es, vnet)
    ensures SafeSubnets(vnet) == "subnets@" + SafeIdentifier(vnet)
  {
  }

  lemma UnlistedVnetIff(xs: seq<string>, vnets: set<string>, es: Entries, name: string)
    requires forall x :: x in xs <==> x in vnets
    ensures name in Absent(xs, Walked(es), SafeSubnets) <==> UnlistedVnet(vnets, es, name)
  {
    AbsentNames(xs, Walked(es), SafeSubnets, name);
    if x :| x in xs && !Walked(es)(x) && SafeSubnets(x) == name { WalkedIff(es, x); }
    if vnet :| vnet in vnets && Unlisted(es, vnet) && name == "subnets@" + SafeIdentifier(vnet) { WalkedIff(es, vnet); }
  }

  /** A refused pending state names exactly the families and the subnets of vnets nobody listed. */
  lemma PendingNames(o: Observation, raw: Raw, name: string)
    ensures name in PendingMissing(o, raw) <==>
            var es := EntriesOf(o.value);
            var vnets := UsableValue(raw, Required(ExistingVnets));
            || (name in {"zones", "vnets", "controllers", "fabrics"} && !Lookup(es, name).Some?)
            || (if vnets.Some? && vnets.value.Dict? then UnlistedVnet(Keys(vnets.value.entries), es, name)
                else name == "subnets(no_vnet_index)")
  {
    var es := EntriesOf(o.value);
    var vnets := UsableValue(raw, Required(ExistingVnets));
    AbsentNames(Families(), Enumerated(es), AsItIs, name);
    FamiliesAre(name);
    if vnets.Some? && vnets.value.Dict? {
      var keys := Keys(vnets.value.entries);
      UnlistedVnetIff(SortedSet(keys), keys, es, name);
    }
  }

  lemma FamiliesAre(name: string)
    ensures name in Families() <==> name in {"zones", "vnets", "controllers", "fabrics"}
  {
  }

  lemma {:induction false} AbsentNames(xs: seq<string>, has: string -> bool, shown: string -> string, name: string)
    ensures name in Absent(xs, has, shown) <==> exists x :: x in xs && !has(x) && shown(x) == name
    decreases |xs|
  {
    if xs != [] {
      var n := |xs| - 1;
      AbsentNames(xs[..n], has, shown, name);
      assert xs == xs[..n] + [xs[n]];
    }
  }

  // ------------------------------------------------------------------ where a projected fact comes from

  /** A usable fact that the run itself answers is the run's observation, unchanged. */
  lemma UsableIsTheRuns(f: Fact, raw: Raw, supplied: map<Fact, Observation>, sources: Sources, show: Show)
    requires !FromControlPlane(f) && f != ExactPveVersion
    requires ProjectFact(f, raw, supplied, sources, show).state == Observed
    ensures Required(f) in raw && ProjectFact(f, raw, supplied, sources, show) == raw[Required(f)]
  {
    SourcesAre(f);
    if !Sourceless(f) {
      GatedProjection(f, raw, supplied, sources, show);
      GatedIsTheRuns(f, raw, sources, show);
    }
  }

  lemma GatedIsTheRuns(f: Fact, raw: Raw, sources: Sources, show: Show)
    requires GatedFact(f, raw, sources, show).state == Observed
    ensures Required(f) in raw && GatedFact(f, raw, sources, show) == raw[Required(f)]
  {
    if !GatesOpen(f, raw) {
      ShutGate(f, raw, sources, show);
    } else if Required(f) in raw {
      OpenGate(f, raw, sources, show);
      ReadIsKept(f, raw[Required(f)], raw, sources, show);
    }
  }

  lemma ReadIsKept(f: Fact, o: Observation, raw: Raw, sources: Sources, show: Show)
    requires ReadFact(f, o, raw, sources, show).state == Observed
    ensures ReadFact(f, o, raw, sources, show) == o
  {
  }

  /** A target cannot assert what the control plane supplies. */
  lemma SuppliedIsTheControlPlanes(f: Fact, raw: Raw, supplied: map<Fact, Observation>, sources: Sources, show: Show)
    requires FromControlPlane(f)
    ensures var o := ProjectFact(f, raw, supplied, sources, show);
            if f in supplied then o == supplied[f] else o.state == NotRequested && o.reason == NotSupplied
  {
    SourcesAre(f);
  }

  /** Without the authority a fact is denied, whatever rows arrived, and the privilege to grant is named. */
  lemma UnauthorisedIsDenied(f: Fact, raw: Raw, supplied: map<Fact, Observation>, sources: Sources, show: Show)
    requires !Authorised(f, raw)
    ensures var o := ProjectFact(f, raw, supplied, sources, show);
            && o.state == PermissionDenied && o.value == None
            && o.privilege == (if AboutGuests(f) then "VM.Audit" else "SDN.Audit")
  {
    SourcesAre(f);
    GatesAre(f);
    AuthorisedIff(f, raw);
    GatedProjection(f, raw, supplied, sources, show);
    ShutGate(f, raw, sources, show);
  }

  lemma ShutGate(f: Fact, raw: Raw, sources: Sources, show: Show)
    requires !GatesOpen(f, raw)
    ensures var o := GatedFact(f, raw, sources, show);
            && o.state == PermissionDenied && o.value == None
            && o.privilege == (if VmGated(f) then "VM.Audit" else "SDN.Audit")
  {
  }

  /** A field the run could not use keeps its own state, reason and privilege; one it did not read says so. */
  lemma UnusableIsKept(f: Fact, raw: Raw, supplied: map<Fact, Observation>, sources: Sources, show: Show)
    requires !FromControlPlane(f) && !Sourceless(f) && f != ExactPveVersion && Authorised(f, raw)
    requires Required(f) in raw ==> raw[Required(f)].state != Observed
    ensures var o := ProjectFact(f, raw, supplied, sources, show);
            if Required(f) in raw then o == raw[Required(f)]
            else o.state == NotRequested && o.reason == NotObservedByRun
  {
    SourcesAre(f);
    AuthorisedIff(f, raw);
    GatedProjection(f, raw, supplied, sources, show);
  }

  /** The text of one version component. */
  ghost function PartOf(raw: Raw, c: Field, show: Show): string
    requires c in raw
  {
    if raw[c].value.Some? then show(raw[c].value.value) else ""
  }

  /** A usable version is the three components, joined by dots. */
  lemma VersionIsExact(raw: Raw, supplied: map<Fact, Observation>, sources: Sources, show: Show)
    requires ProjectFact(ExactPveVersion, raw, supplied, sources, show).state == Observed
    ensures PveVersionMajor in raw && PveVersionMinor in raw && PveVersionPatch in raw
    ensures ProjectFact(ExactPveVersion, raw, supplied, sources, show).value
            == Some(Text(PartOf(raw, PveVersionMajor, show) + "." + PartOf(raw, PveVersionMinor, show) + "."
                         + PartOf(raw, PveVersionPatch, show)))
  {
    UsableIffWarranted(ExactPveVersion, raw, supplied, sources, show);
    var major, minor, patch :=
      PartOf(raw, PveVersionMajor, show), PartOf(raw, PveVersionMinor, show), PartOf(raw, PveVersionPatch, show);
    VersionProjection(raw, supplied, sources, show);
    var cs := VersionComponents();
    VersionJoins(raw, cs, show, []);
    assert [] + seq(|cs|, i requires 0 <= i < |cs| => PartOf(raw, cs[i], show)) == [major, minor, patch];
    DottedThree(major, minor, patch);
  }

  lemma DottedThree(a: string, b: string, c: string)
    ensures Dotted([a, b, c]) == a + "." + b + "." + c
  {
    assert [a, b, c][1..] == [b, c] && [b, c][1..] == [c];
    assert Dotted([b, c]) == b + "." + c;
    assert a + "." + (b + "." + c) == a + "." + b + "." + c;
  }

  lemma {:induction false} VersionJoins(raw: Raw, cs: seq<Field>, show: Show, parts: seq<string>)
    requires forall i :: 0 <= i < |cs| ==> cs[i] in raw && Usable(raw[cs[i]])
    ensures VersionFrom(raw, cs, show, parts).value
            == Some(Text(Dotted(parts + seq(|cs|, i requires 0 <= i < |cs| => PartOf(raw, cs[i], show)))))
    decreases |cs|
  {
    var texts := seq(|cs|, i requires 0 <= i < |cs| => PartOf(raw, cs[i], show));
    if cs == [] {
      assert parts + texts == parts;
    } else {
      var rest := cs[1..];
      VersionJoins(raw, rest, show, parts + [texts[0]]);
      assert parts + [texts[0]] + seq(|rest|, i requires 0 <= i < |rest| => PartOf(raw, rest[i], show))
             == parts + texts;
    }
  }

  /** Nothing is projected without its reason: no value without an observation, no denial without a privilege. */
  lemma ProjectedIsExplained(f: Fact, raw: Raw, supplied: map<Fact, Observation>, sources: Sources, show: Show)
    requires AllConstructible(raw) && AllConstructible(supplied)
    ensures var o := ProjectFact(f, raw, supplied, sources, show);
            && (o.state == Observed ==> o.value.Some? && o.value != Some(Null))
            && (o.state in {NotRequested, NotImplemented, PermissionDenied, ProbeRefused, ProbeFailed,
                            SourceUnavailable}
                ==> o.value == None && o.reason != Unnamed)
            && (o.state == PermissionDenied ==> o.privilege != "")
  {
    ProjectionIsConstructible(f, raw, supplied, sources, show);
  }
}

/**
 From raw observation fields to the required facts: apps/api/secp_api/discovery_fact_projection.py over the
 table of apps/api/secp_api/discovery_required_facts.py.  `show` is Python's `str` on a value.
 */
module DiscoveryProjection {
  import opened Wrappers
  import opened Ordering
  import opened DiscoveryValues
  import opened DiscoveryCommitment

  // ------------------------------------------------------------------ the requirement table

  datatype Fact =
    | ExactPveVersion | ClusterIdentity | NodeNames | ExistingVmIds | ExistingLxcIds | StorageIds
    | AllowedStorageContent
    | Bridges | BridgeVlanAwareness | ExistingVlanUse | ExistingSdnZones | ExistingVnets | ExistingSubnets
    | PendingSdnState | ManagementCidrs | ManagementBridges | TargetIdentity | ObservationTimestamp | WorkerIdentity
    | EvidenceSignature
    | NodeOnlineState | NodeCapacity | AvailableCapacity | Templates | IsoAndContainerTemplateAvailability
    | FirewallCapability | WorkerReleaseFingerprint | TargetTlsIdentity
    | KernelVersion | NodeVersions | StorageTypes | ReleaseBuildIdentifier | RawHostPackageVersion
    | ApiFeatureAvailability | CredentialIdentityReference

  datatype Requirement = BeforeCompilation | BeforeApply | OperatorContext | Optional

  function CompilationFacts(): seq<Fact> {
    [ExactPveVersion, ClusterIdentity, NodeNames, ExistingVmIds, ExistingLxcIds, StorageIds, AllowedStorageContent,
     Bridges, BridgeVlanAwareness, ExistingVlanUse, ExistingSdnZones, ExistingVnets, ExistingSubnets,
     PendingSdnState, ManagementCidrs, ManagementBridges, TargetIdentity, ObservationTimestamp, WorkerIdentity,
     EvidenceSignature]
  }

  function ApplyFacts(): seq<Fact> {
    [NodeOnlineState, NodeCapacity, AvailableCapacity, Templates, IsoAndContainerTemplateAvailability,
     FirewallCapability, WorkerReleaseFingerprint, TargetTlsIdentity]
  }

  function OtherFacts(): seq<Fact> {
    [KernelVersion, NodeVersions, StorageTypes, ReleaseBuildIdentifier, RawHostPackageVersion,
     ApiFeatureAvailability, CredentialIdentityReference]
  }

  /** `REQUIRED_FACTS`, in the order of the table. */
  function RequiredFacts(): seq<Fact> {
    CompilationFacts() + ApplyFacts() + OtherFacts()
  }

  lemma TableIsTotal(f: Fact)
    ensures f in RequiredFacts()
  {
    match f { case _ => }
  }

  /** A raw field code: a fact's own name, one of the two authorities, or a version component. */
  datatype Field = Required(fact: Fact) | SdnReadAuthority | GuestReadAuthority | PveVersionMajor | PveVersionMinor
      | PveVersionPatch

  predicate VmGated(f: Fact) {
    f.ExistingVmIds? || f.ExistingLxcIds? || f.Templates?
  }

  predicate SdnGated(f: Fact) {
    f.ExistingSdnZones? || f.ExistingVnets? || f.ExistingSubnets? || f.ExistingVlanUse? || f.PendingSdnState?
  }

  predicate NodeKeyed(f: Fact) {
    f.NodeOnlineState? || f.NodeCapacity? || f.KernelVersion? || f.NodeVersions? || f.RawHostPackageVersion?
    || f.ReleaseBuildIdentifier? || f.Bridges? || f.ManagementBridges? || f.ManagementCidrs? || f.StorageIds?
    || f.ExistingVmIds? || f.ExistingLxcIds? || f.Templates?
  }

  predicate NodePrefixed(f: Fact) {
    f.BridgeVlanAwareness? || f.StorageTypes? || f.AllowedStorageContent? || f.AvailableCapacity?
    || f.IsoAndContainerTemplateAvailability?
  }

  predicate NodeScoped(f: Fact) {
    NodeKeyed(f) || NodePrefixed(f)
  }

  /** The fact that says how many things of a prefixed fact a node has. */
  function Container(f: Fact): Fact {
    if f == BridgeVlanAwareness then Bridges else StorageIds
  }

  predicate ControlPlaneSupplied(f: Fact) {
    f.TargetIdentity? || f.ObservationTimestamp? || f.WorkerIdentity? || f.EvidenceSignature?
    || f.WorkerReleaseFingerprint? || f.TargetTlsIdentity?
  }

  predicate WithoutSource(f: Fact) {
    f.ApiFeatureAvailability? || f.CredentialIdentityReference?
  }

  function VersionComponents(): seq<Field> {
    [PveVersionMajor, PveVersionMinor, PveVersionPatch]
  }

  type Raw = map<Field, Observation>
  type Sources = map<Field, seq<Contribution>>
  type Show = Value -> string

  // ------------------------------------------------------------------ small readings

  function UsableValue(raw: Raw, field: Field): Option<Value> {
    if field in raw && Usable(raw[field]) then raw[field].value else None
  }

  predicate HoldsTrue(v: Option<Value>, key: string) {
    v.Some? && v.value.Dict? && Lookup(v.value.entries, key) == Some(Bool(true))
  }

  /** `_sdn_authority_established` */
  predicate SdnAuthority(raw: Raw) {
    HoldsTrue(UsableValue(raw, SdnReadAuthority), "cluster_sdn_readable")
  }

  /** `_vm_audit_established` */
  predicate VmAudit(raw: Raw) {
    HoldsTrue(UsableValue(raw, GuestReadAuthority), "vm_audit_granted")
  }

  function Shown(items: Items, show: Show): seq<string> {
    if items.End? then [] else [show(items.first)] + Shown(items.rest, show)
  }

  /** `_known_nodes` */
  function KnownNodes(raw: Raw, show: Show): Option<seq<string>> {
    var v := UsableValue(raw, Required(NodeNames));
    if v.Some? && (v.value.List? || v.value.Tuple?) then Some(Shown(v.value.items, show)) else None
  }

  predicate StartsWith(node: string, key: string) {
    node + "/" <= key
  }

  /** `_value_covers` */
  predicate Covers(f: Fact, es: Entries, node: string, raw: Raw) {
    if NodeKeyed(f) then node in Keys(es)
    else
      || (exists k :: k in Keys(es) && StartsWith(node, k))
      || (var c := UsableValue(raw, Required(Container(f)));
          c.Some? && c.value.Dict? && Lookup(c.value.entries, node) == Some(Tuple(End)))
  }

  // ------------------------------------------------------------------ identifiers in reasons

  predicate ReasonChar(c: char) {
    'A' <= c <= 'Z' || 'a' <= c <= 'z' || '0' <= c <= '9' || c == '.' || c == '_' || c == '@' || c == '-'
  }

  function Scrubbed(t: string): (r: string)
    ensures |r| == |t| && forall i :: 0 <= i < |r| ==> ReasonChar(r[i]) || r[i] == '?'
  {
    if t == "" then "" else [if ReasonChar(t[0]) then t[0] else '?'] + Scrubbed(t[1..])
  }

  /** `safe_identifier`: whatever the target wrote, the reason carries at most 65 harmless characters. */
  function SafeIdentifier(t: string): (r: string)
    ensures 1 <= |r| <= 65
    ensures forall i :: 0 <= i < |r| ==> ReasonChar(r[i]) || r[i] in ['?', '~', '<', '>']
  {
    var text := Scrubbed(t);
    if |text| > 64 then text[..64] + "~" else if text == "" then "<empty>" else text
  }

  // ------------------------------------------------------------------ pending SDN state

  function SubnetsOf(vnet: string): string {
    "subnets@" + vnet
  }

  /** The names of those that are not there, in order. */
  function Absent(xs: seq<string>, has: string -> bool, name: string -> string): seq<string>
    decreases |xs|
  {
    if xs == [] then []
    else
      var n := |xs| - 1;
      Absent(xs[..n], has, name) + if has(xs[n]) then [] else [name(xs[n])]
  }

  function Enumerated(es: Entries): string -> bool {
    family => family in Keys(es)
  }

  function Walked(es: Entries): string -> bool {
    vnet => SubnetsOf(vnet) in Keys(es)
  }

  function AsItIs(family: string): string {
    family
  }

  function SafeSubnets(vnet: string): string {
    SubnetsOf(SafeIdentifier(vnet))
  }

  /** The families apart from subnets, which have no index of their own; the last one is `fabrics`. */
  function Families(): seq<string> {
    ["zones", "vnets", "controllers", "fabrics"]
  }

  function EntriesOf(v: Option<Value>): Entries {
    if v.Some? && v.value.Dict? then v.value.entries else Empty
  }

  function PendingMissing(o: Observation, raw: Raw): seq<string> {
    var es := EntriesOf(o.value);
    var vnets := UsableValue(raw, Required(ExistingVnets));
    Absent(Families(), Enumerated(es), AsItIs)
      + if vnets.None? || !vnets.value.Dict? then ["subnets(no_vnet_index)"]
        else Absent(SortedSet(Keys(vnets.value.entries)), Walked(es), SafeSubnets)
  }

  /** The walk over a list of names. */
  method FindAbsent(xs: seq<string>, has: string -> bool, name: string -> string) returns (missing: seq<string>)
    ensures missing == Absent(xs, has, name)
  {
    missing := [];
    for i := 0 to |xs|
      invariant missing == Absent(xs[..i], has, name)
    {
      assert xs[..i + 1][..i] == xs[..i];
      if !has(xs[i]) {
        missing := missing + [name(xs[i])];
      }
    }
    assert xs[..|xs|] == xs;
  }

  /** `_pending_sdn_completeness` */
  method PendingSdnCompleteness(o: Observation, raw: Raw) returns (missing: seq<string>)
    ensures missing == PendingMissing(o, raw)
  {
    var es := EntriesOf(o.value);
    missing := FindAbsent(Families(), Enumerated(es), AsItIs);
    var vnets := UsableValue(raw, Required(ExistingVnets));
    if vnets.None? || !vnets.value.Dict? {
      missing := missing + ["subnets(no_vnet_index)"];
    } else {
      var more := FindAbsent(SortedSet(Keys(vnets.value.entries)), Walked(es), SafeSubnets);
      missing := missing + more;
    }
  }

  /** Every family was enumerated, and the subnets of every vnet there is. */
  ghost predicate PendingEnumerated(o: Observation, raw: Raw) {
    var es := EntriesOf(o.value);
    var vnets := UsableValue(raw, Required(ExistingVnets));
    && (forall family :: family in Families() ==> family in Keys(es))
    && vnets.Some? && vnets.value.Dict?
    && (forall vnet :: vnet in Keys(vnets.value.entries) ==> SubnetsOf(vnet) in Keys(es))
  }

  lemma {:induction false} AbsentIff(xs: seq<string>, has: string -> bool, name: string -> string)
    ensures Absent(xs, has, name) == [] <==> forall x :: x in xs ==> has(x)
    decreases |xs|
  {
    if xs != [] {
      var n := |xs| - 1;
      AbsentIff(xs[..n], has, name);
      assert xs == xs[..n] + [xs[n]];
    }
  }

  lemma PendingIff(o: Observation, raw: Raw)
    ensures PendingMissing(o, raw) == [] <==> PendingEnumerated(o, raw)
  {
    var es := EntriesOf(o.value);
    AbsentIff(Families(), Enumerated(es), AsItIs);
    assert (forall x :: x in Families() ==> Enumerated(es)(x))
           <==> (forall family :: family in Families() ==> family in Keys(es));
    var vnets := UsableValue(raw, Required(ExistingVnets));
    if vnets.Some? && vnets.value.Dict? {
      AbsentIff(SortedSet(Keys(vnets.value.entries)), Walked(es), SafeSubnets);
    }
  }

  // ------------------------------------------------------------------ node coverage

  type Coverer = string -> bool

  /** Which nodes the merged value of a fact says something about. */
  function CoveredBy(f: Fact, es: Entries, raw: Raw): Coverer {
    node => Covers(f, es, node, raw)
  }

  function Judged(node: string, covers: Coverer, cs: seq<Contribution>): NodeOutcome {
    var worst := Worst(OutcomesAbout(node, cs));
    if worst == NodeObserved && !covers(node) then AnsweredWithoutCovering else worst
  }

  function Unaccounted(covers: Coverer, nodes: seq<string>, cs: seq<Contribution>): map<string, NodeOutcome> {
    map n | n in nodes && Judged(n, covers, cs) != NodeObserved :: Judged(n, covers, cs)
  }

  /** `_denied_privilege` */
  function DeniedPrivilege(cs: seq<Contribution>): (r: string)
    ensures r != ""
  {
    var named := set c | c in cs && c.privilege != "" :: c.privilege;
    var listed := SortedSet(named);
    if listed != [] then assert listed[0] in named; listed[0] else "unknown_privilege"
  }

  function NotAsked(reason: Reason): Observation {
    Observation(NotRequested, None, reason, "")
  }

  function Refusal(cs: seq<Contribution>, unaccounted: map<string, NodeOutcome>): Observation {
    if forall n :: n in unaccounted ==> unaccounted[n] == NodeDenied
    then Observation(PermissionDenied, None, NotAccounted(unaccounted), DeniedPrivilege(cs))
    else NotAsked(NotAccounted(unaccounted))
  }

  function Coverage(f: Fact, o: Observation, raw: Raw, nodes: seq<string>, cs: seq<Contribution>): Observation {
    if o.value.None? || !o.value.value.Dict? then Observation(ObservedMalformed, None, NotNodeKeyed, "")
    else
      var unaccounted := Unaccounted(CoveredBy(f, o.value.value.entries, raw), nodes, cs);
      if unaccounted == map[] then o else Refusal(cs, unaccounted)
  }

  /** The outcome of a node once the nodes in `done` were checked against the value. */
  function Mark(covers: Coverer, outcome: NodeOutcome, n: string, done: seq<string>): NodeOutcome {
    if outcome == NodeObserved && n in done && !covers(n) then AnsweredWithoutCovering else outcome
  }

  function Marked(covers: Coverer, accounting: map<string, NodeOutcome>, done: seq<string>): map<string, NodeOutcome> {
    map n | n in accounting && Mark(covers, accounting[n], n, done) != NodeObserved ::
        Mark(covers, accounting[n], n, done)
  }

  lemma MarkStep(covers: Coverer, accounting: map<string, NodeOutcome>, done: seq<string>, node: string)
    requires node in accounting
    ensures Marked(covers, accounting, done + [node]) ==
            if accounting[node] == NodeObserved && !covers(node)
            then Marked(covers, accounting, done)[node := AnsweredWithoutCovering]
            else Marked(covers, accounting, done)
  {
    forall n | n in accounting && n != node
      ensures Mark(covers, accounting[n], n, done + [node]) == Mark(covers, accounting[n], n, done)
    {
    }
  }

  lemma MarkedNone(covers: Coverer, accounting: map<string, NodeOutcome>)
    ensures Marked(covers, accounting, []) == map n | n in accounting && accounting[n] != NodeObserved :: accounting[n]
  {
    forall n | n in accounting ensures Mark(covers, accounting[n], n, []) == accounting[n] {
    }
  }

  lemma MarkedAll(covers: Coverer, nodes: seq<string>, cs: seq<Contribution>)
    ensures Marked(covers, Accounting(nodes, cs), nodes) == Unaccounted(covers, nodes, cs)
  {
    forall n | n in nodes ensures Mark(covers, Accounting(nodes, cs)[n], n, nodes) == Judged(n, covers, cs) {
    }
  }

  /** The nodes without a covering success, in two passes: what was contributed, then what the value holds. */
  method FindUnaccounted(covers: Coverer, nodes: seq<string>, cs: seq<Contribution>)
      returns (unaccounted: map<string, NodeOutcome>)
    ensures unaccounted == Unaccounted(covers, nodes, cs)
  {
    var accounting := NodeAccounting(nodes, cs);
    unaccounted := map n | n in accounting && accounting[n] != NodeObserved :: accounting[n];
    MarkedNone(covers, accounting);
    for i := 0 to |nodes|
      invariant unaccounted == Marked(covers, accounting, nodes[..i])
    {
      MarkStep(covers, accounting, nodes[..i], nodes[i]);
      assert nodes[..i + 1] == nodes[..i] + [nodes[i]];
      if accounting[nodes[i]] == NodeObserved && !covers(nodes[i]) {
        unaccounted := unaccounted[nodes[i] := AnsweredWithoutCovering];
      }
    }
    assert nodes[..|nodes|] == nodes;
    MarkedAll(covers, nodes, cs);
  }

  /** `_node_coverage` */
  method NodeCoverage(f: Fact, o: Observation, raw: Raw, nodes: seq<string>, cs: seq<Contribution>)
      returns (r: Observation)
    ensures r == Coverage(f, o, raw, nodes, cs)
  {
    if o.value.None? || !o.value.value.Dict? {
      return Observation(ObservedMalformed, None, NotNodeKeyed, "");
    }
    var unaccounted := FindUnaccounted(CoveredBy(f, o.value.value.entries, raw), nodes, cs);
    if unaccounted != map[] {
      return Refusal(cs, unaccounted);
    }
    return o;
  }

  // ------------------------------------------------------------------ the projection

  function VersionFrom(raw: Raw, components: seq<Field>, show: Show, parts: seq<string>): Observation
    decreases |components|
  {
    if components == [] then Observation(Observed, Some(Text(Dotted(parts))), Unnamed, "")
    else if components[0] !in raw then NotAsked(MissingComponent)
    else
      var o := raw[components[0]];
      if !Usable(o) then
        Observation(o.state, None, if o.reason == Unnamed then ComponentUnobserved else o.reason, o.privilege)
      else VersionFrom(raw, components[1..], show, parts + [if o.value.Some? then show(o.value.value) else ""])
  }

  function Dotted(parts: seq<string>): string {
    if parts == [] then "" else if |parts| == 1 then parts[0] else parts[0] + "." + Dotted(parts[1..])
  }

  function ContributionsTo(sources: Sources, f: Fact): seq<Contribution> {
    if Required(f) in sources then sources[Required(f)] else []
  }

  /** A fact read straight from its field, once the field is usable. */
  function ReadFact(f: Fact, o: Observation, raw: Raw, sources: Sources, show: Show): Observation {
    if f == PendingSdnState then ReadPending(o, raw)
    else if NodeScoped(f) then ReadNodes(f, o, raw, KnownNodes(raw, show), ContributionsTo(sources, f))
    else o
  }

  function ReadPending(o: Observation, raw: Raw): Observation {
    var missing := PendingMissing(o, raw);
    if missing == [] then o else NotAsked(PendingIncomplete(missing))
  }

  function ReadNodes(f: Fact, o: Observation, raw: Raw, nodes: Option<seq<string>>,
                     cs: seq<Contribution>): Observation {
    if nodes.None? then NotAsked(NodeNamesUnknown) else Coverage(f, o, raw, nodes.value, cs)
  }

  /** A fact behind the two authority gates. */
  function GatedFact(f: Fact, raw: Raw, sources: Sources, show: Show): Observation {
    if VmGated(f) && !VmAudit(raw) then Observation(PermissionDenied, None, VmAuthorityMissing, "VM.Audit")
    else if SdnGated(f) && !SdnAuthority(raw) then Observation(PermissionDenied, None, SdnAuthorityMissing, "SDN.Audit")
    else if Required(f) !in raw then NotAsked(NotObservedByRun)
    else if !Usable(raw[Required(f)]) then raw[Required(f)]
    else ReadFact(f, raw[Required(f)], raw, sources, show)
  }

  /** What the projection says about one fact. */
  function ProjectFact(f: Fact, raw: Raw, supplied: map<Fact, Observation>, sources: Sources, show: Show): Observation {
    if ControlPlaneSupplied(f) then (if f in supplied then supplied[f] else NotAsked(NotSupplied))
    else if WithoutSource(f) then Observation(NotImplemented, None, NoSourceYet, "")
    else if f == ExactPveVersion then VersionFrom(raw, VersionComponents(), show, [])
    else GatedFact(f, raw, sources, show)
  }

  function Projected(raw: Raw, supplied: map<Fact, Observation>, sources: Sources,
                     show: Show): (r: map<Fact, Observation>)
    ensures forall f :: f in r
  {
    assert forall f :: f in RequiredFacts() by { forall f ensures f in RequiredFacts() { TableIsTotal(f); } }
    map f | f in RequiredFacts() :: ProjectFact(f, raw, supplied, sources, show)
  }

  /** `_exact_pve_version` */
  method ExactVersion(raw: Raw, show: Show) returns (r: Observation)
    ensures r == VersionFrom(raw, VersionComponents(), show, [])
  {
    var components, parts := VersionComponents(), [];
    for i := 0 to |components|
      invariant VersionFrom(raw, VersionComponents(), show, []) == VersionFrom(raw, components[i..], show, parts)
    {
      if components[i] !in raw { return NotAsked(MissingComponent); }
      var o := raw[components[i]];
      if !Usable(o) {
        return Observation(o.state, None, if o.reason == Unnamed then ComponentUnobserved else o.reason, o.privilege);
      }
      parts := parts + [if o.value.Some? then show(o.value.value) else ""];
      assert components[i..][1..] == components[i + 1..];
    }
    return Observation(Observed, Some(Text(Dotted(parts))), Unnamed, "");
  }

  /** The last steps of one turn of the loop of `project_required_facts`. */
  method ReadOne(f: Fact, o: Observation, raw: Raw, sources: Sources, show: Show) returns (r: Observation)
    ensures r == if Usable(o) then ReadFact(f, o, raw, sources, show) else o
  {
    r := o;
    if Usable(o) && f == PendingSdnState {
      r := CheckPending(o, raw);
    } else if Usable(o) && NodeScoped(f) {
      r := CheckNodes(f, o, raw, KnownNodes(raw, show), ContributionsTo(sources, f));
    }
  }

  method CheckPending(o: Observation, raw: Raw) returns (r: Observation)
    ensures r == ReadPending(o, raw)
  {
    var missing := PendingSdnCompleteness(o, raw);
    return if missing == [] then o else NotAsked(PendingIncomplete(missing));
  }

  method CheckNodes(f: Fact, o: Observation, raw: Raw, nodes: Option<seq<string>>, cs: seq<Contribution>)
      returns (r: Observation)
    ensures r == ReadNodes(f, o, raw, nodes, cs)
  {
    if nodes.None? { return NotAsked(NodeNamesUnknown); }
    r := NodeCoverage(f, o, raw, nodes.value, cs);
  }

  lemma OpenGate(f: Fact, raw: Raw, sources: Sources, show: Show)
    requires (VmGated(f) ==> VmAudit(raw)) && (SdnGated(f) ==> SdnAuthority(raw)) && Required(f) in raw
    ensures var o := raw[Required(f)];
            GatedFact(f, raw, sources, show) == if Usable(o) then ReadFact(f, o, raw, sources, show) else o
  {
  }

  method GateOne(f: Fact, raw: Raw, sources: Sources, show: Show) returns (r: Observation)
    ensures r == GatedFact(f, raw, sources, show)
  {
    if VmGated(f) && !VmAudit(raw) { return Observation(PermissionDenied, None, VmAuthorityMissing, "VM.Audit"); }
    if SdnGated(f) && !SdnAuthority(raw) {
      return Observation(PermissionDenied, None, SdnAuthorityMissing, "SDN.Audit");
    }
    if Required(f) !in raw { return NotAsked(NotObservedByRun); }
    ghost var spec := GatedFact(f, raw, sources, show);
    OpenGate(f, raw, sources, show);
    r := ReadOne(f, raw[Required(f)], raw, sources, show);
    assert r == spec;
  }

  lemma GatedProjection(f: Fact, raw: Raw, supplied: map<Fact, Observation>, sources: Sources, show: Show)
    requires !ControlPlaneSupplied(f) && !WithoutSource(f) && f != ExactPveVersion
    ensures ProjectFact(f, raw, supplied, sources, show) == GatedFact(f, raw, sources, show)
  {
  }

  lemma VersionProjection(raw: Raw, supplied: map<Fact, Observation>, sources: Sources, show: Show)
    ensures ProjectFact(ExactPveVersion, raw, supplied, sources, show)
            == VersionFrom(raw, VersionComponents(), show, [])
  {
  }

  /** One turn of the loop of `project_required_facts`. */
  method ProjectOne(f: Fact, raw: Raw, supplied: map<Fact, Observation>, sources: Sources, show: Show)
      returns (r: Observation)
    ensures r == ProjectFact(f, raw, supplied, sources, show)
  {
    if ControlPlaneSupplied(f) {
      return if f in supplied then supplied[f] else NotAsked(NotSupplied);
    }
    if WithoutSource(f) { return Observation(NotImplemented, None, NoSourceYet, ""); }
    ghost var spec := ProjectFact(f, raw, supplied, sources, show);
    if f == ExactPveVersion {
      VersionProjection(raw, supplied, sources, show);
      r := ExactVersion(raw, show);
      assert r == spec;
    } else {
      GatedProjection(f, raw, supplied, sources, show);
      r := GateOne(f, raw, sources, show);
      assert r == spec;
    }
  }

  /** The loop of `project_required_facts`. */
  method ProjectAll(facts: seq<Fact>, raw: Raw, supplied: map<Fact, Observation>, sources: Sources, show: Show)
      returns (out: map<Fact, Observation>)
    ensures out.Keys == set f | f in facts
    ensures forall f :: f in facts ==> out[f] == ProjectFact(f, raw, supplied, sources, show)
  {
    out := map[];
    for i := 0 to |facts|
      invariant out.Keys == set f | f in facts[..i]
      invariant forall f :: f in facts[..i] ==> out[f] == ProjectFact(f, raw, supplied, sources, show)
    {
      var o := ProjectOne(facts[i], raw, supplied, sources, show);
      assert facts[..i + 1] == facts[..i] + [facts[i]];
      out := out[facts[i] := o];
    }
    assert facts[..|facts|] == facts;
  }

  /** `project_required_facts` */
  method ProjectRequiredFacts(raw: Raw, supplied: map<Fact, Observation>, sources: Sources, show: Show)
      returns (out: map<Fact, Observation>)
    ensures out == Projected(raw, supplied, sources, show)
  {
    out := ProjectAll(RequiredFacts(), raw, supplied, sources, show);
  }

  // ------------------------------------------------------------------ when a fact is usable

  /** Something spoke for the node, nothing about it failed, and the value says something about it. */
  ghost predicate NodeCovered(n: string, covered: bool, cs: seq<Contribution>) {
    && (exists c :: c in cs && Speaks(c, n))
    && (forall c :: c in cs && Speaks(c, n) ==> c.state == Observed)
    && covered
  }

  /** Every known node is spoken for, only by successes, and by a value that says something about it. */
  ghost predicate EveryNodeCovered(f: Fact, raw: Raw, sources: Sources, show: Show) {
    var v := UsableValue(raw, Required(f));
    var nodes := KnownNodes(raw, show);
    var cs := ContributionsTo(sources, f);
    && v.Some? && v.value.Dict? && nodes.Some?
    && forall n :: n in nodes.value ==> NodeCovered(n, Covers(f, v.value.entries, n, raw), cs)
  }

  /** Completeness, where it is asked for: of the pending families, or of the nodes. */
  ghost predicate Complete(f: Fact, raw: Raw, sources: Sources, show: Show)
    requires Required(f) in raw
  {
    if f == PendingSdnState then PendingEnumerated(raw[Required(f)], raw)
    else if NodeScoped(f) then EveryNodeCovered(f, raw, sources, show)
    else true
  }

  /** The same for a fact behind the gates: authority, a usable field, and completeness where it is asked for. */
  ghost predicate ReadEstablished(f: Fact, raw: Raw, sources: Sources, show: Show) {
    && Required(f) in raw && Usable(raw[Required(f)])
    && (VmGated(f) ==> VmAudit(raw))
    && (SdnGated(f) ==> SdnAuthority(raw))
    && Complete(f, raw, sources, show)
  }

  /** The evidence a fact needs before anything may be decided from it. */
  ghost predicate Established(f: Fact, raw: Raw, supplied: map<Fact, Observation>, sources: Sources, show: Show) {
    if ControlPlaneSupplied(f) then f in supplied && Usable(supplied[f])
    else if f == ExactPveVersion then forall c :: c in VersionComponents() ==> c in raw && Usable(raw[c])
    else !WithoutSource(f) && ReadEstablished(f, raw, sources, show)
  }

  lemma NoneUnaccountedIff(covers: Coverer, nodes: seq<string>, cs: seq<Contribution>)
    ensures Unaccounted(covers, nodes, cs) == map[]
            <==> forall n :: n in nodes ==> Judged(n, covers, cs) == NodeObserved
  {
    var unaccounted := Unaccounted(covers, nodes, cs);
    if unaccounted == map[] {
      forall n | n in nodes ensures Judged(n, covers, cs) == NodeObserved {
        assert n !in unaccounted;
      }
    }
  }

  lemma {:induction false} VersionIff(raw: Raw, components: seq<Field>, show: Show, parts: seq<string>)
    ensures Usable(VersionFrom(raw, components, show, parts))
            <==> forall c :: c in components ==> c in raw && Usable(raw[c])
    decreases |components|
  {
    if components != [] && components[0] in raw && Usable(raw[components[0]]) {
      var o := raw[components[0]];
      VersionIff(raw, components[1..], show, parts + [if o.value.Some? then show(o.value.value) else ""]);
      assert forall c :: c in components <==> c == components[0] || c in components[1..];
    }
  }

  lemma JudgedIff(n: string, covers: Coverer, cs: seq<Contribution>)
    ensures Judged(n, covers, cs) == NodeObserved <==> NodeCovered(n, covers(n), cs)
  {
    ObservedIff(n, cs);
  }

  lemma CoverageUsableIff(f: Fact, o: Observation, raw: Raw, nodes: seq<string>, cs: seq<Contribution>)
    requires Usable(o) && o.value.Some? && o.value.value.Dict?
    ensures Usable(Coverage(f, o, raw, nodes, cs)) <==>
            forall n :: n in nodes ==> Judged(n, CoveredBy(f, o.value.value.entries, raw), cs) == NodeObserved
  {
    NoneUnaccountedIff(CoveredBy(f, o.value.value.entries, raw), nodes, cs);
  }

  lemma NodeCoverageIff(f: Fact, raw: Raw, sources: Sources, show: Show)
    requires Required(f) in raw && Usable(raw[Required(f)]) && KnownNodes(raw, show).Some?
    ensures Usable(Coverage(f, raw[Required(f)], raw, KnownNodes(raw, show).value, ContributionsTo(sources, f)))
       <==> EveryNodeCovered(f, raw, sources, show)
  {
    var o, nodes, cs := raw[Required(f)], KnownNodes(raw, show).value, ContributionsTo(sources, f);
    if o.value.Some? && o.value.value.Dict? {
      var es := o.value.value.entries;
      CoverageUsableIff(f, o, raw, nodes, cs);
      forall n ensures Judged(n, CoveredBy(f, es, raw), cs) == NodeObserved
          <==> NodeCovered(n, Covers(f, es, n, raw), cs) {
        JudgedIff(n, CoveredBy(f, es, raw), cs);
      }
    }
  }

  lemma ReadNodesIff(f: Fact, raw: Raw, sources: Sources, show: Show)
    requires Required(f) in raw && Usable(raw[Required(f)])
    ensures Usable(ReadNodes(f, raw[Required(f)], raw, KnownNodes(raw, show), ContributionsTo(sources, f)))
       <==> EveryNodeCovered(f, raw, sources, show)
  {
    if KnownNodes(raw, show).Some? {
      NodeCoverageIff(f, raw, sources, show);
    }
  }

  lemma ReadIff(f: Fact, raw: Raw, sources: Sources, show: Show)
    requires Required(f) in raw && Usable(raw[Required(f)])
    ensures Usable(ReadFact(f, raw[Required(f)], raw, sources, show)) <==> Complete(f, raw, sources, show)
  {
    if f == PendingSdnState {
      PendingIff(raw[Required(f)], raw);
    } else if NodeScoped(f) {
      ReadNodesIff(f, raw, sources, show);
    }
  }

  lemma GatedIff(f: Fact, raw: Raw, sources: Sources, show: Show)
    ensures Usable(GatedFact(f, raw, sources, show)) <==> ReadEstablished(f, raw, sources, show)
  {
    if Required(f) in raw && Usable(raw[Required(f)]) {
      ReadIff(f, raw, sources, show);
    }
  }

  /** A projected fact is usable exactly when its evidence is established. */
  lemma UsableIff(f: Fact, raw: Raw, supplied: map<Fact, Observation>, sources: Sources, show: Show)
    ensures Usable(ProjectFact(f, raw, supplied, sources, show)) <==> Established(f, raw, supplied, sources, show)
  {
    if ControlPlaneSupplied(f) || WithoutSource(f) {
    } else if f == ExactPveVersion {
      VersionIff(raw, VersionComponents(), show, []);
    } else {
      GatedIff(f, raw, sources, show);
    }
  }

  ghost predicate AllConstructible<K>(facts: map<K, Observation>) {
    forall k :: k in facts ==> Constructible(facts[k])
  }

  lemma CoverageIsConstructible(f: Fact, o: Observation, raw: Raw, nodes: seq<string>, cs: seq<Contribution>)
    requires Constructible(o)
    ensures Constructible(Coverage(f, o, raw, nodes, cs))
  {
  }

  lemma ReadIsConstructible(f: Fact, o: Observation, raw: Raw, sources: Sources, show: Show)
    requires Constructible(o)
    ensures Constructible(ReadFact(f, o, raw, sources, show))
  {
    if KnownNodes(raw, show).Some? {
      CoverageIsConstructible(f, o, raw, KnownNodes(raw, show).value, ContributionsTo(sources, f));
    }
  }

  lemma GatedIsConstructible(f: Fact, raw: Raw, sources: Sources, show: Show)
    requires AllConstructible(raw)
    ensures Constructible(GatedFact(f, raw, sources, show))
  {
    if Required(f) in raw {
      ReadIsConstructible(f, raw[Required(f)], raw, sources, show);
    }
  }

  /** The projection can always be carried out: it never builds an observation its own type refuses. */
  lemma ProjectionIsConstructible(f: Fact, raw: Raw, supplied: map<Fact, Observation>, sources: Sources, show: Show)
    requires AllConstructible(raw) && AllConstructible(supplied)
    ensures Constructible(ProjectFact(f, raw, supplied, sources, show))
  {
    if ControlPlaneSupplied(f) || WithoutSource(f) {
    } else if f == ExactPveVersion {
      VersionIsConstructible(raw, VersionComponents(), show, []);
    } else {
      GatedIsConstructible(f, raw, sources, show);
    }
  }

  lemma {:induction false} VersionIsConstructible(raw: Raw, components: seq<Field>, show: Show, parts: seq<string>)
    requires AllConstructible(raw)
    ensures Constructible(VersionFrom(raw, components, show, parts))
    decreases |components|
  {
    if components != [] && components[0] in raw && Usable(raw[components[0]]) {
      var o := raw[components[0]];
      VersionIsConstructible(raw, components[1..], show, parts + [if o.value.Some? then show(o.value.value) else ""]);
    }
  }

  // ------------------------------------------------------------------ one more failure

  function WithContribution(sources: Sources, field: Field, c: Contribution): Sources {
    sources[field := (if field in sources then sources[field] else []) + [c]]
  }

  lemma FailureUncovers(f: Fact, raw: Raw, sources: Sources, show: Show, c: Contribution, node: string)
    requires KnownNodes(raw, show).Some? && node in KnownNodes(raw, show).value && Speaks(c, node)
             && c.state != Observed
    requires c in ContributionsTo(sources, f)
    ensures !EveryNodeCovered(f, raw, sources, show)
  {
  }

  /** A failing contribution about a known node makes a node-scoped fact unusable, whatever else was contributed. */
  lemma FailureIsNotCured(f: Fact, raw: Raw, supplied: map<Fact, Observation>, sources: Sources, show: Show,
                          c: Contribution, node: string)
    requires KnownNodes(raw, show).Some? && node in KnownNodes(raw, show).value && Speaks(c, node)
             && c.state != Observed
    requires NodeScoped(f) && c in ContributionsTo(sources, f)
    ensures !Usable(ProjectFact(f, raw, supplied, sources, show))
  {
    FailureUncovers(f, raw, sources, show, c, node);
    UsableIff(f, raw, supplied, sources, show);
    if Established(f, raw, supplied, sources, show) {
      NodeFactIsCovered(f, raw, supplied, sources, show);
    }
  }

  lemma NodeScopedIsRead(f: Fact)
    requires NodeScoped(f)
    ensures !ControlPlaneSupplied(f) && f != ExactPveVersion && f != PendingSdnState
  {
  }

  lemma NodeFactIsCovered(f: Fact, raw: Raw, supplied: map<Fact, Observation>, sources: Sources, show: Show)
    requires Established(f, raw, supplied, sources, show) && NodeScoped(f)
    ensures EveryNodeCovered(f, raw, sources, show)
  {
    NodeScopedIsRead(f);
  }

  /** A contribution to one fact says nothing about any other, and nothing about a fact that is not node-scoped. */
  lemma ContributionIsLocal(f: Fact, g: Fact, raw: Raw, supplied: map<Fact, Observation>, sources: Sources, show: Show,
                            c: Contribution)
    requires g != f || !NodeScoped(f)
    ensures ProjectFact(g, raw, supplied, WithContribution(sources, Required(f), c), show)
            == ProjectFact(g, raw, supplied, sources, show)
  {
    LocalRead(f, g, raw, sources, show, c);
  }

  lemma OtherContributions(f: Fact, g: Fact, sources: Sources, c: Contribution)
    requires g != f
    ensures ContributionsTo(WithContribution(sources, Required(f), c), g) == ContributionsTo(sources, g)
  {
    assert Required(g) != Required(f);
  }

  lemma LocalRead(f: Fact, g: Fact, raw: Raw, sources: Sources, show: Show, c: Contribution)
    requires g != f || !NodeScoped(f)
    ensures GatedFact(g, raw, WithContribution(sources, Required(f), c), show) == GatedFact(g, raw, sources, show)
  {
    if g != f { OtherContributions(f, g, sources, c); }
    SameContributionsSameFact(g, raw, WithContribution(sources, Required(f), c), sources, show);
  }

  lemma SameContributionsSameFact(g: Fact, raw: Raw, a: Sources, b: Sources, show: Show)
    requires NodeScoped(g) ==> ContributionsTo(a, g) == ContributionsTo(b, g)
    ensures GatedFact(g, raw, a, show) == GatedFact(g, raw, b, show)
  {
    if Required(g) in raw && Usable(raw[Required(g)]) {
      SameContributionsSameRead(g, raw[Required(g)], raw, a, b, show);
    }
  }

  lemma SameContributionsSameRead(g: Fact, o: Observation, raw: Raw, a: Sources, b: Sources, show: Show)
    requires NodeScoped(g) ==> ContributionsTo(a, g) == ContributionsTo(b, g)
    ensures ReadFact(g, o, raw, a, show) == ReadFact(g, o, raw, b, show)
  {
  }

  // ------------------------------------------------------------------ an empty inventory

  ghost predicate GatesOpen(f: Fact, raw: Raw) {
    (VmGated(f) ==> VmAudit(raw)) && (SdnGated(f) ==> SdnAuthority(raw))
  }

  lemma NobodyIsCovered(f: Fact, raw: Raw, sources: Sources, show: Show)
    requires ContributionsTo(sources, f) == []
    ensures EveryNodeCovered(f, raw, sources, show) <==>
            var v := UsableValue(raw, Required(f)); v.Some? && v.value.Dict? && KnownNodes(raw, show) == Some([])
  {
    var nodes := KnownNodes(raw, show);
    if nodes.Some? && nodes.value != [] {
      assert nodes.value[0] in nodes.value;
    }
  }

  /**
   A node-scoped fact to which nothing contributed is usable exactly when its gates are open, its field holds a
   mapping, and the list of nodes was observed to be empty.
   */
  lemma UncontributedUsableIff(f: Fact, raw: Raw, supplied: map<Fact, Observation>, sources: Sources, show: Show)
    requires NodeScoped(f) && ContributionsTo(sources, f) == []
    ensures Usable(ProjectFact(f, raw, supplied, sources, show)) <==>
            var v := UsableValue(raw, Required(f));
            GatesOpen(f, raw) && v.Some? && v.value.Dict? && KnownNodes(raw, show) == Some([])
  {
    UsableIff(f, raw, supplied, sources, show);
    NodeScopedIsRead(f);
    NobodyIsCovered(f, raw, sources, show);
    NodeScopedHasSource(f);
  }

  lemma NodeScopedHasSource(f: Fact)
    requires NodeScoped(f)
    ensures !WithoutSource(f)
  {
  }

  function Answered(v: Value): Observation {
    Observation(Observed, Some(v), Unnamed, "")
  }

  /** What a run that saw no node and no bridge reports. */
  function EmptyRun(): Raw {
    map[Required(NodeNames) := Answered(List(End)), Required(Bridges) := Answered(Dict(Empty))]
  }

  /**
   With an observed but empty list of nodes there is nothing to account for: a node-scoped fact nobody contributed to is
   usable.
   */
  lemma EmptyInventoryAsksNothing(show: Show)
    ensures KnownNodes(EmptyRun(), show) == Some([])
    ensures Usable(ProjectFact(Bridges, EmptyRun(), map[], map[], show)) && NodeScoped(Bridges)
  {
    assert EveryNodeCovered(Bridges, EmptyRun(), map[], show);
    UsableIff(Bridges, EmptyRun(), map[], map[], show);
  }
}

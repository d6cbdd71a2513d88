/**
 The acceptance evidence document and its loader: apps/acceptance/secp_acceptance/evidence.py.  The closed
 vocabulary of reasons.py is a parameter.  `secret` says whether a text matches one of the value patterns of
 the scan in apps/commissioning/secp_commissioning/descriptor.py, and `aware` whether it is a date with a zone.
 */
module AcceptanceEvidence {
  import opened Wrappers
  import opened Ordering

  /** A digest column: the SHA-256 of an observation or of a run's identity, or text of another shape. */
  datatype Digest =
    | Sha256(payload: string)
    | RunSha256(contract: string, fleet: FleetRecord, release: ReleaseRecord)
    | OtherText(text: string)

  datatype Outcome = Observed | Refused | Unproven

  datatype CheckRecord =
    CheckRecord(check: string, stage: string, outcome: Outcome, reason: Option<string>, observation: Digest)

  datatype GapRecord = GapRecord(gap: string, stage: string, substitute: string, why: string, weakens: seq<string>)

  datatype RunOutcome = Passed | Failed

  datatype Flags = Flags(proxmoxContacted: bool, opentofuExecuted: bool, ephemeralOnly: bool, trustRootsModified: bool)

  datatype FleetRecord = FleetRecord(hostImage: string, controllerHost: string, workerHost: string, network: string,
                                     created: nat, destroyed: nat, nestedRuntime: bool, realServiceManager: bool)

  datatype ReleaseRecord = ReleaseRecord(role: string, baselineAggregate: string, successorAggregate: Option<string>,
                                         baselineSha: string, successorSha: Option<string>,
                                         successorParentSha: Option<string>,
                                         anchor: string, testOnly: bool)

  datatype Document = Document(schema: string, contract: string, runId: Digest, outcome: RunOutcome, startedAt: string,
                               completedAt: string, stages: seq<string>, fleet: FleetRecord, release: ReleaseRecord,
                               checks: seq<CheckRecord>, gaps: seq<GapRecord>, flags: Flags)

  datatype Reason =
    | Invalid | ForbiddenValue | UnknownCheck | UnknownStage | UnknownReason | DuplicateCheck | Incomplete

  /**
   The closed vocabulary.  `absent` and `unexpected` are the two harness reasons `expect_refusal` files by
   itself; `schema` and `contract` are the version identities of this harness.
   */
  datatype Vocabulary = Vocabulary(byStage: map<string, seq<string>>, reasons: set<string>, absent: string,
                                   unexpected: string, schema: string, contract: string)

  function ChecksOf(v: Vocabulary, stage: string): seq<string> {
    if stage in v.byStage then v.byStage[stage] else []
  }

  function AllChecks(v: Vocabulary): (r: set<string>) {
    set s, c | s in v.byStage && c in v.byStage[s] :: c
  }

  const MAX_CHECKS: nat := 512
  const MAX_GAPS: nat := 64

  /** `_IDENT`: a small letter, then at most 63 small letters, digits and underscores. */
  predicate Ident(t: string) {
    1 <= |t| <= 64 && 'a' <= t[0] <= 'z'
    && forall i :: 0 <= i < |t| ==> 'a' <= t[i] <= 'z' || '0' <= t[i] <= '9' || t[i] == '_'
  }

  predicate Within(t: string, most: nat) {
    1 <= |t| <= most
  }

  /** What reasons.py guarantees about its own tables. */
  ghost predicate WellFormed(v: Vocabulary) {
    && (forall s :: s in v.byStage ==> Ident(s))
    && (forall c :: c in AllChecks(v) ==> Ident(c))
    && |AllChecks(v)| <= MAX_CHECKS && |v.byStage| <= MAX_LIST
    && (forall r :: r in v.reasons ==> Within(r, 200))
    && v.absent in v.reasons && v.unexpected in v.reasons && Within(v.schema, 200) && Within(v.contract, 200)
  }

  // ------------------------------------------------------------------ field bounds

  function DigestText(d: Digest): string {
    match d
    case Sha256(_) => "sha256:..."
    case RunSha256(_, _, _) => "sha256:..."
    case OtherText(t) => t
  }

  /** `is_sha256_digest` */
  predicate IsDigest(d: Digest) {
    !d.OtherText?
  }

  predicate CheckFits(r: CheckRecord) {
    && Within(r.check, 200) && Within(r.stage, 200) && Within(DigestText(r.observation), 200)
    && (r.reason.Some? ==> Within(r.reason.value, 200))
  }

  predicate GapFits(g: GapRecord) {
    Within(g.gap, 200) && Within(g.stage, 200) && Within(g.substitute, 1000) && Within(g.why, 1000)
  }

  function FleetTexts(f: FleetRecord): seq<string> {
    [f.hostImage, f.controllerHost, f.workerHost, f.network]
  }

  function Given(t: Option<string>): seq<string> {
    if t.Some? then [t.value] else []
  }

  function ReleaseTexts(r: ReleaseRecord): seq<string> {
    [r.role, r.baselineAggregate, r.baselineSha, r.anchor]
    + Given(r.successorAggregate) + Given(r.successorSha) + Given(r.successorParentSha)
  }

  predicate FleetFits(f: FleetRecord) {
    (forall t :: t in FleetTexts(f) ==> Within(t, 200)) && f.created <= 64 && f.destroyed <= 64
  }

  predicate ReleaseFits(r: ReleaseRecord) {
    forall t :: t in ReleaseTexts(r) ==> Within(t, 200)
  }

  /** `model_validate` */
  predicate DocumentFits(d: Document) {
    && FleetFits(d.fleet) && ReleaseFits(d.release)
    && Within(d.schema, 200) && Within(d.contract, 200) && Within(d.startedAt, 200) && Within(d.completedAt, 200)
    && Within(DigestText(d.runId), 200)
    && (forall r :: r in d.checks ==> CheckFits(r))
    && (forall g :: g in d.gaps ==> GapFits(g))
  }

  // ------------------------------------------------------------------ the scan for secrets

  const MAX_LIST: nat := 512
  const MAX_TEXT: nat := 1600

  predicate TextClean(t: string, secret: string -> bool) {
    |t| <= MAX_TEXT && !secret(t)
  }

  predicate TextsClean(ts: seq<string>, secret: string -> bool) {
    forall t :: t in ts ==> TextClean(t, secret)
  }

  predicate CheckClean(r: CheckRecord, secret: string -> bool) {
    TextsClean([r.check, r.stage, DigestText(r.observation)] + Given(r.reason), secret)
  }

  predicate GapClean(g: GapRecord, secret: string -> bool) {
    |g.weakens| <= MAX_LIST && TextsClean([g.gap, g.stage, g.substitute, g.why] + g.weakens, secret)
  }

  /** `scan_forbidden` on the document: no long list, no long text, no text shaped like a secret. */
  predicate Clean(d: Document, secret: string -> bool) {
    && |d.stages| <= MAX_LIST && |d.checks| <= MAX_LIST && |d.gaps| <= MAX_LIST
    && TextsClean([d.schema, d.contract, d.startedAt, d.completedAt, DigestText(d.runId)], secret)
    && TextsClean(d.stages, secret) && TextsClean(FleetTexts(d.fleet), secret)
    && TextsClean(ReleaseTexts(d.release), secret)
    && (forall r :: r in d.checks ==> CheckClean(r, secret))
    && (forall g :: g in d.gaps ==> GapClean(g, secret))
  }

  /** The vocabulary and a digest are no secrets, which reasons.py intends by keeping to plain identifiers. */
  ghost predicate VocabularyClean(v: Vocabulary, secret: string -> bool) {
    && (forall s :: s in v.byStage ==> !secret(s)) && (forall c :: c in AllChecks(v) ==> !secret(c))
    && (forall r :: r in v.reasons ==> !secret(r)) && !secret(v.schema) && !secret(v.contract)
    && !secret(DigestText(Sha256("")))
  }

  // ------------------------------------------------------------------ queries

  function Names(checks: seq<CheckRecord>): (r: set<string>) {
    set c | c in checks :: c.check
  }

  function Declared(v: Vocabulary, stages: seq<string>): (r: set<string>)
    ensures forall c :: c in r <==> exists s :: s in stages && c in ChecksOf(v, s)
  {
    set s, c | s in stages && c in ChecksOf(v, s) :: c
  }

  /** `missing_checks`, as a loop over the attempted stages. */
  method MissingChecks(v: Vocabulary, d: Document) returns (r: seq<string>)
    ensures r == SortedSet(Declared(v, d.stages) - Names(d.checks))
  {
    var recorded, expected := Names(d.checks), {};
    for i := 0 to |d.stages|
      invariant expected == Declared(v, d.stages[..i])
    {
      var more := set c | c in ChecksOf(v, d.stages[i]);
      assert d.stages[..i + 1] == d.stages[..i] + [d.stages[i]];
      expected := expected + more;
    }
    assert d.stages[..|d.stages|] == d.stages;
    r := SortedSet(expected - recorded);
  }

  /** `unproven`: the names of the unproven checks, in order. */
  function UnprovenChecks(d: Document): (r: seq<string>)
    ensures r == [] <==> NoneUnproven(d.checks)
  {
    SomeUnproven(d.checks);
    Sort(UnprovenNames(d.checks), Le)
  }

  function UnprovenNames(checks: seq<CheckRecord>): seq<string> {
    if checks == [] then []
    else (if checks[0].outcome == Unproven then [checks[0].check] else []) + UnprovenNames(checks[1..])
  }

  predicate NoneUnproven(checks: seq<CheckRecord>) {
    forall r :: r in checks ==> r.outcome != Unproven
  }

  lemma {:induction false} SomeUnproven(checks: seq<CheckRecord>)
    ensures UnprovenNames(checks) == [] <==> NoneUnproven(checks)
  {
    if checks != [] {
      SomeUnproven(checks[1..]);
      assert checks == [checks[0]] + checks[1..];
      assert checks[0] in checks;
    }
  }

  // ------------------------------------------------------------------ what an admissible document is

  predicate ReasonAgrees(v: Vocabulary, r: CheckRecord) {
    match r.reason
    case None => r.outcome == Observed
    case Some(code) => r.outcome != Observed && code in v.reasons
  }

  /** A check filed under the stage that declares it, with a reason exactly when it is no plain observation. */
  predicate CheckAdmissible(v: Vocabulary, r: CheckRecord) {
    && Ident(r.check) && Ident(r.stage) && r.check in ChecksOf(v, r.stage)
    && ReasonAgrees(v, r) && IsDigest(r.observation)
  }

  predicate GapAdmissible(v: Vocabulary, g: GapRecord) {
    && Ident(g.gap) && Ident(g.stage) && g.stage in v.byStage
    && g.weakens != [] && forall c :: c in g.weakens ==> c in AllChecks(v)
  }

  ghost predicate OneRecordEach(checks: seq<CheckRecord>) {
    forall i, j :: 0 <= i < j < |checks| ==> checks[i].check != checks[j].check
  }

  /** Every declared check of every attempted stage has a record. */
  ghost predicate Covered(v: Vocabulary, stages: seq<string>, checks: seq<CheckRecord>) {
    forall s, c :: s in stages && c in ChecksOf(v, s) ==> c in Names(checks)
  }

  ghost predicate StagesAdmissible(v: Vocabulary, stages: seq<string>) {
    stages != [] && NoDuplicates(stages) && forall s :: s in stages ==> Ident(s) && s in v.byStage
  }

  ghost predicate ChecksAdmissible(v: Vocabulary, stages: seq<string>, checks: seq<CheckRecord>) {
    && OneRecordEach(checks)
    && (forall r :: r in checks ==> CheckAdmissible(v, r) && r.stage in stages)
  }

  predicate FlagsAdmissible(f: Flags) {
    !f.proxmoxContacted && !f.opentofuExecuted && f.ephemeralOnly && !f.trustRootsModified
  }

  /** What every reader may conclude from a document the loader lets through. */
  ghost predicate Admissible(v: Vocabulary, d: Document, aware: string -> bool) {
    && d.schema == v.schema && d.contract == v.contract && IsDigest(d.runId) && aware(d.startedAt)
    && aware(d.completedAt)
    && StagesAdmissible(v, d.stages)
    && |d.checks| <= MAX_CHECKS && |d.gaps| <= MAX_GAPS
    && ChecksAdmissible(v, d.stages, d.checks)
    && (forall g :: g in d.gaps ==> GapAdmissible(v, g))
    && FlagsAdmissible(d.flags)
    && OutcomeAdmissible(v, d.outcome, d.stages, d.checks)
  }

  /** A passed run is complete and proven. */
  ghost predicate OutcomeAdmissible(v: Vocabulary, outcome: RunOutcome, stages: seq<string>, checks: seq<CheckRecord>) {
    outcome == Passed ==> Covered(v, stages, checks) && NoneUnproven(checks)
  }

  // ------------------------------------------------------------------ the loader

  /** `_assert_check_semantics` */
  method AssertCheck(v: Vocabulary, r: CheckRecord) returns (error: Option<Reason>)
    ensures error.None? <==> CheckAdmissible(v, r)
  {
    if !Ident(r.check) || !Ident(r.stage) { return Some(Invalid); }
    if r.stage !in v.byStage { return Some(UnknownStage); }
    if r.check !in AllChecks(v) { return Some(UnknownCheck); }
    if r.check !in v.byStage[r.stage] { return Some(UnknownCheck); }
    if r.outcome == Observed {
      if r.reason.Some? { return Some(Invalid); }
    } else {
      if r.reason.None? { return Some(Invalid); }
      if r.reason.value !in v.reasons { return Some(UnknownReason); }
    }
    if !IsDigest(r.observation) { return Some(Invalid); }
    return None;
  }

  /** `_assert_gap_semantics` */
  method AssertGap(v: Vocabulary, g: GapRecord) returns (error: Option<Reason>)
    ensures error.None? <==> GapAdmissible(v, g)
  {
    if !Ident(g.gap) || !Ident(g.stage) { return Some(Invalid); }
    if g.stage !in v.byStage { return Some(UnknownStage); }
    if g.weakens == [] { return Some(Invalid); }
    for i := 0 to |g.weakens|
      invariant forall j :: 0 <= j < i ==> g.weakens[j] in AllChecks(v)
    {
      if g.weakens[i] !in AllChecks(v) { return Some(UnknownCheck); }
    }
    return None;
  }

  method AssertStages(v: Vocabulary, stages: seq<string>) returns (error: Option<Reason>)
    ensures error.None? <==> StagesAdmissible(v, stages)
  {
    if stages == [] { return Some(Incomplete); }
    for i := 0 to |stages|
      invariant forall j :: 0 <= j < i ==> Ident(stages[j]) && stages[j] in v.byStage
    {
      if !Ident(stages[i]) { return Some(Invalid); }
      if stages[i] !in v.byStage { return Some(UnknownStage); }
    }
    SizeIffNoDuplicates(stages);
    if |set s | s in stages| != |stages| { return Some(Invalid); }
    return None;
  }

  /** The loop over the records, with the set of names already met. */
  method AssertChecks(v: Vocabulary, stages: seq<string>, checks: seq<CheckRecord>) returns (error: Option<Reason>)
    ensures error.None? <==> ChecksAdmissible(v, stages, checks)
  {
    var seen: set<string> := {};
    for i := 0 to |checks|
      invariant seen == Names(checks[..i])
      invariant forall j :: 0 <= j < i ==> CheckAdmissible(v, checks[j]) && checks[j].stage in stages
      invariant OneRecordEach(checks[..i])
    {
      var r := checks[i];
      assert checks[..i + 1] == checks[..i] + [r];
      error := AssertCheck(v, r);
      if error.Some? {
        assert r in checks;
        return;
      }
      if r.check in seen {
        var k :| 0 <= k < i && checks[k].check == r.check;
        return Some(DuplicateCheck);
      }
      seen := seen + {r.check};
      if r.stage !in stages {
        assert r in checks;
        return Some(UnknownStage);
      }
    }
    assert checks[..|checks|] == checks;
    return None;
  }

  method AssertGaps(v: Vocabulary, gaps: seq<GapRecord>) returns (error: Option<Reason>)
    ensures error.None? <==> forall g :: g in gaps ==> GapAdmissible(v, g)
  {
    for i := 0 to |gaps|
      invariant forall j :: 0 <= j < i ==> GapAdmissible(v, gaps[j])
    {
      error := AssertGap(v, gaps[i]);
      if error.Some? {
        assert gaps[i] in gaps;
        return;
      }
    }
    return None;
  }

  lemma CoveredIff(v: Vocabulary, stages: seq<string>, checks: seq<CheckRecord>)
    ensures SortedSet(Declared(v, stages) - Names(checks)) == [] <==> Covered(v, stages, checks)
  {
    var missing := Declared(v, stages) - Names(checks);
    SortedSetEmptyIff(missing);
    if missing == {} {
      forall s, c | s in stages && c in ChecksOf(v, s) ensures c in Names(checks) {
        assert c in Declared(v, stages);
        assert c !in missing;
      }
    } else {
      var c :| c in missing;
    }
  }

  /** `_assert_evidence_semantics` */
  method AssertSemantics(v: Vocabulary, d: Document, aware: string -> bool) returns (error: Option<Reason>)
    ensures error.None? <==> Admissible(v, d, aware)
  {
    if d.schema != v.schema || d.contract != v.contract || !IsDigest(d.runId) { return Some(Invalid); }
    if !aware(d.startedAt) || !aware(d.completedAt) { return Some(Invalid); }
    error := AssertStages(v, d.stages);
    if error.Some? { return; }
    if |d.checks| > MAX_CHECKS || |d.gaps| > MAX_GAPS { return Some(Invalid); }
    error := AssertChecks(v, d.stages, d.checks);
    if error.Some? { return; }
    error := AssertGaps(v, d.gaps);
    if error.Some? { return; }
    if !FlagsAdmissible(d.flags) { return Some(ForbiddenValue); }
    if d.outcome == Passed {
      var missing := MissingChecks(v, d);
      CoveredIff(v, d.stages, d.checks);
      if missing != [] || UnprovenChecks(d) != [] { return Some(Incomplete); }
    }
    return None;
  }

  /** What the loader lets through. */
  ghost predicate Loads(v: Vocabulary, d: Document, secret: string -> bool, aware: string -> bool) {
    Clean(d, secret) && DocumentFits(d) && Admissible(v, d, aware)
  }

  /** `evidence_from_dict` */
  method Load(v: Vocabulary, d: Document, secret: string -> bool, aware: string -> bool) returns (error: Option<Reason>)
    ensures error.None? <==> Loads(v, d, secret, aware)
    ensures !Clean(d, secret) ==> error == Some(ForbiddenValue)
  {
    if !Clean(d, secret) { return Some(ForbiddenValue); }
    if !DocumentFits(d) { return Some(Invalid); }
    error := AssertSemantics(v, d, aware);
  }
}

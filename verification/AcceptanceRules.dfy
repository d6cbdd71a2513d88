/**
 What a loaded document looks like, field by field, with the bounds and grammars written out.
 */
module AcceptanceRules {
  import opened Wrappers
  import opened Ordering
  import opened AcceptanceEvidence

  /** A small letter, then small letters, digits and underscores, 64 characters at most. */
  ghost predicate Identifier(t: string) {
    && 0 < |t| <= 64 && t[0] >= 'a' && t[0] <= 'z'
    && forall i :: 0 < i < |t| ==> (t[i] >= 'a' && t[i] <= 'z') || (t[i] >= '0' && t[i] <= '9') || t[i] == '_'
  }

  /** A text that is there, is not too long and has nothing of a secret. */
  ghost predicate Plain(t: string, most: nat, secret: string -> bool) {
    t != "" && |t| <= most && !secret(t)
  }

  ghost predicate PlainIfGiven(t: Option<string>, secret: string -> bool) {
    t.Some? ==> Plain(t.value, 200, secret)
  }

  ghost predicate HeaderLoads(v: Vocabulary, d: Document, secret: string -> bool, aware: string -> bool) {
    && d.schema == v.schema && d.contract == v.contract && Plain(d.schema, 200, secret)
    && Plain(d.contract, 200, secret)
    && (d.runId.Sha256? || d.runId.RunSha256?) && !secret("sha256:...")
    && Plain(d.startedAt, 200, secret) && aware(d.startedAt) && Plain(d.completedAt, 200, secret)
    && aware(d.completedAt)
    && d.flags == Flags(false, false, true, false)
  }

  ghost predicate StagesLoad(v: Vocabulary, stages: seq<string>, secret: string -> bool) {
    && 1 <= |stages| <= 512 && (forall i, j :: 0 <= i < j < |stages| ==> stages[i] != stages[j])
    && (forall s :: s in stages ==> Identifier(s) && s in v.byStage && !secret(s))
  }

  ghost predicate FleetLoads(f: FleetRecord, secret: string -> bool) {
    && Plain(f.hostImage, 200, secret) && Plain(f.controllerHost, 200, secret) && Plain(f.workerHost, 200, secret)
    && Plain(f.network, 200, secret) && f.created <= 64 && f.destroyed <= 64
  }

  ghost predicate ReleaseLoads(r: ReleaseRecord, secret: string -> bool) {
    && Plain(r.role, 200, secret) && Plain(r.baselineAggregate, 200, secret) && Plain(r.baselineSha, 200, secret)
    && Plain(r.anchor, 200, secret)
    && PlainIfGiven(r.successorAggregate, secret) && PlainIfGiven(r.successorSha, secret)
    && PlainIfGiven(r.successorParentSha, secret)
  }

  /**
   A known check under an attempted stage that declares it; a known reason exactly when it is no plain observation.
   */
  ghost predicate CheckLoads(v: Vocabulary, stages: seq<string>, r: CheckRecord, secret: string -> bool) {
    && Identifier(r.check) && !secret(r.check) && Identifier(r.stage) && !secret(r.stage)
    && r.stage in stages && r.stage in v.byStage && r.check in v.byStage[r.stage]
    && (r.outcome == Observed <==> r.reason == None)
    && (r.reason.Some? ==> r.reason.value in v.reasons && Plain(r.reason.value, 200, secret))
    && (r.observation.Sha256? || r.observation.RunSha256?) && !secret("sha256:...")
  }

  ghost predicate KnownCheck(v: Vocabulary, c: string) {
    exists s :: s in v.byStage && c in v.byStage[s]
  }

  ghost predicate GapLoads(v: Vocabulary, g: GapRecord, secret: string -> bool) {
    && Identifier(g.gap) && !secret(g.gap) && Identifier(g.stage) && !secret(g.stage) && g.stage in v.byStage
    && Plain(g.substitute, 1000, secret) && Plain(g.why, 1000, secret)
    && 1 <= |g.weakens| <= 512
    && (forall c :: c in g.weakens ==> KnownCheck(v, c) && |c| <= 1600 && !secret(c))
  }

  ghost predicate HasRecord(checks: seq<CheckRecord>, c: string) {
    exists i :: 0 <= i < |checks| && checks[i].check == c
  }

  /** A passed run has a record for every check of every attempted stage, and all of them are proofs. */
  ghost predicate PassLoads(v: Vocabulary, d: Document) {
    d.outcome == Passed ==>
      && (forall s, c :: s in d.stages && s in v.byStage && c in v.byStage[s] ==>
            HasRecord(d.checks, c))
      && (forall r :: r in d.checks ==> r.outcome != Unproven)
  }

  ghost predicate Loadable(v: Vocabulary, d: Document, secret: string -> bool, aware: string -> bool) {
    && HeaderLoads(v, d, secret, aware) && StagesLoad(v, d.stages, secret)
    && FleetLoads(d.fleet, secret) && ReleaseLoads(d.release, secret)
    && |d.checks| <= 512 && (forall i, j :: 0 <= i < j < |d.checks| ==> d.checks[i].check != d.checks[j].check)
    && (forall r :: r in d.checks ==> CheckLoads(v, d.stages, r, secret))
    && |d.gaps| <= 64 && (forall g :: g in d.gaps ==> GapLoads(v, g, secret))
    && PassLoads(v, d)
  }

  // ------------------------------------------------------------------ part by part

  lemma IdentIff(t: string)
    ensures Ident(t) <==> Identifier(t)
  {
  }

  lemma FirstClean(t: string, more: seq<string>, secret: string -> bool)
    ensures TextsClean([t] + more, secret) <==> TextClean(t, secret) && TextsClean(more, secret)
  {
    assert t in [t] + more;
    assert forall x :: x in [t] + more <==> x == t || x in more;
  }

  lemma BothClean(a: seq<string>, b: seq<string>, secret: string -> bool)
    ensures TextsClean(a + b, secret) <==> TextsClean(a, secret) && TextsClean(b, secret)
  {
    assert forall x :: x in a + b <==> x in a || x in b;
  }

  lemma FourClean(a: string, b: string, c: string, d: string, secret: string -> bool)
    ensures TextsClean([a, b, c, d], secret) <==>
            TextClean(a, secret) && TextClean(b, secret) && TextClean(c, secret) && TextClean(d, secret)
  {
    var all := [a, b, c, d];
    assert all[0] == a && all[1] == b && all[2] == c && all[3] == d;
  }

  lemma GivenClean(t: Option<string>, secret: string -> bool)
    ensures TextsClean(Given(t), secret) <==> (t.Some? ==> TextClean(t.value, secret))
  {
  }

  lemma FourFit(a: string, b: string, c: string, d: string)
    ensures (forall t :: t in [a, b, c, d] ==> Within(t, 200)) <==>
            Within(a, 200) && Within(b, 200) && Within(c, 200) && Within(d, 200)
  {
    var all := [a, b, c, d];
    assert all[0] == a && all[1] == b && all[2] == c && all[3] == d;
  }

  lemma FleetIff(f: FleetRecord, secret: string -> bool)
    ensures FleetFits(f) && TextsClean(FleetTexts(f), secret) <==> FleetLoads(f, secret)
  {
    FourFit(f.hostImage, f.controllerHost, f.workerHost, f.network);
    FourClean(f.hostImage, f.controllerHost, f.workerHost, f.network, secret);
  }

  lemma ReleaseTextsAre(r: ReleaseRecord)
    ensures forall t :: t in ReleaseTexts(r) <==>
              t in [r.role, r.baselineAggregate, r.baselineSha, r.anchor] || t in Given(r.successorAggregate)
              || t in Given(r.successorSha) || t in Given(r.successorParentSha)
  {
  }

  lemma GivenIff(t: Option<string>, secret: string -> bool)
    ensures (forall x :: x in Given(t) ==> Within(x, 200)) && TextsClean(Given(t), secret) <==> PlainIfGiven(t, secret)
  {
    if t.Some? { assert t.value in Given(t); }
  }

  lemma ReleaseIff(r: ReleaseRecord, secret: string -> bool)
    ensures ReleaseFits(r) && TextsClean(ReleaseTexts(r), secret) <==> ReleaseLoads(r, secret)
  {
    ReleaseTextsAre(r);
    FourFit(r.role, r.baselineAggregate, r.baselineSha, r.anchor);
    FourClean(r.role, r.baselineAggregate, r.baselineSha, r.anchor, secret);
    GivenIff(r.successorAggregate, secret);
    GivenIff(r.successorSha, secret);
    GivenIff(r.successorParentSha, secret);
  }

  lemma CheckIff(v: Vocabulary, stages: seq<string>, r: CheckRecord, secret: string -> bool)
    ensures CheckClean(r, secret) && CheckFits(r) && CheckAdmissible(v, r) && r.stage in stages
       <==> CheckLoads(v, stages, r, secret)
  {
    IdentIff(r.check);
    IdentIff(r.stage);
    FirstClean(r.check, [r.stage, DigestText(r.observation)] + Given(r.reason), secret);
    FirstClean(r.stage, [DigestText(r.observation)] + Given(r.reason), secret);
    FirstClean(DigestText(r.observation), Given(r.reason), secret);
    GivenClean(r.reason, secret);
    assert [r.check, r.stage, DigestText(r.observation)] + Given(r.reason)
        == [r.check] + ([r.stage, DigestText(r.observation)] + Given(r.reason));
    assert [r.stage, DigestText(r.observation)] + Given(r.reason)
        == [r.stage] + ([DigestText(r.observation)] + Given(r.reason));
  }

  lemma GapIff(v: Vocabulary, g: GapRecord, secret: string -> bool)
    ensures GapClean(g, secret) && GapFits(g) && GapAdmissible(v, g) <==> GapLoads(v, g, secret)
  {
    IdentIff(g.gap);
    IdentIff(g.stage);
    BothClean([g.gap, g.stage, g.substitute, g.why], g.weakens, secret);
    FourClean(g.gap, g.stage, g.substitute, g.why, secret);
    forall c ensures c in AllChecks(v) <==> KnownCheck(v, c) { }
  }

  lemma StagesIff(v: Vocabulary, stages: seq<string>, secret: string -> bool)
    ensures |stages| <= MAX_LIST && TextsClean(stages, secret) && StagesAdmissible(v, stages)
       <==> StagesLoad(v, stages, secret)
  {
    forall s ensures Ident(s) <==> Identifier(s) { IdentIff(s); }
  }

  lemma HeaderTexts(d: Document, secret: string -> bool)
    ensures TextsClean([d.schema, d.contract, d.startedAt, d.completedAt, DigestText(d.runId)], secret) <==>
            TextClean(d.schema, secret) && TextClean(d.contract, secret) && TextClean(d.startedAt, secret)
            && TextClean(d.completedAt, secret) && TextClean(DigestText(d.runId), secret)
  {
    var ts := [d.schema, d.contract, d.startedAt, d.completedAt, DigestText(d.runId)];
    assert ts[0] == d.schema && ts[1] == d.contract && ts[2] == d.startedAt && ts[3] == d.completedAt;
    assert ts[4] == DigestText(d.runId);
  }

  /** The part of scan, bounds and semantics that concerns the header. */
  ghost predicate HeaderPasses(v: Vocabulary, d: Document, secret: string -> bool, aware: string -> bool) {
    && TextsClean([d.schema, d.contract, d.startedAt, d.completedAt, DigestText(d.runId)], secret)
    && Within(d.schema, 200) && Within(d.contract, 200) && Within(d.startedAt, 200) && Within(d.completedAt, 200)
    && Within(DigestText(d.runId), 200)
    && d.schema == v.schema && d.contract == v.contract && IsDigest(d.runId) && aware(d.startedAt)
    && aware(d.completedAt)
    && FlagsAdmissible(d.flags)
  }

  lemma HeaderIff(v: Vocabulary, d: Document, secret: string -> bool, aware: string -> bool)
    ensures HeaderPasses(v, d, secret, aware) <==> HeaderLoads(v, d, secret, aware)
  {
    HeaderTexts(d, secret);
  }

  lemma PassIff(v: Vocabulary, d: Document)
    ensures OutcomeAdmissible(v, d.outcome, d.stages, d.checks) <==> PassLoads(v, d)
  {
    forall c ensures c in Names(d.checks) <==> HasRecord(d.checks, c) { NamedIff(d.checks, c); }
    if PassLoads(v, d) && d.outcome == Passed {
      forall s, c | s in d.stages && c in ChecksOf(v, s) ensures c in Names(d.checks) {
        assert s in v.byStage && c in v.byStage[s];
        assert HasRecord(d.checks, c);
      }
    }
  }

  lemma NamedIff(checks: seq<CheckRecord>, c: string)
    ensures c in Names(checks) <==> HasRecord(checks, c)
  {
    if c in Names(checks) {
      var r :| r in checks && r.check == c;
      var i :| 0 <= i < |checks| && checks[i] == r;
    }
    if i :| 0 <= i < |checks| && checks[i].check == c { assert checks[i] in checks; }
  }

  /** What the loader lets through is exactly the loadable documents. */
  lemma LoadsIff(v: Vocabulary, d: Document, secret: string -> bool, aware: string -> bool)
    ensures Loads(v, d, secret, aware) <==> Loadable(v, d, secret, aware)
  {
    LoadsIsParts(v, d, secret, aware);
    HeaderIff(v, d, secret, aware);
    StagesIff(v, d.stages, secret);
    FleetIff(d.fleet, secret);
    ReleaseIff(d.release, secret);
    PassIff(v, d);
    forall r ensures CheckPasses(v, d.stages, r, secret) <==> CheckLoads(v, d.stages, r, secret) {
      CheckIff(v, d.stages, r, secret);
    }
    forall g ensures GapPasses(v, g, secret) <==> GapLoads(v, g, secret) { GapIff(v, g, secret); }
  }

  ghost predicate CheckPasses(v: Vocabulary, stages: seq<string>, r: CheckRecord, secret: string -> bool) {
    CheckClean(r, secret) && CheckFits(r) && CheckAdmissible(v, r) && r.stage in stages
  }

  ghost predicate GapPasses(v: Vocabulary, g: GapRecord, secret: string -> bool) {
    GapClean(g, secret) && GapFits(g) && GapAdmissible(v, g)
  }

  lemma LoadsIsParts(v: Vocabulary, d: Document, secret: string -> bool, aware: string -> bool)
    ensures Loads(v, d, secret, aware) <==>
            && HeaderPasses(v, d, secret, aware)
            && |d.stages| <= MAX_LIST && TextsClean(d.stages, secret) && StagesAdmissible(v, d.stages)
            && FleetFits(d.fleet) && TextsClean(FleetTexts(d.fleet), secret)
            && ReleaseFits(d.release) && TextsClean(ReleaseTexts(d.release), secret)
            && |d.checks| <= 512 && OneRecordEach(d.checks)
            && (forall r :: r in d.checks ==> CheckPasses(v, d.stages, r, secret))
            && |d.gaps| <= 64 && (forall g :: g in d.gaps ==> GapPasses(v, g, secret))
            && OutcomeAdmissible(v, d.outcome, d.stages, d.checks)
  {
  }
}

/**
 The acceptance recorder, apps/acceptance/secp_acceptance/recorder.py: a class over the list of opened
 stages, the records, the gaps and the names already recorded.  `Step` is what one call does; runs are
 sequences of calls, refused ones included.
 */
module AcceptanceRecorder {
  import opened Wrappers
  import opened Ordering
  import opened AcceptanceEvidence

  datatype Log = Log(stages: seq<string>, checks: seq<CheckRecord>, gaps: seq<GapRecord>, seen: set<string>)

  datatype Call =
    | OpenStage(stage: string)
    | Observe(check: string, stage: string, observation: Payload)
    | ExpectRefusal(check: string, stage: string, expected: string, actual: Option<string>, observation: Payload)
    | NotProven(check: string, stage: string, code: string, observation: Payload)
    | DeclareGap(gap: GapRecord)

  /**
   The canonical JSON of an observation; there is none for a NaN, bytes, a set and the like, and the digest raises.
   */
  type Payload = Option<string>

  /** A gap record whose fields do not fit raises the validation error of the record type. */
  datatype Reply = Done | Answer(asExpected: bool) | Raised(reason: Reason) | FieldsRefused | NoDigest

  /** What a record call wants to file. */
  datatype Filing = Filing(check: string, stage: string, outcome: Outcome, reason: Option<string>, observation: Payload)

  const EMPTY: Log := Log([], [], [], {})

  // ------------------------------------------------------------------ one call

  function Opened(v: Vocabulary, l: Log, stage: string): Log {
    if stage in v.byStage && stage !in l.stages then l.(stages := l.stages + [stage]) else l
  }

  /** The reason `_record` refuses, if it does. */
  function RecordError(v: Vocabulary, l: Log, f: Filing): Option<Reason> {
    if f.stage !in l.stages then Some(UnknownStage)
    else if f.check !in ChecksOf(v, f.stage) then Some(UnknownCheck)
    else if f.check in l.seen then Some(DuplicateCheck)
    else if f.reason.Some? && f.reason.value !in v.reasons then Some(UnknownReason)
    else None
  }

  function RecordFrom(f: Filing): CheckRecord
    requires f.observation.Some?
  {
    CheckRecord(f.check, f.stage, f.outcome, f.reason, Sha256(f.observation.value))
  }

  /** The name is marked as seen before the digest is computed: without one, nothing is recorded under it. */
  function Recorded(v: Vocabulary, l: Log, f: Filing): Log {
    if RecordError(v, l, f).Some? then l
    else if f.observation.None? then l.(seen := l.seen + {f.check})
    else l.(checks := l.checks + [RecordFrom(f)], seen := l.seen + {f.check})
  }

  function RecordReply(v: Vocabulary, l: Log, f: Filing, good: Reply): Reply {
    var error := RecordError(v, l, f);
    if error.Some? then Raised(error.value) else if f.observation.None? then NoDigest else good
  }

  /** What an `expect_refusal` files: a pass only for the code the scenario predicted. */
  function RefusalFiling(v: Vocabulary, check: string, stage: string, expected: string, actual: Option<string>,
                         observation: Payload): Filing {
    match actual
    case None => Filing(check, stage, Unproven, Some(v.absent), observation)
    case Some(code) =>
      if code != expected then Filing(check, stage, Unproven, Some(v.unexpected), observation)
      else Filing(check, stage, Refused, Some(code), observation)
  }

  function GapError(v: Vocabulary, g: GapRecord): Option<Reply> {
    if g.stage !in v.byStage then Some(Raised(UnknownStage))
    else if g.weakens == [] then Some(Raised(Invalid))
    else if exists c :: c in g.weakens && c !in AllChecks(v) then Some(Raised(UnknownCheck))
    else if !GapFits(g) then Some(FieldsRefused)
    else None
  }

  /** A gap is taken when its stage and checks are known, it weakens one, and its texts are there and not too long. */
  lemma GapAcceptedIff(v: Vocabulary, g: GapRecord)
    ensures GapError(v, g).None? <==>
            && g.stage in v.byStage && g.weakens != []
            && (forall c :: c in g.weakens ==> exists s :: s in v.byStage && c in v.byStage[s])
            && 1 <= |g.gap| <= 200 && 1 <= |g.stage| <= 200 && 1 <= |g.substitute| <= 1000 && 1 <= |g.why| <= 1000
  {
  }

  /** What a record call files, if it gets that far. */
  function FilingOf(v: Vocabulary, call: Call): Option<Filing> {
    match call
    case Observe(c, s, o) => Some(Filing(c, s, Observed, None, o))
    case ExpectRefusal(c, s, e, a, o) => if e !in v.reasons then None else Some(RefusalFiling(v, c, s, e, a, o))
    case NotProven(c, s, code, o) => Some(Filing(c, s, Unproven, Some(code), o))
    case _ => None
  }

  function Step(v: Vocabulary, l: Log, call: Call): Log {
    match call
    case OpenStage(s) => Opened(v, l, s)
    case DeclareGap(g) =>
      var l' := Opened(v, l, g.stage);
      if GapError(v, g).Some? then l' else l'.(gaps := l'.gaps + [g])
    case _ =>
      var f := FilingOf(v, call);
      if f.Some? then Recorded(v, l, f.value) else l
  }

  function StepReply(v: Vocabulary, l: Log, call: Call): Reply {
    match call
    case OpenStage(s) => if s in v.byStage then Done else Raised(UnknownStage)
    case DeclareGap(g) => if GapError(v, g).Some? then GapError(v, g).value else Done
    case _ =>
      var f := FilingOf(v, call);
      if f.None? then Raised(UnknownReason)
      else RecordReply(v, l, f.value, if call.ExpectRefusal? then Answer(call.actual == Some(call.expected)) else Done)
  }

  function After(v: Vocabulary, l: Log, calls: seq<Call>): Log
    decreases |calls|
  {
    if calls == [] then l else Step(v, After(v, l, calls[..|calls| - 1]), calls[|calls| - 1])
  }

  // ------------------------------------------------------------------ the invariant

  ghost predicate GapKept(v: Vocabulary, l: Log, g: GapRecord) {
    g.stage in l.stages && GapError(v, g).None?
  }

  ghost predicate StagesKept(v: Vocabulary, l: Log) {
    NoDuplicates(l.stages) && forall s :: s in l.stages ==> s in v.byStage
  }

  /**
   What every call keeps: each record filed once, under an opened stage that declares it and under a name that
   was seen; every name seen is declared by an opened stage.
   */
  ghost predicate Sound(v: Vocabulary, l: Log) {
    && StagesKept(v, l)
    && Names(l.checks) <= l.seen <= Declared(v, l.stages)
    && ChecksAdmissible(v, l.stages, l.checks)
    && (forall g :: g in l.gaps ==> GapKept(v, l, g))
  }

  lemma DeclaredGrows(v: Vocabulary, stages: seq<string>, stage: string)
    ensures Declared(v, stages) <= Declared(v, stages + [stage])
  {
  }

  lemma OpenedKeepsSound(v: Vocabulary, l: Log, stage: string)
    requires Sound(v, l)
    ensures Sound(v, Opened(v, l, stage))
  {
    DeclaredGrows(v, l.stages, stage);
  }

  /** A filing that is consistent: a reason exactly when it is no plain observation. */
  predicate Coherent(f: Filing) {
    f.reason.None? <==> f.outcome == Observed
  }

  lemma NamesAppend(checks: seq<CheckRecord>, r: CheckRecord)
    ensures Names(checks + [r]) == Names(checks) + {r.check}
  {
  }

  lemma AppendAdmissible(v: Vocabulary, stages: seq<string>, checks: seq<CheckRecord>, r: CheckRecord)
    requires ChecksAdmissible(v, stages, checks) && CheckAdmissible(v, r) && r.stage in stages
             && r.check !in Names(checks)
    ensures ChecksAdmissible(v, stages, checks + [r])
  {
    forall i, j | 0 <= i < j < |checks + [r]| ensures (checks + [r])[i].check != (checks + [r])[j].check {
      assert (checks + [r])[i] in checks;
    }
  }

  lemma RecordedKeepsSound(v: Vocabulary, l: Log, f: Filing)
    requires WellFormed(v) && Sound(v, l) && Coherent(f)
    ensures Sound(v, Recorded(v, l, f))
  {
    if RecordError(v, l, f).None? {
      assert f.check in AllChecks(v) && f.check in Declared(v, l.stages);
      if f.observation.Some? {
        NamesAppend(l.checks, RecordFrom(f));
        AppendAdmissible(v, l.stages, l.checks, RecordFrom(f));
      }
    }
  }

  lemma GapKeepsSound(v: Vocabulary, l: Log, g: GapRecord)
    requires Sound(v, l) && GapKept(v, l, g)
    ensures Sound(v, l.(gaps := l.gaps + [g]))
  {
  }

  lemma StepKeepsSound(v: Vocabulary, l: Log, call: Call)
    requires WellFormed(v) && Sound(v, l)
    ensures Sound(v, Step(v, l, call))
  {
    match call
    case OpenStage(s) => OpenedKeepsSound(v, l, s);
    case DeclareGap(g) =>
      OpenedKeepsSound(v, l, g.stage);
      if GapError(v, g).None? { GapKeepsSound(v, Opened(v, l, g.stage), g); }
    case _ =>
      var f := FilingOf(v, call);
      if f.Some? { RecordedKeepsSound(v, l, f.value); }
  }

  lemma {:induction false} RunKeepsSound(v: Vocabulary, l: Log, calls: seq<Call>)
    requires WellFormed(v) && Sound(v, l)
    ensures Sound(v, After(v, l, calls))
    decreases |calls|
  {
    if calls != [] {
      var n := |calls| - 1;
      RunKeepsSound(v, l, calls[..n]);
      StepKeepsSound(v, After(v, l, calls[..n]), calls[n]);
    }
  }

  lemma ReachableIsSound(v: Vocabulary, calls: seq<Call>)
    requires WellFormed(v)
    ensures Sound(v, After(v, EMPTY, calls))
  {
    RunKeepsSound(v, EMPTY, calls);
  }

  // ------------------------------------------------------------------ names without a record

  /** The checks that were marked as seen and have no record. */
  function Lost(l: Log): set<string> {
    l.seen - Names(l.checks)
  }

  lemma RecordedLoses(v: Vocabulary, l: Log, f: Filing)
    requires Names(l.checks) <= l.seen
    ensures Lost(Recorded(v, l, f)) == Lost(l) + if RecordReply(v, l, f, Done) == NoDigest then {f.check} else {}
  {
    if RecordError(v, l, f).None? && f.observation.Some? {
      NamesAppend(l.checks, RecordFrom(f));
    }
  }

  lemma StepLoses(v: Vocabulary, l: Log, call: Call)
    requires Names(l.checks) <= l.seen
    ensures Lost(Step(v, l, call)) == {} <==> Lost(l) == {} && StepReply(v, l, call) != NoDigest
  {
    var f := FilingOf(v, call);
    if f.Some? { RecordedLoses(v, l, f.value); }
  }

  /** No call of the run raised for want of a digest. */
  ghost predicate EveryDigestTaken(v: Vocabulary, l: Log, calls: seq<Call>)
    decreases |calls|
  {
    calls != [] ==>
      var n := |calls| - 1;
      EveryDigestTaken(v, l, calls[..n]) && StepReply(v, After(v, l, calls[..n]), calls[n]) != NoDigest
  }

  /** A name is lost exactly when some record call raised for want of a digest, and it stays lost. */
  lemma {:induction false} NothingLostIff(v: Vocabulary, calls: seq<Call>)
    requires WellFormed(v)
    ensures Lost(After(v, EMPTY, calls)) == {} <==> EveryDigestTaken(v, EMPTY, calls)
    decreases |calls|
  {
    if calls != [] {
      var n := |calls| - 1;
      NothingLostIff(v, calls[..n]);
      ReachableIsSound(v, calls[..n]);
      StepLoses(v, After(v, EMPTY, calls[..n]), calls[n]);
    }
  }

  // ------------------------------------------------------------------ what later calls cannot undo

  /** The recorder only ever appends. */
  ghost predicate Extends(l: Log, l': Log) {
    l.stages <= l'.stages && l.checks <= l'.checks && l.gaps <= l'.gaps
  }

  lemma {:induction false} LaterExtends(v: Vocabulary, l: Log, calls: seq<Call>)
    ensures Extends(l, After(v, l, calls))
    decreases |calls|
  {
    if calls != [] {
      LaterExtends(v, l, calls[..|calls| - 1]);
    }
  }

  /** The call that makes a record a pass, or says why it is none. */
  ghost predicate Warrants(call: Call, r: CheckRecord) {
    r.observation.Sha256? &&
    match r.outcome
    case Observed => call == Observe(r.check, r.stage, Some(r.observation.payload))
    case Refused =>
      && r.reason.Some?
      && call == ExpectRefusal(r.check, r.stage, r.reason.value, Some(r.reason.value), Some(r.observation.payload))
    case Unproven =>
      || (r.reason.Some? && call == NotProven(r.check, r.stage, r.reason.value, Some(r.observation.payload)))
      || (call.ExpectRefusal? && call.check == r.check && call.stage == r.stage && call.actual != Some(call.expected))
  }

  /**
   No record without the observation: a check counts as observed only through `observe`, and as refused
   only through a refusal whose code was the one expected.
   */
  lemma {:induction false} EveryRecordIsWarranted(v: Vocabulary, calls: seq<Call>, r: CheckRecord)
    requires r in After(v, EMPTY, calls).checks
    ensures exists i :: 0 <= i < |calls| && Warrants(calls[i], r)
    decreases |calls|
  {
    if calls != [] {
      var n := |calls| - 1;
      var before := After(v, EMPTY, calls[..n]);
      if r in before.checks {
        EveryRecordIsWarranted(v, calls[..n], r);
        var i :| 0 <= i < n && Warrants(calls[..n][i], r);
        assert Warrants(calls[i], r);
      } else {
        assert Warrants(calls[n], r);
      }
    }
  }

  // ------------------------------------------------------------------ sealing

  /** `missing` */
  function Missing(v: Vocabulary, l: Log): seq<string> {
    SortedSet(Declared(v, l.stages) - l.seen)
  }

  function OutcomeOf(v: Vocabulary, l: Log): RunOutcome {
    if Missing(v, l) == [] && NoneUnproven(l.checks) then Passed else Failed
  }

  /** `run_identity`: the digest of the harness contract, the fleet and the release. */
  function RunIdentity(v: Vocabulary, fleet: FleetRecord, release: ReleaseRecord): Digest {
    RunSha256(v.contract, fleet, release)
  }

  /** Two runs have one identity exactly when contract, fleet and release are the same. */
  lemma RunIdentityIff(v: Vocabulary, fleet: FleetRecord, release: ReleaseRecord, w: Vocabulary, fleet': FleetRecord,
                       release': ReleaseRecord)
    ensures RunIdentity(v, fleet, release) == RunIdentity(w, fleet', release')
       <==> v.contract == w.contract && fleet == fleet' && release == release'
  {
  }

  function Sealed(v: Vocabulary, l: Log, fleet: FleetRecord, release: ReleaseRecord, started: string,
                  now: string): Document {
    Document(v.schema, v.contract, RunIdentity(v, fleet, release), OutcomeOf(v, l), started, now, l.stages,
             fleet, release, l.checks, l.gaps, Flags(false, false, true, false))
  }

  /** A gap the loader takes: an identifier, at most 512 weakened checks, and no text shaped like a secret. */
  predicate Declarable(g: GapRecord, secret: string -> bool) {
    Ident(g.gap) && |g.weakens| <= MAX_LIST && !secret(g.gap) && !secret(g.substitute) && !secret(g.why)
  }

  /** What a caller can check before sealing: also that no name was lost, unless the run fails anyway. */
  ghost predicate Sealable(v: Vocabulary, l: Log, secret: string -> bool) {
    && l.stages != [] && |l.gaps| <= MAX_GAPS && (forall g :: g in l.gaps ==> Declarable(g, secret))
    && (OutcomeOf(v, l) == Passed ==> Lost(l) == {})
  }

  predicate Timed(t: string, secret: string -> bool, aware: string -> bool) {
    Within(t, 200) && !secret(t) && aware(t)
  }

  /** Both records within their field bounds, without a secret. */
  predicate Presentable(fleet: FleetRecord, release: ReleaseRecord, secret: string -> bool) {
    && FleetFits(fleet) && ReleaseFits(release)
    && (forall t :: t in FleetTexts(fleet) ==> !secret(t)) && (forall t :: t in ReleaseTexts(release) ==> !secret(t))
  }

  lemma SubsetCard(a: set<string>, b: set<string>)
    requires a <= b
    ensures |a| <= |b|
  {
    if a != {} {
      var x :| x in a;
      SubsetCard(a - {x}, b - {x});
    }
  }

  lemma {:induction false} NamesCount(checks: seq<CheckRecord>)
    requires OneRecordEach(checks)
    ensures |Names(checks)| == |checks|
  {
    if checks != [] {
      var n := |checks| - 1;
      var front := checks[..n];
      NamesCount(front);
      assert checks == front + [checks[n]];
      assert Names(checks) == Names(front) + {checks[n].check};
      assert checks[n].check !in Names(front);
    }
  }

  lemma NamesAreKnown(v: Vocabulary, stages: seq<string>, checks: seq<CheckRecord>)
    requires ChecksAdmissible(v, stages, checks)
    ensures Names(checks) <= AllChecks(v)
  {
    forall c | c in Names(checks) ensures c in AllChecks(v) {
      var r :| r in checks && r.check == c;
      assert CheckAdmissible(v, r);
    }
  }

  lemma EachCheckFits(v: Vocabulary, r: CheckRecord)
    requires WellFormed(v) && CheckAdmissible(v, r)
    ensures CheckFits(r)
  {
  }

  /** The bound on the records can never be met: the vocabulary is too small. */
  lemma ChecksFit(v: Vocabulary, l: Log)
    requires WellFormed(v) && Sound(v, l)
    ensures |l.checks| <= MAX_CHECKS
    ensures forall r :: r in l.checks ==> CheckFits(r)
  {
    NamesCount(l.checks);
    NamesAreKnown(v, l.stages, l.checks);
    SubsetCard(Names(l.checks), AllChecks(v));
    forall r | r in l.checks ensures CheckFits(r) { EachCheckFits(v, r); }
  }

  lemma GapsAdmissibleIff(v: Vocabulary, l: Log)
    requires WellFormed(v) && Sound(v, l)
    ensures (forall g :: g in l.gaps ==> GapAdmissible(v, g)) <==> (forall g :: g in l.gaps ==> Ident(g.gap))
    ensures forall g :: g in l.gaps ==> GapFits(g)
  {
    forall g | g in l.gaps ensures GapFits(g) && (GapAdmissible(v, g) <==> Ident(g.gap)) {
      assert GapKept(v, l, g);
    }
  }

  lemma StagesFit(v: Vocabulary, l: Log)
    requires WellFormed(v) && Sound(v, l)
    ensures |l.stages| <= MAX_LIST
  {
    SizeIffNoDuplicates(l.stages);
    var names := set s | s in l.stages;
    SubsetCard(names, v.byStage.Keys);
    assert |v.byStage.Keys| == |v.byStage|;
  }

  lemma ChecksAreClean(v: Vocabulary, l: Log, secret: string -> bool)
    requires WellFormed(v) && VocabularyClean(v, secret) && Sound(v, l)
    ensures (forall r :: r in l.checks ==> CheckClean(r, secret)) && TextsClean(l.stages, secret)
  {
    forall r | r in l.checks ensures CheckClean(r, secret) {
      assert CheckAdmissible(v, r);
      assert r.check in AllChecks(v);
    }
  }

  lemma FourAndMore(a: string, b: string, c: string, d: string, more: seq<string>, secret: string -> bool)
    ensures TextsClean([a, b, c, d] + more, secret) <==>
            TextClean(a, secret) && TextClean(b, secret) && TextClean(c, secret) && TextClean(d, secret)
            && TextsClean(more, secret)
  {
    var texts := [a, b, c, d] + more;
    assert texts[0] == a && texts[1] == b && texts[2] == c && texts[3] == d;
    assert forall t :: t in texts <==> t == a || t == b || t == c || t == d || t in more;
  }

  lemma GapCleanIff(v: Vocabulary, l: Log, g: GapRecord, secret: string -> bool)
    requires WellFormed(v) && VocabularyClean(v, secret) && Sound(v, l) && g in l.gaps
    ensures GapClean(g, secret) && GapAdmissible(v, g) <==> Declarable(g, secret)
  {
    assert GapKept(v, l, g);
    FourAndMore(g.gap, g.stage, g.substitute, g.why, g.weakens, secret);
    forall c | c in g.weakens ensures TextClean(c, secret) { assert c in AllChecks(v); }
  }

  /** The scan and the admissibility of the gaps, together. */
  lemma GapsLoadIff(v: Vocabulary, l: Log, secret: string -> bool)
    requires WellFormed(v) && VocabularyClean(v, secret) && Sound(v, l)
    ensures (forall g :: g in l.gaps ==> GapClean(g, secret) && GapAdmissible(v, g))
            <==> (forall g :: g in l.gaps ==> Declarable(g, secret))
    ensures forall g :: g in l.gaps ==> GapFits(g)
  {
    forall g | g in l.gaps ensures GapFits(g)
        && (GapClean(g, secret) && GapAdmissible(v, g) <==> Declarable(g, secret)) {
      assert GapKept(v, l, g);
      GapCleanIff(v, l, g, secret);
    }
  }

  lemma HeaderIsClean(v: Vocabulary, started: string, now: string, digest: string, secret: string -> bool)
    requires WellFormed(v) && VocabularyClean(v, secret) && TextClean(digest, secret)
    ensures TextsClean([v.schema, v.contract, started, now, digest], secret)
            <==> TextClean(started, secret) && TextClean(now, secret)
  {
    var texts := [v.schema, v.contract, started, now, digest];
    assert texts[2] == started && texts[3] == now;
  }

  lemma SealedIsClean(v: Vocabulary, l: Log, fleet: FleetRecord, release: ReleaseRecord, started: string, now: string,
                      secret: string -> bool)
    requires WellFormed(v) && VocabularyClean(v, secret) && Sound(v, l)
    ensures Clean(Sealed(v, l, fleet, release, started, now), secret) <==>
            && |l.gaps| <= MAX_LIST && TextClean(started, secret) && TextClean(now, secret)
            && TextsClean(FleetTexts(fleet), secret) && TextsClean(ReleaseTexts(release), secret)
            && (forall g :: g in l.gaps ==> GapClean(g, secret))
  {
    StagesFit(v, l);
    ChecksFit(v, l);
    ChecksAreClean(v, l, secret);
    HeaderIsClean(v, started, now, DigestText(RunIdentity(v, fleet, release)), secret);
  }

  lemma SealedFits(v: Vocabulary, l: Log, fleet: FleetRecord, release: ReleaseRecord, started: string, now: string)
    requires WellFormed(v) && Sound(v, l)
    ensures DocumentFits(Sealed(v, l, fleet, release, started, now)) <==>
            Within(started, 200) && Within(now, 200) && FleetFits(fleet) && ReleaseFits(release)
  {
    ChecksFit(v, l);
    GapsAdmissibleIff(v, l);
  }

  lemma StagesAdmissibleIff(v: Vocabulary, stages: seq<string>)
    requires WellFormed(v) && NoDuplicates(stages) && forall s :: s in stages ==> s in v.byStage
    ensures StagesAdmissible(v, stages) <==> stages != []
  {
  }

  lemma NothingLeftIff(a: set<string>, b: set<string>)
    ensures a - b == {} <==> a <= b
  {
    if a - b == {} {
      forall x | x in a ensures x in b { assert x !in a - b; }
    }
  }

  lemma MissingIff(v: Vocabulary, l: Log)
    ensures Missing(v, l) == [] <==> Declared(v, l.stages) <= l.seen
  {
    SortedSetEmptyIff(Declared(v, l.stages) - l.seen);
    NothingLeftIff(Declared(v, l.stages), l.seen);
  }

  lemma CoveredIsDeclared(v: Vocabulary, stages: seq<string>, checks: seq<CheckRecord>)
    ensures Covered(v, stages, checks) <==> Declared(v, stages) <= Names(checks)
  {
    if Declared(v, stages) <= Names(checks) {
      forall s, c | s in stages && c in ChecksOf(v, s) ensures c in Names(checks) { assert c in Declared(v, stages); }
    }
  }

  lemma OutcomeAdmissibleIff(v: Vocabulary, l: Log)
    requires Sound(v, l)
    ensures OutcomeAdmissible(v, OutcomeOf(v, l), l.stages, l.checks) <==> (OutcomeOf(v, l) == Passed ==> Lost(l) == {})
  {
    MissingIff(v, l);
    CoveredIsDeclared(v, l.stages, l.checks);
  }

  lemma SealedAdmissible(v: Vocabulary, l: Log, fleet: FleetRecord, release: ReleaseRecord, started: string,
                         now: string, aware: string -> bool)
    requires WellFormed(v) && Sound(v, l)
    ensures Admissible(v, Sealed(v, l, fleet, release, started, now), aware) <==>
            && l.stages != [] && |l.gaps| <= MAX_GAPS && (forall g :: g in l.gaps ==> GapAdmissible(v, g))
            && aware(started) && aware(now) && (OutcomeOf(v, l) == Passed ==> Lost(l) == {})
  {
    ChecksFit(v, l);
    StagesAdmissibleIff(v, l.stages);
    OutcomeAdmissibleIff(v, l);
  }

  lemma PresentableIff(fleet: FleetRecord, release: ReleaseRecord, secret: string -> bool)
    ensures Presentable(fleet, release, secret) <==>
            FleetFits(fleet) && ReleaseFits(release) && TextsClean(FleetTexts(fleet), secret)
            && TextsClean(ReleaseTexts(release), secret)
  {
  }

  lemma SealedLoadsIff(v: Vocabulary, l: Log, fleet: FleetRecord, release: ReleaseRecord, started: string, now: string,
                       secret: string -> bool, aware: string -> bool)
    requires WellFormed(v) && VocabularyClean(v, secret) && Sound(v, l)
    ensures Loads(v, Sealed(v, l, fleet, release, started, now), secret, aware) <==>
            && Sealable(v, l, secret) && Timed(started, secret, aware) && Timed(now, secret, aware)
            && Presentable(fleet, release, secret)
  {
    SealedIsClean(v, l, fleet, release, started, now, secret);
    SealedFits(v, l, fleet, release, started, now);
    SealedAdmissible(v, l, fleet, release, started, now, aware);
    GapsLoadIff(v, l, secret);
    PresentableIff(fleet, release, secret);
  }

  /**
   After any calls the sealed document passes the loader exactly when a stage was opened, at most 64 gaps were
   declared, each with an identifier for a name, at most 512 weakened checks and no text shaped like a secret,
   the two records fit and hold no secret, both times are dates with a zone, and no record call raised for want
   of a digest unless the run fails anyway.
   */
  lemma SealPassesLoaderIff(v: Vocabulary, calls: seq<Call>, fleet: FleetRecord, release: ReleaseRecord,
                            started: string, now: string,
                            secret: string -> bool, aware: string -> bool)
    requires WellFormed(v) && VocabularyClean(v, secret)
    ensures var l := After(v, EMPTY, calls);
            Loads(v, Sealed(v, l, fleet, release, started, now), secret, aware) <==>
            && Sealable(v, l, secret) && Timed(started, secret, aware) && Timed(now, secret, aware)
            && Presentable(fleet, release, secret)
  {
    ReachableIsSound(v, calls);
    SealedLoadsIff(v, After(v, EMPTY, calls), fleet, release, started, now, secret, aware);
  }

  /** A recorder nobody used cannot be sealed. */
  lemma NoStageIsRefused(v: Vocabulary, fleet: FleetRecord, release: ReleaseRecord, started: string, now: string,
                         secret: string -> bool, aware: string -> bool)
    ensures !Loads(v, Sealed(v, After(v, EMPTY, []), fleet, release, started, now), secret, aware)
  {
  }

  /** One gap that `declare_gap` accepts, so the run goes on, and that then no seal gets past the loader. */
  lemma AcceptedGapRefusesSeal(v: Vocabulary, g: GapRecord, later: seq<Call>, fleet: FleetRecord,
                               release: ReleaseRecord,
                               started: string, now: string, secret: string -> bool, aware: string -> bool)
    requires WellFormed(v) && VocabularyClean(v, secret) && GapError(v, g).None? && !Declarable(g, secret)
    ensures StepReply(v, EMPTY, DeclareGap(g)) == Done
    ensures !Loads(v, Sealed(v, After(v, Step(v, EMPTY, DeclareGap(g)), later), fleet, release, started, now), secret,
                   aware)
  {
    var l1 := Step(v, EMPTY, DeclareGap(g));
    var l := After(v, l1, later);
    assert Sound(v, EMPTY);
    StepKeepsSound(v, EMPTY, DeclareGap(g));
    RunKeepsSound(v, l1, later);
    LaterExtends(v, l1, later);
    assert g in l1.gaps;
    assert g in l.gaps;
    SealedLoadsIff(v, l, fleet, release, started, now, secret, aware);
  }

  function Repeated(c: string, n: nat): (r: seq<string>)
    ensures |r| == n && forall x :: x in r ==> x == c
  {
    seq(n, _ => c)
  }

  /**
   The two ways past `declare_gap`: a list of 513 weakened checks, and a reason in words the scan takes for a secret.
   */
  lemma RefusedGaps(v: Vocabulary, stage: string, check: string, why: string, secret: string -> bool)
    requires WellFormed(v) && stage in v.byStage && check in v.byStage[stage] && Within(why, 1000) && secret(why)
    ensures var long := GapRecord("g", stage, "s", "w", Repeated(check, 513));
            GapError(v, long).None? && !Declarable(long, secret)
    ensures var leaky := GapRecord("g", stage, "s", why, [check]);
            GapError(v, leaky).None? && !Declarable(leaky, secret)
  {
    assert check in AllChecks(v) && Ident(stage);
  }

  lemma ChecksOfGivenStage(v: Vocabulary, stage: string, check: string)
    requires stage in v.byStage && v.byStage[stage] == [check]
    ensures Declared(v, [stage]) == {check}
  {
    assert ChecksOf(v, stage) == [check];
  }

  /** The run that opens a stage with one check and records something without a digest for it. */
  function LosingRun(stage: string, check: string): seq<Call> {
    [OpenStage(stage)] + [Observe(check, stage, None)]
  }

  lemma LosingRunEnds(v: Vocabulary, stage: string, check: string)
    requires stage in v.byStage && v.byStage[stage] == [check]
    ensures After(v, EMPTY, LosingRun(stage, check)) == Log([stage], [], [], {check})
  {
    var calls := LosingRun(stage, check);
    assert calls[..1] == [OpenStage(stage)] && calls[..1][..0] == [];
    assert After(v, EMPTY, calls[..1]) == Log([stage], [], [], {});
  }

  lemma LosingReply(v: Vocabulary, stage: string, check: string)
    requires stage in v.byStage && v.byStage[stage] == [check]
    ensures StepReply(v, Step(v, EMPTY, OpenStage(stage)), Observe(check, stage, None)) == NoDigest
  {
    assert ChecksOf(v, stage) == [check];
  }

  /** A run with a lost name passes and is refused. */
  lemma LostIsRefused(v: Vocabulary, l: Log, check: string, fleet: FleetRecord, release: ReleaseRecord, started: string,
                      now: string, secret: string -> bool, aware: string -> bool)
    requires WellFormed(v) && VocabularyClean(v, secret) && Sound(v, l)
    requires Declared(v, l.stages) <= l.seen && l.checks == [] && check in l.seen
    ensures Missing(v, l) == [] && OutcomeOf(v, l) == Passed
    ensures !Loads(v, Sealed(v, l, fleet, release, started, now), secret, aware)
  {
    MissingIff(v, l);
    assert check in Lost(l);
    SealedLoadsIff(v, l, fleet, release, started, now, secret, aware);
  }

  /**
   A payload without a digest: the call raises, the check is nowhere recorded, the outcome is passed and the seal is
   refused.
   */
  lemma LostRecordPassesAndIsRefused(v: Vocabulary, stage: string, check: string, fleet: FleetRecord,
                                     release: ReleaseRecord,
                                     started: string, now: string, secret: string -> bool, aware: string -> bool)
    requires WellFormed(v) && VocabularyClean(v, secret) && stage in v.byStage && v.byStage[stage] == [check]
    ensures var l := After(v, EMPTY, LosingRun(stage, check));
            && StepReply(v, Step(v, EMPTY, OpenStage(stage)), Observe(check, stage, None)) == NoDigest
            && l.checks == [] && Missing(v, l) == [] && OutcomeOf(v, l) == Passed
            && !Loads(v, Sealed(v, l, fleet, release, started, now), secret, aware)
  {
    LosingReply(v, stage, check);
    LosingRunEnds(v, stage, check);
    ChecksOfGivenStage(v, stage, check);
    ReachableIsSound(v, LosingRun(stage, check));
    LostIsRefused(v, Log([stage], [], [], {check}), check, fleet, release, started, now, secret, aware);
  }

  lemma SameRemainder(all: set<string>, seen: set<string>, named: set<string>)
    requires named <= seen <= all
    ensures all - seen == all - named <==> seen - named == {}
  {
    if seen - named == {} {
      NothingLeftIff(seen, named);
    } else {
      var c :| c in seen - named;
      assert c in all - named && c !in all - seen;
    }
  }

  lemma MissingAgreesIff(v: Vocabulary, l: Log)
    requires Sound(v, l)
    ensures Missing(v, l) == SortedSet(Declared(v, l.stages) - Names(l.checks)) <==> Lost(l) == {}
  {
    SortedSetInjective(Declared(v, l.stages) - l.seen, Declared(v, l.stages) - Names(l.checks));
    SameRemainder(Declared(v, l.stages), l.seen, Names(l.checks));
  }

  /**
   The recorder's list of missing checks is the one the document computes for itself exactly when no name was lost.
   */
  lemma MissingIsTheDocumentsIff(v: Vocabulary, calls: seq<Call>, fleet: FleetRecord, release: ReleaseRecord,
                                 started: string, now: string)
    requires WellFormed(v)
    ensures var l := After(v, EMPTY, calls);
            var d := Sealed(v, l, fleet, release, started, now);
            Missing(v, l) == SortedSet(Declared(v, d.stages) - Names(d.checks)) <==> EveryDigestTaken(v, EMPTY, calls)
  {
    ReachableIsSound(v, calls);
    NothingLostIff(v, calls);
    MissingAgreesIff(v, After(v, EMPTY, calls));
  }

  function RecordsOf(checks: seq<CheckRecord>, check: string): seq<CheckRecord> {
    if checks == [] then []
    else
      var last := checks[|checks| - 1];
      RecordsOf(checks[..|checks| - 1], check) + if last.check == check then [last] else []
  }

  lemma {:induction false} RecordsOfMembers(checks: seq<CheckRecord>, check: string)
    ensures forall r :: r in RecordsOf(checks, check) <==> r in checks && r.check == check
    decreases |checks|
  {
    if checks != [] {
      var n := |checks| - 1;
      RecordsOfMembers(checks[..n], check);
      assert checks == checks[..n] + [checks[n]];
    }
  }

  lemma FrontHasNot(checks: seq<CheckRecord>, check: string)
    requires checks != [] && OneRecordEach(checks) && checks[|checks| - 1].check == check
    ensures forall r :: r in checks[..|checks| - 1] ==> r.check != check
  {
  }

  lemma {:induction false} RecordsOfOne(checks: seq<CheckRecord>, check: string)
    requires OneRecordEach(checks)
    ensures |RecordsOf(checks, check)| == if check in Names(checks) then 1 else 0
    decreases |checks|
  {
    if checks != [] {
      var n := |checks| - 1;
      RecordsOfOne(checks[..n], check);
      assert checks == checks[..n] + [checks[n]];
      NamesAppend(checks[..n], checks[n]);
      if checks[n].check == check { FrontHasNot(checks, check); }
    }
  }

  /** One check of one opened stage is proven: one record, an observation or the refusal that was expected. */
  ghost predicate Proven(l: Log, check: string) {
    var records := RecordsOf(l.checks, check);
    |records| == 1 && records[0].outcome != Unproven
  }

  /** Every check of every opened stage is proven, or was lost. */
  ghost predicate AllProvenOrLost(v: Vocabulary, l: Log) {
    forall s, c :: s in l.stages && c in ChecksOf(v, s) ==> Proven(l, c) || c in Lost(l)
  }

  lemma SeenMeansProven(v: Vocabulary, l: Log)
    requires Sound(v, l) && Declared(v, l.stages) <= l.seen && NoneUnproven(l.checks)
    ensures AllProvenOrLost(v, l)
  {
    forall s, c | s in l.stages && c in ChecksOf(v, s) ensures Proven(l, c) || c in Lost(l) {
      assert c in Declared(v, l.stages);
      if c in Names(l.checks) {
        RecordsOfOne(l.checks, c);
        RecordsOfMembers(l.checks, c);
        assert RecordsOf(l.checks, c)[0] in RecordsOf(l.checks, c);
      }
    }
  }

  lemma ProvenMeansSeen(v: Vocabulary, l: Log)
    requires Sound(v, l) && AllProvenOrLost(v, l)
    ensures Declared(v, l.stages) <= l.seen && NoneUnproven(l.checks)
  {
    forall c | c in Declared(v, l.stages) ensures c in l.seen {
      var s :| s in l.stages && c in ChecksOf(v, s);
      if c !in Lost(l) { RecordsOfOne(l.checks, c); }
    }
    forall r | r in l.checks ensures r.outcome != Unproven {
      assert CheckAdmissible(v, r) && r.stage in l.stages;
      assert r.check in Names(l.checks);
      RecordsOfMembers(l.checks, r.check);
      assert Proven(l, r.check);
      assert r in RecordsOf(l.checks, r.check);
    }
  }

  /**
   A run passes exactly when every check of every opened stage has one record and that one is a proof, except
   for the checks whose record call raised for want of a digest: those are taken for done.
   */
  lemma PassedIff(v: Vocabulary, calls: seq<Call>)
    requires WellFormed(v)
    ensures var l := After(v, EMPTY, calls);
            OutcomeOf(v, l) == Passed <==>
            forall s, c :: s in l.stages && c in ChecksOf(v, s) ==> Proven(l, c) || c in Lost(l)
  {
    var l := After(v, EMPTY, calls);
    ReachableIsSound(v, calls);
    MissingIff(v, l);
    if OutcomeOf(v, l) == Passed { SeenMeansProven(v, l); }
    if AllProvenOrLost(v, l) { ProvenMeansSeen(v, l); }
  }

  lemma PassedMeansProven(v: Vocabulary, l: Log, stage: string, check: string)
    requires Sound(v, l) && OutcomeOf(v, l) == Passed && Lost(l) == {} && stage in l.stages
             && check in ChecksOf(v, stage)
    ensures Proven(l, check)
  {
    MissingIff(v, l);
    SeenMeansProven(v, l);
    assert check !in Lost(l);
  }

  /**
   What a reader may conclude: a passed run that got past the loader has a proof of every check of every opened stage.
   */
  lemma LoadedPassIsProven(v: Vocabulary, l: Log, fleet: FleetRecord, release: ReleaseRecord, started: string,
                           now: string,
                           secret: string -> bool, aware: string -> bool, stage: string, check: string)
    requires WellFormed(v) && VocabularyClean(v, secret) && Sound(v, l) && OutcomeOf(v, l) == Passed
    requires Loads(v, Sealed(v, l, fleet, release, started, now), secret, aware)
    requires stage in l.stages && check in ChecksOf(v, stage)
    ensures Proven(l, check)
  {
    SealedLoadsIff(v, l, fleet, release, started, now, secret, aware);
    PassedMeansProven(v, l, stage, check);
  }

  /** One unproven check fails the run for good: no later call can turn it into a pass. */
  lemma UnprovenIsForGood(v: Vocabulary, l: Log, later: seq<Call>)
    requires !NoneUnproven(l.checks)
    ensures OutcomeOf(v, After(v, l, later)) == Failed
  {
    LaterExtends(v, l, later);
    var r :| r in l.checks && r.outcome == Unproven;
    assert r in After(v, l, later).checks;
  }

  // ------------------------------------------------------------------ the recorder object

  class Recorder {
    const v: Vocabulary
    const startedAt: string
    var stages: seq<string>
    var checks: seq<CheckRecord>
    var gaps: seq<GapRecord>
    var seen: set<string>

    ghost function View(): Log
      reads this
    {
      Log(stages, checks, gaps, seen)
    }

    constructor (v: Vocabulary, startedAt: string)
      ensures View() == EMPTY && this.v == v && this.startedAt == startedAt
    {
      this.v := v;
      this.startedAt := startedAt;
      stages, checks, gaps, seen := [], [], [], {};
    }

    /** `open_stage` */
    method Open(stage: string) returns (reply: Reply)
      modifies this`stages
      ensures View() == Step(v, old(View()), OpenStage(stage))
      ensures reply == StepReply(v, old(View()), OpenStage(stage))
    {
      if stage !in v.byStage { return Raised(UnknownStage); }
      if stage !in stages { stages := stages + [stage]; }
      return Done;
    }

    /** `_record`: the name first, then the digest, then the record. */
    method Record(f: Filing, good: Reply) returns (reply: Reply)
      modifies this`checks, this`seen
      ensures View() == Recorded(v, old(View()), f)
      ensures reply == RecordReply(v, old(View()), f, good)
    {
      if f.stage !in stages { return Raised(UnknownStage); }
      if f.check !in ChecksOf(v, f.stage) { return Raised(UnknownCheck); }
      if f.check in seen { return Raised(DuplicateCheck); }
      if f.reason.Some? && f.reason.value !in v.reasons { return Raised(UnknownReason); }
      seen := seen + {f.check};
      if f.observation.None? { return NoDigest; }
      checks := checks + [RecordFrom(f)];
      return good;
    }

    /** `observe` */
    method ObserveCheck(check: string, stage: string, observation: Payload) returns (reply: Reply)
      modifies this`checks, this`seen
      ensures View() == Step(v, old(View()), Observe(check, stage, observation))
      ensures reply == StepReply(v, old(View()), Observe(check, stage, observation))
    {
      reply := Record(Filing(check, stage, Observed, None, observation), Done);
    }

    /** `expect_refusal` */
    method Expect(check: string, stage: string, expected: string, actual: Option<string>, observation: Payload)
        returns (reply: Reply)
      modifies this`checks, this`seen
      ensures View() == Step(v, old(View()), ExpectRefusal(check, stage, expected, actual, observation))
      ensures reply == StepReply(v, old(View()), ExpectRefusal(check, stage, expected, actual, observation))
    {
      if expected !in v.reasons { return Raised(UnknownReason); }
      if actual.None? {
        reply := Record(Filing(check, stage, Unproven, Some(v.absent), observation), Answer(false));
      } else if actual.value != expected {
        reply := Record(Filing(check, stage, Unproven, Some(v.unexpected), observation), Answer(false));
      } else {
        reply := Record(Filing(check, stage, Refused, Some(actual.value), observation), Answer(true));
      }
    }

    /** `unproven` */
    method CouldNotProve(check: string, stage: string, code: string, observation: Payload) returns (reply: Reply)
      modifies this`checks, this`seen
      ensures View() == Step(v, old(View()), NotProven(check, stage, code, observation))
      ensures reply == StepReply(v, old(View()), NotProven(check, stage, code, observation))
    {
      reply := Record(Filing(check, stage, Unproven, Some(code), observation), Done);
    }

    /** `declare_gap`: the stage stays open even when the gap is refused. */
    method Declare(g: GapRecord) returns (reply: Reply)
      modifies this`stages, this`gaps
      ensures View() == Step(v, old(View()), DeclareGap(g))
      ensures reply == StepReply(v, old(View()), DeclareGap(g))
    {
      var answer := Open(g.stage);
      if answer.Raised? { return answer; }
      if g.weakens == [] { return Raised(Invalid); }
      for i := 0 to |g.weakens|
        invariant forall j :: 0 <= j < i ==> g.weakens[j] in AllChecks(v)
      {
        if g.weakens[i] !in AllChecks(v) {
          assert g.weakens[i] in g.weakens;
          return Raised(UnknownCheck);
        }
      }
      if !GapFits(g) { return FieldsRefused; }
      gaps := gaps + [g];
      return Done;
    }

    /** `missing` */
    method MissingNow() returns (r: seq<string>)
      ensures r == Missing(v, View())
    {
      var expected := {};
      for i := 0 to |stages|
        invariant expected == Declared(v, stages[..i])
      {
        var more := set c | c in ChecksOf(v, stages[i]);
        assert stages[..i + 1] == stages[..i] + [stages[i]];
        expected := expected + more;
      }
      assert stages[..|stages|] == stages;
      r := SortedSet(expected - seen);
    }

    /** `seal`: the outcome is derived and the document goes through the loader. */
    method Seal(fleet: FleetRecord, release: ReleaseRecord, now: string, secret: string -> bool, aware: string -> bool)
        returns (d: Document, error: Option<Reason>)
      ensures d == Sealed(v, View(), fleet, release, startedAt, now)
      ensures error.None? <==> Loads(v, d, secret, aware)
      ensures WellFormed(v) && VocabularyClean(v, secret) && Sound(v, View()) ==>
              (error.None? <==>
               && Sealable(v, View(), secret) && Timed(startedAt, secret, aware) && Timed(now, secret, aware)
               && Presentable(fleet, release, secret))
    {
      var missing := MissingNow();
      SomeUnproven(checks);
      var outcome := if missing == [] && UnprovenNames(checks) == [] then Passed else Failed;
      d := Document(v.schema, v.contract, RunIdentity(v, fleet, release), outcome, startedAt, now, stages,
                    fleet, release, checks, gaps, Flags(false, false, true, false));
      error := Load(v, d, secret, aware);
      if WellFormed(v) && VocabularyClean(v, secret) && Sound(v, View()) {
        SealedLoadsIff(v, View(), fleet, release, startedAt, now, secret, aware);
      }
    }
  }
}

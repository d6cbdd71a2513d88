/**
 Verification of a signed discovery snapshot, apps/api/secp_api/discovery_verification.py, and what the whole
 pipeline guarantees: contributions, projection, signed states, eligibility.  Signatures, key identities and
 the ISO date parser come in as functions; a facts hash stands for the document it was taken of.
 */
module DiscoveryVerification {
  import opened Wrappers
  import opened Ordering
  import opened DiscoveryCommitment
  import opened DiscoveryProjection
  import opened DiscoveryRules

  datatype FactsHash = HashOf(document: Document<Field>) | OtherHash(text: string)

  type States = seq<(Fact, State)>

  datatype Snapshot = Snapshot(contract: string, operation: string, generation: int, organization: string,
                               target: string,
                               installation: string, role: string, release: string, signer: string, startedAt: string,
                               completedAt: string, freshnessSeconds: int, factsHash: FactsHash, manifestHash: string,
                               states: States)

  datatype Attestation = Attestation(keyId: string, publicKey: string, signature: string)

  datatype Registration = Registration(installation: string, release: string, anchor: string, organization: string)

  /** What the control plane knows on its own: the authorized operation, its recomputed hashes, its clock. */
  datatype Expectation = Expectation(operation: string, generation: int, target: string, organization: string,
                                     factsHash: FactsHash, manifestHash: string,
                                     compilationFacts: seq<Fact>, applyFacts: seq<Fact>, now: int, skew: int)

  /** `verifies` checks a detached signature over the digest of a snapshot against a key. */
  datatype Crypto = Crypto(keyIdFor: string -> string, verifies: (Attestation, Snapshot, string) -> bool)

  /** A parsed time, with or without a zone; the clock of the control plane has one. */
  datatype Reading = Zoned(micros: int) | Local(micros: int)

  type Parser = string -> Option<Reading>

  datatype Signature = SignatureValid | SignatureMissing | SignatureInvalid | UnregisteredSigner | NoRegisteredAnchor
  datatype Freshness = Current | Stale | ClockSkew | Unbounded | InvalidWindow | Incomparable
  datatype Label = Installation | Role | Release | Target | Organization | Operation

  datatype Fault =
    | RegistrationMissing | AnchorMissing | AttestationAbsent
    | SignerNotRegistered | KeyDoesNotDeriveItsId | OtherSignerNamed | AttestationInvalid
    | Mismatch(claim: Label) | GenerationMismatch | FactsChanged | ManifestChanged | ContractMismatch

  /** The six results. */
  datatype Projection = Projection(signature: Signature, bound: bool, freshness: Freshness, complete: bool,
                                   compilation: bool, apply: bool, reasons: seq<Fault>, missingCompilation: States,
                                   missingApply: States)

  const CONTRACT_VERSION: string := "secp-discovery/contract/v1"
  const WORKER_ROLE: string := "proxmox_privileged"

  /** Clock readings are in microseconds. */
  const SECOND: int := 1000000
  const MAX_PLAUSIBLE_FUTURE: int := 3600 * SECOND

  // ------------------------------------------------------------------ freshness

  function Parsed(t: string, parse: Parser): Option<Reading> {
    if t == "" then None else parse(t)
  }

  /** `_freshness`; `Incomparable` is the error Python raises for a time with a zone against one without. */
  function FreshnessOf(b: Snapshot, now: int, skew: int, parse: Parser): Freshness {
    var started, completed := Parsed(b.startedAt, parse), Parsed(b.completedAt, parse);
    if completed.None? then Unbounded
    else if b.freshnessSeconds <= 0 then InvalidWindow
    else if started.Some? && started.value.Zoned? != completed.value.Zoned? then Incomparable
    else if started.Some? && completed.value.micros < started.value.micros then InvalidWindow
    else if completed.value.Local? then Incomparable
    else
      var at := completed.value.micros;
      if at - now > MAX_PLAUSIBLE_FUTURE then InvalidWindow
      else if at - now > skew then ClockSkew
      else if now - at > b.freshnessSeconds * SECOND then Stale
      else Current
  }

  /** The text is a time. */
  ghost predicate Reads(t: string, parse: Parser, time: Reading) {
    t != "" && parse(t) == Some(time)
  }

  /**
   A snapshot counts as current during one interval of the clock, and at no other time: from its completion, give
   or take the skew and an hour at most, for as long as it says it is fresh.
   */
  ghost predicate InWindow(b: Snapshot, now: int, skew: int, parse: Parser) {
    exists at: int ::
      && Reads(b.completedAt, parse, Zoned(at)) && b.freshnessSeconds > 0
      && (forall start :: Reads(b.startedAt, parse, start) ==> start.Zoned? && start.micros <= at)
      && at - skew <= now && at - 3_600_000_000 <= now && now <= at + b.freshnessSeconds * 1_000_000
  }

  lemma CurrentIff(b: Snapshot, now: int, skew: int, parse: Parser)
    ensures FreshnessOf(b, now, skew, parse) == Current <==> InWindow(b, now, skew, parse)
  {
    var started, completed := Parsed(b.startedAt, parse), Parsed(b.completedAt, parse);
    if started.Some? { assert Reads(b.startedAt, parse, started.value); }
    if completed.Some? && completed.value.Zoned? { assert Reads(b.completedAt, parse, Zoned(completed.value.micros)); }
  }

  /** The call raises whatever the clock says, for a lasting window of times that cannot be compared. */
  lemma IncomparableIff(b: Snapshot, now: int, skew: int, parse: Parser)
    ensures FreshnessOf(b, now, skew, parse) == Incomparable <==>
            b.freshnessSeconds > 0
            && exists done :: Reads(b.completedAt, parse, done)
                 && if done.Zoned? then exists start :: Reads(b.startedAt, parse, start) && start.Local?
                    else forall start :: Reads(b.startedAt, parse, start) && start.Local? ==>
                           start.micros <= done.micros
  {
    var started, completed := Parsed(b.startedAt, parse), Parsed(b.completedAt, parse);
    if started.Some? { assert Reads(b.startedAt, parse, started.value); }
    if completed.Some? { assert Reads(b.completedAt, parse, completed.value); }
  }

  /** A stale snapshot never becomes current again. */
  lemma StaleForGood(b: Snapshot, now: int, later: int, skew: int, parse: Parser)
    requires FreshnessOf(b, now, skew, parse) == Stale && now <= later
    ensures FreshnessOf(b, later, skew, parse) != Current
  {
    CurrentIff(b, later, skew, parse);
  }

  // ------------------------------------------------------------------ signed states

  /** `required_fact_states`: the pairs that go inside the signature. */
  function RequiredFactStates(projected: map<Fact, Observation>, facts: seq<Fact>): (r: States)
    requires forall f :: f in facts ==> f in projected
    ensures |r| == |facts| && forall i :: 0 <= i < |r| ==> r[i] == (facts[i], projected[facts[i]].state)
  {
    seq(|facts|, i requires 0 <= i < |facts| => (facts[i], projected[facts[i]].state))
  }

  /** Python's `dict(pairs)`: the last pair of a key wins. */
  function AsDict(pairs: States): map<Fact, State> {
    if pairs == [] then map[] else AsDict(pairs[..|pairs| - 1])[pairs[|pairs| - 1].0 := pairs[|pairs| - 1].1]
  }

  lemma {:induction false} AsDictHolds(pairs: States, i: nat)
    requires i < |pairs| && forall j :: i < j < |pairs| ==> pairs[j].0 != pairs[i].0
    ensures pairs[i].0 in AsDict(pairs) && AsDict(pairs)[pairs[i].0] == pairs[i].1
  {
    var n := |pairs| - 1;
    if i < n {
      assert forall j :: i < j < n ==> pairs[..n][j] == pairs[j];
      AsDictHolds(pairs[..n], i);
    }
  }

  /** The verifier reads back exactly the states the projection had. */
  lemma SignedStatesAreTheProjection(projected: map<Fact, Observation>, sorted: set<Fact> -> seq<Fact>, f: Fact)
    requires Lists(sorted) && f in projected
    ensures (forall g :: g in sorted(projected.Keys) ==> g in projected)
    ensures var dict := AsDict(RequiredFactStates(projected, sorted(projected.Keys)));
            f in dict && dict[f] == projected[f].state
  {
    var facts := sorted(projected.Keys);
    assert Listed(facts, projected.Keys);
    var i :| 0 <= i < |facts| && facts[i] == f;
    AsDictHolds(RequiredFactStates(projected, facts), i);
  }

  function StateOf(states: map<Fact, State>, f: Fact): State {
    if f in states then states[f] else NotRequested
  }

  function MissingFacts(facts: seq<Fact>, states: map<Fact, State>): States {
    if facts == [] then []
    else
      (if StateOf(states, facts[0]) != Observed then [(facts[0], StateOf(states, facts[0]))] else [])
      + MissingFacts(facts[1..], states)
  }

  predicate AllObserved(facts: seq<Fact>, states: States) {
    forall f :: f in facts ==> StateOf(AsDict(states), f) == Observed
  }

  lemma {:induction false} NoneMissingIff(facts: seq<Fact>, states: map<Fact, State>)
    ensures MissingFacts(facts, states) == [] <==> forall f :: f in facts ==> StateOf(states, f) == Observed
  {
    if facts != [] {
      NoneMissingIff(facts[1..], states);
      assert facts[0] in facts;
      assert forall f :: f in facts <==> f == facts[0] || f in facts[1..];
    }
  }

  /** The state the snapshot gives a fact: that of its last pair, or none asked for. */
  ghost predicate Gives(states: States, f: Fact, s: State) {
    || (exists i :: 0 <= i < |states| && states[i] == (f, s) && forall j :: i < j < |states| ==> states[j].0 != f)
    || (s == NotRequested && forall j :: 0 <= j < |states| ==> states[j].0 != f)
  }

  lemma GivesOn(states: States, last: (Fact, State), f: Fact, s: State)
    requires Gives(states, f, s) && last.0 != f
    ensures Gives(states + [last], f, s)
  {
    var more := states + [last];
    if i :| 0 <= i < |states| && states[i] == (f, s) && forall j :: i < j < |states| ==> states[j].0 != f {
      assert more[i] == (f, s);
    }
  }

  lemma {:induction false} AsDictGives(states: States, f: Fact)
    ensures Gives(states, f, StateOf(AsDict(states), f))
    decreases |states|
  {
    if states != [] {
      var n := |states| - 1;
      assert states == states[..n] + [states[n]];
      if states[n].0 != f {
        AsDictGives(states[..n], f);
        GivesOn(states[..n], states[n], f, StateOf(AsDict(states[..n]), f));
      }
    }
  }

  lemma GivesOne(states: States, f: Fact, s: State, t: State)
    requires Gives(states, f, s) && Gives(states, f, t)
    ensures s == t
  {
  }

  lemma {:induction false} MissingFactsAre(facts: seq<Fact>, states: map<Fact, State>, f: Fact, s: State)
    ensures (f, s) in MissingFacts(facts, states) <==> f in facts && s != Observed && s == StateOf(states, f)
  {
    if facts != [] {
      MissingFactsAre(facts[1..], states, f, s);
      assert f in facts <==> f == facts[0] || f in facts[1..];
    }
  }

  /** The missing facts: each fact asked for that was not observed, with the state the snapshot gives it. */
  ghost predicate IsMissing(missing: States, facts: seq<Fact>, states: States) {
    && (forall f, s :: (f, s) in missing <==> f in facts && s != Observed && Gives(states, f, s))
    && (forall i, j :: 0 <= i < j < |missing| ==> Precedes(facts, missing[i].0, missing[j].0))
  }

  /** Somewhere in the list the one stands before the other. */
  ghost predicate Precedes(facts: seq<Fact>, f: Fact, g: Fact) {
    exists i, j :: 0 <= i < j < |facts| && facts[i] == f && facts[j] == g
  }

  lemma {:induction false} MissingInOrder(facts: seq<Fact>, states: map<Fact, State>)
    ensures var m := MissingFacts(facts, states);
            forall i, j :: 0 <= i < j < |m| ==> Precedes(facts, m[i].0, m[j].0)
  {
    if facts != [] {
      var rest, m := MissingFacts(facts[1..], states), MissingFacts(facts, states);
      MissingInOrder(facts[1..], states);
      var k := |m| - |rest|;
      forall i, j | 0 <= i < j < |m| ensures Precedes(facts, m[i].0, m[j].0) {
        assert m[j] == rest[j - k] && rest[j - k] in rest;
        if i < k {
          MissingFactsAre(facts[1..], states, m[j].0, m[j].1);
          var n :| 0 <= n < |facts[1..]| && facts[1..][n] == m[j].0;
          assert facts[0] == m[i].0 && facts[n + 1] == m[j].0;
        } else {
          assert Precedes(facts[1..], rest[i - k].0, rest[j - k].0);
          var x, y :| 0 <= x < y < |facts[1..]| && facts[1..][x] == m[i].0 && facts[1..][y] == m[j].0;
          assert facts[x + 1] == m[i].0 && facts[y + 1] == m[j].0;
        }
      }
    }
  }

  lemma MissingIs(facts: seq<Fact>, states: States)
    ensures IsMissing(MissingFacts(facts, AsDict(states)), facts, states)
  {
    var missing := MissingFacts(facts, AsDict(states));
    forall f, s ensures (f, s) in missing <==> f in facts && s != Observed && Gives(states, f, s) {
      MissingFactsAre(facts, AsDict(states), f, s);
      AsDictGives(states, f);
      if Gives(states, f, s) { GivesOne(states, f, s, StateOf(AsDict(states), f)); }
    }
    MissingInOrder(facts, AsDict(states));
  }

  // ------------------------------------------------------------------ the verifier

  /** The signer is the registered one: the anchor comes from the registration, never from the envelope. */
  predicate SignerRegistered(b: Snapshot, att: Option<Attestation>, reg: Option<Registration>, crypto: Crypto) {
    && reg.Some? && reg.value.anchor != "" && att.Some? && att.value.keyId == reg.value.anchor
    && crypto.keyIdFor(att.value.publicKey) == att.value.keyId
    && (b.signer == "" || b.signer == att.value.keyId)
  }

  predicate Signed(b: Snapshot, att: Option<Attestation>, reg: Option<Registration>, crypto: Crypto) {
    SignerRegistered(b, att, reg, crypto) && crypto.verifies(att.value, b, reg.value.anchor)
  }

  /** Everything the snapshot says about itself agrees with what the control plane knows. */
  predicate Agrees(b: Snapshot, reg: Registration, e: Expectation) {
    && b.installation == reg.installation && b.role == WORKER_ROLE && b.release == reg.release
    && b.target == e.target && b.organization == e.organization && b.operation == e.operation
    && b.generation == e.generation && b.factsHash == e.factsHash && b.manifestHash == e.manifestHash
    && b.contract == CONTRACT_VERSION
  }

  predicate Authentic(b: Snapshot, att: Option<Attestation>, reg: Option<Registration>, e: Expectation,
                      crypto: Crypto) {
    Signed(b, att, reg, crypto) && Agrees(b, reg.value, e)
  }

  predicate CompilationEligible(b: Snapshot, att: Option<Attestation>, reg: Option<Registration>, e: Expectation,
                                crypto: Crypto, parse: Parser) {
    && Authentic(b, att, reg, e, crypto) && FreshnessOf(b, e.now, e.skew, parse) == Current
    && AllObserved(e.compilationFacts, b.states)
  }

  predicate ApplyEligible(b: Snapshot, att: Option<Attestation>, reg: Option<Registration>, e: Expectation,
                          crypto: Crypto, parse: Parser) {
    CompilationEligible(b, att, reg, e, crypto, parse) && AllObserved(e.applyFacts, b.states)
  }

  /** `_refused` */
  function RefusedBy(signature: Signature, reasons: seq<Fault>): Projection {
    Projection(signature, false, Unbounded, false, false, false, reasons, [], [])
  }

  function Claims(b: Snapshot, reg: Registration, e: Expectation): seq<(Label, string, string)> {
    [(Installation, b.installation, reg.installation), (Role, b.role, WORKER_ROLE), (Release, b.release, reg.release),
     (Target, b.target, e.target), (Organization, b.organization, e.organization),
     (Operation, b.operation, e.operation)]
  }

  /** The labels whose claims differ, every one of them. */
  method CompareClaims(claims: seq<(Label, string, string)>) returns (faults: seq<Fault>)
    ensures forall fault :: fault in faults <==> exists c :: c in claims && c.1 != c.2 && fault == Mismatch(c.0)
  {
    faults := [];
    for i := 0 to |claims|
      invariant forall fault :: fault in faults <==>
                  exists j :: 0 <= j < i && claims[j].1 != claims[j].2 && fault == Mismatch(claims[j].0)
    {
      if claims[i].1 != claims[i].2 {
        faults := faults + [Mismatch(claims[i].0)];
      }
    }
  }

  predicate Wrong(b: Snapshot, reg: Registration, e: Expectation, fault: Fault) {
    match fault
    case Mismatch(Installation) => b.installation != reg.installation
    case Mismatch(Role) => b.role != WORKER_ROLE
    case Mismatch(Release) => b.release != reg.release
    case Mismatch(Target) => b.target != e.target
    case Mismatch(Organization) => b.organization != e.organization
    case Mismatch(Operation) => b.operation != e.operation
    case GenerationMismatch => b.generation != e.generation
    case FactsChanged => b.factsHash != e.factsHash
    case ManifestChanged => b.manifestHash != e.manifestHash
    case ContractMismatch => b.contract != CONTRACT_VERSION
    case _ => false
  }

  lemma WrongClaimIff(b: Snapshot, reg: Registration, e: Expectation, claim: Label)
    ensures Wrong(b, reg, e, Mismatch(claim))
            <==> exists c :: c in Claims(b, reg, e) && c.1 != c.2 && Mismatch(claim) == Mismatch(c.0)
  {
    var claims := Claims(b, reg, e);
    var i := match claim case Installation => 0 case Role => 1 case Release => 2
                          case Target => 3 case Organization => 4 case Operation => 5;
    assert claims[i] in claims && claims[i].0 == claim;
  }

  /** Step 7: every disagreement is reported, and nothing else. */
  method CompareBinding(b: Snapshot, reg: Registration, e: Expectation) returns (faults: seq<Fault>)
    ensures forall fault :: fault in faults <==> Wrong(b, reg, e, fault)
    ensures faults == [] <==> Agrees(b, reg, e)
  {
    faults := CompareClaims(Claims(b, reg, e));
    forall fault ensures fault in faults <==> fault.Mismatch? && Wrong(b, reg, e, fault) {
      if fault.Mismatch? { WrongClaimIff(b, reg, e, fault.claim); }
    }
    if b.generation != e.generation { faults := faults + [GenerationMismatch]; }
    if b.factsHash != e.factsHash { faults := faults + [FactsChanged]; }
    if b.manifestHash != e.manifestHash { faults := faults + [ManifestChanged]; }
    if b.contract != CONTRACT_VERSION { faults := faults + [ContractMismatch]; }
    NothingWrongIff(b, reg, e);
    if faults != [] { assert Wrong(b, reg, e, faults[0]); }
  }

  lemma NothingWrongIff(b: Snapshot, reg: Registration, e: Expectation)
    ensures Agrees(b, reg, e) <==> forall fault :: !Wrong(b, reg, e, fault)
  {
    if forall fault :: !Wrong(b, reg, e, fault) {
      assert !Wrong(b, reg, e, Mismatch(Installation)) && !Wrong(b, reg, e, Mismatch(Role))
             && !Wrong(b, reg, e, Mismatch(Release));
      assert !Wrong(b, reg, e, Mismatch(Target)) && !Wrong(b, reg, e, Mismatch(Organization))
             && !Wrong(b, reg, e, Mismatch(Operation));
      assert !Wrong(b, reg, e, GenerationMismatch) && !Wrong(b, reg, e, FactsChanged);
      assert !Wrong(b, reg, e, ManifestChanged) && !Wrong(b, reg, e, ContractMismatch);
    }
  }

  /** Steps 1 to 6: the signature, or the refusal. */
  method CheckSignature(b: Snapshot, att: Option<Attestation>, reg: Option<Registration>, crypto: Crypto)
      returns (signature: Signature, reasons: seq<Fault>)
    ensures signature == SignatureValid <==> Signed(b, att, reg, crypto)
    ensures reasons == [] <==> signature == SignatureValid
    ensures signature == NoRegisteredAnchor <==> !(reg.Some? && reg.value.anchor != "")
    ensures signature == SignatureMissing <==> reg.Some? && reg.value.anchor != "" && att.None?
    ensures signature == UnregisteredSigner <==>
            reg.Some? && reg.value.anchor != "" && att.Some? && !SignerRegistered(b, att, reg, crypto)
    ensures signature == UnregisteredSigner ==>
              && (SignerNotRegistered in reasons <==> att.value.keyId != reg.value.anchor)
              && (KeyDoesNotDeriveItsId in reasons <==> crypto.keyIdFor(att.value.publicKey) != att.value.keyId)
              && (OtherSignerNamed in reasons <==> b.signer != "" && b.signer != att.value.keyId)
  {
    if reg.None? { return NoRegisteredAnchor, [RegistrationMissing]; }
    if reg.value.anchor == "" { return NoRegisteredAnchor, [AnchorMissing]; }
    if att.None? { return SignatureMissing, [AttestationAbsent]; }
    reasons := [];
    if att.value.keyId != reg.value.anchor { reasons := reasons + [SignerNotRegistered]; }
    if crypto.keyIdFor(att.value.publicKey) != att.value.keyId { reasons := reasons + [KeyDoesNotDeriveItsId]; }
    if b.signer != "" && b.signer != att.value.keyId { reasons := reasons + [OtherSignerNamed]; }
    if reasons != [] { return UnregisteredSigner, reasons; }
    if !crypto.verifies(att.value, b, reg.value.anchor) { return SignatureInvalid, [AttestationInvalid]; }
    return SignatureValid, [];
  }

  /** The result and the authority, or the error `_freshness` raises. */
  datatype Verification = Verified(p: Projection, authority: Option<Snapshot>) | Raised

  /** `verify_discovery_snapshot` */
  method VerifyDiscoverySnapshot(b: Snapshot, att: Option<Attestation>, reg: Option<Registration>, e: Expectation,
                                 crypto: Crypto, parse: Parser)
      returns (v: Verification)
    ensures v.Raised? <==> Signed(b, att, reg, crypto) && FreshnessOf(b, e.now, e.skew, parse) == Incomparable
    ensures v.Verified? ==>
              && (v.p.signature == SignatureValid <==> Signed(b, att, reg, crypto))
              && v.authority == (if Authentic(b, att, reg, e, crypto) then Some(b) else None)
              && (v.p.bound <==> Authentic(b, att, reg, e, crypto))
              && (v.p.reasons == [] <==> Authentic(b, att, reg, e, crypto))
              && (Signed(b, att, reg, crypto) ==>
                    forall fault :: fault in v.p.reasons <==> Wrong(b, reg.value, e, fault))
    ensures v.Verified? ==>
              && v.p.freshness
                 == (if Signed(b, att, reg, crypto) then FreshnessOf(b, e.now, e.skew, parse) else Unbounded)
              && (v.p.complete <==>
                  Signed(b, att, reg, crypto) && AllObserved(e.compilationFacts, b.states)
                  && AllObserved(e.applyFacts, b.states))
    ensures v.Verified? && Signed(b, att, reg, crypto) ==>
              && IsMissing(v.p.missingCompilation, e.compilationFacts, b.states)
              && IsMissing(v.p.missingApply, e.applyFacts, b.states)
    ensures v.Verified? && !Signed(b, att, reg, crypto) ==>
              v.p.missingCompilation == [] && v.p.missingApply == [] && !v.p.complete
    ensures v.Verified? && v.p.compilation <==> CompilationEligible(b, att, reg, e, crypto, parse)
    ensures v.Verified? && v.p.apply <==> ApplyEligible(b, att, reg, e, crypto, parse)
  {
    var signature, refusals := CheckSignature(b, att, reg, crypto);
    if signature != SignatureValid {
      return Verified(RefusedBy(signature, refusals), None);
    }
    var faults := CompareBinding(b, reg.value, e);
    var authentic := faults == [];
    var freshness := FreshnessOf(b, e.now, e.skew, parse);
    if freshness == Incomparable {
      return Raised;
    }
    var states := AsDict(b.states);
    var missingCompilation := MissingFacts(e.compilationFacts, states);
    var missingApply := MissingFacts(e.applyFacts, states);
    NoneMissingIff(e.compilationFacts, states);
    NoneMissingIff(e.applyFacts, states);
    MissingIs(e.compilationFacts, b.states);
    MissingIs(e.applyFacts, b.states);
    var inTime := freshness == Current;
    var p := Projection(SignatureValid, authentic, freshness, missingCompilation == [] && missingApply == [],
                        authentic && inTime && missingCompilation == [],
                        authentic && inTime && missingCompilation == [] && missingApply == [],
                        faults, missingCompilation, missingApply);
    return Verified(p, if authentic then Some(b) else None);
  }

  // ------------------------------------------------------------------ the whole pipeline

  /** One discovery run: what it observed, what the control plane supplied, and every contribution. */
  datatype Evidence = Evidence(raw: Raw, supplied: map<Fact, Observation>, sources: Sources, show: Show)

  function ProjectedFrom(v: Evidence): map<Fact, Observation> {
    Projected(v.raw, v.supplied, v.sources, v.show)
  }

  /** The snapshot carries the states of this evidence. */
  ghost predicate Carries(b: Snapshot, v: Evidence, sorted: set<Fact> -> seq<Fact>) {
    && Lists(sorted)
    && (forall f :: f in sorted(ProjectedFrom(v).Keys) ==> f in ProjectedFrom(v))
    && b.states == RequiredFactStates(ProjectedFrom(v), sorted(ProjectedFrom(v).Keys))
  }

  ghost predicate EstablishedBy(f: Fact, v: Evidence) {
    Warranted(f, v.raw, v.supplied, v.sources, v.show)
  }

  ghost predicate AllEstablished(facts: seq<Fact>, v: Evidence) {
    forall f :: f in facts ==> EstablishedBy(f, v)
  }

  lemma ObservedMeansEstablished(b: Snapshot, v: Evidence, sorted: set<Fact> -> seq<Fact>, f: Fact)
    requires Carries(b, v, sorted)
    ensures StateOf(AsDict(b.states), f) == Observed <==> EstablishedBy(f, v)
  {
    var projected := ProjectedFrom(v);
    assert f in projected;
    SignedStatesAreTheProjection(projected, sorted, f);
    UsableIffWarranted(f, v.raw, v.supplied, v.sources, v.show);
  }

  lemma AllObservedIff(b: Snapshot, v: Evidence, sorted: set<Fact> -> seq<Fact>, facts: seq<Fact>)
    requires Carries(b, v, sorted)
    ensures AllObserved(facts, b.states) <==> AllEstablished(facts, v)
  {
    forall f ensures StateOf(AsDict(b.states), f) == Observed <==> EstablishedBy(f, v) {
      ObservedMeansEstablished(b, v, sorted, f);
    }
  }

  /**
   From evidence to verdict: a snapshot of a run is eligible for compilation exactly when it is authentic, the
   clock is in its window and the run established every fact compilation needs.
   */
  lemma EligibleIff(b: Snapshot, v: Evidence, sorted: set<Fact> -> seq<Fact>, att: Option<Attestation>,
                    reg: Option<Registration>,
                    e: Expectation, crypto: Crypto, parse: Parser)
    requires Carries(b, v, sorted) && e.compilationFacts == CompilationFacts() && e.applyFacts == ApplyFacts()
    ensures CompilationEligible(b, att, reg, e, crypto, parse) <==>
            && Authentic(b, att, reg, e, crypto) && InWindow(b, e.now, e.skew, parse)
            && AllEstablished(CompilationFacts(), v)
    ensures ApplyEligible(b, att, reg, e, crypto, parse) <==>
            CompilationEligible(b, att, reg, e, crypto, parse) && AllEstablished(ApplyFacts(), v)
  {
    CurrentIff(b, e.now, e.skew, parse);
    AllObservedIff(b, v, sorted, e.compilationFacts);
    AllObservedIff(b, v, sorted, e.applyFacts);
  }

  /** The facts by which the compiler places things on nodes. */
  ghost predicate Places(f: Fact) {
    f in {ExistingVmIds, ExistingLxcIds, StorageIds, AllowedStorageContent, Bridges, BridgeVlanAwareness,
          ManagementCidrs, ManagementBridges}
  }

  /**
   What a compiler may rely on when it is told a snapshot is eligible: both authorities were shown, nothing
   pends unseen, and every known node is answered for and found in each of the values it places things by.
   */
  ghost predicate SafeFor(v: Evidence) {
    && SawFlag(v.raw, SdnReadAuthority, "cluster_sdn_readable")
    && SawFlag(v.raw, GuestReadAuthority, "vm_audit_granted")
    && PendingListed(v.raw) && NodesKnown(v.raw)
    && forall f :: Places(f) ==> Accounted(f, v.raw, v.sources, v.show)
  }

  lemma PlacingIsRequired(f: Fact)
    requires Places(f)
    ensures f in CompilationFacts() && (PerNode(f) || Things(f).Some?)
  {
  }

  lemma NodeFactIsAccounted(f: Fact, v: Evidence)
    requires EstablishedBy(f, v) && (PerNode(f) || Things(f).Some?)
    ensures Accounted(f, v.raw, v.sources, v.show)
  {
    PerNodeIsRead(f);
  }

  lemma GatesAreOpen(v: Evidence)
    requires EstablishedBy(PendingSdnState, v) && EstablishedBy(ExistingVmIds, v)
    ensures SawFlag(v.raw, SdnReadAuthority, "cluster_sdn_readable")
            && SawFlag(v.raw, GuestReadAuthority, "vm_audit_granted")
    ensures PendingListed(v.raw) && NodesKnown(v.raw)
  {
  }

  lemma EligibleIsSafe(b: Snapshot, v: Evidence, sorted: set<Fact> -> seq<Fact>, att: Option<Attestation>,
                       reg: Option<Registration>, e: Expectation, crypto: Crypto, parse: Parser)
    requires Carries(b, v, sorted) && e.compilationFacts == CompilationFacts()
    requires CompilationEligible(b, att, reg, e, crypto, parse)
    ensures SafeFor(v)
  {
    AllObservedIff(b, v, sorted, e.compilationFacts);
    assert PendingSdnState in CompilationFacts() && ExistingVmIds in CompilationFacts();
    GatesAreOpen(v);
    forall f | Places(f) ensures Accounted(f, v.raw, v.sources, v.show) {
      PlacingIsRequired(f);
      NodeFactIsAccounted(f, v);
    }
  }

  /** One failing answer about one known node, and no clock, key or other answer makes the snapshot eligible. */
  lemma OneFailureRefuses(b: Snapshot, v: Evidence, sorted: set<Fact> -> seq<Fact>, att: Option<Attestation>,
                          reg: Option<Registration>,
                          e: Expectation, crypto: Crypto, parse: Parser, f: Fact, c: Contribution, node: string)
    requires Carries(b, v, sorted) && e.compilationFacts == CompilationFacts() && f in CompilationFacts()
             && NodeScoped(f)
    requires KnownNodes(v.raw, v.show).Some? && node in KnownNodes(v.raw, v.show).value
    requires c in ContributionsTo(v.sources, f) && Speaks(c, node) && c.state != Observed
    ensures !CompilationEligible(b, att, reg, e, crypto, parse)
  {
    FailureIsNotCured(f, v.raw, v.supplied, v.sources, v.show, c, node);
    UsableIffWarranted(f, v.raw, v.supplied, v.sources, v.show);
    ObservedMeansEstablished(b, v, sorted, f);
  }

  /**
   A snapshot signed over one commitment is authentic only against the same commitment: whatever the control
   plane stores in its place may differ in the order of mappings and in nothing else.
   */
  lemma StoredFactsAreTheSigned(b: Snapshot, att: Option<Attestation>, reg: Option<Registration>, e: Expectation,
                                crypto: Crypto,
                                signed: Commitment<Field>, stored: Commitment<Field>, sorted: set<Field> -> seq<Field>)
    requires Lists(sorted)
    requires ProperFacts(signed.observations) && ProperFacts(signed.required)
    requires ProperFacts(stored.observations) && ProperFacts(stored.required)
    requires b.factsHash == HashOf(DocumentOf(signed, sorted)) && e.factsHash == HashOf(DocumentOf(stored, sorted))
    requires Authentic(b, att, reg, e, crypto)
    ensures SameCommitment(signed, stored)
  {
    DocumentIff(signed, stored, sorted);
  }
}

/**
 Concrete artifacts that `check_artifact` accepts and that the reconciler and the verifier treat differently:
 the failing side of the exact conditions in the other two modules.
 */
module KeycloakCases {
  import opened Wrappers
  import opened Ordering
  import opened KeycloakRealm
  import opened KeycloakReconciler
  import opened KeycloakVerifier

  /** The least core the artifact check takes: nothing is said about bearerOnly, redirectUris or webOrigins. */
  function LeastCore(): Object {
    map["clientId" := Str(CLIENT_ID), "protocol" := Str("openid-connect"), "enabled" := Bool(true),
        "publicClient" := Bool(true),
        "attributes" := Obj(map[DEVICE_GRANT := Str("true"), REFRESH := Str("false")]),
        "standardFlowEnabled" := Bool(false), "implicitFlowEnabled" := Bool(false),
        "directAccessGrantsEnabled" := Bool(false), "serviceAccountsEnabled" := Bool(false),
        "fullScopeAllowed" := Bool(false)]
  }

  function AudienceMapper(name: string, consent: Json): Mapper {
    Mapper(name, Str("openid-connect"), Str(AUDIENCE_MAPPER), consent,
           Some(map[AUDIENCE := Str("secp-api"), ACCESS_CLAIM := Str("true")]))
  }

  function Least(mappers: seq<Mapper>): Artifact {
    Artifact(LeastCore(), [], [], mappers)
  }

  lemma LeastFields()
    ensures var core := LeastCore();
            && Get(core, "clientId") == Str(CLIENT_ID) && Get(core, "protocol") == Str("openid-connect")
            && Get(core, "enabled") == Bool(true) && Get(core, "publicClient") == Bool(true)
            && Get(core, "attributes") == Obj(map[DEVICE_GRANT := Str("true"), REFRESH := Str("false")])
  {
  }

  lemma LeastAttributes()
    ensures Get(AttributesOf(LeastCore()), DEVICE_GRANT) == Str("true")
            && Get(AttributesOf(LeastCore()), REFRESH) == Str("false")
  {
    LeastFields();
    assert |DEVICE_GRANT| != |REFRESH|;
  }

  lemma LeastFlows()
    ensures FlowProblems(LeastCore(), RefusedFlows()) == [] && Get(LeastCore(), "fullScopeAllowed") == Bool(false)
  {
    var core := LeastCore();
    assert Get(core, "standardFlowEnabled") == Bool(false) && Get(core, "implicitFlowEnabled") == Bool(false);
    assert Get(core, "directAccessGrantsEnabled") == Bool(false) && Get(core, "serviceAccountsEnabled") == Bool(false);
  }

  lemma LeastOmissions()
    ensures var core := LeastCore();
            && "secret" !in core && "bearerOnly" !in core && "redirectUris" !in core
            && "webOrigins" !in core && "description" !in core
  {
  }

  lemma LeastIsAccepted(mappers: seq<Mapper>)
    requires CheckAudienceMappers(mappers) == []
    ensures CheckArtifact(Least(mappers)) == []
  {
    LeastFields();
    LeastAttributes();
    LeastFlows();
    LeastOmissions();
  }

  lemma RightConfig(name: string, consent: Json)
    ensures RightAudience(AudienceMapper(name, consent).config.value)
  {
    assert |AUDIENCE| != |ACCESS_CLAIM|;
  }

  lemma OneAudienceMapper(name: string, consent: Json)
    ensures CheckAudienceMappers([AudienceMapper(name, consent)]) == []
  {
    var mappers := [AudienceMapper(name, consent)];
    assert OnlyAudience(mappers, 0);
    AudienceVerdict(mappers, 0);
    RightConfig(name, consent);
  }

  // ------------------------------------------------------------------ a second run that is not silent

  /** A realm without the client, and a provider that adds no scopes or mappers. */
  function BareRealm(p: Provider): Realm {
    Realm(None, {}, {}, map[], {}, p.(defaults := {}, optionals := {}, mappers := map[]))
  }

  lemma NoScopesAreThere(r: Realm, a: Artifact, sorted: Listing)
    requires Lists(sorted) && a.defaultScopes == [] && a.optionalScopes == []
    ensures RunOn(r, a, true, sorted).ok
  {
    assert Wanted(a, Default) == {} && Wanted(a, Optional) == {};
  }

  /** The realm after n write runs. */
  function Rerun(r: Realm, a: Artifact, sorted: Listing, n: nat): Realm
    requires Lists(sorted)
  {
    if n == 0 then r else RunOn(Rerun(r, a, sorted, n - 1), a, true, sorted).realm
  }

  /** The artifact leaves the mapper's consent to a provider that has a default for it. */
  function Unset(): Artifact {
    Least([AudienceMapper("aud", Null)])
  }

  ghost predicate Unsettled(r: Realm) {
    r.provider.consent != Null && "aud" !in Right(Found(r), ByName(Unset().mappers))
  }

  lemma UnsettledAfterRun(r: Realm, sorted: Listing)
    requires Lists(sorted) && r.provider.consent != Null && "aud" !in Right(Found(r), ByName(Unset().mappers))
    ensures Unsettled(RunOn(r, Unset(), true, sorted).realm)
  {
    var a := Unset();
    var wanted := ByName(a.mappers);
    NoScopesAreThere(r, a, sorted);
    WriteRunResult(r, a, sorted);
    CoreServed(r, a);
    ServedKeepsProvider(r, CoreSteps(r, a));
    OneMapperByName(AudienceMapper("aud", Null));
    var r' := RunOn(r, a, true, sorted).realm;
    assert r'.mappers["aud"] == Completed(r.provider, wanted["aud"]);
  }

  lemma {:induction false} ServedKeepsProvider(r: Realm, steps: seq<Step>)
    ensures ServeAll(r, steps).provider == r.provider
    decreases |steps|
  {
    if steps != [] {
      ServedKeepsProvider(Serve(r, steps[0].request), steps[1..]);
    }
  }

  lemma UnsettledActs(r: Realm, sorted: Listing)
    requires Lists(sorted) && Unsettled(r)
    ensures RunOn(r, Unset(), true, sorted).actions != []
  {
    var a := Unset();
    OneMapperByName(AudienceMapper("aud", Null));
    NoScopesAreThere(r, a, sorted);
    if r.client.Some? {
      DryRunIsFaithful(r, a, sorted);
      NothingToDoIff(r, a, sorted);
    }
  }

  lemma {:induction false} AlwaysUnsettled(r: Realm, sorted: Listing, n: nat)
    requires Lists(sorted) && Unsettled(r)
    ensures Unsettled(Rerun(r, Unset(), sorted, n))
  {
    if n > 0 {
      AlwaysUnsettled(r, sorted, n - 1);
      UnsettledAfterRun(Rerun(r, Unset(), sorted, n - 1), sorted);
    }
  }

  /** An accepted artifact with an unset consent: after any number of successful write runs the next one acts again. */
  lemma UnsetConsentNeverSettles(p: Provider, n: nat)
    requires p.consent != Null
    ensures Lists(SortedSet) && CheckArtifact(Unset()) == []
    ensures RunOn(Rerun(BareRealm(p), Unset(), SortedSet, n), Unset(), true, SortedSet).ok
    ensures RunOn(Rerun(BareRealm(p), Unset(), SortedSet, n), Unset(), true, SortedSet).actions != []
  {
    SortedSetLists();
    OneAudienceMapper("aud", Null);
    LeastIsAccepted([AudienceMapper("aud", Null)]);
    AlwaysUnsettled(BareRealm(p), SortedSet, n);
    var r := Rerun(BareRealm(p), Unset(), SortedSet, n);
    NoScopesAreThere(r, Unset(), SortedSet);
    UnsettledActs(r, SortedSet);
  }

  lemma OneMapperByName(m: Mapper)
    ensures ByName([m]) == map[m.name := m]
  {
    assert [m][..0] == [];
  }

  // ------------------------------------------------------------------ conforming realms the verifier refuses

  function RealmOf(a: Artifact, p: Provider): Realm {
    Realm(Some(a.core), {}, {}, ByName(a.mappers), {}, p)
  }

  lemma CoreMatchesItself(core: Object)
    requires "attributes" in core ==> core["attributes"].Obj?
    ensures CoreMatches(core, core)
  {
  }

  lemma RealmOfConforms(a: Artifact, p: Provider)
    requires "attributes" in a.core ==> a.core["attributes"].Obj?
    requires a.defaultScopes == [] && a.optionalScopes == [] && forall m :: m in a.mappers ==> m.config.Some?
    ensures Conforms(RealmOf(a, p), a)
  {
    CoreMatchesItself(a.core);
    var wanted := ByName(a.mappers);
    assert Right(wanted, wanted) == wanted.Keys;
  }

  /** The least artifact with some mappers, and what the cases below need of it. */
  lemma LeastArtifact(mappers: seq<Mapper>) returns (a: Artifact)
    requires CheckAudienceMappers(mappers) == []
    ensures CheckArtifact(a) == [] && a.mappers == mappers && a.defaultScopes == [] && a.optionalScopes == []
    ensures "bearerOnly" !in a.core && ("attributes" in a.core ==> a.core["attributes"].Obj?)
  {
    a := Least(mappers);
    LeastIsAccepted(mappers);
    LeastOmissions();
    LeastFields();
  }

  /** The least artifact, and a realm in which nothing is left to reconcile. */
  lemma LeastCase(mappers: seq<Mapper>, p: Provider) returns (a: Artifact, r: Realm)
    requires CheckAudienceMappers(mappers) == [] && forall m :: m in mappers ==> m.config.Some?
    ensures CheckArtifact(a) == [] && Conforms(r, a) && a.mappers == mappers && r.mappers == ByName(mappers)
    ensures "bearerOnly" !in r.client.value && r.defaults == {} && r.optionals == {}
  {
    a := LeastArtifact(mappers);
    r := RealmOf(a, p);
    RealmOfConforms(a, p);
  }

  /**
   An accepted artifact that says nothing about bearerOnly: nothing is left to reconcile, and the verifier refuses the
   client.
   */
  lemma OpenBearerOnlyIsRefused(p: Provider) returns (a: Artifact, r: Realm)
    ensures CheckArtifact(a) == [] && Conforms(r, a) && CheckDeployedClient(r.client.value, [], [], a) != []
  {
    OneAudienceMapper("aud", Bool(false));
    a, r := LeastCase([AudienceMapper("aud", Bool(false))], p);
    ClientAgreementIff(r, a, [], []);
  }

  function OtherMapper(name: string): Mapper {
    Mapper(name, Str("openid-connect"), Str("other"), Bool(false), Some(map[]))
  }

  lemma TwoMappers(first: Mapper, m: Mapper)
    requires first.name == m.name
    ensures ByName([first, m]) == map[m.name := m] && !NoDuplicates(Names([first, m]))
  {
    assert [first, m][..1] == [first];
    OneMapperByName(first);
    assert Names([first, m])[0] == Names([first, m])[1];
  }

  lemma OtherThenAudience(name: string)
    ensures CheckAudienceMappers([OtherMapper(name), AudienceMapper(name, Bool(false))]) == []
  {
    var mappers := [OtherMapper(name), AudienceMapper(name, Bool(false))];
    assert OnlyAudience(mappers, 1) by { assert |AUDIENCE_MAPPER| != |"other"|; }
    AudienceVerdict(mappers, 1);
    RightConfig(name, Bool(false));
  }

  lemma OneReported(m: Mapper)
    ensures Reported([m], map[m.name := m])
  {
    assert Names([m]) == [m.name];
  }

  /**
   An accepted artifact that names a mapper twice: the later one is deployed, nothing is left to reconcile, and the
   mapper check refuses.
   */
  lemma RepeatedNameIsRefused(p: Provider) returns (a: Artifact, r: Realm, deployed: seq<Mapper>)
    ensures CheckArtifact(a) == [] && Conforms(r, a) && Reported(deployed, r.mappers)
            && CheckMapperSet(deployed, a.mappers) != []
  {
    var other, m := OtherMapper("aud"), AudienceMapper("aud", Bool(false));
    OtherThenAudience("aud");
    a, r := LeastCase([other, m], p);
    TwoMappers(other, m);
    OneReported(m);
    deployed := [m];
    MapperAgreementIff(r, a, deployed);
  }
}

/**
 The policy of the two checks in plain terms: what an accepted artifact says, and what a deployed client must show.
 */
module KeycloakPolicy {
  import opened Wrappers
  import opened Ordering
  import opened KeycloakRealm
  import opened KeycloakReconciler
  import opened KeycloakVerifier
  import opened KeycloakReport

  ghost predicate Says(o: Object, k: string, v: Json) {
    k in o && o[k] == v
  }

  /** Nothing, in one of the ways JSON can say it. */
  ghost predicate Blank(o: Object, k: string) {
    k in o ==> o[k] in {Null, Bool(false), Num(0), Str(""), Arr([]), Obj(map[])}
  }

  /** The device grant is the only way in, and no refresh token comes out. */
  ghost predicate DeviceOnly(o: Object) {
    && Says(o, "enabled", Bool(true)) && Says(o, "publicClient", Bool(true)) && Says(o, "fullScopeAllowed", Bool(false))
    && Says(o, "standardFlowEnabled", Bool(false)) && Says(o, "implicitFlowEnabled", Bool(false))
    && Says(o, "directAccessGrantsEnabled", Bool(false)) && Says(o, "serviceAccountsEnabled", Bool(false))
    && "attributes" in o && o["attributes"].Obj?
    && Says(o["attributes"].fields, "oauth2.device.authorization.grant.enabled", Str("true"))
    && Says(o["attributes"].fields, "use.refresh.tokens", Str("false"))
  }

  ghost predicate ScopesAllowed(scopes: seq<string>) {
    NoDuplicates(scopes) && "roles" !in scopes && "offline_access" !in scopes
  }

  /** One mapper is an audience mapper; it names this API and puts the audience into the access token. */
  ghost predicate OneAudience(mappers: seq<Mapper>) {
    exists i :: 0 <= i < |mappers| && AudienceAt(mappers, i)
  }

  ghost predicate AudienceAt(mappers: seq<Mapper>, i: nat)
    requires i < |mappers|
  {
    && mappers[i].kind == Str("oidc-audience-mapper")
    && (forall j :: 0 <= j < |mappers| && j != i ==> mappers[j].kind != Str("oidc-audience-mapper"))
    && mappers[i].config.Some?
    && Says(mappers[i].config.value, "included.custom.audience", Str("secp-api"))
    && Says(mappers[i].config.value, "access.token.claim", Str("true"))
  }

  ghost predicate Acceptable(a: Artifact) {
    && Says(a.core, "clientId", Str("secp-cli")) && Says(a.core, "protocol", Str("openid-connect"))
    && DeviceOnly(a.core) && "secret" !in a.core && !Says(a.core, "bearerOnly", Bool(true))
    && Blank(a.core, "redirectUris") && Blank(a.core, "webOrigins")
    && ScopesAllowed(a.defaultScopes) && a.optionalScopes == [] && OneAudience(a.mappers)
    && ("description" in a.core && a.core["description"].Str? ==> |a.core["description"].s| <= 255)
  }

  /** What the deployed client and its two scope lists must show. */
  ghost predicate Presentable(client: Object, defaults: seq<string>, optionals: seq<string>, a: Artifact) {
    && !(exists k :: k in a.core && KeyDiffers(client, a.core, k))
    && DeviceOnly(client) && Get(client, "protocol") == Get(a.core, "protocol")
    && Blank(client, "secret") && Says(client, "bearerOnly", Bool(false))
    && Blank(client, "redirectUris") && Blank(client, "webOrigins")
    && multiset(defaults) == multiset(a.defaultScopes) && multiset(optionals) == multiset(a.optionalScopes)
    && ScopesAllowed(defaults) && ScopesAllowed(optionals)
  }

  // ------------------------------------------------------------------ the checks obey it

  lemma BlankIff(o: Object, k: string)
    ensures Truthy(Get(o, k)) <==> !Blank(o, k)
  {
  }

  lemma ScopePolicyIff(scopes: seq<string>)
    ensures CheckScopePolicy(scopes) == [] <==> ScopesAllowed(scopes)
  {
    SizeIffNoDuplicates(scopes);
  }

  lemma FlowsAre(o: Object)
    ensures FlowProblems(o, RefusedFlows()) == [] <==>
            && Says(o, "standardFlowEnabled", Bool(false)) && Says(o, "implicitFlowEnabled", Bool(false))
            && Says(o, "directAccessGrantsEnabled", Bool(false)) && Says(o, "serviceAccountsEnabled", Bool(false))
  {
    var flows := RefusedFlows();
    FlowsIff(o, flows);
    assert flows[0] == "standardFlowEnabled" && flows[1] == "implicitFlowEnabled";
    assert flows[2] == "directAccessGrantsEnabled" && flows[3] == "serviceAccountsEnabled";
  }

  lemma {:induction false} FlowsIff(o: Object, flows: seq<string>)
    ensures FlowProblems(o, flows) == [] <==> forall i :: 0 <= i < |flows| ==> Says(o, flows[i], Bool(false))
  {
    if flows != [] {
      FlowsIff(o, flows[1..]);
      assert flows == [flows[0]] + flows[1..];
    }
  }

  lemma PostureIff(o: Object)
    ensures Posture(o) <==> DeviceOnly(o)
  {
    FlowsAre(o);
  }

  lemma {:induction false} AudienceMappersAre(mappers: seq<Mapper>)
    ensures forall m :: m in AudienceMappers(mappers) <==> m in mappers && m.kind == Str("oidc-audience-mapper")
    ensures AudienceMappers(mappers) == [] <==>
            forall j :: 0 <= j < |mappers| ==> mappers[j].kind != Str("oidc-audience-mapper")
  {
    if mappers != [] {
      AudienceMappersAre(mappers[1..]);
      assert mappers == [mappers[0]] + mappers[1..];
      assert forall j :: 0 < j < |mappers| ==> mappers[j] == mappers[1..][j - 1];
    }
  }

  ghost predicate OnlyAt(mappers: seq<Mapper>, i: nat) {
    i < |mappers| && mappers[i].kind == Str("oidc-audience-mapper")
    && forall j :: 0 <= j < |mappers| && j != i ==> mappers[j].kind != Str("oidc-audience-mapper")
  }

  /** One audience mapper in the list means one place in it. */
  lemma {:induction false} OneMapperIff(mappers: seq<Mapper>)
    ensures |AudienceMappers(mappers)| == 1 <==> exists i: nat :: OnlyAt(mappers, i)
    ensures forall i: nat :: OnlyAt(mappers, i) ==> AudienceMappers(mappers) == [mappers[i]]
  {
    if mappers != [] {
      var rest := mappers[1..];
      OneMapperIff(rest);
      AudienceMappersAre(rest);
      assert forall j :: 0 < j < |mappers| ==> mappers[j] == rest[j - 1];
      if mappers[0].kind == Str("oidc-audience-mapper") {
        if AudienceMappers(rest) == [] {
          assert OnlyAt(mappers, 0);
        }
        forall i: nat | OnlyAt(mappers, i) ensures AudienceMappers(mappers) == [mappers[i]] {
          assert i == 0;
          forall j | 0 <= j < |rest| ensures rest[j].kind != Str("oidc-audience-mapper") {
            assert rest[j] == mappers[j + 1];
          }
        }
      } else {
        forall i: nat ensures OnlyAt(mappers, i + 1) <==> OnlyAt(rest, i) {
          if OnlyAt(mappers, i + 1) {
            forall j | 0 <= j < |rest| && j != i ensures rest[j].kind != Str("oidc-audience-mapper") {
              assert rest[j] == mappers[j + 1];
            }
          }
        }
        if i: nat :| OnlyAt(rest, i) { assert OnlyAt(mappers, i + 1); }
        forall i: nat | OnlyAt(mappers, i) ensures AudienceMappers(mappers) == [mappers[i]] {
          assert i > 0 && OnlyAt(rest, i - 1);
        }
      }
    }
  }

  lemma AudienceIff(mappers: seq<Mapper>)
    ensures CheckAudienceMappers(mappers) == [] <==> OneAudience(mappers)
  {
    OneMapperIff(mappers);
    if i: nat :| OnlyAt(mappers, i) {
      assert AudienceMappers(mappers) == [mappers[i]];
      if CheckAudienceMappers(mappers) == [] { assert AudienceAt(mappers, i); }
      if j: nat :| j < |mappers| && AudienceAt(mappers, j) { assert OnlyAt(mappers, j); }
    } else if OneAudience(mappers) {
      var j: nat :| j < |mappers| && AudienceAt(mappers, j);
      assert OnlyAt(mappers, j);
    }
  }

  /** The artifact check, condition by condition. */
  lemma ArtifactProblemsIff(a: Artifact)
    ensures CheckArtifact(a) == [] <==>
            && Get(a.core, "clientId") == Str(CLIENT_ID) && Get(a.core, "protocol") == Str("openid-connect")
            && Posture(a.core) && "secret" !in a.core && Get(a.core, "bearerOnly") != Bool(true)
            && !Truthy(Get(a.core, "redirectUris")) && !Truthy(Get(a.core, "webOrigins"))
            && CheckScopePolicy(a.defaultScopes) == [] && CheckScopePolicy(a.optionalScopes) == []
            && a.optionalScopes == [] && CheckAudienceMappers(a.mappers) == []
            && !(Get(a.core, "description").Str? && |Get(a.core, "description").s| > 255)
  {
  }

  /** The artifact check finds nothing exactly in an acceptable artifact. */
  lemma ArtifactAcceptedIff(a: Artifact)
    ensures CheckArtifact(a) == [] <==> Acceptable(a)
  {
    ArtifactProblemsIff(a);
    PostureIff(a.core);
    BlankIff(a.core, "redirectUris");
    BlankIff(a.core, "webOrigins");
    ScopePolicyIff(a.defaultScopes);
    ScopePolicyIff(a.optionalScopes);
    AudienceIff(a.mappers);
  }

  /** The check of the deployed client finds nothing exactly when it is presentable. */
  lemma DeployedAcceptedIff(client: Object, defaults: seq<string>, optionals: seq<string>, a: Artifact)
    ensures CheckDeployedClient(client, defaults, optionals, a) == [] <==> Presentable(client, defaults, optionals, a)
  {
    DeployedProblemsIff(client, defaults, optionals, a, CoreMatches(client, a.core));
    CoreIff(client, a.core);
    PostureIff(client);
    BlankIff(client, "secret");
    BlankIff(client, "redirectUris");
    BlankIff(client, "webOrigins");
    ScopePolicyIff(defaults);
    ScopePolicyIff(optionals);
  }

  // ------------------------------------------------------------------ the mapper set

  /** The deployed list: every name once, the desired names in number, and no desired mapper deployed differently. */
  ghost predicate MappersPresentable(deployed: seq<Mapper>, wanted: seq<Mapper>) {
    && NoDuplicates(Names(deployed)) && multiset(Names(deployed)) == multiset(Names(wanted))
    && forall i, j :: 0 <= i < |deployed| && 0 <= j < |wanted| && deployed[i].name == wanted[j].name ==>
         !MapperDiffers(deployed[i], wanted[j])
  }

  lemma {:induction false} DifferingIff(wanted: seq<Mapper>, deployed: map<string, Mapper>)
    ensures Differing(wanted, deployed) == [] <==>
            forall j :: 0 <= j < |wanted| && wanted[j].name in deployed ==>
              MapperMatches(deployed[wanted[j].name], wanted[j])
  {
    if wanted != [] {
      DifferingIff(wanted[1..], deployed);
      assert wanted == [wanted[0]] + wanted[1..];
    }
  }

  lemma MapperSetIff(deployed: seq<Mapper>, wanted: seq<Mapper>)
    ensures CheckMapperSet(deployed, wanted) == [] <==> MappersPresentable(deployed, wanted)
  {
    SizeIffNoDuplicates(Names(deployed));
    if NoDuplicates(Names(deployed)) {
      ByNameOfDistinct(deployed);
      DifferingIff(wanted, ByName(deployed));
      forall i, j | 0 <= i < |deployed| && 0 <= j < |wanted| && deployed[i].name == wanted[j].name
        ensures MapperMatches(ByName(deployed)[wanted[j].name], wanted[j]) <==> !MapperDiffers(deployed[i], wanted[j])
      {
        MatchesIffNotDiffers(deployed[i], wanted[j]);
      }
      forall j | 0 <= j < |wanted| && wanted[j].name in ByName(deployed)
        ensures exists i :: 0 <= i < |deployed| && deployed[i].name == wanted[j].name
      {
        var i :| 0 <= i < |deployed| && deployed[i] == ByName(deployed)[wanted[j].name];
      }
    }
  }
}

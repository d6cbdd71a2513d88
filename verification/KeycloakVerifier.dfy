/**
 The checks of scripts/keycloak/secp_cli_client.py: offline conformance of the artifact, and the separate
 read-only verification of a deployed client.  Each returns a list of problems; empty is the only pass.
 */
module KeycloakVerifier {
  import opened Wrappers
  import opened Ordering
  import opened KeycloakRealm
  import opened KeycloakReconciler

  const CLIENT_ID := "secp-cli"
  const DEVICE_GRANT := "oauth2.device.authorization.grant.enabled"
  const REFRESH := "use.refresh.tokens"
  const AUDIENCE_MAPPER := "oidc-audience-mapper"
  const AUDIENCE := "included.custom.audience"
  const ACCESS_CLAIM := "access.token.claim"

  function RefusedFlows(): seq<string> {
    ["standardFlowEnabled", "implicitFlowEnabled", "directAccessGrantsEnabled", "serviceAccountsEnabled"]
  }

  type Problems = seq<string>

  function When(condition: bool, problem: string): Problems {
    if condition then [problem] else []
  }

  /** Python's truth value. */
  predicate Truthy(v: Json) {
    match v
    case Null => false
    case Bool(b) => b
    case Num(n) => n != 0
    case Str(s) => s != ""
    case Arr(items) => items != []
    case Obj(fields) => fields != map[]
  }

  function FlowProblems(client: Object, flows: seq<string>): Problems {
    if flows == [] then [] else When(Get(client, flows[0]) != Bool(false), flows[0]) + FlowProblems(client, flows[1..])
  }

  /** `check_scope_policy` */
  function CheckScopePolicy(scopes: seq<string>): Problems {
    When(|set s | s in scopes| != |scopes|, "duplicate scope")
    + When("roles" in scopes, "roles refused")
    + When("offline_access" in scopes, "offline_access refused")
  }

  function AudienceMappers(mappers: seq<Mapper>): seq<Mapper> {
    if mappers == [] then []
    else (if mappers[0].kind == Str(AUDIENCE_MAPPER) then [mappers[0]] else []) + AudienceMappers(mappers[1..])
  }

  /** `check_audience_mappers` */
  function CheckAudienceMappers(mappers: seq<Mapper>): Problems {
    var audience := AudienceMappers(mappers);
    if |audience| != 1 then ["expected exactly one audience mapper"]
    else if audience[0].config.None? then ["the audience mapper carries no config"]
    else
      var config := audience[0].config.value;
      When(Get(config, AUDIENCE) != Str("secp-api"), "audience target")
          + When(Get(config, ACCESS_CLAIM) != Str("true"), "access token claim")
  }

  /** `check_artifact`, without the search of the serialized text for URL schemes. */
  function CheckArtifact(a: Artifact): Problems {
    var core := a.core;
    When(Get(core, "clientId") != Str(CLIENT_ID), "clientId")
    + When(Get(core, "protocol") != Str("openid-connect"), "protocol")
    + When(Get(core, "enabled") != Bool(true), "enabled")
    + When(Get(core, "publicClient") != Bool(true), "publicClient")
    + When("secret" in core, "secret")
    + When(Get(core, "bearerOnly") == Bool(true), "bearerOnly")
    + When(!Get(core, "attributes").Obj?, "attributes")
    + When(Get(AttributesOf(core), DEVICE_GRANT) != Str("true"), "device grant")
    + FlowProblems(core, RefusedFlows())
    + When(Get(AttributesOf(core), REFRESH) != Str("false"), "refresh tokens")
    + When(Truthy(Get(core, "redirectUris")), "redirectUris")
    + When(Truthy(Get(core, "webOrigins")), "webOrigins")
    + CheckScopePolicy(a.defaultScopes)
    + CheckScopePolicy(a.optionalScopes)
    + When(a.optionalScopes != [], "optional scopes")
    + When(Get(core, "fullScopeAllowed") != Bool(false), "fullScopeAllowed")
    + CheckAudienceMappers(a.mappers)
    + When(Get(core, "description").Str? && |Get(core, "description").s| > 255, "description")
  }

  /** `check_deployed_client`, on the client as returned and the two authoritative scope lists. */
  function CheckDeployedClient(client: Object, defaults: seq<string>, optionals: seq<string>, a: Artifact): Problems {
    When(!CoreMatches(client, a.core), "core differs")
    + When(Get(client, "enabled") != Bool(true), "not enabled")
    + When(Get(client, "protocol") != Get(a.core, "protocol"), "protocol differs")
    + When(Get(client, "publicClient") != Bool(true), "not public")
    + When(Truthy(Get(client, "secret")), "secret")
    + When(Get(client, "bearerOnly") != Bool(false), "bearerOnly")
    + When(!Get(client, "attributes").Obj?, "attributes")
    + When(Get(AttributesOf(client), DEVICE_GRANT) != Str("true"), "device grant")
    + When(Get(AttributesOf(client), REFRESH) != Str("false"), "refresh tokens")
    + FlowProblems(client, RefusedFlows())
    + When(Get(client, "fullScopeAllowed") != Bool(false), "fullScopeAllowed")
    + When(Truthy(Get(client, "redirectUris")), "redirectUris")
    + When(Truthy(Get(client, "webOrigins")), "webOrigins")
    + When(multiset(defaults) != multiset(a.defaultScopes), "default scopes")
    + When(multiset(optionals) != multiset(a.optionalScopes), "optional scopes")
    + CheckScopePolicy(defaults)
    + CheckScopePolicy(optionals)
  }

  function Names(mappers: seq<Mapper>): (r: seq<string>)
    ensures |r| == |mappers| && forall i :: 0 <= i < |mappers| ==> r[i] == mappers[i].name
  {
    seq(|mappers|, i requires 0 <= i < |mappers| => mappers[i].name)
  }

  function Differing(wanted: seq<Mapper>, deployed: map<string, Mapper>): Problems {
    if wanted == [] then []
    else When(wanted[0].name in deployed && !MapperMatches(deployed[wanted[0].name], wanted[0]), wanted[0].name)
         + Differing(wanted[1..], deployed)
  }

  /** `check_mapper_set` on the list the sub-resource returns. */
  function CheckMapperSet(deployed: seq<Mapper>, wanted: seq<Mapper>): Problems {
    When(|set n | n in Names(deployed)| != |deployed|, "duplicate mapper name")
    + When(multiset(Names(deployed)) != multiset(Names(wanted)), "mapper names differ")
    + Differing(wanted, ByName(deployed))
  }

  // ------------------------------------------------------------------ scope lists

  /** A scope list as the sub-resource returns it: the assigned names, each once. */
  lemma PolicyIgnoresOrder(xs: seq<string>, ys: seq<string>)
    requires NoDuplicates(xs) && (forall x :: x in xs <==> x in ys) && CheckScopePolicy(ys) == []
    ensures CheckScopePolicy(xs) == [] && multiset(xs) == multiset(ys)
  {
    SizeIffNoDuplicates(xs);
    SizeIffNoDuplicates(ys);
    SameMembersSameBag(xs, ys);
  }

  // ------------------------------------------------------------------ what an accepted artifact says

  ghost predicate Posture(core: Object) {
    && Get(core, "enabled") == Bool(true)
    && Get(core, "publicClient") == Bool(true) && Get(core, "fullScopeAllowed") == Bool(false)
    && Get(core, "attributes").Obj?
    && Get(AttributesOf(core), DEVICE_GRANT) == Str("true") && Get(AttributesOf(core), REFRESH) == Str("false")
    && FlowProblems(core, RefusedFlows()) == []
  }

  lemma AcceptedArtifact(a: Artifact)
    requires CheckArtifact(a) == []
    ensures Posture(a.core) && Get(a.core, "protocol") == Str("openid-connect")
            && CheckScopePolicy(a.defaultScopes) == [] && CheckScopePolicy(a.optionalScopes) == []
    ensures CheckAudienceMappers(a.mappers) == [] && Get(a.core, "bearerOnly") != Bool(true)
    ensures !Truthy(Get(a.core, "redirectUris")) && !Truthy(Get(a.core, "webOrigins"))
  {
  }

  /** Only the string itself prints as a word that is no Python constant and no number. */
  lemma WordIsString(v: Json, w: string)
    requires SameText(v, Str(w)) && w != "" && w != "None" && w != "True" && w != "False"
    requires w[0] != '-' && !('0' <= w[0] <= '9')
    ensures v == Str(w)
  {
  }

  lemma {:induction false} FlowsCarryOver(client: Object, core: Object, flows: seq<string>)
    requires FlowProblems(core, flows) == [] && "attributes" !in flows && CoreMatches(client, core)
    ensures FlowProblems(client, flows) == []
    decreases |flows|
  {
    if flows != [] {
      assert Get(core, flows[0]) == Bool(false);
      assert flows[0] in core;
      FlowsCarryOver(client, core, flows[1..]);
    }
  }

  lemma PostureCarriesOver(client: Object, core: Object)
    requires Posture(core) && CoreMatches(client, core)
    ensures Posture(client)
  {
    assert "enabled" in core && "publicClient" in core && "fullScopeAllowed" in core && "attributes" in core;
    var mine, theirs := Get(core, "attributes").fields, Get(client, "attributes").fields;
    assert Carries(theirs, mine);
    assert DEVICE_GRANT in mine && REFRESH in mine;
    WordIsString(Get(theirs, DEVICE_GRANT), "true");
    WordIsString(Get(theirs, REFRESH), "false");
    FlowsCarryOver(client, core, RefusedFlows());
  }

  // ------------------------------------------------------------------ agreement

  /** The four things the verifier asks of the deployed client that a matching core does not imply by itself. */
  predicate Unexposed(client: Object) {
    && !Truthy(Get(client, "secret")) && Get(client, "bearerOnly") == Bool(false)
    && !Truthy(Get(client, "redirectUris")) && !Truthy(Get(client, "webOrigins"))
  }

  /** The verdict of `check_deployed_client`, condition by condition. */
  lemma DeployedProblemsIff(client: Object, defaults: seq<string>, optionals: seq<string>, a: Artifact, matches: bool)
    requires matches == CoreMatches(client, a.core)
    ensures CheckDeployedClient(client, defaults, optionals, a) == [] <==>
            && matches && Posture(client) && Get(client, "protocol") == Get(a.core, "protocol") && Unexposed(client)
            && multiset(defaults) == multiset(a.defaultScopes) && multiset(optionals) == multiset(a.optionalScopes)
            && CheckScopePolicy(defaults) == [] && CheckScopePolicy(optionals) == []
  {
  }

  lemma ScopeListsAgree(r: Realm, a: Artifact, defaults: seq<string>, optionals: seq<string>)
    requires CheckScopePolicy(a.defaultScopes) == [] && CheckScopePolicy(a.optionalScopes) == [] && Conforms(r, a)
    requires Listed(defaults, r.defaults) && Listed(optionals, r.optionals)
    ensures multiset(defaults) == multiset(a.defaultScopes) && multiset(optionals) == multiset(a.optionalScopes)
    ensures CheckScopePolicy(defaults) == [] && CheckScopePolicy(optionals) == []
  {
    PolicyIgnoresOrder(defaults, a.defaultScopes);
    PolicyIgnoresOrder(optionals, a.optionalScopes);
  }

  lemma ClientCarriesPosture(client: Object, a: Artifact)
    requires CheckArtifact(a) == [] && CoreMatches(client, a.core)
    ensures Posture(client) && Get(client, "protocol") == Get(a.core, "protocol")
    ensures CheckScopePolicy(a.defaultScopes) == [] && CheckScopePolicy(a.optionalScopes) == []
            && CheckAudienceMappers(a.mappers) == []
  {
    AcceptedArtifact(a);
    PostureCarriesOver(client, a.core);
    CoreCarriesField(client, a.core, "protocol");
  }

  /**
   Reconciler and verifier agree on the client: if the artifact is accepted and a run has nothing to do, the
   verifier finds no problem exactly when the client shows no secret, is not bearer-only and has no browser surface.
   */
  lemma ClientAgreementIff(r: Realm, a: Artifact, defaults: seq<string>, optionals: seq<string>)
    requires CheckArtifact(a) == [] && Conforms(r, a)
    requires Listed(defaults, r.defaults) && Listed(optionals, r.optionals)
    ensures CheckDeployedClient(r.client.value, defaults, optionals, a) == [] <==> Unexposed(r.client.value)
  {
    ClientCarriesPosture(r.client.value, a);
    ScopeListsAgree(r, a, defaults, optionals);
    DeployedProblemsIff(r.client.value, defaults, optionals, a, true);
  }

  lemma CoreCarriesField(client: Object, core: Object, k: string)
    requires CoreMatches(client, core) && k in core && k != "attributes"
    ensures Get(client, k) == core[k]
  {
  }

  /** An artifact that pins the three fields leaves only the secret to the provider. */
  lemma PinnedArtifactAgrees(r: Realm, a: Artifact, defaults: seq<string>, optionals: seq<string>)
    requires CheckArtifact(a) == [] && Conforms(r, a)
    requires Listed(defaults, r.defaults) && Listed(optionals, r.optionals)
    requires Pinned(a) && !Truthy(Get(r.client.value, "secret"))
    ensures CheckDeployedClient(r.client.value, defaults, optionals, a) == []
  {
    assert !Truthy(a.core["redirectUris"]) && !Truthy(a.core["webOrigins"]) by { AcceptedArtifact(a); }
    CoreCarriesField(r.client.value, a.core, "bearerOnly");
    CoreCarriesField(r.client.value, a.core, "redirectUris");
    CoreCarriesField(r.client.value, a.core, "webOrigins");
    ClientAgreementIff(r, a, defaults, optionals);
  }

  /** A mapper list as the sub-resource returns it. */
  ghost predicate Reported(deployed: seq<Mapper>, mappers: map<string, Mapper>) {
    && Listed(Names(deployed), mappers.Keys)
    && (forall i :: 0 <= i < |deployed| ==> deployed[i].name in mappers && mappers[deployed[i].name] == deployed[i])
  }

  lemma NamesOfFront(mappers: seq<Mapper>)
    requires mappers != [] && NoDuplicates(Names(mappers))
    ensures var n := |mappers| - 1;
            NoDuplicates(Names(mappers[..n])) && forall i :: 0 <= i < n ==> mappers[i].name != mappers[n].name
  {
    var n := |mappers| - 1;
    assert Names(mappers[..n]) == Names(mappers)[..n];
    forall i | 0 <= i < n ensures mappers[i].name != mappers[n].name {
      assert Names(mappers)[i] != Names(mappers)[n];
    }
  }

  lemma {:induction false} ByNameOfDistinct(mappers: seq<Mapper>)
    requires NoDuplicates(Names(mappers))
    ensures forall i :: 0 <= i < |mappers| ==>
              mappers[i].name in ByName(mappers) && ByName(mappers)[mappers[i].name] == mappers[i]
    decreases |mappers|
  {
    if mappers != [] {
      var n := |mappers| - 1;
      NamesOfFront(mappers);
      ByNameOfDistinct(mappers[..n]);
      forall i | 0 <= i < n ensures mappers[i].name in ByName(mappers)
          && ByName(mappers)[mappers[i].name] == mappers[i] {
        assert mappers[..n][i] == mappers[i];
      }
    }
  }

  lemma {:induction false} DifferingEmptyIff(wanted: seq<Mapper>, deployed: map<string, Mapper>)
    ensures Differing(wanted, deployed) == [] <==>
            forall m :: m in wanted && m.name in deployed ==> MapperMatches(deployed[m.name], m)
    decreases |wanted|
  {
    if wanted != [] {
      DifferingEmptyIff(wanted[1..], deployed);
      assert forall m :: m in wanted <==> m == wanted[0] || m in wanted[1..];
    }
  }

  lemma NamesMember(mappers: seq<Mapper>, m: Mapper)
    requires m in mappers
    ensures m.name in Names(mappers)
  {
    var i :| 0 <= i < |mappers| && mappers[i] == m;
    assert Names(mappers)[i] == m.name;
  }

  /** Reconciler and verifier agree on the mappers exactly when the artifact names no mapper twice. */
  lemma MapperAgreementIff(r: Realm, a: Artifact, deployed: seq<Mapper>)
    requires MappersConform(r, a) && Reported(deployed, r.mappers)
    ensures CheckMapperSet(deployed, a.mappers) == [] <==> NoDuplicates(Names(a.mappers))
  {
    SizeIffNoDuplicates(Names(deployed));
    NamesAreKeys(a.mappers);
    SameBagIffDistinct(Names(deployed), Names(a.mappers));
    if NoDuplicates(Names(a.mappers)) {
      DeployedAreRight(r, a, deployed);
    }
  }

  lemma SameBagIffDistinct(xs: seq<string>, ys: seq<string>)
    requires NoDuplicates(xs) && forall x :: x in xs <==> x in ys
    ensures multiset(xs) == multiset(ys) <==> NoDuplicates(ys)
  {
    SizeIffNoDuplicates(xs);
    SizeIffNoDuplicates(ys);
    assert (set x | x in xs) == (set x | x in ys);
    assert |xs| == |multiset(xs)| && |ys| == |multiset(ys)|;
    if NoDuplicates(ys) {
      SameMembersSameBag(xs, ys);
    }
  }

  lemma NamesAreKeys(mappers: seq<Mapper>)
    ensures forall n :: n in Names(mappers) <==> n in ByName(mappers)
  {
    forall n | n in ByName(mappers) ensures n in Names(mappers) { NamesMember(mappers, ByName(mappers)[n]); }
    forall n | n in Names(mappers) ensures n in ByName(mappers) {
      var i :| 0 <= i < |mappers| && Names(mappers)[i] == n;
      assert mappers[i] in mappers;
    }
  }

  lemma DeployedIsServed(deployed: seq<Mapper>, served: map<string, Mapper>, name: string)
    requires Reported(deployed, served) && name in ByName(deployed)
    ensures name in served && served[name] == ByName(deployed)[name]
  {
    var d := ByName(deployed)[name];
    assert d in deployed && d.name == name;
  }

  lemma ServedMatches(mappers: seq<Mapper>, wanted: map<string, Mapper>, served: map<string, Mapper>,
                      deployed: map<string, Mapper>)
    requires forall i :: 0 <= i < |mappers| ==> mappers[i].name in wanted && wanted[mappers[i].name] == mappers[i]
    requires Right(served, wanted) == wanted.Keys
    requires forall n :: n in deployed ==> n in served && served[n] == deployed[n]
    ensures forall m :: m in mappers && m.name in deployed ==> MapperMatches(deployed[m.name], m)
  {
    forall m | m in mappers && m.name in deployed ensures MapperMatches(deployed[m.name], m) {
      assert m.name in Right(served, wanted);
    }
  }

  lemma DeployedAreRight(r: Realm, a: Artifact, deployed: seq<Mapper>)
    requires MappersConform(r, a) && Reported(deployed, r.mappers) && NoDuplicates(Names(a.mappers))
    ensures Differing(a.mappers, ByName(deployed)) == []
  {
    var byName := ByName(deployed);
    ByNameOfDistinct(a.mappers);
    forall n | n in byName ensures n in r.mappers && r.mappers[n] == byName[n] {
      DeployedIsServed(deployed, r.mappers, n);
    }
    ServedMatches(a.mappers, ByName(a.mappers), r.mappers, byName);
    DifferingEmptyIff(a.mappers, byName);
  }

  // ------------------------------------------------------------------ the audience mapper

  ghost predicate OnlyAudience(mappers: seq<Mapper>, i: nat) {
    && i < |mappers| && mappers[i].kind == Str(AUDIENCE_MAPPER)
    && (forall j :: 0 <= j < |mappers| && j != i ==> mappers[j].kind != Str(AUDIENCE_MAPPER))
  }

  lemma {:induction false} NoAudience(mappers: seq<Mapper>)
    ensures AudienceMappers(mappers) == [] <==>
            forall j :: 0 <= j < |mappers| ==> mappers[j].kind != Str(AUDIENCE_MAPPER)
    decreases |mappers|
  {
    if mappers != [] {
      NoAudience(mappers[1..]);
      assert forall j :: 1 <= j < |mappers| ==> mappers[j] == mappers[1..][j - 1];
    }
  }

  lemma {:induction false} OnlyAudienceIsFound(mappers: seq<Mapper>, i: nat)
    requires OnlyAudience(mappers, i)
    ensures AudienceMappers(mappers) == [mappers[i]]
    decreases |mappers|
  {
    var rest := mappers[1..];
    if i == 0 {
      NoAudience(rest);
    } else {
      assert OnlyAudience(rest, i - 1);
      OnlyAudienceIsFound(rest, i - 1);
    }
  }

  lemma {:induction false} FoundIsOnlyAudience(mappers: seq<Mapper>) returns (i: nat)
    requires |AudienceMappers(mappers)| == 1
    ensures OnlyAudience(mappers, i)
    decreases |mappers|
  {
    var rest := mappers[1..];
    assert forall j :: 1 <= j < |mappers| ==> mappers[j] == rest[j - 1];
    if mappers[0].kind == Str(AUDIENCE_MAPPER) {
      NoAudience(rest);
      i := 0;
    } else {
      i := FoundIsOnlyAudience(rest);
      i := i + 1;
    }
  }

  /** No later mapper of the artifact has its name. */
  ghost predicate LastOfName(mappers: seq<Mapper>, i: nat) {
    i < |mappers| && forall j :: i < j < |mappers| ==> mappers[j].name != mappers[i].name
  }

  lemma ByNameFront(mappers: seq<Mapper>)
    requires mappers != []
    ensures var last := |mappers| - 1; ByName(mappers) == ByName(mappers[..last])[mappers[last].name := mappers[last]]
  {
  }

  lemma LastInFront(mappers: seq<Mapper>, i: nat)
    requires mappers != [] && LastOfName(mappers[..|mappers| - 1], i)
             && mappers[..|mappers| - 1][i].name != mappers[|mappers| - 1].name
    ensures LastOfName(mappers, i) && mappers[i] == mappers[..|mappers| - 1][i]
  {
    forall j | i < j < |mappers| ensures mappers[j].name != mappers[i].name {
      if j < |mappers| - 1 { assert mappers[..|mappers| - 1][j] == mappers[j]; }
    }
  }

  lemma {:induction false} ByNameIsLast(mappers: seq<Mapper>, n: string) returns (i: nat)
    requires n in ByName(mappers)
    ensures LastOfName(mappers, i) && mappers[i] == ByName(mappers)[n] && mappers[i].name == n
    decreases |mappers|
  {
    var last := |mappers| - 1;
    ByNameFront(mappers);
    if mappers[last].name == n {
      i := last;
    } else {
      i := ByNameIsLast(mappers[..last], n);
      LastInFront(mappers, i);
    }
  }

  /** The desired mapper a deployed one was made from: the last one of its name. */
  lemma DeployedTwin(r: Realm, a: Artifact, deployed: seq<Mapper>, k: nat) returns (i: nat)
    requires MappersConform(r, a) && Reported(deployed, r.mappers) && k < |deployed|
    ensures LastOfName(a.mappers, i) && a.mappers[i].name == deployed[k].name
            && MapperMatches(deployed[k], a.mappers[i])
  {
    var n := deployed[k].name;
    var wanted := ByName(a.mappers);
    assert n in Right(r.mappers, wanted);
    i := ByNameIsLast(a.mappers, n);
  }

  lemma OneLastOfName(mappers: seq<Mapper>, i: nat, j: nat)
    requires LastOfName(mappers, i) && LastOfName(mappers, j) && mappers[i].name == mappers[j].name
    ensures i == j
  {
  }

  /** The one desired audience mapper, if no later mapper takes its name, is the one deployed audience mapper. */
  lemma AudienceTwin(r: Realm, a: Artifact, deployed: seq<Mapper>, i: nat) returns (k: nat)
    requires MappersConform(r, a) && Reported(deployed, r.mappers) && OnlyAudience(a.mappers, i)
             && LastOfName(a.mappers, i)
    ensures OnlyAudience(deployed, k) && MapperMatches(deployed[k], a.mappers[i])
  {
    NamesMember(a.mappers, a.mappers[i]);
    NamesAreKeys(a.mappers);
    assert a.mappers[i].name in Names(deployed);
    k :| 0 <= k < |deployed| && Names(deployed)[k] == a.mappers[i].name;
    var t := DeployedTwin(r, a, deployed, k);
    OneLastOfName(a.mappers, i, t);
    forall j | 0 <= j < |deployed| && j != k ensures deployed[j].kind != Str(AUDIENCE_MAPPER) {
      var u := DeployedTwin(r, a, deployed, j);
      assert Names(deployed)[j] != Names(deployed)[k];
      assert u != i;
    }
  }

  /** If a later mapper takes its name, no audience mapper is deployed at all. */
  lemma ShadowedAudienceIsLost(r: Realm, a: Artifact, deployed: seq<Mapper>, i: nat)
    requires MappersConform(r, a) && Reported(deployed, r.mappers) && OnlyAudience(a.mappers, i)
             && !LastOfName(a.mappers, i)
    ensures AudienceMappers(deployed) == []
  {
    forall j | 0 <= j < |deployed| ensures deployed[j].kind != Str(AUDIENCE_MAPPER) {
      var u := DeployedTwin(r, a, deployed, j);
      assert u != i;
    }
    NoAudience(deployed);
  }

  ghost predicate RightAudience(config: Object) {
    Get(config, AUDIENCE) == Str("secp-api") && Get(config, ACCESS_CLAIM) == Str("true")
  }

  lemma RightAudienceCarriesOver(theirs: Object, mine: Object)
    requires Carries(theirs, mine) && RightAudience(mine)
    ensures RightAudience(theirs)
  {
    assert AUDIENCE in mine && ACCESS_CLAIM in mine;
    WordIsString(Get(theirs, AUDIENCE), "secp-api");
    WordIsString(Get(theirs, ACCESS_CLAIM), "true");
  }

  lemma AudienceVerdict(mappers: seq<Mapper>, i: nat)
    requires OnlyAudience(mappers, i)
    ensures CheckAudienceMappers(mappers) == [] <==> mappers[i].config.Some? && RightAudience(mappers[i].config.value)
  {
    OnlyAudienceIsFound(mappers, i);
  }

  /**
   The audience the API requires is in place on the deployed client as well, exactly when no later mapper of
   the artifact has the audience mapper's name.
   */
  lemma AudienceAgreementIff(r: Realm, a: Artifact, deployed: seq<Mapper>, i: nat)
    requires CheckAudienceMappers(a.mappers) == [] && OnlyAudience(a.mappers, i) && MappersConform(r, a)
             && Reported(deployed, r.mappers)
    ensures CheckAudienceMappers(deployed) == [] <==> LastOfName(a.mappers, i)
  {
    AudienceVerdict(a.mappers, i);
    if LastOfName(a.mappers, i) {
      var k := AudienceTwin(r, a, deployed, i);
      AudienceVerdict(deployed, k);
      RightAudienceCarriesOver(deployed[k].config.value, a.mappers[i].config.value);
    } else {
      ShadowedAudienceIsLost(r, a, deployed, i);
    }
  }

  lemma AcceptedHasAudience(a: Artifact) returns (i: nat)
    requires CheckAudienceMappers(a.mappers) == []
    ensures OnlyAudience(a.mappers, i)
  {
    i := FoundIsOnlyAudience(a.mappers);
  }

  // ------------------------------------------------------------------ the two tools together

  /** The three fields a provider might fill in by itself are pinned to harmless values. */
  predicate Pinned(a: Artifact) {
    "bearerOnly" in a.core && a.core["bearerOnly"] == Bool(false) && "redirectUris" in a.core && "webOrigins" in a.core
  }

  lemma DistinctNamesAreLast(mappers: seq<Mapper>, i: nat)
    requires NoDuplicates(Names(mappers)) && i < |mappers|
    ensures LastOfName(mappers, i)
  {
    forall j | i < j < |mappers| ensures mappers[j].name != mappers[i].name {
      assert Names(mappers)[i] != Names(mappers)[j];
    }
  }

  /**
   Reconciler and verifier agree: for an accepted artifact that pins the three fields and names no mapper
   twice, and a provider that shows no secret, an empty action list makes every check of the verifier pass.
   */
  lemma NothingToDoNothingToReport(r: Realm, a: Artifact, sorted: Listing, defaults: seq<string>,
                                   optionals: seq<string>, deployed: seq<Mapper>)
    requires Lists(sorted) && CheckArtifact(a) == [] && Pinned(a) && NoDuplicates(Names(a.mappers))
    requires RunOn(r, a, false, sorted).ok && RunOn(r, a, false, sorted).actions == []
    requires Listed(defaults, r.defaults) && Listed(optionals, r.optionals) && Reported(deployed, r.mappers)
    requires r.client.Some? ==> !Truthy(Get(r.client.value, "secret"))
    ensures r.client.Some? && CheckDeployedClient(r.client.value, defaults, optionals, a) == []
    ensures CheckMapperSet(deployed, a.mappers) == [] && CheckAudienceMappers(deployed) == []
  {
    NothingToDoIff(r, a, sorted);
    PinnedArtifactAgrees(r, a, defaults, optionals);
    MapperAgreementIff(r, a, deployed);
    ClientCarriesPosture(r.client.value, a);
    var i := AcceptedHasAudience(a);
    DistinctNamesAreLast(a.mappers, i);
    AudienceAgreementIff(r, a, deployed, i);
  }
}

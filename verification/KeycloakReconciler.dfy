/**
 `Reconciler` of scripts/keycloak/secp_cli_client.py: bring the client of one realm to the committed
 representation through the endpoints that actually change it, or report what would be done.
 */
module KeycloakReconciler {
  import opened Wrappers
  import opened Ordering
  import opened KeycloakRealm

  /** The committed representation: the core fields (sub-resources excluded), the pinned scope lists and the mappers. */
  datatype Artifact = Artifact(core: Object, defaultScopes: seq<string>, optionalScopes: seq<string>,
                               mappers: seq<Mapper>)

  /** Python's `sorted` on a set of names. */
  type Listing = set<string> -> seq<string>

  datatype Action =
    | CreateClient
    | UpdateClient
    | RemoveScope(kind: Kind, name: string)
    | AttachScope(kind: Kind, name: string)
    | RemoveMapper(name: string)
    | CreateMapper(name: string)
    | UpdateMapper(name: string)
    | DryRunNote

  /** One `_act`: what is reported and what is sent. */
  datatype Step = Step(action: Action, request: Request)

  function Actions(steps: seq<Step>): (r: seq<Action>)
    ensures |r| == |steps|
  {
    if steps == [] then [] else [steps[0].action] + Actions(steps[1..])
  }

  function ServeAll(r: Realm, steps: seq<Step>): Realm
    decreases |steps|
  {
    if steps == [] then r else ServeAll(Serve(r, steps[0].request), steps[1..])
  }

  function Performed(write: bool, r: Realm, steps: seq<Step>): Realm {
    if write then ServeAll(r, steps) else r
  }

  // ------------------------------------------------------------------ what each phase decides

  function Wanted(a: Artifact, kind: Kind): set<string> {
    if kind == Default then set n | n in a.defaultScopes else set n | n in a.optionalScopes
  }

  /** `{name: mapper}`: a later mapper of the same name replaces an earlier one. */
  function ByName(mappers: seq<Mapper>): (m: map<string, Mapper>)
    ensures forall n :: n in m ==> m[n] in mappers && m[n].name == n
    ensures forall x :: x in mappers ==> x.name in m
  {
    if mappers == [] then map[]
    else
      var last := |mappers| - 1;
      var m := ByName(mappers[..last])[mappers[last].name := mappers[last]];
      assert mappers == mappers[..last] + [mappers[last]];
      m
  }

  function CoreSteps(r: Realm, a: Artifact): seq<Step> {
    if r.client.None? then [Step(CreateClient, PostClient(a.core))]
    else if !CoreMatches(r.client.value, a.core) then [Step(UpdateClient, PutClient(a.core))]
    else []
  }

  function Removals(kind: Kind, names: seq<string>): seq<Step> {
    if names == [] then []
    else [Step(RemoveScope(kind, names[0]), DeleteScope(kind, names[0]))] + Removals(kind, names[1..])
  }

  /** Attachments in order, up to the first scope the realm does not have: there the tool raises. */
  function Attachments(kind: Kind, names: seq<string>, catalogue: set<string>): seq<Step> {
    if names == [] || names[0] !in catalogue then []
    else [Step(AttachScope(kind, names[0]), PutScope(kind, names[0]))] + Attachments(kind, names[1..], catalogue)
  }

  function ScopeSteps(r: Realm, a: Artifact, kind: Kind, sorted: Listing): seq<Step> {
    Removals(kind, sorted(Assigned(r, kind) - Wanted(a, kind)))
    + Attachments(kind, sorted(Wanted(a, kind) - Assigned(r, kind)), r.catalogue)
  }

  /** Every missing scope exists in the realm. */
  predicate ScopesExist(r: Realm, a: Artifact, kind: Kind) {
    Wanted(a, kind) - Assigned(r, kind) <= r.catalogue
  }

  function MapperRemovals(names: seq<string>): seq<Step> {
    if names == [] then [] else [Step(RemoveMapper(names[0]), DeleteMapper(names[0]))] + MapperRemovals(names[1..])
  }

  /** The desired mappers that are deployed already. */
  function Right(existing: map<string, Mapper>, wanted: map<string, Mapper>): set<string> {
    set n | n in wanted && n in existing && MapperMatches(existing[n], wanted[n])
  }

  /** Create or update each desired mapper that is not right yet. */
  function MapperFixes(names: seq<string>, existing: set<string>, right: set<string>,
                       wanted: map<string, Mapper>): seq<Step>
    requires forall n :: n in names ==> n in wanted
  {
    if names == [] then []
    else
      var n := names[0];
      (if n in right then []
       else if n !in existing then [Step(CreateMapper(n), PostMapper(wanted[n]))]
       else [Step(UpdateMapper(n), PutMapper(wanted[n]))])
      + MapperFixes(names[1..], existing, right, wanted)
  }

  /** `reconcile_mappers`: surplus names removed, then the fixes, both in sorted order. */
  function MapperSteps(r: Realm, a: Artifact, sorted: Listing): seq<Step>
    requires Lists(sorted)
  {
    var wanted := ByName(a.mappers);
    assert Listed(sorted(wanted.Keys), wanted.Keys);
    MapperRemovals(sorted(r.mappers.Keys - wanted.Keys))
    + MapperFixes(sorted(wanted.Keys), r.mappers.Keys, Right(r.mappers, wanted), wanted)
  }

  // ------------------------------------------------------------------ a whole run

  datatype Outcome = Outcome(realm: Realm, actions: seq<Action>, ok: bool)

  function CorePhase(r: Realm, a: Artifact, write: bool): Outcome {
    Outcome(Performed(write, r, CoreSteps(r, a)), Actions(CoreSteps(r, a)), true)
  }

  function ScopePhase(o: Outcome, a: Artifact, kind: Kind, write: bool, sorted: Listing): Outcome {
    if !o.ok then o
    else
      var steps := ScopeSteps(o.realm, a, kind, sorted);
      Outcome(Performed(write, o.realm, steps), o.actions + Actions(steps), ScopesExist(o.realm, a, kind))
  }

  function MapperPhase(o: Outcome, a: Artifact, write: bool, sorted: Listing): Outcome
    requires Lists(sorted)
  {
    if !o.ok then o
    else
      var steps := MapperSteps(o.realm, a, sorted);
      Outcome(Performed(write, o.realm, steps), o.actions + Actions(steps), true)
  }

  /**
   `run`, phase by phase; each phase reads the realm the phases before it left, and a phase that raises ends the run.
   */
  function RunOn(r: Realm, a: Artifact, write: bool, sorted: Listing): Outcome
    requires Lists(sorted)
  {
    if r.client.None? && !write then Outcome(r, [CreateClient, DryRunNote], true)
    else
      MapperPhase(ScopePhase(ScopePhase(CorePhase(r, a, write), a, Default, write, sorted), a, Optional, write, sorted),
                  a, write, sorted)
  }

  class KeycloakAdmin {
    var realm: Realm
    var mutations: nat

    constructor (realm: Realm)
      ensures this.realm == realm && mutations == 0
    {
      this.realm, mutations := realm, 0;
    }

    /** `mutate`: every call is counted. */
    method Mutate(request: Request)
      modifies this
      ensures realm == Serve(old(realm), request) && mutations == old(mutations) + 1
    {
      mutations := mutations + 1;
      realm := Serve(realm, request);
    }
  }

  class Reconciler {
    const admin: KeycloakAdmin
    const desired: Artifact
    const write: bool
    const sorted: Listing
    var actions: seq<Action>

    constructor (admin: KeycloakAdmin, desired: Artifact, write: bool, sorted: Listing)
      ensures this.admin == admin && this.desired == desired && this.write == write && this.sorted == sorted
              && actions == []
    {
      this.admin, this.desired, this.write, this.sorted, actions := admin, desired, write, sorted, [];
    }

    /** `_act` */
    method Act(step: Step)
      modifies this, admin
      ensures actions == old(actions) + [step.action]
      ensures admin.realm == if write then Serve(old(admin.realm), step.request) else old(admin.realm)
      ensures admin.mutations == old(admin.mutations) + if write then 1 else 0
    {
      actions := actions + [step.action];
      if write {
        admin.Mutate(step.request);
      }
    }

    /** The loops of the reconciliation: one `_act` after the other. */
    method ActAll(steps: seq<Step>)
      modifies this, admin
      ensures actions == old(actions) + Actions(steps)
      ensures admin.realm == Performed(write, old(admin.realm), steps)
      ensures admin.mutations == old(admin.mutations) + if write then |steps| else 0
    {
      var rest := steps;
      while rest != []
        invariant actions + Actions(rest) == old(actions) + Actions(steps)
        invariant Performed(write, admin.realm, rest) == Performed(write, old(admin.realm), steps)
        invariant admin.mutations + (if write then |rest| else 0) == old(admin.mutations) + if write then |steps| else 0
        decreases |rest|
      {
        ghost var before := actions;
        Act(rest[0]);
        assert before + Actions(rest) == actions + Actions(rest[1..]);
        rest := rest[1..];
      }
    }

    /** `reconcile_scopes`; false when the realm lacks a desired scope. */
    method ReconcileScopes(kind: Kind) returns (ok: bool)
      modifies this, admin
      ensures Outcome(admin.realm, actions, ok)
              == ScopePhase(Outcome(old(admin.realm), old(actions), true), desired, kind, write, sorted)
      ensures admin.mutations - old(admin.mutations) == if write then |actions| - |old(actions)| else 0
    {
      ok := ScopesExist(admin.realm, desired, kind);
      ActAll(ScopeSteps(admin.realm, desired, kind, sorted));
    }

    /** `reconcile_mappers` */
    method ReconcileMappers()
      requires Lists(sorted)
      modifies this, admin
      ensures Outcome(admin.realm, actions, true)
              == MapperPhase(Outcome(old(admin.realm), old(actions), true), desired, write, sorted)
      ensures admin.mutations - old(admin.mutations) == if write then |actions| - |old(actions)| else 0
    {
      ActAll(MapperSteps(admin.realm, desired, sorted));
    }

    /** `run`. A dry run leaves the mutation count alone; a write run counts one mutation per reported action. */
    method Run() returns (ok: bool)
      requires actions == [] && Lists(sorted)
      modifies this, admin
      ensures Outcome(admin.realm, actions, ok) == RunOn(old(admin.realm), desired, write, sorted)
      ensures admin.mutations - old(admin.mutations) == if write then |actions| else 0
    {
      var absent := admin.realm.client.None?;
      ActAll(CoreSteps(admin.realm, desired));
      if absent && !write {
        actions := actions + [DryRunNote];
        assert actions == [CreateClient, DryRunNote];
        return true;
      }
      assert Outcome(admin.realm, actions, true) == CorePhase(old(admin.realm), desired, write);
      ok := ReconcileScopes(Default);
      if !ok {
        return;
      }
      ok := ReconcileScopes(Optional);
      if !ok {
        return;
      }
      ReconcileMappers();
    }
  }

  // ------------------------------------------------------------------ what serving the steps does

  lemma {:induction false} ServeAllAppend(r: Realm, a: seq<Step>, b: seq<Step>)
    ensures ServeAll(r, a + b) == ServeAll(ServeAll(r, a), b)
    decreases |a|
  {
    if a == [] {
      assert a + b == b;
    } else {
      assert (a + b)[1..] == a[1..] + b;
      ServeAllAppend(Serve(r, a[0].request), a[1..], b);
    }
  }

  lemma {:induction false} RemovalsRemove(r: Realm, kind: Kind, names: seq<string>)
    ensures ServeAll(r, Removals(kind, names)) == WithAssigned(r, kind, Assigned(r, kind) - set n | n in names)
    decreases |names|
  {
    if names == [] {
      assert Assigned(r, kind) - (set n | n in names) == Assigned(r, kind);
    } else {
      var r' := Serve(r, DeleteScope(kind, names[0]));
      RemovalsRemove(r', kind, names[1..]);
      assert Removals(kind, names)[1..] == Removals(kind, names[1..]);
      assert Assigned(r', kind) - (set n | n in names[1..]) == Assigned(r, kind) - set n | n in names;
    }
  }

  lemma {:induction false} AttachmentsAttach(r: Realm, kind: Kind, names: seq<string>)
    requires forall n :: n in names ==> n in r.catalogue
    ensures ServeAll(r, Attachments(kind, names, r.catalogue))
            == WithAssigned(r, kind, Assigned(r, kind) + set n | n in names)
    decreases |names|
  {
    if names == [] {
      assert Assigned(r, kind) + (set n | n in names) == Assigned(r, kind);
    } else {
      var r' := Serve(r, PutScope(kind, names[0]));
      AttachmentsAttach(r', kind, names[1..]);
      assert Attachments(kind, names, r.catalogue)[1..] == Attachments(kind, names[1..], r.catalogue);
      assert Assigned(r', kind) + (set n | n in names[1..]) == Assigned(r, kind) + set n | n in names;
    }
  }

  /** A completed scope phase leaves exactly the desired scopes and touches nothing else. */
  lemma ScopesServed(r: Realm, a: Artifact, kind: Kind, sorted: Listing)
    requires Lists(sorted)
    requires ScopesExist(r, a, kind)
    ensures ServeAll(r, ScopeSteps(r, a, kind, sorted)) == WithAssigned(r, kind, Wanted(a, kind))
  {
    var wanted := Wanted(a, kind);
    var surplus, missing := Assigned(r, kind) - wanted, wanted - Assigned(r, kind);
    assert Listed(sorted(surplus), surplus) && Listed(sorted(missing), missing);
    NamedScopePhase(r, kind, sorted(surplus), sorted(missing), wanted);
  }

  lemma NamedScopePhase(r: Realm, kind: Kind, surplus: seq<string>, missing: seq<string>, wanted: set<string>)
    requires forall n :: n in surplus <==> n in Assigned(r, kind) - wanted
    requires forall n :: n in missing <==> n in wanted - Assigned(r, kind)
    requires wanted - Assigned(r, kind) <= r.catalogue
    ensures ServeAll(r, Removals(kind, surplus) + Attachments(kind, missing, r.catalogue))
            == WithAssigned(r, kind, wanted)
  {
    ServeAllAppend(r, Removals(kind, surplus), Attachments(kind, missing, r.catalogue));
    RemovalsRemove(r, kind, surplus);
    var r1 := ServeAll(r, Removals(kind, surplus));
    AttachmentsAttach(r1, kind, missing);
    assert Assigned(r, kind) - (set n | n in surplus) + (set n | n in missing) == wanted;
  }

  /** An empty scope phase means the scopes already are the desired ones. */
  lemma ScopeStepsEmptyIff(r: Realm, a: Artifact, kind: Kind, sorted: Listing)
    requires Lists(sorted)
    requires ScopesExist(r, a, kind)
    ensures ScopeSteps(r, a, kind, sorted) == [] <==> Assigned(r, kind) == Wanted(a, kind)
  {
    var surplus, missing := Assigned(r, kind) - Wanted(a, kind), Wanted(a, kind) - Assigned(r, kind);
    assert surplus == {} <==> sorted(surplus) == [] by { assert |sorted(surplus)| == |surplus|; }
    assert missing == {} <==> sorted(missing) == [] by { assert |sorted(missing)| == |missing|; }
    assert sorted(missing) != [] ==> sorted(missing)[0] in missing;
    assert Assigned(r, kind) == Wanted(a, kind) <==> surplus == {} && missing == {};
  }

  lemma {:induction false} MapperRemovalsRemove(r: Realm, names: seq<string>)
    ensures ServeAll(r, MapperRemovals(names)) == r.(mappers := r.mappers - set n | n in names)
    decreases |names|
  {
    if names == [] {
      assert r.mappers - (set n | n in names) == r.mappers;
    } else {
      var r' := Serve(r, DeleteMapper(names[0]));
      MapperRemovalsRemove(r', names[1..]);
      assert MapperRemovals(names)[1..] == MapperRemovals(names[1..]);
      assert r'.mappers - (set n | n in names[1..]) == r.mappers - set n | n in names;
    }
  }

  /** The mappers kept: the deployed one where it is right, else the provider's copy of the desired one. */
  function Kept(p: Provider, existing: map<string, Mapper>, right: set<string>, wanted: map<string, Mapper>,
                names: set<string>): (k: map<string, Mapper>)
    requires names <= wanted.Keys && right <= existing.Keys
    ensures k.Keys == names
  {
    map n | n in names :: if n in right then existing[n] else Completed(p, wanted[n])
  }

  /** The mappers after fixing `names` one by one. */
  function Fixed(p: Provider, mappers: map<string, Mapper>, names: seq<string>, right: set<string>,
                 wanted: map<string, Mapper>): map<string, Mapper>
    requires forall n :: n in names ==> n in wanted
    decreases |names|
  {
    if names == [] then mappers
    else
      var next := if names[0] in right then mappers else mappers[names[0] := Completed(p, wanted[names[0]])];
      Fixed(p, next, names[1..], right, wanted)
  }

  lemma {:induction false} MapperFixesFix(r: Realm, names: seq<string>, existing: set<string>, right: set<string>,
                                          wanted: map<string, Mapper>)
    requires forall n :: n in names ==> n in wanted
    requires forall n :: n in wanted ==> wanted[n].name == n
    requires NoDuplicates(names) && forall n :: n in names ==> (n in existing <==> n in r.mappers)
    ensures ServeAll(r, MapperFixes(names, existing, right, wanted))
            == r.(mappers := Fixed(r.provider, r.mappers, names, right, wanted))
    decreases |names|
  {
    if names != [] {
      var n, rest := names[0], names[1..];
      var fixes := MapperFixes(names, existing, right, wanted);
      if n in right {
        assert fixes == MapperFixes(rest, existing, right, wanted);
        MapperFixesFix(r, rest, existing, right, wanted);
      } else {
        var r' := r.(mappers := r.mappers[n := Completed(r.provider, wanted[n])]);
        assert fixes[1..] == MapperFixes(rest, existing, right, wanted);
        assert Serve(r, fixes[0].request) == r';
        MapperFixesFix(r', rest, existing, right, wanted);
      }
    }
  }

  lemma {:induction false} FixedIs(p: Provider, mappers: map<string, Mapper>, names: seq<string>, right: set<string>,
                                   wanted: map<string, Mapper>)
    requires forall n :: n in names ==> n in wanted
    requires forall n :: n in names && n in right ==> n in mappers
    ensures var f := Fixed(p, mappers, names, right, wanted);
            && (forall n :: n in f <==> n in mappers || n in names)
            && (forall n :: n in f ==>
                  f[n] == if n in names && n !in right then Completed(p, wanted[n]) else mappers[n])
    decreases |names|
  {
    if names != [] {
      var n, rest := names[0], names[1..];
      assert forall x :: x in names <==> x == n || x in rest;
      FixedIs(p, if n in right then mappers else mappers[n := Completed(p, wanted[n])], rest, right, wanted);
    }
  }

  /** Served mapper steps leave exactly the desired names. */
  lemma MappersServed(r: Realm, a: Artifact, sorted: Listing)
    requires Lists(sorted)
    ensures var wanted := ByName(a.mappers);
            ServeAll(r, MapperSteps(r, a, sorted))
            == r.(mappers := Kept(r.provider, r.mappers, Right(r.mappers, wanted), wanted, wanted.Keys))
  {
    var wanted := ByName(a.mappers);
    var surplus := r.mappers.Keys - wanted.Keys;
    assert Listed(sorted(surplus), surplus) && Listed(sorted(wanted.Keys), wanted.Keys);
    NamedMappersServed(r, sorted(surplus), sorted(wanted.Keys), Right(r.mappers, wanted), wanted);
  }

  lemma FixedIsKept(p: Provider, existing: map<string, Mapper>, left: map<string, Mapper>, names: seq<string>,
                    right: set<string>, wanted: map<string, Mapper>)
    requires (forall n :: n in names <==> n in wanted) && right <= existing.Keys && right <= wanted.Keys
    requires forall n :: n in left <==> n in existing && n in wanted
    requires forall n :: n in left ==> left[n] == existing[n]
    ensures Fixed(p, left, names, right, wanted) == Kept(p, existing, right, wanted, wanted.Keys)
  {
    FixedIs(p, left, names, right, wanted);
  }

  lemma NamedMappersServed(r: Realm, surplus: seq<string>, names: seq<string>, right: set<string>,
                           wanted: map<string, Mapper>)
    requires forall n :: n in surplus <==> n in r.mappers.Keys - wanted.Keys
    requires (forall n :: n in names <==> n in wanted) && NoDuplicates(names)
    requires (forall n :: n in wanted ==> wanted[n].name == n) && right <= r.mappers.Keys && right <= wanted.Keys
    ensures ServeAll(r, MapperRemovals(surplus) + MapperFixes(names, r.mappers.Keys, right, wanted))
            == r.(mappers := Kept(r.provider, r.mappers, right, wanted, wanted.Keys))
  {
    ServeAllAppend(r, MapperRemovals(surplus), MapperFixes(names, r.mappers.Keys, right, wanted));
    MapperRemovalsRemove(r, surplus);
    var r1 := ServeAll(r, MapperRemovals(surplus));
    MapperFixesFix(r1, names, r.mappers.Keys, right, wanted);
    FixedIsKept(r.provider, r.mappers, r1.mappers, names, right, wanted);
  }

  lemma {:induction false} MapperFixesEmptyIff(names: seq<string>, existing: set<string>, right: set<string>,
                                               wanted: map<string, Mapper>)
    requires forall n :: n in names ==> n in wanted
    ensures MapperFixes(names, existing, right, wanted) == [] <==> forall n :: n in names ==> n in right
    decreases |names|
  {
    if names != [] {
      MapperFixesEmptyIff(names[1..], existing, right, wanted);
      assert forall n :: n in names <==> n == names[0] || n in names[1..];
    }
  }

  /** Exactly the desired names, each matching. */
  ghost predicate MappersConform(r: Realm, a: Artifact) {
    r.mappers.Keys == ByName(a.mappers).Keys && Right(r.mappers, ByName(a.mappers)) == ByName(a.mappers).Keys
  }

  lemma MapperStepsEmptyIff(r: Realm, a: Artifact, sorted: Listing)
    requires Lists(sorted)
    ensures MapperSteps(r, a, sorted) == [] <==> MappersConform(r, a)
  {
    var wanted := ByName(a.mappers);
    var surplus := r.mappers.Keys - wanted.Keys;
    assert Listed(sorted(surplus), surplus) && Listed(sorted(wanted.Keys), wanted.Keys);
    NamedMapperStepsEmptyIff(sorted(surplus), sorted(wanted.Keys), r.mappers.Keys, Right(r.mappers, wanted), wanted);
  }

  lemma NamedMapperStepsEmptyIff(surplus: seq<string>, names: seq<string>, existing: set<string>, right: set<string>,
                                 wanted: map<string, Mapper>)
    requires Listed(surplus, existing - wanted.Keys) && Listed(names, wanted.Keys) && right <= wanted.Keys
             && right <= existing
    ensures MapperRemovals(surplus) + MapperFixes(names, existing, right, wanted) == []
            <==> existing == wanted.Keys && right == wanted.Keys
  {
    MapperFixesEmptyIff(names, existing, right, wanted);
    assert MapperRemovals(surplus) == [] <==> surplus == [];
    assert surplus == [] <==> existing - wanted.Keys == {};
  }

  // ------------------------------------------------------------------ the theorems

  /** The core phase: the client is there afterwards, and scopes and mappers are untouched unless it was created. */
  lemma CoreServed(r: Realm, a: Artifact)
    ensures var r1 := ServeAll(r, CoreSteps(r, a));
            && r1.client.Some? && r1 == r.(client := r1.client, defaults := r1.defaults, optionals := r1.optionals,
                                           mappers := Found(r))
            && (r.client.Some? ==> r1 == r.(client := r1.client))
            && (CoreMatches(r1.client.value, a.core) <==> ("attributes" in a.core ==> a.core["attributes"].Obj?))
  {
    var before := if r.client.None? then map[] else r.client.value;
    StoredMatchesIff(r.provider, before, a.core);
    var steps := CoreSteps(r, a);
    if steps != [] {
      assert steps[1..] == [];
      assert ServeAll(r, steps) == Serve(r, steps[0].request);
    }
  }

  /** The mappers the mapper phase finds: those of the realm, or those a fresh client is created with. */
  function Found(r: Realm): map<string, Mapper> {
    if r.client.None? then r.provider.mappers else r.mappers
  }

  /** The realm after a successful write run. */
  lemma WriteRunResult(r: Realm, a: Artifact, sorted: Listing)
    requires Lists(sorted) && RunOn(r, a, true, sorted).ok
    ensures var r1, wanted := ServeAll(r, CoreSteps(r, a)), ByName(a.mappers);
            RunOn(r, a, true, sorted).realm
            == r1.(defaults := Wanted(a, Default), optionals := Wanted(a, Optional),
                   mappers := Kept(r.provider, Found(r), Right(Found(r), wanted), wanted, wanted.Keys))
  {
    var o1 := CorePhase(r, a, true);
    var o2 := ScopePhase(o1, a, Default, true, sorted);
    var o3 := ScopePhase(o2, a, Optional, true, sorted);
    CoreServed(r, a);
    assert o2.ok && o3.ok;
    ScopesServed(o1.realm, a, Default, sorted);
    ScopesServed(o2.realm, a, Optional, sorted);
    MappersServed(o3.realm, a, sorted);
  }

  /** Realms that differ only in what a phase does not read get the same steps. */
  lemma SameSteps(r: Realm, s: Realm, a: Artifact, sorted: Listing)
    requires Lists(sorted) && s.catalogue == r.catalogue
    ensures s.defaults == r.defaults ==>
              ScopeSteps(s, a, Default, sorted) == ScopeSteps(r, a, Default, sorted)
              && ScopesExist(s, a, Default) == ScopesExist(r, a, Default)
    ensures s.optionals == r.optionals ==>
              ScopeSteps(s, a, Optional, sorted) == ScopeSteps(r, a, Optional, sorted)
              && ScopesExist(s, a, Optional) == ScopesExist(r, a, Optional)
    ensures s.mappers == r.mappers ==> MapperSteps(s, a, sorted) == MapperSteps(r, a, sorted)
  {
  }

  /**
   A dry run of a realm that has the client reports exactly what a write run does, fails exactly when it
   fails, and changes nothing, although every phase of the write run reads a realm already changed.
   */
  lemma DryRunIsFaithful(r: Realm, a: Artifact, sorted: Listing)
    requires Lists(sorted) && r.client.Some?
    ensures RunOn(r, a, false, sorted).actions == RunOn(r, a, true, sorted).actions
    ensures RunOn(r, a, false, sorted).ok == RunOn(r, a, true, sorted).ok
    ensures RunOn(r, a, false, sorted).realm == r
  {
    var w1, d1 := CorePhase(r, a, true), CorePhase(r, a, false);
    var w2, d2 := ScopePhase(w1, a, Default, true, sorted), ScopePhase(d1, a, Default, false, sorted);
    var w3, d3 := ScopePhase(w2, a, Optional, true, sorted), ScopePhase(d2, a, Optional, false, sorted);
    CoreServed(r, a);
    SameSteps(r, w1.realm, a, sorted);
    assert w2.actions == d2.actions && w2.ok == d2.ok;
    if w2.ok {
      ScopesServed(w1.realm, a, Default, sorted);
      SameSteps(r, w2.realm, a, sorted);
      assert w3.actions == d3.actions && w3.ok == d3.ok;
      if w3.ok {
        ScopesServed(w2.realm, a, Optional, sorted);
        SameSteps(r, w3.realm, a, sorted);
      }
    }
  }

  /** Core, scopes and mappers all as desired. */
  ghost predicate Conforms(r: Realm, a: Artifact) {
    && r.client.Some? && CoreMatches(r.client.value, a.core)
    && r.defaults == Wanted(a, Default) && r.optionals == Wanted(a, Optional) && MappersConform(r, a)
  }

  /** A run has nothing to do exactly when the realm conforms. */
  lemma NothingToDoIff(r: Realm, a: Artifact, sorted: Listing)
    requires Lists(sorted)
    ensures RunOn(r, a, false, sorted).ok && RunOn(r, a, false, sorted).actions == [] <==> Conforms(r, a)
  {
    if r.client.Some? {
      DryRunPhases(r, a, sorted);
      if ScopesExist(r, a, Default) { ScopeStepsEmptyIff(r, a, Default, sorted); }
      if ScopesExist(r, a, Optional) { ScopeStepsEmptyIff(r, a, Optional, sorted); }
      MapperStepsEmptyIff(r, a, sorted);
    }
  }

  /** A dry run of an existing client, phase by phase: every phase reads the same realm. */
  lemma DryRunPhases(r: Realm, a: Artifact, sorted: Listing)
    requires Lists(sorted) && r.client.Some?
    ensures RunOn(r, a, false, sorted).ok <==> ScopesExist(r, a, Default) && ScopesExist(r, a, Optional)
    ensures RunOn(r, a, false, sorted).ok ==>
            (RunOn(r, a, false, sorted).actions == [] <==>
             CoreMatches(r.client.value, a.core) && ScopeSteps(r, a, Default, sorted) == []
             && ScopeSteps(r, a, Optional, sorted) == [] && MapperSteps(r, a, sorted) == [])
  {
    var d1 := CorePhase(r, a, false);
    var d2 := ScopePhase(d1, a, Default, false, sorted);
    var d3 := ScopePhase(d2, a, Optional, false, sorted);
    assert |d1.actions| == |CoreSteps(r, a)|;
    assert CoreSteps(r, a) == [] <==> CoreMatches(r.client.value, a.core);
  }

  /** A write run of a conforming realm sends nothing. */
  lemma ConformingIsLeftAlone(r: Realm, a: Artifact, sorted: Listing)
    requires Lists(sorted)
    ensures Conforms(r, a) <==> RunOn(r, a, true, sorted) == Outcome(r, [], true)
  {
    NothingToDoIff(r, a, sorted);
    if r.client.Some? {
      DryRunIsFaithful(r, a, sorted);
    }
    if Conforms(r, a) {
      assert CoreSteps(r, a) == [];
      ScopeStepsEmptyIff(r, a, Default, sorted);
      ScopeStepsEmptyIff(r, a, Optional, sorted);
      MapperStepsEmptyIff(r, a, sorted);
    }
  }

  /**
   What the artifact must pin for a run to settle: `attributes` an object, every mapper already right or right once
   stored.
   */
  ghost predicate Settling(r: Realm, a: Artifact) {
    var wanted := ByName(a.mappers);
    && ("attributes" in a.core ==> a.core["attributes"].Obj?)
    && (forall n :: n in wanted ==> n in Right(Found(r), wanted) || Settles(r.provider, wanted[n]))
  }

  lemma KeptIsRightIff(p: Provider, existing: map<string, Mapper>, wanted: map<string, Mapper>)
    ensures var right := Right(existing, wanted);
            Right(Kept(p, existing, right, wanted, wanted.Keys), wanted) == wanted.Keys
            <==> forall n :: n in wanted ==> n in right || Settles(p, wanted[n])
  {
    var right := Right(existing, wanted);
    var kept := Kept(p, existing, right, wanted, wanted.Keys);
    forall n | n in wanted ensures n in Right(kept, wanted) <==> n in right || Settles(p, wanted[n]) {
      CompletedMatchesIff(p, wanted[n]);
    }
    assert Right(kept, wanted) <= wanted.Keys;
  }

  /**
   Convergence: after a successful write run from any realm, scopes and mapper names are exactly the
   desired ones, and the next run does nothing at all if and only if the artifact is settling.
   */
  lemma WriteRunConverges(r: Realm, a: Artifact, sorted: Listing)
    requires Lists(sorted) && RunOn(r, a, true, sorted).ok
    ensures var r' := RunOn(r, a, true, sorted).realm;
            && r'.defaults == Wanted(a, Default) && r'.optionals == Wanted(a, Optional)
            && r'.mappers.Keys == ByName(a.mappers).Keys
            && (RunOn(r', a, true, sorted) == Outcome(r', [], true) <==> Settling(r, a))
  {
    var r' := RunOn(r, a, true, sorted).realm;
    WriteRunResult(r, a, sorted);
    CoreServed(r, a);
    KeptIsRightIff(r.provider, Found(r), ByName(a.mappers));
    assert Conforms(r', a) <==> Settling(r, a);
    ConformingIsLeftAlone(r', a, sorted);
  }
}

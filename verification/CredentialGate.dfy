/**
 What the bindings say about the references.  Over every run of the services each purpose has an active
 binding exactly while its reference is set, and the real-plan gate grants exactly when both dedicated
 references are set and differ.
 */
module CredentialGate {
  import opened Wrappers
  import opened CredentialBinding

  /** The target has an active binding for the purpose. */
  ghost predicate Backed(s: State, t: Target, p: Purpose) {
    exists i :: 0 <= i < |s.bindings|
                && s.bindings[i].target == t && s.bindings[i].purpose == p && s.bindings[i].status == Active
  }

  /** Every active binding of the purpose was issued for a dedicated reference, or none was. */
  ghost predicate Sourced(s: State, t: Target, p: Purpose, dedicated: bool) {
    forall i :: 0 <= i < |s.bindings|
                && s.bindings[i].target == t && s.bindings[i].purpose == p && s.bindings[i].status == Active ==>
      s.bindings[i].source == if dedicated then DedicatedOperation else LegacyGeneric
  }

  /** Whether the purpose has a reference, and whether it has one of its own. */
  ghost predicate Selected(r: Refs, p: Purpose) {
    match p
    case ProviderPlanRead => r.plan.Some? || r.generic.Some?
    case StateBackendPlan => r.backend.Some?
    case ProviderExecution => r.execution.Some?
  }

  ghost predicate Dedicated(r: Refs, p: Purpose) {
    match p
    case ProviderPlanRead => r.plan.Some?
    case StateBackendPlan => r.backend.Some?
    case ProviderExecution => r.execution.Some?
  }

  ghost predicate Mirrors(s: State, t: Target, p: Purpose) {
    && (Backed(s, t, p) <==> Selected(RefsOf(s, t), p))
    && Sourced(s, t, p, Dedicated(RefsOf(s, t), p))
  }

  ghost predicate AllMirror(s: State) {
    forall t, p :: t in s.refs ==> Mirrors(s, t, p)
  }

  // ------------------------------------------------------------------ the operations, purpose by purpose

  /** For references the services write, being set and being true are one. */
  lemma SelectedIsTruthy(r: Refs, p: Purpose)
    requires ServiceRefs(r)
    ensures Selected(r, p) <==> Truthy(PurposeReference(r, p))
    ensures Selected(r, p) ==> SourceOf(r, p) == if Dedicated(r, p) then DedicatedOperation else LegacyGeneric
  {
  }

  lemma NoneBacked(s: State, t: Target, p: Purpose)
    ensures ActiveBinding(s.bindings, t, p).None? <==> !Backed(s, t, p)
  {
    var found := ActiveBinding(s.bindings, t, p);
    if found.Some? {
      var i :| 0 <= i < |s.bindings| && s.bindings[i] == found.value;
    } else if Backed(s, t, p) {
      var i :| 0 <= i < |s.bindings|
               && s.bindings[i].target == t && s.bindings[i].purpose == p && s.bindings[i].status == Active;
      assert s.bindings[i] in s.bindings && Matches(s.bindings[i], t, p);
    }
  }

  lemma Issued(s: State, s': State, b: Binding)
    requires s'.bindings == s.bindings + [b] && b.status == Active && s'.refs == s.refs
    ensures Backed(s', b.target, b.purpose)
    ensures forall u, q, d :: Sourced(s', u, q, d) <==>
              Sourced(s, u, q, d) && (b.target == u && b.purpose == q ==>
                                      b.source == if d then DedicatedOperation else LegacyGeneric)
    ensures forall u, q :: (u, q) != (b.target, b.purpose) ==> (Backed(s', u, q) <==> Backed(s, u, q))
  {
    assert s'.bindings[|s.bindings|] == b;
    forall u, q | (u, q) != (b.target, b.purpose) ensures Backed(s', u, q) <==> Backed(s, u, q) {
      if Backed(s, u, q) {
        var i :| 0 <= i < |s.bindings|
                 && s.bindings[i].target == u && s.bindings[i].purpose == q && s.bindings[i].status == Active;
        assert s'.bindings[i] == s.bindings[i];
      }
    }
    forall u, q, d ensures Sourced(s', u, q, d) <==>
                           Sourced(s, u, q, d) && (b.target == u && b.purpose == q ==>
                                                   b.source == if d then DedicatedOperation else LegacyGeneric) {
      IssuedSource(s, s', b, u, q, d);
    }
  }

  lemma IssuedSource(s: State, s': State, b: Binding, u: Target, q: Purpose, d: bool)
    requires s'.bindings == s.bindings + [b] && b.status == Active
    ensures Sourced(s', u, q, d) <==>
            Sourced(s, u, q, d) && (b.target == u && b.purpose == q ==>
                                    b.source == if d then DedicatedOperation else LegacyGeneric)
  {
    assert s'.bindings[|s.bindings|] == b;
    assert forall i :: 0 <= i < |s.bindings| ==> s'.bindings[i] == s.bindings[i];
  }

  lemma Retired(s: State, s': State, t: Target, p: Purpose)
    requires s'.bindings == Retire(s.bindings, t, p) && s'.refs == s.refs
    ensures !Backed(s', t, p) && forall d :: Sourced(s', t, p, d)
    ensures forall u, q :: (u, q) != (t, p) ==> (Backed(s', u, q) <==> Backed(s, u, q))
    ensures forall u, q, d :: (u, q) != (t, p) ==> (Sourced(s', u, q, d) <==> Sourced(s, u, q, d))
  {
    assert forall i :: 0 <= i < |s.bindings| ==> s'.bindings[i] == RetireOne(s.bindings[i], t, p);
    forall u, q | (u, q) != (t, p) ensures Backed(s', u, q) <==> Backed(s, u, q) {
      RetiredOther(s, s', t, p, u, q);
    }
    forall u, q, d | (u, q) != (t, p) ensures Sourced(s', u, q, d) <==> Sourced(s, u, q, d) {
      RetiredOther(s, s', t, p, u, q);
    }
  }

  lemma RetiredOther(s: State, s': State, t: Target, p: Purpose, u: Target, q: Purpose)
    requires s'.bindings == Retire(s.bindings, t, p) && (u, q) != (t, p)
    ensures Backed(s', u, q) <==> Backed(s, u, q)
    ensures forall d :: Sourced(s', u, q, d) <==> Sourced(s, u, q, d)
  {
    forall i | 0 <= i < |s.bindings| && s.bindings[i].target == u && s.bindings[i].purpose == q
      ensures s'.bindings[i] == s.bindings[i]
    {
      assert s'.bindings[i] == RetireOne(s.bindings[i], t, p);
    }
    forall i | 0 <= i < |s.bindings|
      ensures s'.bindings[i].target == s.bindings[i].target && s'.bindings[i].purpose == s.bindings[i].purpose
    {
      assert s'.bindings[i] == RetireOne(s.bindings[i], t, p);
    }
  }

  /** Ensuring puts one purpose right that had no binding, and touches no other. */
  lemma EnsureMirrors(s: State, t: Target, p: Purpose, id: BindingId)
    requires ServiceRefs(RefsOf(s, t)) && (Mirrors(s, t, p) || (!Backed(s, t, p) && !IdTaken(s.bindings, id)))
    ensures Mirrors(Ensure(s, t, p, id), t, p)
    ensures forall u, q :: (u, q) != (t, p) ==> (Mirrors(Ensure(s, t, p, id), u, q) <==> Mirrors(s, u, q))
  {
    var s' := Ensure(s, t, p, id);
    SelectedIsTruthy(RefsOf(s, t), p);
    NoneBacked(s, t, p);
    if s' != s {
      Issued(s, s', NewBinding(s, t, p, id));
    }
  }

  /** Rotating puts one purpose right from any state, and touches no other. */
  lemma RotateMirrors(s: State, t: Target, p: Purpose, id: BindingId)
    requires ServiceRefs(RefsOf(s, t)) && !IdTaken(s.bindings, id)
    ensures Mirrors(Rotate(s, t, p, id), t, p)
    ensures forall u, q :: (u, q) != (t, p) ==> (Mirrors(Rotate(s, t, p, id), u, q) <==> Mirrors(s, u, q))
  {
    var middle := s.(bindings := Retire(s.bindings, t, p));
    SelectedIsTruthy(RefsOf(s, t), p);
    Retired(s, middle, t, p);
    if Truthy(PurposeReference(RefsOf(s, t), p)) {
      Issued(middle, Rotate(s, t, p, id), NewBinding(s, t, p, id));
    }
  }

  /** New columns leave right what they do not select otherwise. */
  lemma ColumnsMirror(s: State, t: Target, r: Refs, u: Target, q: Purpose)
    requires Mirrors(s, u, q)
    requires u == t ==> (Selected(r, q) <==> Selected(RefsOf(s, t), q))
                        && (Dedicated(r, q) <==> Dedicated(RefsOf(s, t), q))
    ensures Mirrors(s.(refs := s.refs[t := r]), u, q)
  {
    var s1 := s.(refs := s.refs[t := r]);
    assert Backed(s1, u, q) <==> Backed(s, u, q);
    assert forall d :: Sourced(s1, u, q, d) <==> Sourced(s, u, q, d);
  }

  /** The purposes a change of columns rotates. */
  ghost predicate Rotates(was: Refs, r: Refs, p: Purpose) {
    match p
    case ProviderPlanRead => PlanRotates(was, r)
    case StateBackendPlan => was.backend != r.backend
    case ProviderExecution => false
  }

  lemma UnrotatedSelectsAlike(was: Refs, r: Refs, p: Purpose)
    requires ServiceRefs(was) && ServiceRefs(r) && !Rotates(was, r, p)
    ensures (Selected(r, p) <==> Selected(was, p)) && (Dedicated(r, p) <==> Dedicated(was, p))
  {
  }

  lemma UnrotatedMirror(s: State, s1: State, t: Target, r: Refs)
    requires AllMirror(s) && ServiceState(s) && ServiceRefs(r) && t in s.refs && s1 == s.(refs := s.refs[t := r])
    ensures forall u, q :: u in s.refs && (u != t || !Rotates(RefsOf(s, t), r, q)) ==> Mirrors(s1, u, q)
  {
    forall u, q | u in s.refs && (u != t || !Rotates(RefsOf(s, t), r, q)) ensures Mirrors(s1, u, q) {
      assert ServiceRefs(RefsOf(s, t));
      if u == t { UnrotatedSelectsAlike(RefsOf(s, t), r, q); }
      ColumnsMirror(s, t, r, u, q);
    }
  }

  lemma RotatedWhereDue(s: State, t: Target, p: Purpose, id: BindingId, due: bool, s': State)
    requires ServiceRefs(RefsOf(s, t)) && !IdTaken(s.bindings, id) && s' == if due then Rotate(s, t, p, id) else s
    ensures s'.refs == s.refs && (due ==> Mirrors(s', t, p))
    ensures forall u, q :: (u, q) != (t, p) || !due ==> (Mirrors(s', u, q) <==> Mirrors(s, u, q))
  {
    if due {
      RotateMirrors(s, t, p, id);
      RotateKeepsRefs(s, t, p, id);
    }
  }

  lemma ChangeMirrors(s: State, t: Target, r: Refs, planId: BindingId, backendId: BindingId)
    requires AllMirror(s) && ServiceState(s) && ServiceRefs(r) && t in s.refs && FreshIds(s, planId, backendId)
    ensures AllMirror(Change(s, t, r, planId, backendId))
  {
    var was, s1 := RefsOf(s, t), s.(refs := s.refs[t := r]);
    UnrotatedMirror(s, s1, t, r);
    RotateIds(s1, t, ProviderPlanRead, planId, backendId);
    var s2 := if PlanRotates(was, r) then Rotate(s1, t, ProviderPlanRead, planId) else s1;
    RotatedWhereDue(s1, t, ProviderPlanRead, planId, PlanRotates(was, r), s2);
    RotatedWhereDue(s2, t, StateBackendPlan, backendId, was.backend != r.backend, Change(s, t, r, planId, backendId));
  }

  lemma UnnamedIsUnbacked(s: State, t: Target, p: Purpose)
    requires !HasRows(s, t)
    ensures !Backed(s, t, p) && forall d :: Sourced(s, t, p, d)
  {
    forall i | 0 <= i < |s.bindings| ensures s.bindings[i].target != t { assert s.bindings[i] in s.bindings; }
  }

  lemma EnsureIds(s: State, t: Target, p: Purpose, id: BindingId, other: BindingId)
    requires !IdTaken(s.bindings, other) && id != other
    ensures !IdTaken(Ensure(s, t, p, id).bindings, other)
  {
  }

  /** A target without bindings, after its two purposes were ensured. */
  lemma EnsuredMirror(s: State, t: Target, planId: BindingId, backendId: BindingId)
    requires ServiceRefs(RefsOf(s, t)) && FreshIds(s, planId, backendId)
    requires forall q :: !Backed(s, t, q) && Sourced(s, t, q, Dedicated(RefsOf(s, t), q))
    ensures var s3 := Ensure(Ensure(s, t, ProviderPlanRead, planId), t, StateBackendPlan, backendId);
            && (forall q :: Mirrors(s3, t, q))
            && (forall u, q :: u != t ==> (Mirrors(s3, u, q) <==> Mirrors(s, u, q)))
  {
    var s2 := Ensure(s, t, ProviderPlanRead, planId);
    EnsureMirrors(s, t, ProviderPlanRead, planId);
    EnsureIds(s, t, ProviderPlanRead, planId, backendId);
    EnsureKeepsRefs(s, t, ProviderPlanRead, planId);
    UnbackedStays(s, t, ProviderPlanRead, planId, StateBackendPlan);
    EnsureMirrors(s2, t, StateBackendPlan, backendId);
    assert Mirrors(s, t, ProviderExecution);
  }

  lemma RegisterMirrors(s: State, t: Target, r: Refs, planId: BindingId, backendId: BindingId)
    requires AllMirror(s) && ServiceRefs(r) && t !in s.refs && !HasRows(s, t) && FreshIds(s, planId, backendId)
    ensures AllMirror(Register(s, t, r, planId, backendId))
  {
    var s1 := Inserted(s, t, r);
    forall q ensures !Backed(s1, t, q) && Sourced(s1, t, q, Dedicated(r, q)) { UnnamedIsUnbacked(s1, t, q); }
    forall u, q | u in s.refs ensures Mirrors(s1, u, q) { ColumnsMirror(s, t, r, u, q); }
    EnsuredMirror(s1, t, planId, backendId);
    RegisterRefs(s, t, r, planId, backendId);
  }

  lemma UnbackedStays(s: State, t: Target, p: Purpose, id: BindingId, q: Purpose)
    requires !Backed(s, t, q) && q != p
    ensures !Backed(Ensure(s, t, p, id), t, q)
  {
    if Ensure(s, t, p, id) != s { Issued(s, Ensure(s, t, p, id), NewBinding(s, t, p, id)); }
  }

  // ------------------------------------------------------------------ over runs

  lemma RowsMirror(s: State, t: Target, p: Purpose, id: BindingId)
    requires AllMirror(s) && ServiceState(s)
    ensures AllMirror(Ensure(s, t, p, id))
    ensures !IdTaken(s.bindings, id) ==> AllMirror(Rotate(s, t, p, id))
  {
    EnsureKeepsRefs(s, t, p, id);
    if t in s.refs { EnsureMirrors(s, t, p, id); }
    if !IdTaken(s.bindings, id) {
      RotateKeepsRefs(s, t, p, id);
      RotateMirrors(s, t, p, id);
    }
  }

  lemma StepMirrors(s: State, e: Event)
    requires AllMirror(s) && ServiceState(s) && ServiceEvent(e)
    ensures AllMirror(Step(s, e))
  {
    match e
    case EnsureEvent(t, p, id) => RowsMirror(s, t, p, id);
    case RotateEvent(t, p, id) => RowsMirror(s, t, p, id);
    case RegisterEvent(t, r, planId, backendId) =>
      if t !in s.refs && !HasRows(s, t) && FreshIds(s, planId, backendId) {
        RegisterMirrors(s, t, r, planId, backendId);
      }
    case ChangeEvent(t, r, planId, backendId) =>
      if t in s.refs && FreshIds(s, planId, backendId) { ChangeMirrors(s, t, r, planId, backendId); }
  }

  lemma {:induction false} RunsMirror(s: State, events: seq<Event>)
    requires AllMirror(s) && ServiceState(s) && ServiceRun(events)
    ensures AllMirror(After(s, events)) && ServiceState(After(s, events))
    decreases |events|
  {
    if events != [] {
      StepMirrors(s, events[0]);
      StepKeepsServiceState(s, events[0]);
      assert ServiceRun(events[1..]);
      RunsMirror(Step(s, events[0]), events[1..]);
    }
  }

  /**
   After any run of the services a purpose of a target has an active binding exactly while its reference is
   set, and that binding says whether the reference is a dedicated one.
   */
  lemma BackedIffSelected(events: seq<Event>, t: Target, p: Purpose)
    requires ServiceRun(events) && t in After(INITIAL, events).refs
    ensures var s := After(INITIAL, events);
            && (Backed(s, t, p) <==> Selected(s.refs[t], p))
            && Sourced(s, t, p, Dedicated(s.refs[t], p))
  {
    RunsMirror(INITIAL, events);
    MirrorOf(After(INITIAL, events), t, p);
  }

  lemma MirrorOf(s: State, t: Target, p: Purpose)
    requires AllMirror(s) && t in s.refs
    ensures Backed(s, t, p) <==> Selected(s.refs[t], p)
    ensures Sourced(s, t, p, Dedicated(s.refs[t], p))
  {
    assert Mirrors(s, t, p) && RefsOf(s, t) == s.refs[t];
  }

  /** A registration or change that goes through stores the columns it was given, and no step stores any others. */
  lemma WriteIsStored(s: State, e: Event, t: Target)
    ensures RefsOf(Step(s, e), t) ==
            if (Writes(s, e, t) || Enters(s, e, t)) then e.refs else RefsOf(s, t)
  {
    match e
    case EnsureEvent(u, p, id) => EnsureKeepsRefs(s, u, p, id);
    case RotateEvent(u, p, id) => if !IdTaken(s.bindings, id) { RotateKeepsRefs(s, u, p, id); }
    case RegisterEvent(u, r, planId, backendId) => RegisterRefs(s, u, r, planId, backendId);
    case ChangeEvent(u, r, planId, backendId) => ChangeStores(s, u, r, planId, backendId);
  }

  /** The step registers this target, with a new id and ids for its bindings. */
  ghost predicate Enters(s: State, e: Event, t: Target) {
    e.RegisterEvent? && e.target == t && t !in s.refs && !HasRows(s, t) && FreshIds(s, e.planId, e.backendId)
  }

  lemma ChangeStores(s: State, t: Target, r: Refs, planId: BindingId, backendId: BindingId)
    ensures Change(s, t, r, planId, backendId).refs
            == if t in s.refs && FreshIds(s, planId, backendId) then s.refs[t := r] else s.refs
  {
    if t in s.refs && FreshIds(s, planId, backendId) {
      var was, s1 := RefsOf(s, t), s.(refs := s.refs[t := r]);
      var s2 := s1;
      if PlanRotates(was, r) {
        RotateKeepsRefs(s1, t, ProviderPlanRead, planId);
        RotateIds(s1, t, ProviderPlanRead, planId, backendId);
        s2 := Rotate(s1, t, ProviderPlanRead, planId);
      }
      if was.backend != r.backend { RotateKeepsRefs(s2, t, StateBackendPlan, backendId); }
    }
  }

  /** A rotation retires every earlier binding of its purpose and, if there is a reference, issues a new active one. */
  lemma RotationReplaces(s: State, t: Target, p: Purpose, id: BindingId)
    requires ServiceRefs(RefsOf(s, t)) && !IdTaken(s.bindings, id)
    ensures var s' := Step(s, RotateEvent(t, p, id));
            && (forall i :: 0 <= i < |s.bindings| && Matches(s.bindings[i], t, p) ==>
                  |s'.bindings| > i && s'.bindings[i].id == s.bindings[i].id && s'.bindings[i].status == Rotated)
            && (ActiveIn(s', id, t, p) <==> Selected(RefsOf(s, t), p))
  {
    var s' := Step(s, RotateEvent(t, p, id));
    var retired := Retire(s.bindings, t, p);
    SelectedIsTruthy(RefsOf(s, t), p);
    forall i | 0 <= i < |s.bindings| ensures s'.bindings[i] == RetireOne(s.bindings[i], t, p) {
      assert s'.bindings[i] == retired[i];
    }
    if Selected(RefsOf(s, t), p) {
      assert s'.bindings[|retired|] == NewBinding(s, t, p, id);
    } else {
      assert forall i :: 0 <= i < |s'.bindings| ==> s'.bindings[i].id == s.bindings[i].id;
    }
  }

  // ------------------------------------------------------------------ the gate

  lemma ActiveSource(s: State, t: Target, p: Purpose)
    requires Mirrors(s, t, p) && Selected(RefsOf(s, t), p)
    ensures ActiveBinding(s.bindings, t, p).Some?
    ensures ActiveBinding(s.bindings, t, p).value.source == DedicatedOperation <==> Dedicated(RefsOf(s, t), p)
  {
    NoneBacked(s, t, p);
    var b := ActiveBinding(s.bindings, t, p).value;
    var i :| 0 <= i < |s.bindings| && s.bindings[i] == b;
  }

  /** The gate grants exactly when both dedicated references are set and differ. */
  lemma GateGrantsIff(events: seq<Event>, t: Target)
    requires ServiceRun(events)
    ensures var s := After(INITIAL, events);
            RealPlanGate(s, t).Granted? <==>
            t in s.refs && s.refs[t].plan.Some? && s.refs[t].backend.Some? && s.refs[t].plan != s.refs[t].backend
  {
    var s := After(INITIAL, events);
    RunsMirror(INITIAL, events);
    assert Disciplined(INITIAL);
    RunsAreDisciplined(INITIAL, events);
    if t in s.refs && s.refs[t].plan.Some? && s.refs[t].backend.Some? {
      ActiveSource(s, t, ProviderPlanRead);
      ActiveSource(s, t, StateBackendPlan);
      ActiveAreTwo(s, t);
    }
  }

  lemma ActiveAreTwo(s: State, t: Target)
    requires DistinctIds(s.bindings)
    requires ActiveBinding(s.bindings, t, ProviderPlanRead).Some?
    requires ActiveBinding(s.bindings, t, StateBackendPlan).Some?
    ensures ActiveBinding(s.bindings, t, ProviderPlanRead).value.id
            != ActiveBinding(s.bindings, t, StateBackendPlan).value.id
  {
    var i :| 0 <= i < |s.bindings| && s.bindings[i] == ActiveBinding(s.bindings, t, ProviderPlanRead).value;
    var j :| 0 <= j < |s.bindings| && s.bindings[j] == ActiveBinding(s.bindings, t, StateBackendPlan).value;
    assert i < j || j < i;
  }
}

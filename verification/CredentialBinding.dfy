/**
 Opaque, versioned credential bindings: apps/api/secp_api/credential_binding.py together with the
 rotation hook of apps/api/secp_api/immutability.py.  One call is one flushed transaction.
 */
module CredentialBinding {
  import opened Wrappers

  datatype Purpose = ProviderPlanRead | StateBackendPlan | ProviderExecution
  datatype Status = Active | Rotated
  datatype Source = DedicatedOperation | LegacyGeneric

  type Target = string
  type BindingId = string

  /** The four reference columns of an execution target. */
  datatype Refs = Refs(generic: Option<string>, plan: Option<string>, backend: Option<string>,
                       execution: Option<string>)

  datatype Binding = Binding(id: BindingId, target: Target, purpose: Purpose, version: nat, status: Status,
                             source: Source)

  datatype State = State(refs: map<Target, Refs>, bindings: seq<Binding>)

  // ------------------------------------------------------------------ reference selectors

  /** Python's truth value of an optional string. */
  predicate Truthy(r: Option<string>) {
    r.Some? && r.value != ""
  }

  function RefsOf(s: State, t: Target): Refs {
    if t in s.refs then s.refs[t] else Refs(None, None, None, None)
  }

  /** `purpose_reference`: only plan reading falls back to the generic column. */
  function PurposeReference(r: Refs, p: Purpose): Option<string> {
    match p
    case ProviderPlanRead => if Truthy(r.plan) then r.plan else r.generic
    case StateBackendPlan => r.backend
    case ProviderExecution => r.execution
  }

  /** `dedicated_reference` */
  function DedicatedReference(r: Refs, p: Purpose): Option<string> {
    match p
    case ProviderPlanRead => r.plan
    case StateBackendPlan => r.backend
    case ProviderExecution => r.execution
  }

  function SourceOf(r: Refs, p: Purpose): Source {
    if DedicatedReference(r, p).Some? then DedicatedOperation else LegacyGeneric
  }

  // ------------------------------------------------------------------ rows

  predicate Matches(b: Binding, t: Target, p: Purpose) {
    b.target == t && b.purpose == p
  }

  /** The rows of one (target, purpose), in order of creation. */
  function Select(bs: seq<Binding>, t: Target, p: Purpose): seq<Binding> {
    if bs == [] then []
    else
      var n := |bs| - 1;
      Select(bs[..n], t, p) + if Matches(bs[n], t, p) then [bs[n]] else []
  }

  /** `active_credential_binding` */
  function ActiveBinding(bs: seq<Binding>, t: Target, p: Purpose): (r: Option<Binding>)
    ensures r.Some? ==> r.value in bs && Matches(r.value, t, p) && r.value.status == Active
    ensures r.None? ==> forall b :: b in bs && Matches(b, t, p) ==> b.status != Active
  {
    if bs == [] then None
    else if Matches(bs[0], t, p) && bs[0].status == Active then Some(bs[0])
    else ActiveBinding(bs[1..], t, p)
  }

  /** `select max(binding_version)`, 0 when there is none. */
  function MaxVersion(bs: seq<Binding>): (v: nat)
    ensures forall b :: b in bs ==> b.version <= v
  {
    if bs == [] then 0
    else
      var v := MaxVersion(bs[1..]);
      if bs[0].version > v then bs[0].version else v
  }

  function NextVersion(bs: seq<Binding>, t: Target, p: Purpose): nat {
    MaxVersion(Select(bs, t, p)) + 1
  }

  predicate IdTaken(bs: seq<Binding>, id: BindingId) {
    exists i :: 0 <= i < |bs| && bs[i].id == id
  }

  function RetireOne(b: Binding, t: Target, p: Purpose): Binding {
    if Matches(b, t, p) && b.status == Active then b.(status := Rotated) else b
  }

  function Retire(bs: seq<Binding>, t: Target, p: Purpose): (r: seq<Binding>)
    ensures |r| == |bs| && forall i :: 0 <= i < |bs| ==> r[i] == RetireOne(bs[i], t, p)
  {
    if bs == [] then [] else [RetireOne(bs[0], t, p)] + Retire(bs[1..], t, p)
  }

  function NewBinding(s: State, t: Target, p: Purpose, id: BindingId): Binding {
    Binding(id, t, p, NextVersion(s.bindings, t, p), Active, SourceOf(RefsOf(s, t), p))
  }

  // ------------------------------------------------------------------ the operations

  /** `ensure_credential_binding`; a uuid collision fails the flush. */
  function Ensure(s: State, t: Target, p: Purpose, id: BindingId): State {
    if !Truthy(PurposeReference(RefsOf(s, t), p)) || ActiveBinding(s.bindings, t, p).Some? || IdTaken(s.bindings, id)
      then s
    else s.(bindings := s.bindings + [NewBinding(s, t, p, id)])
  }

  /** `rotate_credential_binding` */
  function Rotate(s: State, t: Target, p: Purpose, id: BindingId): State
    requires !IdTaken(s.bindings, id)
  {
    var retired := Retire(s.bindings, t, p);
    if Truthy(PurposeReference(RefsOf(s, t), p)) then s.(bindings := retired + [NewBinding(s, t, p, id)])
    else s.(bindings := retired)
  }

  /** The hook's test for the plan-read purpose, on the old and new columns. */
  predicate PlanRotates(old': Refs, new': Refs) {
    old'.plan != new'.plan || (old'.generic != new'.generic && new'.plan.None?)
  }

  /** Two new ids that can be inserted together; with any other the flush fails and nothing is written. */
  predicate FreshIds(s: State, a: BindingId, b: BindingId) {
    !IdTaken(s.bindings, a) && !IdTaken(s.bindings, b) && a != b
  }

  /** An update of a target's columns, with the rotations the `before_flush` hook performs. */
  function Change(s: State, t: Target, r: Refs, planId: BindingId, backendId: BindingId): State {
    if t !in s.refs || !FreshIds(s, planId, backendId) then s
    else
      var was := RefsOf(s, t);
      var s1 := s.(refs := s.refs[t := r]);
      var s2 := if PlanRotates(was, r) then Rotate(s1, t, ProviderPlanRead, planId) else s1;
      if was.backend != r.backend then
        RotateIds(s1, t, ProviderPlanRead, planId, backendId);
        Rotate(s2, t, StateBackendPlan, backendId)
      else s2
  }

  predicate HasRows(s: State, t: Target) {
    exists b :: b in s.bindings && b.target == t
  }

  /** The columns of a new target; its id is fresh, so no binding names it yet. */
  function Inserted(s: State, t: Target, r: Refs): State {
    if t in s.refs || HasRows(s, t) then s else s.(refs := s.refs[t := r])
  }

  /** `register_target`: the columns without a rotation, then `ensure_all_credential_bindings`. */
  function Register(s: State, t: Target, r: Refs, planId: BindingId, backendId: BindingId): State {
    if t in s.refs || HasRows(s, t) || !FreshIds(s, planId, backendId) then s
    else Ensure(Ensure(Inserted(s, t, r), t, ProviderPlanRead, planId), t, StateBackendPlan, backendId)
  }

  lemma RotateIds(s: State, t: Target, p: Purpose, id: BindingId, other: BindingId)
    requires !IdTaken(s.bindings, id) && !IdTaken(s.bindings, other) && id != other
    ensures !IdTaken(Rotate(s, t, p, id).bindings, other)
  {
    var retired := Retire(s.bindings, t, p);
    assert forall i :: 0 <= i < |retired| ==> retired[i].id == s.bindings[i].id;
  }

  /** The binding table and the target columns, updated in place. */
  class Registry {
    var refs: map<Target, Refs>
    var bindings: seq<Binding>

    constructor ()
      ensures View() == State(map[], [])
    {
      refs, bindings := map[], [];
    }

    function View(): State
      reads this
    {
      State(refs, bindings)
    }

    method EnsureBinding(t: Target, p: Purpose, id: BindingId)
      modifies this
      ensures View() == Ensure(old(View()), t, p, id)
    {
      var reference := PurposeReference(RefsOf(View(), t), p);
      if !Truthy(reference) {
        return;
      }
      var existing := ActiveBinding(bindings, t, p);
      if existing.Some? || IdTaken(bindings, id) {
        return;
      }
      bindings := bindings + [NewBinding(View(), t, p, id)];
    }

    method RotateBinding(t: Target, p: Purpose, id: BindingId)
      requires !IdTaken(bindings, id)
      modifies this`bindings
      ensures View() == Rotate(old(View()), t, p, id)
    {
      var row := NewBinding(View(), t, p, id);
      var i := 0;
      while i < |bindings|
        invariant 0 <= i <= |bindings| == |old(bindings)|
        invariant forall k :: 0 <= k < |bindings| ==>
          bindings[k] == if k < i then RetireOne(old(bindings)[k], t, p) else old(bindings)[k]
      {
        bindings := bindings[i := RetireOne(bindings[i], t, p)];
        i := i + 1;
      }
      assert bindings == Retire(old(bindings), t, p);
      if Truthy(PurposeReference(RefsOf(View(), t), p)) {
        bindings := bindings + [row];
      }
    }

    /** `register_target`, as far as references and bindings go. */
    method RegisterTarget(t: Target, r: Refs, planId: BindingId, backendId: BindingId)
      modifies this
      ensures View() == Register(old(View()), t, r, planId, backendId)
    {
      if t in refs || HasRows(View(), t) || !FreshIds(View(), planId, backendId) {
        return;
      }
      refs := refs[t := r];
      EnsureBinding(t, ProviderPlanRead, planId);
      EnsureBinding(t, StateBackendPlan, backendId);
    }

    method ChangeReferences(t: Target, r: Refs, planId: BindingId, backendId: BindingId)
      modifies this
      ensures View() == Change(old(View()), t, r, planId, backendId)
    {
      if t !in refs || !FreshIds(View(), planId, backendId) {
        return;
      }
      var was := RefsOf(View(), t);
      refs := refs[t := r];
      if PlanRotates(was, r) {
        RotateIds(View(), t, ProviderPlanRead, planId, backendId);
        RotateBinding(t, ProviderPlanRead, planId);
      }
      if was.backend != r.backend {
        RotateBinding(t, StateBackendPlan, backendId);
      }
    }
  }

  // ------------------------------------------------------------------ the real-plan gate

  datatype Gate = Refused(reason: string) | Granted(provider: Binding, backend: Binding)

  /** `real_plan_credential_bindings` */
  function RealPlanGate(s: State, t: Target): Gate {
    var r := RefsOf(s, t);
    if !Truthy(r.plan) then Refused("provider_plan_read_reference_missing")
    else if !Truthy(r.backend) then Refused("state_backend_plan_reference_missing")
    else if r.plan == r.backend then Refused("provider_state_credential_reference_shared")
    else
      var provider := ActiveBinding(s.bindings, t, ProviderPlanRead);
      var backend := ActiveBinding(s.bindings, t, StateBackendPlan);
      if provider.None? || provider.value.source != DedicatedOperation
        then Refused("provider_plan_credential_not_dedicated")
      else if backend.None? || backend.value.source != DedicatedOperation
        then Refused("state_backend_credential_not_dedicated")
      else if provider.value.id == backend.value.id then Refused("credential_binding_reused_across_purposes")
      else Granted(provider.value, backend.value)
  }

  // ------------------------------------------------------------------ runs

  datatype Event =
    | EnsureEvent(target: Target, purpose: Purpose, id: BindingId)
    | RotateEvent(target: Target, purpose: Purpose, id: BindingId)
    | RegisterEvent(target: Target, refs: Refs, planId: BindingId, backendId: BindingId)
    | ChangeEvent(target: Target, refs: Refs, planId: BindingId, backendId: BindingId)

  function Step(s: State, e: Event): State {
    match e
    case EnsureEvent(t, p, id) => Ensure(s, t, p, id)
    case RotateEvent(t, p, id) => if IdTaken(s.bindings, id) then s else Rotate(s, t, p, id)
    case RegisterEvent(t, r, planId, backendId) => Register(s, t, r, planId, backendId)
    case ChangeEvent(t, r, planId, backendId) => Change(s, t, r, planId, backendId)
  }

  function After(s: State, events: seq<Event>): State
    decreases |events|
  {
    if events == [] then s else After(Step(s, events[0]), events[1..])
  }

  const INITIAL := State(map[], [])

  // ------------------------------------------------------------------ version discipline

  /** Versions 1..n in order, and only the newest may be active. */
  ghost predicate Numbered(rows: seq<Binding>) {
    && (forall i :: 0 <= i < |rows| ==> rows[i].version == i + 1)
    && (forall i :: 0 <= i < |rows| - 1 ==> rows[i].status == Rotated)
  }

  ghost predicate DistinctIds(bs: seq<Binding>) {
    forall i, j :: 0 <= i < j < |bs| ==> bs[i].id != bs[j].id
  }

  ghost predicate Disciplined(s: State) {
    DistinctIds(s.bindings) && forall t, p :: Numbered(Select(s.bindings, t, p))
  }

  lemma {:induction false} SelectMembers(bs: seq<Binding>, t: Target, p: Purpose)
    ensures forall b :: b in Select(bs, t, p) <==> b in bs && Matches(b, t, p)
    decreases |bs|
  {
    if bs != [] {
      var n := |bs| - 1;
      SelectMembers(bs[..n], t, p);
      assert bs == bs[..n] + [bs[n]];
    }
  }

  lemma SelectAppend(bs: seq<Binding>, b: Binding, t: Target, p: Purpose)
    ensures Select(bs + [b], t, p) == Select(bs, t, p) + if Matches(b, t, p) then [b] else []
  {
    assert (bs + [b])[..|bs|] == bs;
  }

  lemma {:induction false} MaxVersionNumbered(rows: seq<Binding>, k: nat)
    requires forall i :: 0 <= i < |rows| ==> rows[i].version == k + i + 1
    ensures MaxVersion(rows) == if rows == [] then 0 else k + |rows|
    decreases |rows|
  {
    if rows != [] {
      MaxVersionNumbered(rows[1..], k + 1);
    }
  }

  lemma RetireAppend(bs: seq<Binding>, b: Binding, t: Target, p: Purpose)
    ensures Retire(bs + [b], t, p) == Retire(bs, t, p) + [RetireOne(b, t, p)]
  {
  }

  lemma SelectRetiredStep(front: seq<Binding>, last: Binding, t: Target, p: Purpose, u: Target, q: Purpose)
    requires Select(Retire(front, t, p), u, q) == Retire(Select(front, u, q), t, p)
    ensures Select(Retire(front + [last], t, p), u, q) == Retire(Select(front + [last], u, q), t, p)
  {
    RetireAppend(front, last, t, p);
    SelectAppend(front, last, u, q);
    SelectAppend(Retire(front, t, p), RetireOne(last, t, p), u, q);
    RetireAppend(Select(front, u, q), last, t, p);
  }

  /** Retiring the active row of one purpose touches only that purpose's rows. */
  lemma {:induction false} SelectRetired(bs: seq<Binding>, t: Target, p: Purpose, u: Target, q: Purpose)
    ensures Select(Retire(bs, t, p), u, q) == Retire(Select(bs, u, q), t, p)
    decreases |bs|
  {
    if bs != [] {
      var front, last := bs[..|bs| - 1], bs[|bs| - 1];
      SelectRetired(front, t, p, u, q);
      assert bs == front + [last];
      SelectRetiredStep(front, last, t, p, u, q);
    }
  }

  lemma NoneActiveAfterRetire(bs: seq<Binding>, t: Target, p: Purpose)
    ensures forall i :: 0 <= i < |Select(Retire(bs, t, p), t, p)| ==>
              Select(Retire(bs, t, p), t, p)[i].status == Rotated
  {
    SelectRetired(bs, t, p, t, p);
    SelectMembers(bs, t, p);
    forall i | 0 <= i < |Select(bs, t, p)| ensures Select(Retire(bs, t, p), t, p)[i].status == Rotated {
      assert Select(bs, t, p)[i] in Select(bs, t, p);
    }
  }

  /** Adding the next version to rows of which none is active keeps them numbered. */
  lemma AppendKeepsNumbered(rows: seq<Binding>, b: Binding)
    requires Numbered(rows) && (forall i :: 0 <= i < |rows| ==> rows[i].status == Rotated)
    requires b.version == MaxVersion(rows) + 1
    ensures Numbered(rows + [b])
  {
    MaxVersionNumbered(rows, 0);
  }

  lemma NewBindingKeepsNumbered(s: State, t: Target, p: Purpose, id: BindingId, u: Target, q: Purpose)
    requires Numbered(Select(s.bindings, u, q)) && ActiveBinding(s.bindings, t, p).None?
    ensures Numbered(Select(s.bindings + [NewBinding(s, t, p, id)], u, q))
  {
    var b := NewBinding(s, t, p, id);
    SelectAppend(s.bindings, b, u, q);
    if Matches(b, u, q) {
      SelectMembers(s.bindings, t, p);
      var rows := Select(s.bindings, t, p);
      forall i | 0 <= i < |rows| ensures rows[i].status == Rotated {
        assert rows[i] in rows;
      }
      AppendKeepsNumbered(rows, b);
    }
  }

  lemma EnsureKeepsDiscipline(s: State, t: Target, p: Purpose, id: BindingId)
    requires Disciplined(s)
    ensures Disciplined(Ensure(s, t, p, id))
  {
    var s' := Ensure(s, t, p, id);
    if s' != s {
      var b := NewBinding(s, t, p, id);
      assert s'.bindings == s.bindings + [b];
      forall u, q ensures Numbered(Select(s.bindings + [b], u, q)) {
        NewBindingKeepsNumbered(s, t, p, id, u, q);
      }
    }
  }

  lemma RetiredStaysNumbered(rows: seq<Binding>, t: Target, p: Purpose)
    requires Numbered(rows)
    ensures Numbered(Retire(rows, t, p))
  {
  }

  lemma SameMaxVersion(rows: seq<Binding>, t: Target, p: Purpose)
    requires Numbered(rows)
    ensures MaxVersion(Retire(rows, t, p)) == MaxVersion(rows)
  {
    RetiredStaysNumbered(rows, t, p);
    MaxVersionNumbered(rows, 0);
    MaxVersionNumbered(Retire(rows, t, p), 0);
  }

  lemma RotateKeepsNumbered(s: State, t: Target, p: Purpose, id: BindingId, u: Target, q: Purpose)
    requires !IdTaken(s.bindings, id) && Numbered(Select(s.bindings, u, q))
    ensures Numbered(Select(Rotate(s, t, p, id).bindings, u, q))
  {
    var retired := Retire(s.bindings, t, p);
    var b := NewBinding(s, t, p, id);
    SelectRetired(s.bindings, t, p, u, q);
    SelectAppend(retired, b, u, q);
    RetiredStaysNumbered(Select(s.bindings, u, q), t, p);
    if Matches(b, u, q) {
      NoneActiveAfterRetire(s.bindings, t, p);
      SameMaxVersion(Select(s.bindings, t, p), t, p);
      AppendKeepsNumbered(Select(retired, t, p), b);
    }
  }

  lemma RotateKeepsDiscipline(s: State, t: Target, p: Purpose, id: BindingId)
    requires Disciplined(s) && !IdTaken(s.bindings, id)
    ensures Disciplined(Rotate(s, t, p, id))
  {
    var retired := Retire(s.bindings, t, p);
    assert forall i :: 0 <= i < |retired| ==> retired[i].id == s.bindings[i].id;
    assert DistinctIds(Rotate(s, t, p, id).bindings);
    forall u, q ensures Numbered(Select(Rotate(s, t, p, id).bindings, u, q)) {
      RotateKeepsNumbered(s, t, p, id, u, q);
    }
  }

  lemma RegisterKeepsDiscipline(s: State, t: Target, r: Refs, planId: BindingId, backendId: BindingId)
    requires Disciplined(s)
    ensures Disciplined(Register(s, t, r, planId, backendId))
  {
    var s1 := Inserted(s, t, r);
    EnsureKeepsDiscipline(s1, t, ProviderPlanRead, planId);
    EnsureKeepsDiscipline(Ensure(s1, t, ProviderPlanRead, planId), t, StateBackendPlan, backendId);
  }

  lemma ChangeKeepsDiscipline(s: State, t: Target, r: Refs, planId: BindingId, backendId: BindingId)
    requires Disciplined(s)
    ensures Disciplined(Change(s, t, r, planId, backendId))
  {
    if t in s.refs && FreshIds(s, planId, backendId) {
      var was := RefsOf(s, t);
      var s1 := s.(refs := s.refs[t := r]);
      var s2 := s1;
      if PlanRotates(was, r) {
        RotateKeepsDiscipline(s1, t, ProviderPlanRead, planId);
        RotateIds(s1, t, ProviderPlanRead, planId, backendId);
        s2 := Rotate(s1, t, ProviderPlanRead, planId);
      }
      if was.backend != r.backend {
        RotateKeepsDiscipline(s2, t, StateBackendPlan, backendId);
      }
    }
  }

  lemma StepKeepsDiscipline(s: State, e: Event)
    requires Disciplined(s)
    ensures Disciplined(Step(s, e))
  {
    match e
    case EnsureEvent(t, p, id) => EnsureKeepsDiscipline(s, t, p, id);
    case RotateEvent(t, p, id) => if !IdTaken(s.bindings, id) { RotateKeepsDiscipline(s, t, p, id); }
    case RegisterEvent(t, r, planId, backendId) => RegisterKeepsDiscipline(s, t, r, planId, backendId);
    case ChangeEvent(t, r, planId, backendId) => ChangeKeepsDiscipline(s, t, r, planId, backendId);
  }

  /**
   Over every run, each (target, purpose) has versions 1..n without gap or repeat, and only version n may be active.
   */
  lemma {:induction false} RunsAreDisciplined(s: State, events: seq<Event>)
    requires Disciplined(s)
    ensures Disciplined(After(s, events))
    decreases |events|
  {
    if events != [] {
      StepKeepsDiscipline(s, events[0]);
      RunsAreDisciplined(Step(s, events[0]), events[1..]);
    }
  }

  // ------------------------------------------------------------------ a binding names one selection

  ghost predicate ActiveIn(s: State, id: BindingId, t: Target, p: Purpose) {
    exists i :: 0 <= i < |s.bindings|
                && s.bindings[i].id == id && Matches(s.bindings[i], t, p) && s.bindings[i].status == Active
  }

  /** Nothing revives a row: the rows of `s` stay where they are, and an inactive one stays inactive. */
  ghost predicate Ages(s: State, s': State) {
    && |s.bindings| <= |s'.bindings|
    && (forall i :: 0 <= i < |s.bindings| ==>
          (s'.bindings[i] == s.bindings[i] || s'.bindings[i] == s.bindings[i].(status := Rotated)))
  }

  lemma EnsureAges(s: State, t: Target, p: Purpose, id: BindingId)
    ensures Ages(s, Ensure(s, t, p, id))
  {
  }

  lemma RotateAges(s: State, t: Target, p: Purpose, id: BindingId)
    requires !IdTaken(s.bindings, id)
    ensures Ages(s, Rotate(s, t, p, id))
  {
  }

  lemma AgesTransitive(s: State, mid: State, end: State)
    requires Ages(s, mid) && Ages(mid, end)
    ensures Ages(s, end)
  {
    forall i | 0 <= i < |s.bindings|
      ensures end.bindings[i] == s.bindings[i] || end.bindings[i] == s.bindings[i].(status := Rotated)
    {
      assert mid.bindings[i] == s.bindings[i] || mid.bindings[i] == s.bindings[i].(status := Rotated);
    }
  }

  lemma ChangeAges(s: State, t: Target, r: Refs, planId: BindingId, backendId: BindingId)
    ensures Ages(s, Change(s, t, r, planId, backendId))
  {
    if t in s.refs && FreshIds(s, planId, backendId) {
      var was := RefsOf(s, t);
      var s1 := s.(refs := s.refs[t := r]);
      var s2 := s1;
      if PlanRotates(was, r) {
        RotateAges(s1, t, ProviderPlanRead, planId);
        RotateIds(s1, t, ProviderPlanRead, planId, backendId);
        s2 := Rotate(s1, t, ProviderPlanRead, planId);
      }
      if was.backend != r.backend {
        RotateAges(s2, t, StateBackendPlan, backendId);
        AgesTransitive(s, s2, Rotate(s2, t, StateBackendPlan, backendId));
      }
    }
  }

  lemma RegisterAges(s: State, t: Target, r: Refs, planId: BindingId, backendId: BindingId)
    ensures Ages(s, Register(s, t, r, planId, backendId))
  {
    var s1 := Inserted(s, t, r);
    var s2 := Ensure(s1, t, ProviderPlanRead, planId);
    EnsureAges(s1, t, ProviderPlanRead, planId);
    EnsureAges(s2, t, StateBackendPlan, backendId);
    AgesTransitive(s, s2, Ensure(s2, t, StateBackendPlan, backendId));
  }

  lemma StepAges(s: State, e: Event)
    ensures Ages(s, Step(s, e))
  {
    match e
    case EnsureEvent(t, p, id) => EnsureAges(s, t, p, id);
    case RotateEvent(t, p, id) => if !IdTaken(s.bindings, id) { RotateAges(s, t, p, id); }
    case RegisterEvent(t, r, planId, backendId) => RegisterAges(s, t, r, planId, backendId);
    case ChangeEvent(t, r, planId, backendId) => ChangeAges(s, t, r, planId, backendId);
  }

  lemma {:induction false} RunAges(s: State, events: seq<Event>)
    ensures Ages(s, After(s, events))
    decreases |events|
  {
    if events != [] {
      StepAges(s, events[0]);
      RunAges(Step(s, events[0]), events[1..]);
    }
  }

  /** A binding active now and active at the end was active all along. */
  lemma ActiveThroughout(s: State, mid: State, end: State, id: BindingId, t: Target, p: Purpose)
    requires Ages(s, mid) && Ages(mid, end) && DistinctIds(end.bindings)
    requires ActiveIn(s, id, t, p) && ActiveIn(end, id, t, p)
    ensures ActiveIn(mid, id, t, p)
  {
    var i :| 0 <= i < |s.bindings| && s.bindings[i].id == id && Matches(s.bindings[i], t, p)
        && s.bindings[i].status == Active;
    var j :| 0 <= j < |end.bindings| && end.bindings[j].id == id && end.bindings[j].status == Active;
    assert mid.bindings[i].id == id && end.bindings[i].id == id;
    assert i == j || i < j || j < i;
  }

  /** A change of columns that no rotation accompanies although the purpose's reference changes. */
  predicate BlindChange(was: Refs, r: Refs, p: Purpose) {
    match p
    case ProviderPlanRead => was.plan == r.plan == Some("") && was.generic != r.generic
    case StateBackendPlan => false
    case ProviderExecution => was.execution != r.execution
  }

  ghost predicate Blind(s: State, e: Event, t: Target, p: Purpose) {
    && e.ChangeEvent? && e.target == t && t in s.refs && BlindChange(RefsOf(s, t), e.refs, p)
    && FreshIds(s, e.planId, e.backendId)
  }

  /** A rotation ends exactly the earlier rows of its own purpose and revives nothing. */
  lemma RotateOutcome(s: State, t: Target, p: Purpose, newId: BindingId, id: BindingId, u: Target, q: Purpose)
    requires !IdTaken(s.bindings, newId) && IdTaken(s.bindings, id)
    ensures IdTaken(Rotate(s, t, p, newId).bindings, id)
    ensures ActiveIn(Rotate(s, t, p, newId), id, u, q) <==> ActiveIn(s, id, u, q) && !(t == u && p == q)
  {
    var s' := Rotate(s, t, p, newId);
    RotateRows(s, t, p, newId);
    var k :| 0 <= k < |s.bindings| && s.bindings[k].id == id;
    assert s'.bindings[k].id == id;
    OutcomeByRow(s, s', t, p, newId, id, u, q);
  }

  lemma RotateRows(s: State, t: Target, p: Purpose, newId: BindingId)
    requires !IdTaken(s.bindings, newId)
    ensures var rows := Rotate(s, t, p, newId).bindings;
            && |rows| >= |s.bindings|
            && (forall i :: 0 <= i < |s.bindings| ==> rows[i] == RetireOne(s.bindings[i], t, p))
            && (forall i :: |s.bindings| <= i < |rows| ==> rows[i].id == newId)
  {
  }

  lemma OutcomeByRow(s: State, s': State, t: Target, p: Purpose, newId: BindingId, id: BindingId, u: Target, q: Purpose)
    requires |s'.bindings| >= |s.bindings| && id != newId
    requires forall i :: 0 <= i < |s.bindings| ==> s'.bindings[i] == RetireOne(s.bindings[i], t, p)
    requires forall i :: |s.bindings| <= i < |s'.bindings| ==> s'.bindings[i].id == newId
    ensures ActiveIn(s', id, u, q) <==> ActiveIn(s, id, u, q) && !(t == u && p == q)
  {
    if ActiveIn(s, id, u, q) && !(t == u && p == q) {
      var i :| 0 <= i < |s.bindings| && s.bindings[i].id == id && Matches(s.bindings[i], u, q)
          && s.bindings[i].status == Active;
      assert s'.bindings[i] == s.bindings[i];
    }
    if ActiveIn(s', id, u, q) {
      var i :| 0 <= i < |s'.bindings| && s'.bindings[i].id == id && Matches(s'.bindings[i], u, q)
          && s'.bindings[i].status == Active;
      assert i < |s.bindings|;
      assert s'.bindings[i] == RetireOne(s.bindings[i], t, p);
    }
  }

  /** What a change of columns does to a binding that is active. */
  lemma ChangeOutcome(s: State, t: Target, r: Refs, planId: BindingId, backendId: BindingId, id: BindingId, p: Purpose)
    requires ActiveIn(s, id, t, p) && t in s.refs
    requires FreshIds(s, planId, backendId)
    ensures ActiveIn(Change(s, t, r, planId, backendId), id, t, p) <==>
            match p
            case ProviderPlanRead => !PlanRotates(RefsOf(s, t), r)
            case StateBackendPlan => RefsOf(s, t).backend == r.backend
            case ProviderExecution => true
    ensures RefsOf(Change(s, t, r, planId, backendId), t) == r
  {
    var was := RefsOf(s, t);
    var s1 := s.(refs := s.refs[t := r]);
    assert ActiveIn(s1, id, t, p) && IdTaken(s1.bindings, id);
    var s2 := s1;
    if PlanRotates(was, r) {
      s2 := Rotate(s1, t, ProviderPlanRead, planId);
      RotateIds(s1, t, ProviderPlanRead, planId, backendId);
      RotateOutcome(s1, t, ProviderPlanRead, planId, id, t, p);
    }
    if was.backend != r.backend {
      RotateOutcome(s2, t, StateBackendPlan, backendId, id, t, p);
    }
  }

  /**
   Exactly the blind changes keep a binding active while its source reference becomes another one: an
   empty-string plan reference (which the hook takes for a dedicated one and the selector does not) with
   a changed generic reference, and any change of the execution reference.
   */
  lemma SurvivesWithOtherReferenceIff(s: State, e: Event, id: BindingId, t: Target, p: Purpose)
    requires ActiveIn(s, id, t, p)
    ensures ActiveIn(Step(s, e), id, t, p)
            && PurposeReference(RefsOf(Step(s, e), t), p) != PurposeReference(RefsOf(s, t), p)
            <==> Blind(s, e, t, p)
  {
    if Writes(s, e, t) {
      ChangeOutcome(s, t, e.refs, e.planId, e.backendId, id, p);
    } else {
      UnwrittenKeepsRefs(s, e, id, t, p);
    }
  }

  /** The step is a change of the columns of this target that goes through. */
  predicate Writes(s: State, e: Event, t: Target) {
    && e.ChangeEvent? && e.target == t && t in s.refs
    && FreshIds(s, e.planId, e.backendId)
  }

  lemma RotateKeepsRefs(s: State, t: Target, p: Purpose, id: BindingId)
    requires !IdTaken(s.bindings, id)
    ensures Rotate(s, t, p, id).refs == s.refs
  {
  }

  lemma EnsureKeepsRefs(s: State, t: Target, p: Purpose, id: BindingId)
    ensures Ensure(s, t, p, id).refs == s.refs
  {
  }

  lemma RegisterRefs(s: State, t: Target, r: Refs, planId: BindingId, backendId: BindingId)
    ensures Register(s, t, r, planId, backendId).refs
            == if FreshIds(s, planId, backendId) then Inserted(s, t, r).refs else s.refs
  {
    EnsureKeepsRefs(Inserted(s, t, r), t, ProviderPlanRead, planId);
    EnsureKeepsRefs(Ensure(Inserted(s, t, r), t, ProviderPlanRead, planId), t, StateBackendPlan, backendId);
  }

  lemma ChangeRefs(s: State, t: Target, r: Refs, planId: BindingId, backendId: BindingId)
    ensures var s' := Change(s, t, r, planId, backendId);
            s'.refs == s.refs || (t in s.refs && s'.refs == s.refs[t := r])
  {
    if t in s.refs && FreshIds(s, planId, backendId) {
      var was := RefsOf(s, t);
      var s1 := s.(refs := s.refs[t := r]);
      var s2 := s1;
      if PlanRotates(was, r) {
        RotateKeepsRefs(s1, t, ProviderPlanRead, planId);
        RotateIds(s1, t, ProviderPlanRead, planId, backendId);
        s2 := Rotate(s1, t, ProviderPlanRead, planId);
      }
      if was.backend != r.backend { RotateKeepsRefs(s2, t, StateBackendPlan, backendId); }
    }
  }

  /** No other step changes the references of a target that has a binding. */
  lemma UnwrittenKeepsRefs(s: State, e: Event, id: BindingId, t: Target, p: Purpose)
    requires ActiveIn(s, id, t, p) && !Writes(s, e, t)
    ensures RefsOf(Step(s, e), t) == RefsOf(s, t)
  {
    match e
    case EnsureEvent(u, q, newId) => EnsureKeepsRefs(s, u, q, newId);
    case RotateEvent(u, q, newId) => if !IdTaken(s.bindings, newId) { RotateKeepsRefs(s, u, q, newId); }
    case RegisterEvent(u, r, planId, backendId) =>
      RegisterRefs(s, u, r, planId, backendId);
      assert HasRows(s, t);
    case ChangeEvent(u, r, planId, backendId) => ChangeRefs(s, u, r, planId, backendId);
  }

  /** No step of the run changes the purpose's reference blindly. */
  ghost predicate NeverBlind(s: State, events: seq<Event>, t: Target, p: Purpose)
    decreases |events|
  {
    events != [] ==> !Blind(s, events[0], t, p) && NeverBlind(Step(s, events[0]), events[1..], t, p)
  }

  /**
   ABA-freedom: a binding active at two points of a run without blind changes stands for the same reference at both.
   */
  lemma {:induction false} BindingNamesOneReference(s: State, events: seq<Event>, id: BindingId, t: Target, p: Purpose)
    requires Disciplined(s) && NeverBlind(s, events, t, p)
    requires ActiveIn(s, id, t, p) && ActiveIn(After(s, events), id, t, p)
    ensures PurposeReference(RefsOf(After(s, events), t), p) == PurposeReference(RefsOf(s, t), p)
    decreases |events|
  {
    if events != [] {
      var mid := Step(s, events[0]);
      StepAges(s, events[0]);
      RunAges(mid, events[1..]);
      RunsAreDisciplined(s, events);
      StepKeepsDiscipline(s, events[0]);
      ActiveThroughout(s, mid, After(s, events), id, t, p);
      SurvivesWithOtherReferenceIff(s, events[0], id, t, p);
      BindingNamesOneReference(mid, events[1..], id, t, p);
    }
  }

  /** State-backend changes are never blind, whatever the run. */
  lemma {:induction false} BackendNeverBlind(s: State, events: seq<Event>, t: Target)
    ensures NeverBlind(s, events, t, StateBackendPlan)
    decreases |events|
  {
    if events != [] {
      BackendNeverBlind(Step(s, events[0]), events[1..], t);
    }
  }

  lemma StepKeepsDedicated(s: State, e: Event, id: BindingId, t: Target)
    requires ActiveIn(s, id, t, ProviderPlanRead) && ActiveIn(Step(s, e), id, t, ProviderPlanRead)
    ensures RefsOf(Step(s, e), t).plan == RefsOf(s, t).plan
  {
    if Writes(s, e, t) {
      ChangeOutcome(s, t, e.refs, e.planId, e.backendId, id, ProviderPlanRead);
    } else {
      UnwrittenKeepsRefs(s, e, id, t, ProviderPlanRead);
    }
  }

  lemma {:induction false} DedicatedPlanUnchanged(s: State, events: seq<Event>, id: BindingId, t: Target)
    requires Disciplined(s)
    requires ActiveIn(s, id, t, ProviderPlanRead) && ActiveIn(After(s, events), id, t, ProviderPlanRead)
    ensures RefsOf(After(s, events), t).plan == RefsOf(s, t).plan
    decreases |events|
  {
    if events != [] {
      var mid := Step(s, events[0]);
      StepAges(s, events[0]);
      RunAges(mid, events[1..]);
      RunsAreDisciplined(s, events);
      StepKeepsDiscipline(s, events[0]);
      ActiveThroughout(s, mid, After(s, events), id, t, ProviderPlanRead);
      StepKeepsDedicated(s, events[0], id, t);
      DedicatedPlanUnchanged(mid, events[1..], id, t);
    }
  }

  /**
   The gate, over every run: the pair it grants is dedicated and distinct, and at every earlier point where
   one of the two bindings was already active the target carried the same dedicated reference as now.
   */
  lemma GateIsCurrent(s: State, events: seq<Event>, t: Target, id: BindingId)
    requires Disciplined(s) && RealPlanGate(After(s, events), t).Granted?
    ensures var g, r := RealPlanGate(After(s, events), t), RefsOf(After(s, events), t);
            && g.provider.source == g.backend.source == DedicatedOperation && g.provider.id != g.backend.id
            && Truthy(r.plan) && Truthy(r.backend) && r.plan != r.backend
            && (g.provider.id == id && ActiveIn(s, id, t, ProviderPlanRead) ==> RefsOf(s, t).plan == r.plan)
            && (g.backend.id == id && ActiveIn(s, id, t, StateBackendPlan) ==> RefsOf(s, t).backend == r.backend)
  {
    var g := RealPlanGate(After(s, events), t);
    GrantedAreActive(After(s, events), t);
    if g.provider.id == id && ActiveIn(s, id, t, ProviderPlanRead) {
      DedicatedPlanUnchanged(s, events, id, t);
    }
    if g.backend.id == id && ActiveIn(s, id, t, StateBackendPlan) {
      BackendNeverBlind(s, events, t);
      BindingNamesOneReference(s, events, id, t, StateBackendPlan);
    }
  }

  lemma GrantedAreActive(s: State, t: Target)
    requires RealPlanGate(s, t).Granted?
    ensures var g := RealPlanGate(s, t);
            ActiveIn(s, g.provider.id, t, ProviderPlanRead) && ActiveIn(s, g.backend.id, t, StateBackendPlan)
  {
    var g := RealPlanGate(s, t);
    var i :| 0 <= i < |s.bindings| && s.bindings[i] == g.provider;
    var j :| 0 <= j < |s.bindings| && s.bindings[j] == g.backend;
  }

  // ------------------------------------------------------------------ what the services write

  /** The references the services write: each passed the syntax check, and none is written for execution. */
  predicate ServiceRefs(r: Refs) {
    r.generic != Some("") && r.plan != Some("") && r.backend != Some("") && r.execution == None
  }

  ghost predicate ServiceState(s: State) {
    forall t :: t in s.refs ==> ServiceRefs(s.refs[t])
  }

  predicate ServiceEvent(e: Event) {
    e.RegisterEvent? || e.ChangeEvent? ==> ServiceRefs(e.refs)
  }

  ghost predicate ServiceRun(events: seq<Event>) {
    forall i :: 0 <= i < |events| ==> ServiceEvent(events[i])
  }

  lemma WriteKeepsServiceState(s: State, refs: map<Target, Refs>, t: Target, r: Refs)
    requires ServiceState(s) && ServiceRefs(r) && (refs == s.refs || refs == s.refs[t := r])
    ensures forall u :: u in refs ==> ServiceRefs(refs[u])
  {
  }

  lemma StepKeepsServiceState(s: State, e: Event)
    requires ServiceState(s) && ServiceEvent(e)
    ensures ServiceState(Step(s, e))
  {
    match e
    case EnsureEvent(t, p, id) => EnsureKeepsRefs(s, t, p, id);
    case RotateEvent(t, p, id) => if !IdTaken(s.bindings, id) { RotateKeepsRefs(s, t, p, id); }
    case RegisterEvent(t, r, planId, backendId) =>
      RegisterRefs(s, t, r, planId, backendId);
      WriteKeepsServiceState(s, Step(s, e).refs, t, r);
    case ChangeEvent(t, r, planId, backendId) =>
      ChangeRefs(s, t, r, planId, backendId);
      WriteKeepsServiceState(s, Step(s, e).refs, t, r);
  }

  /** What the services write is never a blind change. */
  lemma {:induction false} ServiceRunsAreNeverBlind(s: State, events: seq<Event>, t: Target, p: Purpose)
    requires ServiceState(s) && ServiceRun(events)
    ensures NeverBlind(s, events, t, p) && ServiceState(After(s, events))
    decreases |events|
  {
    if events != [] {
      StepKeepsServiceState(s, events[0]);
      assert ServiceRun(events[1..]);
      ServiceRunsAreNeverBlind(Step(s, events[0]), events[1..], t, p);
    }
  }

  /**
   ABA-freedom of the system: take any run of service calls from the empty tables and any continuation of it.
   A binding active at both points stands for the same reference at both.
   */
  lemma ServiceBindingNamesOneReference(past: seq<Event>, events: seq<Event>, id: BindingId, t: Target, p: Purpose)
    requires ServiceRun(past) && ServiceRun(events)
    requires ActiveIn(After(INITIAL, past), id, t, p) && ActiveIn(After(After(INITIAL, past), events), id, t, p)
    ensures PurposeReference(RefsOf(After(After(INITIAL, past), events), t), p)
            == PurposeReference(RefsOf(After(INITIAL, past), t), p)
  {
    assert Disciplined(INITIAL);
    RunsAreDisciplined(INITIAL, past);
    ServiceRunsAreNeverBlind(INITIAL, past, t, p);
    ServiceRunsAreNeverBlind(After(INITIAL, past), events, t, p);
    BindingNamesOneReference(After(INITIAL, past), events, id, t, p);
  }

  /**
   Why the syntax check is needed: a write of an empty plan reference lets the generic one be replaced under an active
   binding.
   */
  lemma EmptyPlanReferenceHidesReplacement(t: Target, a: string, b: string)
    requires a != "" && b != "" && a != b
    ensures var before := Ensure(State(map[t := Refs(Some(a), Some(""), None, None)], []), t, ProviderPlanRead, "1");
            var after := Change(before, t, Refs(Some(b), Some(""), None, None), "2", "3");
            && ActiveIn(before, "1", t, ProviderPlanRead) && ActiveIn(after, "1", t, ProviderPlanRead)
            && PurposeReference(RefsOf(before, t), ProviderPlanRead) == Some(a)
            && PurposeReference(RefsOf(after, t), ProviderPlanRead) == Some(b)
  {
    var s0 := State(map[t := Refs(Some(a), Some(""), None, None)], []);
    var before := Ensure(s0, t, ProviderPlanRead, "1");
    assert before.bindings == [NewBinding(s0, t, ProviderPlanRead, "1")];
    assert before.bindings[0].id == "1";
    assert ActiveIn(before, "1", t, ProviderPlanRead);
    ChangeOutcome(before, t, Refs(Some(b), Some(""), None, None), "2", "3", "1", ProviderPlanRead);
  }
}

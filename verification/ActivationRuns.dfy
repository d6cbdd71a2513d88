/**
 Whole runs of the activation one-shot.  With the PostgreSQL advisory lock an activation is one atomic
 step (`Run`).  Without it (the lock is a no-op on other dialects) a session's lookup, its check and its
 commit are separate steps that interleave with other sessions; every statement sees the latest commit.
 */
module ActivationRuns {
  import opened Wrappers
  import opened ControllerActivation

  /** A session that runs without the lock, between two of its steps. */
  datatype Session = Looked(handoff: Handoff, now: int) | Checked(handoff: Handoff, current: Option<RowId>)

  datatype System = System(store: Store, sessions: map<nat, Session>)

  datatype Event =
    | Run(input: Input, now: int, newId: RowId, at: int, proofOk: bool)
    | Lookup(sid: nat, input: Input, now: int)
    | CheckStep(sid: nat)
    | ActStep(sid: nat, newId: RowId, at: int, proofOk: bool)

  function Next(y: System, e: Event): (System, Option<Exit>) {
    match e
    case Run(input, now, newId, at, proofOk) =>
      var (s, exit) := RunLocked(y.store, input, now, newId, at, proofOk);
      (y.(store := s), Some(exit))
    case Lookup(sid, input, now) =>
      (match ParseHandoff(input)
       case Invalid(reason) => (y, Some(HandoffInvalid(reason)))
       case Valid(h) =>
         var existing := LoadReceipt(y.store.receipts, h.operationId);
         if existing.Some? then (y, Some(ExactReplay(y.store.rows, existing.value, OperationDigestOf(h))))
         else (y.(sessions := y.sessions[sid := Looked(h, now)]), None))
    case CheckStep(sid) =>
      if sid in y.sessions && y.sessions[sid].Looked? && y.sessions[sid].handoff.createdAt.Canonical? then
        var h := y.sessions[sid].handoff;
        match Check(y.store, h, y.sessions[sid].now)
        case Done(exit) => (y.(sessions := y.sessions - {sid}), Some(exit))
        case Proceed(current) => (y.(sessions := y.sessions[sid := Checked(h, current)]), None)
      else (y, None)
    case ActStep(sid, newId, at, proofOk) =>
      if sid in y.sessions && y.sessions[sid].Checked? then
        var (s, exit) := Act(y.store, y.sessions[sid].handoff, y.sessions[sid].current, newId, at, proofOk);
        (System(s, y.sessions - {sid}), Some(exit))
      else (y, None)
  }

  function After(y: System, events: seq<Event>): System
    decreases |events|
  {
    if events == [] then y else After(Next(y, events[0]).0, events[1..])
  }

  const INITIAL := System(Store(map[], []), map[])

  // ------------------------------------------------------------------ what every step keeps

  /** A stored receipt is exactly what the winning execution of some accepted handoff wrote. */
  ghost predicate Genuine(r: Receipt, rows: map<RowId, Row>) {
    && r.resultingRow in rows
    && r.text.Body? && r.receiptDigest == ReceiptDigest(r.text)
    && r.text.body.operationId == r.operationId && r.text.body.resultingRow == r.resultingRow
    && r.text.body.token == r.resultingToken == TokenOf(r.resultingRow, rows[r.resultingRow])
    && r.text.body.publicState == r.publicState == PublicStateDigest(r.resultingRow, rows[r.resultingRow].identity)
    && r.text.body.candidate == r.candidate == IdentityDigest(rows[r.resultingRow].identity)
    && r.operationDigest.OperationDigest? && r.operationDigest.envelope.operationId == r.operationId
    && r.operationDigest.envelope.candidate == r.candidate
  }

  ghost predicate DistinctReceipts(receipts: seq<Receipt>) {
    forall i, j :: 0 <= i < j < |receipts| ==>
      receipts[i].operationId != receipts[j].operationId && receipts[i].resultingRow != receipts[j].resultingRow
  }

  ghost predicate OneActive(rows: map<RowId, Row>) {
    forall a, b :: a in ActiveRows(rows) && b in ActiveRows(rows) ==> a == b
  }

  ghost predicate AllGenuine(receipts: seq<Receipt>, rows: map<RowId, Row>) {
    forall r :: r in receipts ==> Genuine(r, rows)
  }

  /** At most one active row; receipts genuine, one per operation; rows and receipts one to one. */
  ghost predicate Sound(s: Store) {
    && OneActive(s.rows)
    && AllGenuine(s.receipts, s.rows)
    && DistinctReceipts(s.receipts)
    && Covered(s.rows, s.receipts)
  }

  /** What a step may do to the tables: nothing, or add one row and one receipt and supersede. */
  ghost predicate Extends(s: Store, t: Store) {
    && s.receipts <= t.receipts
    && (forall id :: id in s.rows ==>
          (id in t.rows && t.rows[id].identity == s.rows[id].identity
           && t.rows[id].activatedAt == s.rows[id].activatedAt))
  }

  lemma GenuineSurvives(r: Receipt, s: Store, t: Store)
    requires Genuine(r, s.rows) && Extends(s, t)
    ensures Genuine(r, t.rows)
  {
  }

  lemma RotatedHasOneActive(rows: map<RowId, Row>, identity: Identity, newId: RowId, at: int)
    ensures ActiveRows(Rotated(rows, identity, newId, at)) == {newId}
  {
    var r := Rotated(rows, identity, newId, at);
    assert r[newId].status == Active;
    forall id | id in ActiveRows(r) ensures id == newId {
      assert id == newId || r[id] == Supersede(rows[id], at);
    }
  }

  lemma NewReceiptKeepsDistinct(receipts: seq<Receipt>, receipt: Receipt)
    requires DistinctReceipts(receipts)
    requires forall r :: r in receipts ==>
               r.operationId != receipt.operationId && r.resultingRow != receipt.resultingRow
    ensures DistinctReceipts(receipts + [receipt])
  {
    forall i | 0 <= i < |receipts|
        ensures receipts[i].operationId != receipt.operationId && receipts[i].resultingRow != receipt.resultingRow {
      assert receipts[i] in receipts;
    }
  }

  ghost predicate Covered(rows: map<RowId, Row>, receipts: seq<Receipt>) {
    forall id :: id in rows ==> exists i :: 0 <= i < |receipts| && receipts[i].resultingRow == id
  }

  lemma NewReceiptCovers(rows: map<RowId, Row>, receipts: seq<Receipt>, rows': map<RowId, Row>, receipt: Receipt)
    requires Covered(rows, receipts) && rows'.Keys == rows.Keys + {receipt.resultingRow}
    ensures Covered(rows', receipts + [receipt])
  {
    var more := receipts + [receipt];
    forall id | id in rows' ensures exists i :: 0 <= i < |more| && more[i].resultingRow == id {
      if id in rows {
        var i :| 0 <= i < |receipts| && receipts[i].resultingRow == id;
        assert more[i].resultingRow == id;
      } else {
        assert more[|receipts|].resultingRow == id;
      }
    }
  }

  lemma CommitExtends(s: Store, h: Handoff, newId: RowId, at: int, receipt: Receipt)
    requires newId !in s.rows
    ensures Extends(s, Store(Rotated(s.rows, h.identity, newId, at), s.receipts + [receipt]))
  {
    var rows := Rotated(s.rows, h.identity, newId, at);
    forall id | id in s.rows
      ensures id in rows && rows[id].identity == s.rows[id].identity && rows[id].activatedAt == s.rows[id].activatedAt
    {
      assert rows[id] == Supersede(s.rows[id], at);
    }
  }

  lemma CommitIsGenuine(s: Store, h: Handoff, current: Option<RowId>, newId: RowId, at: int)
    requires h.candidate == IdentityDigest(h.identity) && newId !in s.rows
    requires AllGenuine(s.receipts, s.rows)
    ensures AllGenuine(s.receipts + [BuildReceipt(h, current, newId, at)], Rotated(s.rows, h.identity, newId, at))
  {
    var receipt := BuildReceipt(h, current, newId, at);
    var t := Store(Rotated(s.rows, h.identity, newId, at), s.receipts + [receipt]);
    CommitExtends(s, h, newId, at, receipt);
    forall r | r in t.receipts ensures Genuine(r, t.rows) {
      if r in s.receipts { GenuineSurvives(r, s, t); } else { assert r == receipt; }
    }
  }

  lemma CommitIsNew(s: Store, receipt: Receipt)
    requires AllGenuine(s.receipts, s.rows) && receipt.resultingRow !in s.rows
    requires LoadReceipt(s.receipts, receipt.operationId).None?
    ensures forall r :: r in s.receipts ==>
              r.operationId != receipt.operationId && r.resultingRow != receipt.resultingRow
  {
    forall r | r in s.receipts ensures r.resultingRow != receipt.resultingRow {
      assert Genuine(r, s.rows);
    }
  }

  /** The write of a first execution, from any sound store. */
  lemma CommitKeepsSound(s: Store, h: Handoff, current: Option<RowId>, newId: RowId, at: int)
    requires Sound(s) && h.candidate == IdentityDigest(h.identity) && newId !in s.rows
    requires LoadReceipt(s.receipts, h.operationId).None?
    ensures var t := Store(Rotated(s.rows, h.identity, newId, at), s.receipts + [BuildReceipt(h, current, newId, at)]);
            Sound(t) && Extends(s, t)
  {
    var receipt := BuildReceipt(h, current, newId, at);
    var t := Store(Rotated(s.rows, h.identity, newId, at), s.receipts + [receipt]);
    RotatedHasOneActive(s.rows, h.identity, newId, at);
    CommitExtends(s, h, newId, at, receipt);
    CommitIsGenuine(s, h, current, newId, at);
    CommitIsNew(s, receipt);
    NewReceiptKeepsDistinct(s.receipts, receipt);
    NewReceiptCovers(s.rows, s.receipts, t.rows, receipt);
  }

  lemma ActKeepsSound(s: Store, h: Handoff, current: Option<RowId>, newId: RowId, at: int, proofOk: bool)
    requires Sound(s) && h.candidate == IdentityDigest(h.identity)
    ensures var (t, exit) := Act(s, h, current, newId, at, proofOk); Sound(t) && Extends(s, t) && (!exit.Ok? ==> t == s)
  {
    if newId !in s.rows && LoadReceipt(s.receipts, h.operationId).None? {
      CommitKeepsSound(s, h, current, newId, at);
    }
  }

  lemma RunLockedKeepsSound(s: Store, input: Input, now: int, newId: RowId, at: int, proofOk: bool)
    requires Sound(s)
    ensures var (t, exit) := RunLocked(s, input, now, newId, at, proofOk);
            Sound(t) && Extends(s, t) && (!exit.Ok? ==> t == s)
  {
    var parsed := ParseHandoff(input);
    if parsed.Valid? && LoadReceipt(s.receipts, parsed.handoff.operationId).None? {
      var decision := Check(s, parsed.handoff, now);
      if decision.Proceed? {
        ActKeepsSound(s, parsed.handoff, decision.current, newId, at, proofOk);
      }
    }
  }

  ghost predicate HonestSessions(sessions: map<nat, Session>) {
    forall sid :: sid in sessions ==> ParseHandoff(Document(sessions[sid].handoff)).Valid?
  }

  lemma StepKeepsStoreSound(y: System, e: Event)
    requires Sound(y.store) && HonestSessions(y.sessions)
    ensures var (y', exit) := Next(y, e);
            && Sound(y'.store) && Extends(y.store, y'.store)
            && (!(exit.Some? && exit.value.Ok?) ==> y'.store == y.store)
  {
    match e
    case Run(input, now, newId, at, proofOk) =>
      RunLockedKeepsSound(y.store, input, now, newId, at, proofOk);
    case Lookup(sid, input, now) =>
    case CheckStep(sid) =>
    case ActStep(sid, newId, at, proofOk) =>
      if sid in y.sessions && y.sessions[sid].Checked? {
        ActKeepsSound(y.store, y.sessions[sid].handoff, y.sessions[sid].current, newId, at, proofOk);
      }
  }

  /** A session's handoff was there before the step, or was just parsed. */
  lemma SessionIsHonest(y: System, e: Event, sid: nat)
    requires sid in Next(y, e).0.sessions
    ensures var h := Next(y, e).0.sessions[sid].handoff;
            (sid in y.sessions && y.sessions[sid].handoff == h) || ParseHandoff(Document(h)).Valid?
  {
    match e
    case Run(_, _, _, _, _) =>
    case Lookup(_, _, _) =>
    case CheckStep(_) =>
    case ActStep(_, _, _, _) =>
  }

  lemma StepKeepsHonest(y: System, e: Event)
    requires HonestSessions(y.sessions)
    ensures HonestSessions(Next(y, e).0.sessions)
  {
    var sessions := Next(y, e).0.sessions;
    forall sid | sid in sessions ensures ParseHandoff(Document(sessions[sid].handoff)).Valid? {
      SessionIsHonest(y, e, sid);
    }
  }

  lemma StepKeepsSound(y: System, e: Event)
    requires Sound(y.store) && HonestSessions(y.sessions)
    ensures var (y', exit) := Next(y, e);
            && Sound(y'.store) && HonestSessions(y'.sessions) && Extends(y.store, y'.store)
            && (!(exit.Some? && exit.value.Ok?) ==> y'.store == y.store)
  {
    StepKeepsStoreSound(y, e);
    StepKeepsHonest(y, e);
  }

  lemma ExtendsTransitive(s: Store, t: Store, u: Store)
    requires Extends(s, t) && Extends(t, u)
    ensures Extends(s, u)
  {
  }

  /** Every reachable state is sound, and what it holds is never altered by anything that follows. */
  lemma {:induction false} RunKeepsSound(y: System, events: seq<Event>)
    requires Sound(y.store) && HonestSessions(y.sessions)
    ensures var z := After(y, events); Sound(z.store) && HonestSessions(z.sessions) && Extends(y.store, z.store)
    decreases |events|
  {
    if events != [] {
      StepKeepsSound(y, events[0]);
      RunKeepsSound(Next(y, events[0]).0, events[1..]);
      ExtendsTransitive(y.store, Next(y, events[0]).0.store, After(y, events).store);
    }
  }

  lemma ReachableIsSound(events: seq<Event>)
    ensures Sound(After(INITIAL, events).store)
  {
    RunKeepsSound(INITIAL, events);
  }

  // ------------------------------------------------------------------ exact replay, forever

  /** Operation `h` has committed and answered with `body`. */
  ghost predicate Committed(s: Store, h: Handoff, body: ReceiptBody) {
    exists i :: 0 <= i < |s.receipts| && s.receipts[i].operationId == h.operationId
      && s.receipts[i].operationDigest == OperationDigestOf(h) && s.receipts[i].text == Body(body)
  }

  /** The handoff a step acts for, if it acts for one. */
  function HandoffOf(y: System, e: Event): Option<Handoff> {
    match e
    case Run(input, _, _, _, _) => if input.Document? then Some(input.handoff) else None
    case Lookup(_, input, _) => if input.Document? then Some(input.handoff) else None
    case CheckStep(sid) => if sid in y.sessions then Some(y.sessions[sid].handoff) else None
    case ActStep(sid, _, _, _) => if sid in y.sessions then Some(y.sessions[sid].handoff) else None
  }

  lemma ReplayIsCommitted(s: Store, h: Handoff, r: Receipt)
    requires r in s.receipts && r.operationId == h.operationId
    requires ExactReplay(s.rows, r, OperationDigestOf(h)).Ok?
    ensures Committed(s, h, ExactReplay(s.rows, r, OperationDigestOf(h)).body)
  {
    var i :| 0 <= i < |s.receipts| && s.receipts[i] == r;
  }

  lemma ActCommits(s: Store, h: Handoff, current: Option<RowId>, newId: RowId, at: int, proofOk: bool)
    requires Act(s, h, current, newId, at, proofOk).1.Ok?
    ensures var (t, exit) := Act(s, h, current, newId, at, proofOk); Committed(t, h, exit.body)
  {
    var (t, exit) := Act(s, h, current, newId, at, proofOk);
    var winner := LoadReceipt(s.receipts, h.operationId);
    if winner.Some? {
      ReplayIsCommitted(s, h, winner.value);
    } else {
      assert t.receipts[|s.receipts|] == BuildReceipt(h, current, newId, at);
    }
  }

  lemma CheckReplayIsCommitted(s: Store, h: Handoff, now: int)
    requires h.createdAt.Canonical? && Check(s, h, now).Done? && Check(s, h, now).exit.Ok?
    ensures Committed(s, h, Check(s, h, now).exit.body)
  {
    var committed := LoadReceipt(s.receipts, h.operationId);
    assert committed.Some?;
    ReplayIsCommitted(s, h, committed.value);
  }

  /** An OK exit means the operation is durably committed with that very receipt. */
  lemma OkMeansCommitted(y: System, e: Event)
    requires HonestSessions(y.sessions) && Next(y, e).1.Some? && Next(y, e).1.value.Ok?
    ensures HandoffOf(y, e).Some? && ParseHandoff(Document(HandoffOf(y, e).value)).Valid?
    ensures Committed(Next(y, e).0.store, HandoffOf(y, e).value, Next(y, e).1.value.body)
  {
    var s := y.store;
    match e
    case Run(input, now, newId, at, proofOk) =>
      var h := input.handoff;
      var existing := LoadReceipt(s.receipts, h.operationId);
      if existing.Some? {
        ReplayIsCommitted(s, h, existing.value);
      } else {
        var decision := Check(s, h, now);
        if decision.Done? { CheckReplayIsCommitted(s, h, now); }
        else { ActCommits(s, h, decision.current, newId, at, proofOk); }
      }
    case Lookup(sid, input, now) =>
      ReplayIsCommitted(s, input.handoff, LoadReceipt(s.receipts, input.handoff.operationId).value);
    case CheckStep(sid) =>
      CheckReplayIsCommitted(s, y.sessions[sid].handoff, y.sessions[sid].now);
    case ActStep(sid, newId, at, proofOk) =>
      ActCommits(s, y.sessions[sid].handoff, y.sessions[sid].current, newId, at, proofOk);
  }

  lemma LoadIsUnique(s: Store, i: nat)
    requires i < |s.receipts| && DistinctReceipts(s.receipts)
    ensures LoadReceipt(s.receipts, s.receipts[i].operationId) == Some(s.receipts[i])
  {
    var r := LoadReceipt(s.receipts, s.receipts[i].operationId);
    var j :| 0 <= j < |s.receipts| && s.receipts[j] == r.value;
    assert i == j || i < j || j < i;
  }

  /** In a sound store a committed operation answers from its receipt, whatever the clock says, and changes nothing. */
  lemma CommittedAnswers(s: Store, h: Handoff, body: ReceiptBody, h': Handoff, now: int, newId: RowId, at: int,
                         proofOk: bool)
    requires Sound(s) && Committed(s, h, body)
    requires ParseHandoff(Document(h)).Valid? && ParseHandoff(Document(h')).Valid? && h'.operationId == h.operationId
    ensures RunLocked(s, Document(h'), now, newId, at, proofOk) ==
            (s, if h' == h then Ok(body) else OperationConflict("activation_operation_conflict"))
  {
    var i :| 0 <= i < |s.receipts| && s.receipts[i].operationId == h.operationId
      && s.receipts[i].operationDigest == OperationDigestOf(h) && s.receipts[i].text == Body(body);
    LoadIsUnique(s, i);
    assert Genuine(s.receipts[i], s.rows);
    OperationDigestBindsEverything(h, h');
  }

  lemma CommittedStays(s: Store, t: Store, h: Handoff, body: ReceiptBody)
    requires Committed(s, h, body) && Extends(s, t)
    ensures Committed(t, h, body)
  {
    var i :| 0 <= i < |s.receipts| && s.receipts[i].operationId == h.operationId
      && s.receipts[i].operationDigest == OperationDigestOf(h) && s.receipts[i].text == Body(body);
    assert t.receipts[i] == s.receipts[i];
  }

  /**
   Exactly once.  Take any run, any step of it that exits OK for a handoff `h`, and any continuation with
   whatever rotations, restarts and clock moves: the same handoff is answered with that same receipt, any
   other handoff with the same operation id conflicts, and neither changes the tables.
   */
  lemma ReplayForever(before: seq<Event>, e: Event, later: seq<Event>, h': Handoff, now: int, newId: RowId, at: int,
                      proofOk: bool)
    requires var y := After(INITIAL, before);
             Next(y, e).1.Some? && Next(y, e).1.value.Ok? && HandoffOf(y, e).Some?
             && ParseHandoff(Document(h')).Valid? && h'.operationId == HandoffOf(y, e).value.operationId
    ensures var y := After(INITIAL, before);
            var z := After(Next(y, e).0, later);
            Next(z, Run(Document(h'), now, newId, at, proofOk)) ==
              (z, Some(if h' == HandoffOf(y, e).value then Next(y, e).1.value
                       else OperationConflict("activation_operation_conflict")))
  {
    var y := After(INITIAL, before);
    var h, body := HandoffOf(y, e).value, Next(y, e).1.value.body;
    CommittedForever(before, e, later);
    CommittedAnswers(After(Next(y, e).0, later).store, h, body, h', now, newId, at, proofOk);
  }

  /** What a step exits OK for is committed in every state that follows, and every such state is sound. */
  lemma CommittedForever(before: seq<Event>, e: Event, later: seq<Event>)
    requires var y := After(INITIAL, before);
             Next(y, e).1.Some? && Next(y, e).1.value.Ok? && HandoffOf(y, e).Some?
    ensures var y := After(INITIAL, before);
            var z, h := After(Next(y, e).0, later), HandoffOf(y, e).value;
            && Sound(z.store) && HonestSessions(z.sessions) && Committed(z.store, h, Next(y, e).1.value.body)
            && ParseHandoff(Document(h)).Valid?
  {
    RunKeepsSound(INITIAL, before);
    var y := After(INITIAL, before);
    StepKeepsSound(y, e);
    OkMeansCommitted(y, e);
    var y' := Next(y, e).0;
    RunKeepsSound(y', later);
    CommittedStays(y'.store, After(y', later).store, HandoffOf(y, e).value, Next(y, e).1.value.body);
  }

  // ------------------------------------------------------------------ generations

  /**
   The receipts form one chain: each names the row before it, generations count positions, the last row is the active
   one.
   */
  ghost predicate Chain(s: Store) {
    && Linked(s.receipts)
    && ActiveRows(s.rows) == if s.receipts == [] then {} else {s.receipts[|s.receipts| - 1].resultingRow}
  }

  ghost predicate Linked(receipts: seq<Receipt>) {
    && (forall i :: 0 <= i < |receipts| ==> receipts[i].generation == i)
    && (forall i :: 0 <= i < |receipts| ==>
          receipts[i].predecessorRow == if i == 0 then None else Some(receipts[i - 1].resultingRow))
  }

  lemma LinkedAppend(receipts: seq<Receipt>, r: Receipt)
    requires Linked(receipts) && r.generation == |receipts|
    requires r.predecessorRow == if receipts == [] then None else Some(receipts[|receipts| - 1].resultingRow)
    ensures Linked(receipts + [r])
  {
  }

  /** The active row, as a check would see it. */
  ghost function CurrentOf(s: Store): Option<RowId> {
    if s.receipts == [] then None else Some(s.receipts[|s.receipts| - 1].resultingRow)
  }

  lemma LatestOfLast(receipts: seq<Receipt>)
    requires receipts != []
    ensures LatestReceiptFor(receipts, receipts[|receipts| - 1].resultingRow) == Some(receipts[|receipts| - 1])
  {
  }

  /** A check that lets a handoff through, in a chained store, has seen the head of the chain and its generation. */
  lemma CheckSeesHead(s: Store, h: Handoff, now: int)
    requires Chain(s) && h.createdAt.Canonical? && Check(s, h, now).Proceed?
    ensures Check(s, h, now).current == CurrentOf(s) && h.generation == |s.receipts|
  {
    if s.receipts == [] {
      assert ActiveRows(s.rows) == {};
    } else {
      var head := s.receipts[|s.receipts| - 1].resultingRow;
      assert ActiveRows(s.rows) == {head};
      LatestOfLast(s.receipts);
    }
  }

  /** Committing on top of the head that was checked extends the chain. */
  lemma ActExtendsChain(s: Store, h: Handoff, newId: RowId, at: int, proofOk: bool)
    requires Chain(s) && h.generation == |s.receipts|
    ensures Chain(Act(s, h, CurrentOf(s), newId, at, proofOk).0)
  {
    var t := Act(s, h, CurrentOf(s), newId, at, proofOk).0;
    if t != s {
      var receipt := BuildReceipt(h, CurrentOf(s), newId, at);
      assert t.receipts == s.receipts + [receipt];
      LinkedAppend(s.receipts, receipt);
      RotatedHasOneActive(s.rows, h.identity, newId, at);
    }
  }

  lemma LockedRunKeepsChain(s: Store, input: Input, now: int, newId: RowId, at: int, proofOk: bool)
    requires Chain(s)
    ensures Chain(RunLocked(s, input, now, newId, at, proofOk).0)
  {
    var parsed := ParseHandoff(input);
    if parsed.Valid? && LoadReceipt(s.receipts, parsed.handoff.operationId).None? {
      var decision := Check(s, parsed.handoff, now);
      if decision.Proceed? {
        CheckSeesHead(s, parsed.handoff, now);
        ActExtendsChain(s, parsed.handoff, newId, at, proofOk);
      }
    }
  }

  ghost predicate AllLocked(events: seq<Event>) {
    forall i :: 0 <= i < |events| ==> events[i].Run?
  }

  /** Under the lock every reachable state is one chain whose generations are positions. */
  lemma {:induction false} LockedRunsAreChains(y: System, events: seq<Event>)
    requires Chain(y.store) && AllLocked(events)
    ensures Chain(After(y, events).store)
    decreases |events|
  {
    if events != [] {
      var e := events[0];
      LockedRunKeepsChain(y.store, e.input, e.now, e.newId, e.at, e.proofOk);
      LockedRunsAreChains(Next(y, e).0, events[1..]);
    }
  }

  lemma ReachableUnderLockIsChain(events: seq<Event>)
    requires AllLocked(events)
    ensures Chain(After(INITIAL, events).store)
  {
    LockedRunsAreChains(INITIAL, events);
  }

  // ------------------------------------------------------------------ without the lock

  /** What a checked session still relies on: the generation of the receipt behind the row it saw. */
  ghost predicate RightlyChecked(s: Store, h: Handoff, current: Option<RowId>) {
    if current.None? then h.generation == 0
    else exists i :: 0 <= i < |s.receipts| && s.receipts[i].resultingRow == current.value
           && h.generation == s.receipts[i].generation + 1
  }

  lemma CheckIsRight(s: Store, h: Handoff, now: int)
    requires h.createdAt.Canonical? && Check(s, h, now).Proceed?
    ensures RightlyChecked(s, h, Check(s, h, now).current)
  {
    var current := Check(s, h, now).current;
    if current.Some? {
      var prev := LatestReceiptFor(s.receipts, current.value);
      var i :| 0 <= i < |s.receipts| && s.receipts[i] == prev.value;
    }
  }

  lemma RightStaysRight(s: Store, t: Store, h: Handoff, current: Option<RowId>)
    requires RightlyChecked(s, h, current) && Extends(s, t)
    ensures RightlyChecked(t, h, current)
  {
    if current.Some? {
      var i :| 0 <= i < |s.receipts| && s.receipts[i].resultingRow == current.value
        && h.generation == s.receipts[i].generation + 1;
      assert t.receipts[i] == s.receipts[i];
    }
  }

  ghost predicate SessionsRight(y: System) {
    forall sid :: sid in y.sessions ==> SessionRight(y.store, y.sessions[sid])
  }

  ghost predicate SessionRight(s: Store, session: Session) {
    session.Checked? ==> RightlyChecked(s, session.handoff, session.current)
  }

  lemma SessionStaysRight(s: Store, t: Store, session: Session)
    requires SessionRight(s, session) && Extends(s, t)
    ensures SessionRight(t, session)
  {
    if session.Checked? { RightStaysRight(s, t, session.handoff, session.current); }
  }

  /** A step changes one session at most, and what it makes of it is right. */
  lemma ChangedSessionIsRight(y: System, e: Event, sid: nat)
    requires sid in Next(y, e).0.sessions && !(sid in y.sessions && Next(y, e).0.sessions[sid] == y.sessions[sid])
    ensures SessionRight(y.store, Next(y, e).0.sessions[sid])
  {
    if e.CheckStep? && Next(y, e).0.sessions[sid].Checked? {
      CheckIsRight(y.store, y.sessions[sid].handoff, y.sessions[sid].now);
    }
  }

  lemma StepKeepsRight(y: System, e: Event)
    requires Sound(y.store) && HonestSessions(y.sessions) && SessionsRight(y)
    ensures SessionsRight(Next(y, e).0)
  {
    var z := Next(y, e).0;
    StepKeepsStoreSound(y, e);
    forall sid | sid in z.sessions ensures SessionRight(z.store, z.sessions[sid]) {
      if !(sid in y.sessions && z.sessions[sid] == y.sessions[sid]) { ChangedSessionIsRight(y, e, sid); }
      SessionStaysRight(y.store, z.store, z.sessions[sid]);
    }
  }

  /** In every interleaving, what a checked session relies on stays true until it commits. */
  lemma {:induction false} InterleavedSessionsStayRight(y: System, events: seq<Event>)
    requires Sound(y.store) && HonestSessions(y.sessions) && SessionsRight(y)
    ensures SessionsRight(After(y, events))
    decreases |events|
  {
    if events != [] {
      StepKeepsRight(y, events[0]);
      StepKeepsSound(y, events[0]);
      InterleavedSessionsStayRight(Next(y, events[0]).0, events[1..]);
    }
  }

  // ------------------------------------------------------------------ generations without the lock

  /** The receipt at i is a root, or follows an earlier one by one generation. */
  ghost predicate Descends(receipts: seq<Receipt>, i: nat)
    requires i < |receipts|
  {
    if receipts[i].predecessorRow.None? then receipts[i].generation == 0
    else exists j :: 0 <= j < i && receipts[j].resultingRow == receipts[i].predecessorRow.value
           && receipts[i].generation == receipts[j].generation + 1
  }

  ghost predicate Rooted(receipts: seq<Receipt>) {
    forall i :: 0 <= i < |receipts| ==> Descends(receipts, i)
  }

  lemma RootedAppend(receipts: seq<Receipt>, r: Receipt)
    requires Rooted(receipts) && Descends(receipts + [r], |receipts|)
    ensures Rooted(receipts + [r])
  {
    var all := receipts + [r];
    forall i | 0 <= i < |all| ensures Descends(all, i) {
      if i < |receipts| {
        assert Descends(receipts, i);
        if receipts[i].predecessorRow.Some? {
          var j :| 0 <= j < i && receipts[j].resultingRow == receipts[i].predecessorRow.value
            && receipts[i].generation == receipts[j].generation + 1;
          assert all[j] == receipts[j];
        }
      }
    }
  }

  lemma ActKeepsRooted(s: Store, h: Handoff, current: Option<RowId>, newId: RowId, at: int, proofOk: bool)
    requires Rooted(s.receipts) && RightlyChecked(s, h, current)
    ensures Rooted(Act(s, h, current, newId, at, proofOk).0.receipts)
  {
    var t := Act(s, h, current, newId, at, proofOk).0;
    if t != s {
      var r := BuildReceipt(h, current, newId, at);
      assert t.receipts == s.receipts + [r];
      if current.Some? {
        var j :| 0 <= j < |s.receipts| && s.receipts[j].resultingRow == current.value
          && h.generation == s.receipts[j].generation + 1;
        assert t.receipts[j] == s.receipts[j];
      }
      RootedAppend(s.receipts, r);
    }
  }

  lemma RunLockedKeepsRooted(s: Store, input: Input, now: int, newId: RowId, at: int, proofOk: bool)
    requires Rooted(s.receipts)
    ensures Rooted(RunLocked(s, input, now, newId, at, proofOk).0.receipts)
  {
    var parsed := ParseHandoff(input);
    if parsed.Valid? && LoadReceipt(s.receipts, parsed.handoff.operationId).None? {
      var decision := Check(s, parsed.handoff, now);
      if decision.Proceed? {
        CheckIsRight(s, parsed.handoff, now);
        ActKeepsRooted(s, parsed.handoff, decision.current, newId, at, proofOk);
      }
    }
  }

  lemma StepKeepsRooted(y: System, e: Event)
    requires Rooted(y.store.receipts) && SessionsRight(y)
    ensures Rooted(Next(y, e).0.store.receipts)
  {
    match e
    case Run(input, now, newId, at, proofOk) => RunLockedKeepsRooted(y.store, input, now, newId, at, proofOk);
    case ActStep(sid, newId, at, proofOk) =>
      if sid in y.sessions && y.sessions[sid].Checked? {
        ActKeepsRooted(y.store, y.sessions[sid].handoff, y.sessions[sid].current, newId, at, proofOk);
      }
    case _ =>
  }

  lemma {:induction false} RunKeepsRooted(y: System, events: seq<Event>)
    requires Sound(y.store) && HonestSessions(y.sessions) && SessionsRight(y) && Rooted(y.store.receipts)
    ensures Rooted(After(y, events).store.receipts)
    decreases |events|
  {
    if events != [] {
      StepKeepsRooted(y, events[0]);
      StepKeepsRight(y, events[0]);
      StepKeepsSound(y, events[0]);
      RunKeepsRooted(Next(y, events[0]).0, events[1..]);
    }
  }

  /**
   In every reachable state, with or without the lock, each receipt is a root of generation 0 or one
   generation after an earlier receipt, that of its predecessor row.
   */
  lemma ReachableIsRooted(events: seq<Event>)
    ensures Rooted(After(INITIAL, events).store.receipts)
  {
    RunKeepsRooted(INITIAL, events);
  }

  /**
   A commit without the lock that writes keeps the chain exactly when the row its session checked is
   still the active one.  The compare-and-swap is done at check time and not repeated: the activation
   supersedes whatever is active by then.
   */
  lemma UnlockedCommitKeepsChainIff(s: Store, h: Handoff, current: Option<RowId>, newId: RowId, at: int)
    requires Sound(s) && Chain(s) && RightlyChecked(s, h, current)
    requires newId !in s.rows && LoadReceipt(s.receipts, h.operationId).None?
    ensures Chain(Act(s, h, current, newId, at, true).0) <==> current == CurrentOf(s)
  {
    if current == CurrentOf(s) {
      HeadGeneration(s, h);
      ActExtendsChain(s, h, newId, at, true);
    } else {
      OtherPredecessorForks(s, h, current, newId, at);
    }
  }

  lemma HeadGeneration(s: Store, h: Handoff)
    requires DistinctReceipts(s.receipts) && Chain(s) && RightlyChecked(s, h, CurrentOf(s))
    ensures h.generation == |s.receipts|
  {
    var n := |s.receipts|;
    if n > 0 {
      var i :| 0 <= i < n && s.receipts[i].resultingRow == s.receipts[n - 1].resultingRow
        && h.generation == s.receipts[i].generation + 1;
      assert i == n - 1 || i < n - 1;
    }
  }

  lemma BrokenLink(receipts: seq<Receipt>, r: Receipt)
    requires r.predecessorRow != if receipts == [] then None else Some(receipts[|receipts| - 1].resultingRow)
    ensures !Linked(receipts + [r])
  {
    var all, n := receipts + [r], |receipts|;
    assert all[n] == r && (n > 0 ==> all[n - 1] == receipts[n - 1]);
  }

  lemma OtherPredecessorForks(s: Store, h: Handoff, current: Option<RowId>, newId: RowId, at: int)
    requires newId !in s.rows && LoadReceipt(s.receipts, h.operationId).None? && current != CurrentOf(s)
    ensures !Chain(Act(s, h, current, newId, at, true).0)
  {
    BrokenLink(s.receipts, BuildReceipt(h, current, newId, at));
  }

  /**
   The race the lock prevents: two operations that both passed their check before either commits both
   exit OK, and the second receipt forks the chain.
   */
  lemma RaceForksChain(y: System, h1: Handoff, h2: Handoff, id1: RowId, id2: RowId, at: int)
    requires var s := y.store;
             Sound(s) && Chain(s) && h1.operationId != h2.operationId && id1 != id2 && id1 !in s.rows && id2 !in s.rows
             && LoadReceipt(s.receipts, h1.operationId).None? && LoadReceipt(s.receipts, h2.operationId).None?
             && h1.generation == |s.receipts|
    requires y.sessions == map[1 := Checked(h1, CurrentOf(y.store)), 2 := Checked(h2, CurrentOf(y.store))]
    ensures var (y1, exit1) := Next(y, ActStep(1, id1, at, true));
            var (y2, exit2) := Next(y1, ActStep(2, id2, at, true));
            && exit1.Some? && exit1.value.Ok? && Chain(y1.store)
            && exit2.Some? && exit2.value.Ok? && !Chain(y2.store)
  {
    ActStepIs(y, 1, h1, CurrentOf(y.store), id1, at);
    var y1 := Next(y, ActStep(1, id1, at, true)).0;
    ActStepIs(y1, 2, h2, CurrentOf(y.store), id2, at);
    SecondCommitForks(y.store, h1, h2, id1, id2, at);
  }

  lemma ActStepIs(y: System, sid: nat, h: Handoff, current: Option<RowId>, newId: RowId, at: int)
    requires sid in y.sessions && y.sessions[sid] == Checked(h, current)
    ensures var (s, exit) := Act(y.store, h, current, newId, at, true);
            Next(y, ActStep(sid, newId, at, true)) == (System(s, y.sessions - {sid}), Some(exit))
  {
  }

  /** Two commits on the same head: the second is written, and forks. */
  lemma SecondCommitForks(s: Store, h1: Handoff, h2: Handoff, id1: RowId, id2: RowId, at: int)
    requires Sound(s) && Chain(s) && h1.operationId != h2.operationId && id1 != id2 && id1 !in s.rows && id2 !in s.rows
    requires LoadReceipt(s.receipts, h1.operationId).None? && LoadReceipt(s.receipts, h2.operationId).None?
    requires h1.generation == |s.receipts|
    ensures var s1 := Act(s, h1, CurrentOf(s), id1, at, true).0;
            var (s2, exit) := Act(s1, h2, CurrentOf(s), id2, at, true);
            Act(s, h1, CurrentOf(s), id1, at, true).1.Ok? && Chain(s1) && exit.Ok? && !Chain(s2)
  {
    ActExtendsChain(s, h1, id1, at, true);
    var s1 := Act(s, h1, CurrentOf(s), id1, at, true).0;
    var receipt := BuildReceipt(h1, CurrentOf(s), id1, at);
    assert s1.receipts == s.receipts + [receipt];
    NoSuchReceipt(s.receipts, receipt, h2.operationId);
    assert CurrentOf(s1) == Some(id1);
    HeadIsARow(s);
    OtherPredecessorForks(s1, h2, CurrentOf(s), id2, at);
  }

  lemma HeadIsARow(s: Store)
    requires Sound(s)
    ensures CurrentOf(s).Some? ==> CurrentOf(s).value in s.rows
  {
    if s.receipts != [] { assert Genuine(s.receipts[|s.receipts| - 1], s.rows); }
  }

  lemma NoSuchReceipt(receipts: seq<Receipt>, receipt: Receipt, operationId: string)
    requires LoadReceipt(receipts, operationId).None? && receipt.operationId != operationId
    ensures LoadReceipt(receipts + [receipt], operationId).None?
  {
    assert forall x :: x in receipts + [receipt] ==> x in receipts || x == receipt;
  }

  /** Without the lock two sessions can both pass their check against the same chain. */
  lemma BothPassTheCheck(s: Store, h1: Handoff, h2: Handoff, now: int)
    requires Chain(s)
    requires ParseHandoff(Document(h1)).Valid? && LoadReceipt(s.receipts, h1.operationId).None?
             && Check(s, h1, now).Proceed?
    requires ParseHandoff(Document(h2)).Valid? && LoadReceipt(s.receipts, h2.operationId).None?
             && Check(s, h2, now).Proceed?
    ensures After(System(s, map[]), [Lookup(1, Document(h1), now), Lookup(2, Document(h2), now), CheckStep(1),
                                     CheckStep(2)])
            == System(s, map[1 := Checked(h1, CurrentOf(s)), 2 := Checked(h2, CurrentOf(s))])
  {
    var e1, e2, e3, e4 := Lookup(1, Document(h1), now), Lookup(2, Document(h2), now), CheckStep(1), CheckStep(2);
    var y0 := System(s, map[]);
    var y1 := System(s, map[1 := Looked(h1, now)]);
    var y2 := System(s, map[1 := Looked(h1, now), 2 := Looked(h2, now)]);
    var y3 := System(s, map[1 := Checked(h1, CurrentOf(s)), 2 := Looked(h2, now)]);
    var y4 := System(s, map[1 := Checked(h1, CurrentOf(s)), 2 := Checked(h2, CurrentOf(s))]);
    LookupOpens(y0, 1, h1, now);
    LookupOpens(y1, 2, h2, now);
    CheckPasses(y2, 1, h1, now);
    CheckPasses(y3, 2, h2, now);
    assert y0.sessions[1 := Looked(h1, now)] == y1.sessions && y1.sessions[2 := Looked(h2, now)] == y2.sessions;
    assert y2.sessions[1 := Checked(h1, CurrentOf(s))] == y3.sessions;
    assert y3.sessions[2 := Checked(h2, CurrentOf(s))] == y4.sessions;
    AfterFour(y0, e1, e2, e3, e4);
  }

  lemma LookupOpens(y: System, sid: nat, h: Handoff, now: int)
    requires ParseHandoff(Document(h)).Valid? && LoadReceipt(y.store.receipts, h.operationId).None?
    ensures Next(y, Lookup(sid, Document(h), now)).0 == System(y.store, y.sessions[sid := Looked(h, now)])
  {
  }

  lemma CheckPasses(y: System, sid: nat, h: Handoff, now: int)
    requires sid in y.sessions && y.sessions[sid] == Looked(h, now) && Chain(y.store) && h.createdAt.Canonical?
    requires Check(y.store, h, now).Proceed?
    ensures Next(y, CheckStep(sid)).0 == System(y.store, y.sessions[sid := Checked(h, CurrentOf(y.store))])
  {
    CheckSeesHead(y.store, h, now);
  }

  lemma AfterFour(y: System, e1: Event, e2: Event, e3: Event, e4: Event)
    ensures After(y, [e1, e2, e3, e4]) == Next(Next(Next(Next(y, e1).0, e2).0, e3).0, e4).0
  {
    var y1 := Next(y, e1).0;
    var y2 := Next(y1, e2).0;
    var y3 := Next(y2, e3).0;
    assert [e1, e2, e3, e4][1..] == [e2, e3, e4] && [e2, e3, e4][1..] == [e3, e4] && [e3, e4][1..] == [e4]
           && [e4][1..] == [];
    assert After(y3, [e4]) == Next(y3, e4).0;
    assert After(y2, [e3, e4]) == After(y3, [e4]);
    assert After(y1, [e2, e3, e4]) == After(y2, [e3, e4]);
  }

  lemma {:induction false} AfterAppend(y: System, first: seq<Event>, second: seq<Event>)
    ensures After(y, first + second) == After(After(y, first), second)
    decreases |first|
  {
    if first == [] {
      assert first + second == second;
    } else {
      assert (first + second)[1..] == first[1..] + second;
      AfterAppend(Next(y, first[0]).0, first[1..], second);
    }
  }

  lemma AfterTwo(y: System, e1: Event, e2: Event)
    ensures After(y, [e1, e2]) == Next(Next(y, e1).0, e2).0
  {
    var y1 := Next(y, e1).0;
    assert [e1, e2][1..] == [e2] && [e2][1..] == [];
    assert After(y1, [e2]) == Next(y1, e2).0;
  }

  /** The handoff of a fresh install. */
  function FirstHandoff(operationId: string, identity: Identity): Handoff {
    Handoff(SCHEMA, operationId, IdentityDigest(identity), None, None, 0, Canonical(0), identity)
  }

  lemma FirstHandoffPasses(operationId: string, identity: Identity)
    requires Sized(operationId, 1, 128) && IdentityFits(identity)
    ensures var h := FirstHandoff(operationId, identity);
            ParseHandoff(Document(h)).Valid? && Check(INITIAL.store, h, 0) == Proceed(None)
  {
    assert ActiveRows(INITIAL.store.rows) == {};
  }

  /** Two fresh installs into empty tables, each looking and checking before either commits. */
  function RaceRun(h1: Handoff, h2: Handoff, id1: RowId, id2: RowId): seq<Event> {
    [Lookup(1, Document(h1), 0), Lookup(2, Document(h2), 0), CheckStep(1), CheckStep(2)]
    + [ActStep(1, id1, 0, true), ActStep(2, id2, 0, true)]
  }

  ghost predicate Root(r: Receipt) {
    r.predecessorRow == None && r.generation == 0
  }

  lemma TwoRoots(h1: Handoff, h2: Handoff, id1: RowId, id2: RowId)
    requires h1.operationId != h2.operationId && id1 != id2 && h1.generation == 0 && h2.generation == 0
    ensures var s1 := Act(INITIAL.store, h1, None, id1, 0, true).0;
            var s2 := Act(s1, h2, None, id2, 0, true).0;
            |s2.receipts| == 2 && Root(s2.receipts[0]) && Root(s2.receipts[1])
  {
    var s1 := Act(INITIAL.store, h1, None, id1, 0, true).0;
    assert s1.receipts == [BuildReceipt(h1, None, id1, 0)];
    NoSuchReceipt([], BuildReceipt(h1, None, id1, 0), h2.operationId);
    assert [] + [BuildReceipt(h1, None, id1, 0)] == s1.receipts;
  }

  /** Without the lock, two generation-0 activations reach two roots: the chain is lost from the very first step on. */
  lemma RaceFromEmptyTables(op1: string, op2: string, a: Identity, b: Identity, id1: RowId, id2: RowId)
    requires op1 != op2 && id1 != id2 && Sized(op1, 1, 128) && Sized(op2, 1, 128) && IdentityFits(a) && IdentityFits(b)
    ensures var events := RaceRun(FirstHandoff(op1, a), FirstHandoff(op2, b), id1, id2);
            var receipts := After(INITIAL, events).store.receipts;
            !Chain(After(INITIAL, events).store) && |receipts| == 2 && Root(receipts[0]) && Root(receipts[1])
  {
    var h1, h2 := FirstHandoff(op1, a), FirstHandoff(op2, b);
    FirstHandoffPasses(op1, a);
    FirstHandoffPasses(op2, b);
    assert Chain(INITIAL.store) by { assert ActiveRows(INITIAL.store.rows) == {}; }
    ReachableIsSound([]);
    BothPassTheCheck(INITIAL.store, h1, h2, 0);
    var first := [Lookup(1, Document(h1), 0), Lookup(2, Document(h2), 0), CheckStep(1), CheckStep(2)];
    var y := System(INITIAL.store, map[1 := Checked(h1, CurrentOf(INITIAL.store)),
                                       2 := Checked(h2, CurrentOf(INITIAL.store))]);
    assert After(INITIAL, first) == y;
    AfterAppend(INITIAL, first, [ActStep(1, id1, 0, true), ActStep(2, id2, 0, true)]);
    AfterTwo(y, ActStep(1, id1, 0, true), ActStep(2, id2, 0, true));
    RaceForksChain(y, h1, h2, id1, id2, 0);
    ActStepIs(y, 1, h1, None, id1, 0);
    ActStepIs(Next(y, ActStep(1, id1, 0, true)).0, 2, h2, None, id2, 0);
    TwoRoots(h1, h2, id1, id2);
  }

  /** The losing side of the UNIQUE race writes nothing and answers from the winner's receipt or refuses. */
  lemma LostRaceHasNoEffect(s: Store, h: Handoff, body: ReceiptBody, h': Handoff, current: Option<RowId>, newId: RowId,
                            at: int)
    requires Sound(s) && Committed(s, h, body) && newId !in s.rows
    requires ParseHandoff(Document(h)).Valid? && ParseHandoff(Document(h')).Valid? && h'.operationId == h.operationId
    ensures Act(s, h', current, newId, at, true) ==
            (s, if h' == h then Ok(body) else OperationConflict("activation_operation_conflict"))
  {
    var i :| 0 <= i < |s.receipts| && s.receipts[i].operationId == h.operationId
      && s.receipts[i].operationDigest == OperationDigestOf(h) && s.receipts[i].text == Body(body);
    LoadIsUnique(s, i);
    assert Genuine(s.receipts[i], s.rows);
    OperationDigestBindsEverything(h, h');
  }

  // ------------------------------------------------------------------ replay without the lock

  /** A lookup answers from the receipt, as a locked run does. */
  lemma LookupAnswers(y: System, sid: nat, h: Handoff, body: ReceiptBody, h': Handoff, now: int)
    requires Sound(y.store) && Committed(y.store, h, body)
    requires ParseHandoff(Document(h)).Valid? && ParseHandoff(Document(h')).Valid? && h'.operationId == h.operationId
    ensures Next(y, Lookup(sid, Document(h'), now)) ==
            (y, Some(if h' == h then Ok(body) else OperationConflict("activation_operation_conflict")))
  {
    CommittedAnswers(y.store, h, body, h', now, "", 0, false);
  }

  lemma ReplayFromReceipt(s: Store, h: Handoff, body: ReceiptBody)
    requires Sound(s) && Committed(s, h, body)
    ensures var r := LoadReceipt(s.receipts, h.operationId);
            r.Some? && ExactReplay(s.rows, r.value, OperationDigestOf(h)) == Ok(body)
  {
    var i :| 0 <= i < |s.receipts| && s.receipts[i].operationId == h.operationId
      && s.receipts[i].operationDigest == OperationDigestOf(h) && s.receipts[i].text == Body(body);
    LoadIsUnique(s, i);
    assert Genuine(s.receipts[i], s.rows);
  }

  ghost predicate IdentityIsActive(s: Store, h: Handoff) {
    exists id :: id in ActiveRows(s.rows) && IdentityDigest(s.rows[id].identity) == h.candidate
  }

  predicate Fresh(h: Handoff, now: int) {
    h.createdAt.Canonical? && -FRESHNESS_SECONDS <= now - h.createdAt.second <= FRESHNESS_SECONDS
  }

  lemma AtMostOne(s: set<RowId>)
    requires forall x, y :: x in s && y in s ==> x == y
    ensures |s| <= 1
  {
    if s != {} {
      var x :| x in s;
      assert s == {x};
    }
  }

  /**
   The check of an unlocked session, made after its own operation committed elsewhere: it answers with the
   committed receipt exactly while the handoff is fresh and its identity is the active one.
   */
  lemma CheckReplaysIff(s: Store, h: Handoff, body: ReceiptBody, now: int)
    requires Sound(s) && Committed(s, h, body) && ParseHandoff(Document(h)).Valid?
    ensures Check(s, h, now) == Done(Ok(body)) <==> Fresh(h, now) && IdentityIsActive(s, h)
  {
    AtMostOne(ActiveRows(s.rows));
    ReplayFromReceipt(s, h, body);
    if IdentityIsActive(s, h) {
      var id :| id in ActiveRows(s.rows) && IdentityDigest(s.rows[id].identity) == h.candidate;
      SizeOne(ActiveRows(s.rows));
    }
  }

  lemma LookedSessionAnswers(z: System, h: Handoff, body: ReceiptBody, sid: nat)
    requires Sound(z.store) && Committed(z.store, h, body) && ParseHandoff(Document(h)).Valid?
    requires sid in z.sessions && z.sessions[sid].Looked? && z.sessions[sid].handoff == h
    ensures Next(z, CheckStep(sid)).1 == Some(Ok(body))
            <==> Fresh(h, z.sessions[sid].now) && IdentityIsActive(z.store, h)
  {
    CheckReplaysIff(z.store, h, body, z.sessions[sid].now);
  }

  lemma CheckedSessionAnswers(z: System, h: Handoff, body: ReceiptBody, sid: nat, newId: RowId, at: int)
    requires Sound(z.store) && Committed(z.store, h, body) && ParseHandoff(Document(h)).Valid? && newId !in z.store.rows
    requires sid in z.sessions && z.sessions[sid].Checked? && z.sessions[sid].handoff == h
    ensures Next(z, ActStep(sid, newId, at, true)) == (System(z.store, z.sessions - {sid}), Some(Ok(body)))
  {
    LostRaceHasNoEffect(z.store, h, body, h, z.sessions[sid].current, newId, at);
    ActStepIs(z, sid, h, z.sessions[sid].current, newId, at);
  }

  /**
   Replay in every interleaving.  After any step that exits OK for `h`, in any continuation: a session that had
   looked `h` up before is answered by its check with that receipt exactly while `h` is fresh and its identity is
   the active one; a session that had even checked it writes nothing and is answered with that receipt.
   */
  lemma UnlockedReplay(before: seq<Event>, e: Event, later: seq<Event>, z: System, sid: nat, newId: RowId, at: int)
    requires var y := After(INITIAL, before);
             && Next(y, e).1.Some? && Next(y, e).1.value.Ok? && HandoffOf(y, e).Some? && z == After(Next(y, e).0, later)
             && sid in z.sessions && z.sessions[sid].handoff == HandoffOf(y, e).value && newId !in z.store.rows
    ensures var h, answer := HandoffOf(After(INITIAL, before), e).value, Next(After(INITIAL, before), e).1;
            && (z.sessions[sid].Looked? ==>
                  (Next(z, CheckStep(sid)).1 == answer
                   <==> Fresh(h, z.sessions[sid].now) && IdentityIsActive(z.store, h)))
            && (z.sessions[sid].Checked? ==>
                  Next(z, ActStep(sid, newId, at, true)) == (System(z.store, z.sessions - {sid}), answer))
  {
    CommittedForever(before, e, later);
    var h, body := z.sessions[sid].handoff, Next(After(INITIAL, before), e).1.value.body;
    if z.sessions[sid].Looked? {
      LookedSessionAnswers(z, h, body, sid);
    } else {
      CheckedSessionAnswers(z, h, body, sid, newId, at);
    }
  }

  /** The successor of a row activated at 0. */
  function NextHandoff(operationId: string, identity: Identity, row: RowId): Handoff {
    Handoff(SCHEMA, operationId, IdentityDigest(identity), Some(row), Some(Token(row, 0)), 1, Canonical(0), identity)
  }

  /**
   Two sessions look up one handoff; the first commits it, another operation rotates the identity away, the second
   checks.
   */
  function LateCheckRun(h: Handoff, next: Handoff, id1: RowId, id2: RowId): seq<Event> {
    [Lookup(1, Document(h), 0), Lookup(2, Document(h), 0), CheckStep(1), ActStep(1, id1, 0, true)]
    + [Run(Document(next), 0, id2, 0, true)]
  }

  lemma RotateAway(s: Store, h: Handoff, next: Handoff, id1: RowId, id2: RowId)
    requires s == Act(INITIAL.store, h, None, id1, 0, true).0 && h == FirstHandoff(h.operationId, h.identity)
    requires next == NextHandoff(next.operationId, next.identity, id1) && ParseHandoff(Document(next)).Valid?
    requires h.operationId != next.operationId && h.identity != next.identity && id1 != id2
    ensures var t := RunLocked(s, Document(next), 0, id2, 0, true).0;
            ActiveRows(t.rows) == {id2} && id2 in t.rows && t.rows[id2].identity == next.identity
  {
    var receipt := BuildReceipt(h, None, id1, 0);
    assert s.receipts == [receipt];
    RotatedHasOneActive(INITIAL.store.rows, h.identity, id1, 0);
    NoSuchReceipt([], receipt, next.operationId);
    assert [] + [receipt] == s.receipts;
    assert Check(s, next, 0) == Proceed(Some(id1)) by {
      assert LatestReceiptFor(s.receipts, id1) == Some(receipt);
      assert s.rows[id1] == Row(Active, h.identity, 0, None);
    }
    RotatedHasOneActive(s.rows, next.identity, id2, 0);
  }

  lemma LateCheckConflicts(t: Store, h: Handoff, id2: RowId)
    requires ActiveRows(t.rows) == {id2} && id2 in t.rows && h == FirstHandoff(h.operationId, h.identity)
    requires t.rows[id2].identity != h.identity
    ensures Check(t, h, 0) == Done(OperationConflict("activation_predecessor_conflict"))
  {
    assert id2 in ActiveRows(t.rows);
  }

  lemma LateCheckStart(h: Handoff, id1: RowId)
    requires h == FirstHandoff(h.operationId, h.identity) && ParseHandoff(Document(h)).Valid?
    ensures var first := [Lookup(1, Document(h), 0), Lookup(2, Document(h), 0), CheckStep(1), ActStep(1, id1, 0, true)];
            After(INITIAL, first) == System(Act(INITIAL.store, h, None, id1, 0, true).0, map[2 := Looked(h, 0)])
    ensures Act(INITIAL.store, h, None, id1, 0, true).1.Ok?
  {
    var e1, e2, e3, e4 := Lookup(1, Document(h), 0), Lookup(2, Document(h), 0), CheckStep(1), ActStep(1, id1, 0, true);
    FirstHandoffPasses(h.operationId, h.identity);
    var y1 := System(INITIAL.store, map[1 := Looked(h, 0)]);
    var y2 := System(INITIAL.store, map[1 := Looked(h, 0), 2 := Looked(h, 0)]);
    var y3 := System(INITIAL.store, map[1 := Checked(h, None), 2 := Looked(h, 0)]);
    assert Next(INITIAL, e1).0 == y1 && Next(y1, e2).0 == y2 && Next(y2, e3).0 == y3;
    ActStepIs(y3, 1, h, None, id1, 0);
    assert y3.sessions - {1} == map[2 := Looked(h, 0)];
    AfterFour(INITIAL, e1, e2, e3, e4);
  }

  /** Without the lock exact replay fails: the handoff that committed is answered with a conflict. */
  lemma LateCheckRefusesCommitted(h: Handoff, next: Handoff, id1: RowId, id2: RowId)
    requires h == FirstHandoff(h.operationId, h.identity) && ParseHandoff(Document(h)).Valid?
    requires next == NextHandoff(next.operationId, next.identity, id1) && ParseHandoff(Document(next)).Valid?
    requires h.operationId != next.operationId && h.identity != next.identity && id1 != id2
    ensures var y := After(INITIAL, LateCheckRun(h, next, id1, id2));
            && Next(y, CheckStep(2)).1 == Some(OperationConflict("activation_predecessor_conflict"))
            && Act(INITIAL.store, h, None, id1, 0, true).1.Ok?
            && y.store.receipts != [] && y.store.receipts[0] == BuildReceipt(h, None, id1, 0)
  {
    var first := [Lookup(1, Document(h), 0), Lookup(2, Document(h), 0), CheckStep(1), ActStep(1, id1, 0, true)];
    var s := Act(INITIAL.store, h, None, id1, 0, true).0;
    var rotate := Run(Document(next), 0, id2, 0, true);
    LateCheckStart(h, id1);
    AfterAppend(INITIAL, first, [rotate]);
    var y1 := System(s, map[2 := Looked(h, 0)]);
    assert After(y1, [rotate]) == Next(y1, rotate).0 by { assert [rotate][1..] == []; }
    RotateAway(s, h, next, id1, id2);
    LateCheckConflicts(RunLocked(s, Document(next), 0, id2, 0, true).0, h, id2);
    assert s.receipts == [BuildReceipt(h, None, id1, 0)];
    ReceiptsStay(s, Document(next), id2);
  }

  lemma ReceiptsStay(s: Store, input: Input, newId: RowId)
    ensures s.receipts <= RunLocked(s, input, 0, newId, 0, true).0.receipts
  {
  }
}

/**
 Who may activate.  Under the advisory lock a first execution writes exactly when the handoff names the
 head of the chain, and what it is told otherwise is decided by the head alone.
 */
module ActivationRules {
  import opened Wrappers
  import opened ControllerActivation
  import opened ActivationRuns

  /** The handoff was made within a quarter of an hour of now. */
  ghost predicate Recent(h: Handoff, now: int) {
    h.createdAt.Canonical? && h.createdAt.second - 900 <= now <= h.createdAt.second + 900
  }

  /** It names the newest receipt's row, that row's token and the next generation; on an empty store, nothing and 0. */
  ghost predicate NamesHead(s: Store, h: Handoff)
    requires AllGenuine(s.receipts, s.rows)
  {
    if s.receipts == [] then h.predecessorRow == None && h.predecessorToken == None
    else
      var head := s.receipts[|s.receipts| - 1];
      assert Genuine(head, s.rows);
      h.predecessorRow == Some(head.resultingRow)
      && h.predecessorToken == Some(Token(head.resultingRow, s.rows[head.resultingRow].activatedAt))
  }

  ghost predicate IsActiveAlready(s: Store, h: Handoff)
    requires AllGenuine(s.receipts, s.rows)
  {
    s.receipts != [] &&
      var head := s.receipts[|s.receipts| - 1];
      assert Genuine(head, s.rows);
      s.rows[head.resultingRow].identity == h.identity
  }

  ghost predicate Admissible(s: Store, h: Handoff, now: int, newId: RowId, proofOk: bool)
    requires AllGenuine(s.receipts, s.rows)
  {
    && Recent(h, now) && !IsActiveAlready(s, h) && NamesHead(s, h) && h.generation == |s.receipts|
    && proofOk && newId !in s.rows
  }

  /** What a refused first execution is told. */
  ghost function Refusal(s: Store, h: Handoff, now: int, newId: RowId, proofOk: bool): Exit
    requires AllGenuine(s.receipts, s.rows)
  {
    if !Recent(h, now) then Stale
    else if IsActiveAlready(s, h) then OperationConflict("activation_candidate_already_active")
    else if !NamesHead(s, h) then OperationConflict("activation_predecessor_conflict")
    else if s.receipts == [] && h.generation != 0 then OperationConflict("activation_generation_not_fresh")
    else if h.generation != |s.receipts| then OperationConflict("activation_generation_out_of_order")
    else if !proofOk then ActivationRefused("enrollment_identity_invalid")
    else ActivationRefused("enrollment_identity_conflict")
  }

  /** One row and one receipt more; the row that was active is superseded; nothing else changes. */
  ghost predicate Written(s: Store, t: Store, h: Handoff, newId: RowId, at: int, body: ReceiptBody) {
    && t.rows.Keys == s.rows.Keys + {newId} && t.rows[newId] == Row(Active, h.identity, at, None)
    && (forall id :: id in s.rows && id != newId ==>
          t.rows[id] == if s.rows[id].status == Active then Row(Superseded, s.rows[id].identity,
                                                                s.rows[id].activatedAt, Some(at))
                        else s.rows[id])
    && |t.receipts| == |s.receipts| + 1 && t.receipts[..|s.receipts|] == s.receipts
    && Records(t.receipts[|s.receipts|], h, newId, at, body)
  }

  /** The receipt repeats the handoff, and names the new row and its token; its text is the answer. */
  ghost predicate Records(r: Receipt, h: Handoff, newId: RowId, at: int, body: ReceiptBody) {
    && r.operationId == h.operationId && r.operationDigest == OperationDigestOf(h) && r.candidate == h.candidate
    && r.predecessorRow == h.predecessorRow && r.predecessorToken == h.predecessorToken
    && r.installationId == h.identity.installationId && r.release == h.identity.release
    && r.generation == h.generation && r.createdAt == h.createdAt
    && r.resultingRow == newId && r.resultingToken == Token(newId, at)
    && r.publicState == PublicStateDigest(newId, h.identity)
    && r.text == Body(body) && r.receiptDigest == ReceiptDigest(r.text)
    && body == ReceiptBody(h.operationId, h.candidate, newId, Token(newId, at), h.predecessorRow, true, Active,
                           PublicStateDigest(newId, h.identity))
  }

  ghost predicate IsNew(s: Store, h: Handoff) {
    forall r :: r in s.receipts ==> r.operationId != h.operationId
  }

  lemma HeadIsActive(s: Store)
    requires Sound(s) && Chain(s) && s.receipts != []
    ensures var head := s.receipts[|s.receipts| - 1];
            && Genuine(head, s.rows) && ActiveRows(s.rows) == {head.resultingRow}
            && LatestReceiptFor(s.receipts, head.resultingRow) == Some(head) && head.generation == |s.receipts| - 1
  {
    LatestOfLast(s.receipts);
  }

  /** The check, told by the head of the chain; no store that the lock protected is ambiguous or lacks a receipt. */
  lemma CheckIs(s: Store, h: Handoff, now: int)
    requires Sound(s) && Chain(s) && Coherent(h) && IsNew(s, h)
    ensures Check(s, h, now) ==
            if Recent(h, now) && !IsActiveAlready(s, h) && NamesHead(s, h) && h.generation == |s.receipts|
              then Proceed(h.predecessorRow)
            else Done(Refusal(s, h, now, "", true))
  {
    if s.receipts == [] {
      assert ActiveRows(s.rows) == {};
    } else {
      HeadIsActive(s);
      assert |ActiveRows(s.rows)| == 1;
    }
  }

  lemma ActWrites(s: Store, h: Handoff, newId: RowId, at: int)
    requires newId !in s.rows && IsNew(s, h)
    ensures var (t, exit) := Act(s, h, h.predecessorRow, newId, at, true);
            exit.Ok? && Written(s, t, h, newId, at, exit.body)
  {
  }

  lemma RunIsCheckThenAct(s: Store, h: Handoff, now: int, newId: RowId, at: int, proofOk: bool)
    requires Coherent(h) && IsNew(s, h)
    ensures RunLocked(s, Document(h), now, newId, at, proofOk) ==
            match Check(s, h, now)
            case Done(exit) => (s, exit)
            case Proceed(current) => Act(s, h, current, newId, at, proofOk)
  {
  }

  lemma ActRefuses(s: Store, h: Handoff, newId: RowId, at: int, proofOk: bool)
    requires !proofOk || newId in s.rows
    ensures Act(s, h, h.predecessorRow, newId, at, proofOk)
            == (s, ActivationRefused(if proofOk then "enrollment_identity_conflict" else "enrollment_identity_invalid"))
  {
  }

  /**
   A handoff with a new operation id, under the lock: it is written exactly when it is admissible, and then
   in full; otherwise nothing is, and the answer says why.
   */
  lemma FirstExecutionIs(s: Store, h: Handoff, now: int, newId: RowId, at: int, proofOk: bool)
    requires Sound(s) && Chain(s) && Coherent(h) && IsNew(s, h)
    ensures var (t, exit) := RunLocked(s, Document(h), now, newId, at, proofOk);
            if Admissible(s, h, now, newId, proofOk) then exit.Ok? && Written(s, t, h, newId, at, exit.body)
            else t == s && exit == Refusal(s, h, now, newId, proofOk)
  {
    RunIsCheckThenAct(s, h, now, newId, at, proofOk);
    CheckIs(s, h, now);
    if proofOk && newId !in s.rows { ActWrites(s, h, newId, at); } else { ActRefuses(s, h, newId, at, proofOk); }
  }

  /** The same as an equivalence: who may activate, and no one else. */
  lemma ActivatesIff(s: Store, input: Input, now: int, newId: RowId, at: int, proofOk: bool)
    requires Sound(s) && Chain(s) && (input.Document? ==> IsNew(s, input.handoff))
    ensures var (t, exit) := RunLocked(s, input, now, newId, at, proofOk);
            && (exit.Ok? <==> input.Document? && Coherent(input.handoff)
                              && Admissible(s, input.handoff, now, newId, proofOk))
            && (exit.Ok? <==> t != s)
  {
    if input.Document? && Coherent(input.handoff) {
      FirstExecutionIs(s, input.handoff, now, newId, at, proofOk);
    }
  }

  // ------------------------------------------------------------------ tampering

  /** The stored receipt is what was written: its bytes, their digest, four columns, and the row it made. */
  ghost predicate Untampered(r: Receipt, rows: map<RowId, Row>) {
    && r.text.Body? && r.receiptDigest == ReceiptDigest(r.text) && r.resultingRow in rows
    && r.operationId == r.text.body.operationId && r.resultingRow == r.text.body.resultingRow
    && r.resultingToken == r.text.body.token && r.publicState == r.text.body.publicState
  }

  lemma ReplayIs(rows: map<RowId, Row>, r: Receipt, digest: Digest)
    ensures ExactReplay(rows, r, digest) ==
            if digest != r.operationDigest then OperationConflict("activation_operation_conflict")
            else if Untampered(r, rows) then Ok(r.text.body) else StateCorrupt
  {
  }

  /** Changing any one of these columns of a genuine receipt, or removing its row, is noticed at the next replay. */
  lemma TamperingIsSeen(rows: map<RowId, Row>, r: Receipt, text: ReceiptText, digest: Digest, row: RowId, token: Token,
                        state: Digest)
    requires Genuine(r, rows)
    ensures ExactReplay(rows, r, r.operationDigest) == Ok(r.text.body)
    ensures text != r.text ==> ExactReplay(rows, r.(text := text), r.operationDigest) == StateCorrupt
    ensures digest != r.receiptDigest ==>
              ExactReplay(rows, r.(receiptDigest := digest), r.operationDigest) == StateCorrupt
    ensures row != r.resultingRow ==> ExactReplay(rows, r.(resultingRow := row), r.operationDigest) == StateCorrupt
    ensures token != r.resultingToken ==>
              ExactReplay(rows, r.(resultingToken := token), r.operationDigest) == StateCorrupt
    ensures state != r.publicState ==> ExactReplay(rows, r.(publicState := state), r.operationDigest) == StateCorrupt
    ensures ExactReplay(rows - {r.resultingRow}, r, r.operationDigest) == StateCorrupt
  {
  }

  // ------------------------------------------------------------------ over runs

  /** The receipt replaces another identity, and was asked for with the token of the row it replaces. */
  ghost predicate Replaces(receipts: seq<Receipt>, i: nat)
    requires i < |receipts|
  {
    if i == 0 then receipts[i].predecessorToken == None
    else receipts[i].candidate != receipts[i - 1].candidate
         && receipts[i].predecessorToken == Some(receipts[i - 1].resultingToken)
  }

  ghost predicate Rotates(receipts: seq<Receipt>) {
    forall i :: 0 <= i < |receipts| ==> Replaces(receipts, i)
  }

  lemma RotatesAppend(receipts: seq<Receipt>, r: Receipt)
    requires Rotates(receipts) && Replaces(receipts + [r], |receipts|)
    ensures Rotates(receipts + [r])
  {
    forall i | 0 <= i < |receipts| ensures Replaces(receipts + [r], i) {
      assert Replaces(receipts, i);
    }
  }

  lemma WrittenRotates(s: Store, t: Store, h: Handoff, newId: RowId, at: int, body: ReceiptBody)
    requires AllGenuine(s.receipts, s.rows) && Rotates(s.receipts) && Coherent(h)
    requires !IsActiveAlready(s, h) && NamesHead(s, h) && Written(s, t, h, newId, at, body)
    ensures Rotates(t.receipts)
  {
    var n := |s.receipts|;
    var r := t.receipts[n];
    if n > 0 { assert Genuine(s.receipts[n - 1], s.rows); }
    RotatesAppend(s.receipts, r);
    assert t.receipts == t.receipts[..n] + [r];
  }

  lemma LockedRunRotates(s: Store, input: Input, now: int, newId: RowId, at: int, proofOk: bool)
    requires Sound(s) && Chain(s) && Rotates(s.receipts)
    ensures Rotates(RunLocked(s, input, now, newId, at, proofOk).0.receipts)
  {
    var parsed := ParseHandoff(input);
    if parsed.Valid? && LoadReceipt(s.receipts, parsed.handoff.operationId).None? {
      var h := parsed.handoff;
      FirstExecutionIs(s, h, now, newId, at, proofOk);
      var (t, exit) := RunLocked(s, input, now, newId, at, proofOk);
      if Admissible(s, h, now, newId, proofOk) { WrittenRotates(s, t, h, newId, at, exit.body); }
    }
  }

  lemma {:induction false} LockedRunsRotate(y: System, events: seq<Event>)
    requires Sound(y.store) && HonestSessions(y.sessions) && Chain(y.store) && Rotates(y.store.receipts)
    requires AllLocked(events)
    ensures Rotates(After(y, events).store.receipts)
    decreases |events|
  {
    if events != [] {
      var e := events[0];
      LockedRunRotates(y.store, e.input, e.now, e.newId, e.at, e.proofOk);
      LockedRunKeepsChain(y.store, e.input, e.now, e.newId, e.at, e.proofOk);
      StepKeepsSound(y, e);
      LockedRunsRotate(Next(y, e).0, events[1..]);
    }
  }

  /**
   In every state reached under the lock no identity follows itself in the chain, and each receipt carries the
   token of the row it replaced.
   */
  lemma ReachableUnderLockRotates(events: seq<Event>)
    requires AllLocked(events)
    ensures Rotates(After(INITIAL, events).store.receipts)
  {
    LockedRunsRotate(INITIAL, events);
  }
}

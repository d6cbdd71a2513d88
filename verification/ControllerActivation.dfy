/**
 The exactly-once controller-identity activation of
 apps/api/secp_api/activate_controller_identity_once.py over the two tables of
 controller_identity_models.py.

 Digests are symbolic: each kind of digest is a free constructor over what it covers, which states
 the assumption that SHA-256 over canonical JSON is injective and domain-separated.  Uuids, clocks and
 the verdict of the identity proof are supplied by the environment.
 */
module ControllerActivation {
  import opened Wrappers

  type RowId = string

  datatype Identity = Identity(installationId: string, keyId: string, trustAnchor: string, origin: string,
                               release: string, management: string, evidence: string, keyProof: string)

  /** `f"{row.id}|{row.activated_at}"` */
  datatype Token = Token(row: RowId, activatedAt: int)

  /** A canonical UTC second, or text the strict timestamp grammar refuses. */
  datatype Stamp = Canonical(second: int) | Noncanonical(text: string)

  datatype Envelope = Envelope(schema: string, operationId: string, candidate: Digest,
                               predecessorRow: Option<RowId>, predecessorToken: Option<Token>,
                               installationId: string, release: string, generation: int, createdAt: Stamp)

  datatype Digest =
    | IdentityDigest(identity: Identity)
    | OperationDigest(envelope: Envelope)
    | PublicStateDigest(row: RowId, state: Identity)
    | ReceiptDigest(text: ReceiptText)
    | NotADigest(raw: string)

  datatype ReceiptBody = ReceiptBody(operationId: string, candidate: Digest, resultingRow: RowId, token: Token,
                                     previousRow: Option<RowId>, created: bool, status: Status, publicState: Digest)

  /** Stored receipt bytes: the canonical JSON of a body, or bytes that do not parse to one. */
  datatype ReceiptText = Body(body: ReceiptBody) | Garbled(raw: string)

  datatype Handoff = Handoff(schema: string, operationId: string, candidate: Digest,
                             predecessorRow: Option<RowId>, predecessorToken: Option<Token>,
                             generation: int, createdAt: Stamp, identity: Identity)

  datatype Status = Active | Superseded | Revoked

  datatype Row = Row(status: Status, identity: Identity, activatedAt: int, supersededAt: Option<int>)

  datatype Receipt = Receipt(operationId: string, operationDigest: Digest, candidate: Digest,
                             predecessorRow: Option<RowId>, predecessorToken: Option<Token>,
                             installationId: string, release: string, generation: int, createdAt: Stamp,
                             resultingRow: RowId, resultingToken: Token, publicState: Digest,
                             text: ReceiptText, receiptDigest: Digest)

  /** The two tables; `receipts` is in `recorded_at` order. */
  datatype Store = Store(rows: map<RowId, Row>, receipts: seq<Receipt>)

  datatype Exit =
    | Ok(body: ReceiptBody)
    | HandoffInvalid(reason: string)
    | OperationConflict(reason: string)
    | ActivationRefused(reason: string)
    | AmbiguousState
    | StateCorrupt
    | Stale

  const SCHEMA := "secp.controller-identity-activation/v1"
  const FRESHNESS_SECONDS := 900
  const MAX_GENERATION := 0x7FFF_FFFF

  // ------------------------------------------------------------------ the handoff

  /** What the hardened reader and the JSON parser deliver. */
  datatype Input = Refused(reason: string) | Document(handoff: Handoff)

  datatype Parsed = Invalid(reason: string) | Valid(handoff: Handoff)

  predicate Sized(t: string, least: nat, most: nat) {
    least <= |t| <= most
  }

  /** The length bounds of the envelope; a digest and a token are of their own length. */
  predicate TextsFit(h: Handoff) {
    && Sized(h.schema, 1, 64) && Sized(h.operationId, 1, 128)
    && (h.candidate.NotADigest? ==> |h.candidate.raw| == 71)
    && (h.predecessorRow.Some? ==> |h.predecessorRow.value| <= 64)
    && (h.createdAt.Noncanonical? ==> Sized(h.createdAt.text, 1, 40))
    && IdentityFits(h.identity)
  }

  predicate IdentityFits(i: Identity) {
    && Sized(i.installationId, 8, 64) && |i.keyId| == 71 && |i.trustAnchor| == 64 && Sized(i.origin, 1, 269)
    && |i.release| == 71 && |i.management| == 71 && |i.evidence| == 71 && Sized(i.keyProof, 8, 120)
  }

  /** A handoff that says one thing: its candidate is its own identity, it names a predecessor wholly or not at all. */
  ghost predicate Coherent(h: Handoff) {
    && h.schema == "secp.controller-identity-activation/v1"
    && 1 <= |h.operationId| <= 128 && 0 <= h.generation <= 2_147_483_647 && h.createdAt.Canonical?
    && h.candidate == IdentityDigest(h.identity) && Bounded(h.identity)
    && (h.predecessorRow.Some? <==> h.predecessorToken.Some?)
    && (h.predecessorRow.Some? ==> |h.predecessorRow.value| <= 64)
  }

  /** The lengths of the fields of an identity. */
  ghost predicate Bounded(i: Identity) {
    && 8 <= |i.installationId| <= 64 && |i.keyId| == 71 && |i.trustAnchor| == 64 && 1 <= |i.origin| <= 269
    && |i.release| == 71 && |i.management| == 71 && |i.evidence| == 71 && 8 <= |i.keyProof| <= 120
  }

  /** `_parse_handoff`, from the pydantic bounds on. */
  function ParseHandoff(input: Input): (p: Parsed)
    ensures p.Valid? <==> input.Document? && Coherent(input.handoff)
    ensures p.Valid? ==> input == Document(p.handoff)
  {
    match input
    case Refused(reason) => Invalid(reason)
    case Document(h) =>
      if !TextsFit(h) || !(0 <= h.generation <= MAX_GENERATION) then Invalid("activation_handoff_malformed")
      else if h.schema != SCHEMA then Invalid("activation_handoff_schema_unknown")
      else if h.candidate.NotADigest? then Invalid("activation_handoff_candidate_digest_invalid")
      else if IdentityDigest(h.identity) != h.candidate then Invalid("activation_handoff_candidate_digest_mismatch")
      else if h.predecessorRow.None? != h.predecessorToken.None? then Invalid("activation_handoff_predecessor_pairing")
      else if h.createdAt.Noncanonical? then Invalid("activation_handoff_timestamp_noncanonical")
      else Valid(h)
  }

  function OperationDigestOf(h: Handoff): Digest {
    OperationDigest(Envelope(h.schema, h.operationId, h.candidate, h.predecessorRow, h.predecessorToken,
                             h.identity.installationId, h.identity.release, h.generation, h.createdAt))
  }

  /**
   Changing any field of an accepted handoff changes its operation digest, also the identity fields bound only through
   the candidate.
   */
  lemma OperationDigestBindsEverything(a: Handoff, b: Handoff)
    requires ParseHandoff(Document(a)).Valid? && ParseHandoff(Document(b)).Valid?
    ensures OperationDigestOf(a) == OperationDigestOf(b) <==> a == b
  {
    if OperationDigestOf(a) == OperationDigestOf(b) {
      assert IdentityDigest(a.identity) == a.candidate == b.candidate == IdentityDigest(b.identity);
    }
  }

  // ------------------------------------------------------------------ reading the tables

  function LoadReceipt(receipts: seq<Receipt>, operationId: string): (r: Option<Receipt>)
    ensures r.Some? ==> r.value in receipts && r.value.operationId == operationId
    ensures r.None? ==> forall x :: x in receipts ==> x.operationId != operationId
  {
    if receipts == [] then None
    else if receipts[0].operationId == operationId then Some(receipts[0])
    else LoadReceipt(receipts[1..], operationId)
  }

  /** `_latest_receipt_for_row` */
  function LatestReceiptFor(receipts: seq<Receipt>, row: RowId): (r: Option<Receipt>)
    ensures r.Some? ==> r.value in receipts && r.value.resultingRow == row
    ensures r.Some? ==>
              exists k :: 0 <= k < |receipts| && receipts[k] == r.value
                          && forall j :: k < j < |receipts| ==> receipts[j].resultingRow != row
    ensures r.None? ==> forall x :: x in receipts ==> x.resultingRow != row
  {
    if receipts == [] then None
    else
      var last := |receipts| - 1;
      if receipts[last].resultingRow == row then Some(receipts[last])
      else LatestReceiptFor(receipts[..last], row)
  }

  function ActiveRows(rows: map<RowId, Row>): set<RowId> {
    set id | id in rows && rows[id].status == Active
  }

  function TokenOf(id: RowId, row: Row): Token {
    Token(id, row.activatedAt)
  }

  /** `_exact_replay`: it decides and changes nothing. */
  function ExactReplay(rows: map<RowId, Row>, existing: Receipt, digest: Digest): Exit {
    if existing.operationDigest != digest then OperationConflict("activation_operation_conflict")
    else if ReceiptDigest(existing.text) != existing.receiptDigest then StateCorrupt
    else if existing.text.Garbled? then StateCorrupt
    else
      var body := existing.text.body;
      if body.operationId != existing.operationId || body.resultingRow != existing.resultingRow
         || body.token != existing.resultingToken || body.publicState != existing.publicState then StateCorrupt
      else if existing.resultingRow !in rows then StateCorrupt
      else Ok(body)
  }

  /** `_validate_generation`: `None` when the order is valid. */
  function ValidateGeneration(receipts: seq<Receipt>, h: Handoff, current: Option<RowId>): Option<Exit> {
    if current.None? then
      if h.generation != 0 then Some(OperationConflict("activation_generation_not_fresh")) else None
    else
      var prev := LatestReceiptFor(receipts, current.value);
      if prev.None? then Some(OperationConflict("activation_predecessor_receipt_missing"))
      else if h.generation != prev.value.generation + 1
        then Some(OperationConflict("activation_generation_out_of_order"))
      else None
  }

  datatype Decision = Done(exit: Exit) | Proceed(current: Option<RowId>)

  /** `_first_execution` up to the activation: freshness, ambiguity, predecessor compare-and-swap, generation. */
  function Check(s: Store, h: Handoff, now: int): Decision
    requires h.createdAt.Canonical?
  {
    var delta := now - h.createdAt.second;
    if delta > FRESHNESS_SECONDS || -delta > FRESHNESS_SECONDS then Done(Stale)
    else
      var active := ActiveRows(s.rows);
      if |active| > 1 then Done(AmbiguousState)
      else if active == {} then CheckPredecessor(s, h, None)
      else
        SizeOne(active);
        var id :| id in active;
        if IdentityDigest(s.rows[id].identity) == h.candidate then
          var committed := LoadReceipt(s.receipts, h.operationId);
          if committed.Some? then Done(ExactReplay(s.rows, committed.value, OperationDigestOf(h)))
          else Done(OperationConflict("activation_candidate_already_active"))
        else CheckPredecessor(s, h, Some(id))
  }

  function CheckPredecessor(s: Store, h: Handoff, current: Option<RowId>): Decision
    requires current.Some? ==> current.value in s.rows
  {
    var token := if current.Some? then Some(TokenOf(current.value, s.rows[current.value])) else None;
    if h.predecessorRow != current || h.predecessorToken != token then
      Done(OperationConflict("activation_predecessor_conflict"))
    else
      var conflict := ValidateGeneration(s.receipts, h, current);
      if conflict.Some? then Done(conflict.value) else Proceed(current)
  }

  lemma SizeOne<T>(s: set<T>)
    requires |s| <= 1
    ensures forall x, y :: x in s && y in s ==> x == y
  {
    forall x, y | x in s && y in s ensures x == y {
      assert |s - {x}| == |s| - 1;
      assert s - {x} == {};
    }
  }

  // ------------------------------------------------------------------ writing the tables

  function Supersede(row: Row, at: int): Row {
    if row.status == Active then row.(status := Superseded, supersededAt := Some(at)) else row
  }

  /**
   `activate_controller_identity` after its proof check: supersede whatever is active NOW, insert one fresh active row.
   */
  function Rotated(rows: map<RowId, Row>, identity: Identity, newId: RowId, at: int): (r: map<RowId, Row>)
    ensures r.Keys == rows.Keys + {newId}
  {
    (map id | id in rows :: Supersede(rows[id], at))[newId := Row(Active, identity, at, None)]
  }

  function BuildReceipt(h: Handoff, current: Option<RowId>, newId: RowId, at: int): Receipt {
    var token := Token(newId, at);
    var state := PublicStateDigest(newId, h.identity);
    var text := Body(ReceiptBody(h.operationId, h.candidate, newId, token, current, true, Active, state));
    Receipt(h.operationId, OperationDigestOf(h), h.candidate, current, h.predecessorToken,
            h.identity.installationId, h.identity.release, h.generation, h.createdAt,
            newId, token, state, text, ReceiptDigest(text))
  }

  /**
   The activation, the receipt insert and the commit.  A uuid collision is an integrity error of the
   activation itself; a taken `operation_id` is the lost UNIQUE race: roll back and answer from the winner.
   */
  function Act(s: Store, h: Handoff, current: Option<RowId>, newId: RowId, at: int, proofOk: bool): (Store, Exit) {
    if !proofOk then (s, ActivationRefused("enrollment_identity_invalid"))
    else if newId in s.rows then (s, ActivationRefused("enrollment_identity_conflict"))
    else
      var winner := LoadReceipt(s.receipts, h.operationId);
      if winner.Some? then (s, ExactReplay(s.rows, winner.value, OperationDigestOf(h)))
      else
        var receipt := BuildReceipt(h, current, newId, at);
        (Store(Rotated(s.rows, h.identity, newId, at), s.receipts + [receipt]), Ok(receipt.text.body))
  }

  /** `run_activation` under the advisory lock: nothing commits between its reads and its commit. */
  function RunLocked(s: Store, input: Input, now: int, newId: RowId, at: int, proofOk: bool): (Store, Exit) {
    match ParseHandoff(input)
    case Invalid(reason) => (s, HandoffInvalid(reason))
    case Valid(h) =>
      var existing := LoadReceipt(s.receipts, h.operationId);
      if existing.Some? then (s, ExactReplay(s.rows, existing.value, OperationDigestOf(h)))
      else match Check(s, h, now)
           case Done(exit) => (s, exit)
           case Proceed(current) => Act(s, h, current, newId, at, proofOk)
  }

  /** The database as the one-shot sees it: tables it writes and, on any failure, rolls back. */
  class Database {
    var rows: map<RowId, Row>
    var receipts: seq<Receipt>

    constructor ()
      ensures rows == map[] && receipts == []
    {
      rows, receipts := map[], [];
    }

    function View(): Store
      reads this
    {
      Store(rows, receipts)
    }

    /** `activate_controller_identity`: the loop over the active set, then the insert. No commit. */
    method Activate(identity: Identity, newId: RowId, at: int, proofOk: bool) returns (ok: bool)
      modifies this`rows
      ensures ok == (proofOk && newId !in old(rows))
      ensures rows == if ok then Rotated(old(rows), identity, newId, at) else old(rows)
    {
      if !proofOk || newId in rows {
        return false;
      }
      var todo := ActiveRows(rows);
      while todo != {}
        invariant todo <= ActiveRows(old(rows))
        invariant rows.Keys == old(rows).Keys
        invariant forall id :: id in rows ==>
                    rows[id] == if id in todo then old(rows)[id] else Supersede(old(rows)[id], at)
      {
        var id :| id in todo;
        rows := rows[id := Supersede(rows[id], at)];
        todo := todo - {id};
      }
      rows := rows[newId := Row(Active, identity, at, None)];
      assert rows == Rotated(old(rows), identity, newId, at);
      return true;
    }

    /** `_first_execution` from the activation on: activate, insert the receipt, commit or roll back. */
    method Commit(h: Handoff, current: Option<RowId>, newId: RowId, at: int, proofOk: bool) returns (exit: Exit)
      modifies this
      ensures (View(), exit) == Act(old(View()), h, current, newId, at, proofOk)
    {
      var before := rows;
      var activated := Activate(h.identity, newId, at, proofOk);
      if !activated {
        rows := before;
        return ActivationRefused(if proofOk then "enrollment_identity_conflict" else "enrollment_identity_invalid");
      }
      var receipt := BuildReceipt(h, current, newId, at);
      var winner := LoadReceipt(receipts, h.operationId);
      if winner.Some? {
        rows := before;
        return ExactReplay(rows, winner.value, OperationDigestOf(h));
      }
      receipts := receipts + [receipt];
      return Ok(receipt.text.body);
    }

    /** `run_activation` under the advisory lock. */
    method RunActivation(input: Input, now: int, newId: RowId, at: int, proofOk: bool) returns (exit: Exit)
      modifies this
      ensures (View(), exit) == RunLocked(old(View()), input, now, newId, at, proofOk)
    {
      var parsed := ParseHandoff(input);
      if parsed.Invalid? {
        return HandoffInvalid(parsed.reason);
      }
      var h := parsed.handoff;
      var existing := LoadReceipt(receipts, h.operationId);
      if existing.Some? {
        return ExactReplay(rows, existing.value, OperationDigestOf(h));
      }
      var decision := Check(Store(rows, receipts), h, now);
      if decision.Done? {
        return decision.exit;
      }
      exit := Commit(h, decision.current, newId, at, proofOk);
    }
  }
}

/**
 What the outbox and the server record over whole runs: a row's columns tell what became of it, a commit
 writes the rows its session published and no others, and a workflow runs once at a time.
 */
module WorkflowRecords {
  import opened Wrappers
  import opened WorkflowOutbox

  // ------------------------------------------------------------------ what enters the tables

  /** A dispatch commits a pending row exactly when neither its id nor its workflow id is taken. */
  lemma DispatchCommitsIff(y: System, id: OutboxId, request: Request, createdAt: int)
    ensures var z := Next(y, Dispatch(id, request, createdAt));
            var new' := id !in y.rows && forall k :: k in y.rows ==> y.rows[k].request.workflowId != request.workflowId;
            z == if new' then y.(rows := y.rows[id := Row(request, Pending, 0, None, None, createdAt)]) else y
  {
  }

  /** A new session loads the rows it asks for that are there and were not sent, as they are, and owes no write. */
  lemma BeginLoads(y: System, sid: nat, ids: set<OutboxId>, id: OutboxId)
    requires sid !in y.sessions
    ensures var z := Next(y, Begin(sid, ids));
            && sid in z.sessions && z.sessions[sid].dirty == {} && z.rows == y.rows && z.server == y.server
            && (id in z.sessions[sid].view <==> id in ids && id in y.rows && y.rows[id].status != Submitted)
            && (id in z.sessions[sid].view ==> z.sessions[sid].view[id] == y.rows[id])
  {
  }

  // ------------------------------------------------------------------ the columns of a row

  /** Never tried, tried in vain, or sent: attempts, error and time of sending say which. */
  ghost predicate Tells(row: Row) {
    match row.status
    case Pending => row.attempts == 0 && row.lastError == None && row.submittedAt == None
    case Failed => row.attempts >= 1 && row.lastError.Some? && row.submittedAt == None
    case Submitted => row.attempts >= 1 && row.lastError == None && row.submittedAt.Some?
  }

  ghost predicate AllTell(rows: map<OutboxId, Row>) {
    forall id :: id in rows ==> Tells(rows[id])
  }

  ghost predicate SystemTells(y: System) {
    AllTell(y.rows) && forall sid :: sid in y.sessions ==> AllTell(y.sessions[sid].view)
  }

  lemma StepTells(y: System, e: Event)
    requires SystemTells(y)
    ensures SystemTells(Next(y, e))
  {
    match e
    case Commit(sid) =>
      if sid in y.sessions { assert AllTell(y.sessions[sid].view); }
    case Publish(sid, id, outcome, now) =>
      if sid in y.sessions { assert AllTell(y.sessions[sid].view); }
    case _ =>
  }

  lemma {:induction false} RunTells(y: System, events: seq<Event>)
    requires SystemTells(y)
    ensures SystemTells(After(y, events))
    decreases |events|
  {
    if events != [] {
      StepTells(y, events[0]);
      RunTells(Next(y, events[0]), events[1..]);
    }
  }

  /** In every reachable state every committed row tells what became of it. */
  lemma RowsTell(rejectClosed: bool, events: seq<Event>, id: OutboxId)
    requires id in After(Initial(rejectClosed), events).rows
    ensures Tells(After(Initial(rejectClosed), events).rows[id])
  {
    RunTells(Initial(rejectClosed), events);
    TellsOf(After(Initial(rejectClosed), events), id);
  }

  lemma TellsOf(y: System, id: OutboxId)
    requires SystemTells(y) && id in y.rows
    ensures Tells(y.rows[id])
  {
  }

  // ------------------------------------------------------------------ what a commit writes

  /** The session, if it is open, has not published the row. */
  ghost predicate Unpublished(y: System, sid: nat, id: OutboxId) {
    sid in y.sessions ==> id !in y.sessions[sid].dirty
  }

  ghost predicate Publishes(e: Event, sid: nat, id: OutboxId) {
    e.Publish? && e.sid == sid && e.id == id
  }

  lemma {:induction false} StaysUnpublished(y: System, events: seq<Event>, sid: nat, id: OutboxId)
    requires Unpublished(y, sid, id) && forall i :: 0 <= i < |events| ==> !Publishes(events[i], sid, id)
    ensures Unpublished(After(y, events), sid, id)
    decreases |events|
  {
    if events != [] {
      assert !Publishes(events[0], sid, id);
      assert Unpublished(Next(y, events[0]), sid, id);
      StaysUnpublished(Next(y, events[0]), events[1..], sid, id);
    }
  }

  /** Whatever else happened since it began, the commit of a session leaves every row alone that it did not publish. */
  lemma CommitWritesItsOwn(y: System, events: seq<Event>, sid: nat, id: OutboxId)
    requires sid !in y.sessions && forall i :: 0 <= i < |events| ==> !Publishes(events[i], sid, id)
    ensures var z := After(y, events);
            var end := Next(z, Commit(sid)).rows;
            (id in end <==> id in z.rows) && (id in end ==> end[id] == z.rows[id])
  {
    StaysUnpublished(y, events, sid, id);
  }

  // ------------------------------------------------------------------ one at a time

  /** How often a workflow was started. */
  ghost function Starts(starts: seq<Request>, w: WorkflowId): nat {
    if starts == [] then 0
    else
      var n := |starts| - 1;
      Starts(starts[..n], w) + if starts[n].workflowId == w then 1 else 0
  }

  /** How often it finished. */
  ghost function Finishes(events: seq<Event>, w: WorkflowId): nat {
    if events == [] then 0
    else (if events[0] == Close(w) then 1 else 0) + Finishes(events[1..], w)
  }

  lemma StartsNext(starts: seq<Request>, r: Request, w: WorkflowId)
    ensures Starts(starts + [r], w) == Starts(starts, w) + if r.workflowId == w then 1 else 0
  {
    assert (starts + [r])[..|starts|] == starts;
  }

  /** Starts that did not finish: none, or the one that is running. */
  ghost function Running(v: Server, w: WorkflowId): nat {
    if w in v.running then 1 else 0
  }

  lemma ReceiveCounts(v: Server, request: Request, w: WorkflowId)
    ensures Starts(Receive(v, request).starts, w) + Running(v, w)
            == Starts(v.starts, w) + Running(Receive(v, request), w)
  {
    if Receive(v, request) != v { StartsNext(v.starts, request, w); }
  }

  lemma StepCounts(y: System, e: Event, w: WorkflowId)
    ensures var z := Next(y, e);
            Starts(z.server.starts, w) + Running(y.server, w)
            <= Starts(y.server.starts, w) + Running(z.server, w) + Finishes([e], w)
  {
    assert Finishes([e], w) == if e == Close(w) then 1 else 0 by { assert [e][1..] == []; }
    match e
    case Publish(sid, id, outcome, now) =>
      if sid in y.sessions && id in y.sessions[sid].view {
        ReceiveCounts(y.server, y.sessions[sid].view[id].request, w);
      }
    case _ =>
  }

  lemma {:induction false} RunCounts(y: System, events: seq<Event>, w: WorkflowId)
    ensures var z := After(y, events);
            Starts(z.server.starts, w) + Running(y.server, w)
            <= Starts(y.server.starts, w) + Running(z.server, w) + Finishes(events, w)
    decreases |events|
  {
    if events != [] {
      var e := events[0];
      StepCounts(y, e, w);
      assert [e][1..] == [];
      RunCounts(Next(y, e), events[1..], w);
    }
  }

  /**
   A workflow runs once at a time, whatever the server does with finished ids: in every run it was started at
   most once more often than it finished, and exactly as often only when it is not running.
   */
  lemma OneAtATimeEver(rejectClosed: bool, events: seq<Event>, w: WorkflowId)
    ensures var v := After(Initial(rejectClosed), events).server;
            Starts(v.starts, w) <= Finishes(events, w) + if w in v.running then 1 else 0
  {
    RunCounts(Initial(rejectClosed), events, w);
  }
}

/**
 The transactional outbox of apps/api/secp_api/dispatch.py: dispatch commits a row, publishers load
 the unsent rows, submit them to Temporal and commit what happened.  The workflow server is part of the
 model: it may answer, fail before accepting, or accept and lose the reply.
 */
module WorkflowOutbox {
  import opened Wrappers

  type OutboxId = string
  type WorkflowId = string

  datatype Status = Pending | Failed | Submitted

  datatype Request = Request(workflow: string, workflowId: WorkflowId, queue: string, args: map<string, string>)

  datatype Row = Row(request: Request, status: Status, attempts: nat, lastError: Option<string>,
                     submittedAt: Option<int>, createdAt: int)

  /** What became of one call of the submitter. */
  datatype Outcome = Accepted | FailedBefore | LostReply

  /**
   The server's history of started workflows and those still running.  `rejectClosed` says whether a
   start under the id of a finished workflow is refused as already started.
   */
  datatype Server = Server(starts: seq<Request>, running: set<WorkflowId>, rejectClosed: bool)

  function StartedIds(v: Server): set<WorkflowId> {
    set r | r in v.starts :: r.workflowId
  }

  /** `client.start_workflow`, with `WorkflowAlreadyStartedError` taken as success by the submitter. */
  function Receive(v: Server, request: Request): Server {
    if request.workflowId in v.running || (v.rejectClosed && request.workflowId in StartedIds(v)) then v
    else v.(starts := v.starts + [request], running := v.running + {request.workflowId})
  }

  function Submit(v: Server, request: Request, outcome: Outcome): Server {
    if outcome == FailedBefore then v else Receive(v, request)
  }

  /** What `publish_one` leaves on a row it submits. */
  function Marked(row: Row, outcome: Outcome, now: int): Row {
    if outcome == Accepted then row.(status := Submitted, attempts := row.attempts + 1, lastError := None,
                                     submittedAt := Some(now))
    else row.(status := Failed, attempts := row.attempts + 1, lastError := Some("workflow submission failed"))
  }

  /**
   What one attempt does to the columns of a row: one attempt more, and sent with its time or failed with an error.
   */
  ghost predicate Attempted(was: Row, row: Row, outcome: Outcome, now: int) {
    && row.request == was.request && row.createdAt == was.createdAt && row.attempts == was.attempts + 1
    && match outcome
       case Accepted => row.status == Submitted && row.lastError == None && row.submittedAt == Some(now)
       case _ => row.status == Failed && row.lastError.Some? && row.submittedAt == was.submittedAt
  }

  function PublishedRows(rows: map<OutboxId, Row>, id: OutboxId, outcome: Outcome, now: int): map<OutboxId, Row> {
    if id !in rows || rows[id].status == Submitted then rows else rows[id := Marked(rows[id], outcome, now)]
  }

  function PublishedServer(rows: map<OutboxId, Row>, v: Server, id: OutboxId, outcome: Outcome): Server {
    if id !in rows || rows[id].status == Submitted then v else Submit(v, rows[id].request, outcome)
  }

  // ------------------------------------------------------------------ the publisher

  datatype Attempt = Attempt(id: OutboxId, outcome: Outcome, now: int)

  predicate Unsent(row: Row) {
    row.status == Pending || row.status == Failed
  }

  function Ids(todo: seq<Attempt>): set<OutboxId> {
    set a | a in todo :: a.id
  }

  ghost predicate OncePerRow(todo: seq<Attempt>) {
    forall i, j :: 0 <= i < j < |todo| ==> todo[i].id != todo[j].id
  }

  /**
   What the query of `publish_pending` answers: at most `limit` unsent rows, the oldest first and no older one left out.
   */
  ghost predicate QueryAnswer(rows: map<OutboxId, Row>, limit: nat, todo: seq<Attempt>) {
    && OncePerRow(todo) && |todo| <= limit
    && (forall i :: 0 <= i < |todo| ==> todo[i].id in rows && Unsent(rows[todo[i].id]))
    && (forall i, j :: 0 <= i < j < |todo| ==> rows[todo[i].id].createdAt <= rows[todo[j].id].createdAt)
    && (forall id :: id in rows && Unsent(rows[id]) && id !in Ids(todo) ==>
          |todo| == limit && forall i :: 0 <= i < |todo| ==> rows[todo[i].id].createdAt <= rows[id].createdAt)
  }

  function PublishAllRows(rows: map<OutboxId, Row>, todo: seq<Attempt>): map<OutboxId, Row>
    decreases |todo|
  {
    if todo == [] then rows
    else PublishAllRows(PublishedRows(rows, todo[0].id, todo[0].outcome, todo[0].now), todo[1..])
  }

  function PublishAllServer(rows: map<OutboxId, Row>, v: Server, todo: seq<Attempt>): Server
    decreases |todo|
  {
    if todo == [] then v
    else PublishAllServer(PublishedRows(rows, todo[0].id, todo[0].outcome, todo[0].now),
                          PublishedServer(rows, v, todo[0].id, todo[0].outcome), todo[1..])
  }

  /** How many of the attempts mark a row submitted. */
  function PublishAllCount(rows: map<OutboxId, Row>, todo: seq<Attempt>): nat
    decreases |todo|
  {
    if todo == [] then 0
    else
      var a := todo[0];
      (if a.id in rows && rows[a.id].status != Submitted && a.outcome == Accepted then 1 else 0)
      + PublishAllCount(PublishedRows(rows, a.id, a.outcome, a.now), todo[1..])
  }

  ghost predicate AllUnsent(rows: map<OutboxId, Row>, todo: seq<Attempt>) {
    forall i :: 0 <= i < |todo| ==> todo[i].id in rows && rows[todo[i].id].status != Submitted
  }

  lemma RestUnsent(rows: map<OutboxId, Row>, todo: seq<Attempt>)
    requires todo != [] && OncePerRow(todo) && AllUnsent(rows, todo)
    ensures OncePerRow(todo[1..]) && AllUnsent(PublishedRows(rows, todo[0].id, todo[0].outcome, todo[0].now), todo[1..])
    ensures todo[0].id !in Ids(todo[1..])
  {
    forall a | a in todo[1..] ensures a.id != todo[0].id {
      var j :| 0 <= j < |todo[1..]| && todo[1..][j] == a;
      assert todo[j + 1] == a;
    }
  }

  /** Each row of the answer is attempted once and left as that attempt leaves it; no other row changes. */
  lemma {:induction false} EachAttemptedOnce(rows: map<OutboxId, Row>, todo: seq<Attempt>)
    requires OncePerRow(todo) && AllUnsent(rows, todo)
    ensures var rows' := PublishAllRows(rows, todo);
            && rows'.Keys == rows.Keys
            && (forall i :: 0 <= i < |todo| ==>
                  rows'[todo[i].id] == Marked(rows[todo[i].id], todo[i].outcome, todo[i].now))
            && (forall id :: id in rows && id !in Ids(todo) ==> rows'[id] == rows[id])
    decreases |todo|
  {
    if todo != [] {
      var a := todo[0];
      var next := PublishedRows(rows, a.id, a.outcome, a.now);
      RestUnsent(rows, todo);
      EachAttemptedOnce(next, todo[1..]);
      forall i | 0 <= i < |todo|
          ensures PublishAllRows(rows, todo)[todo[i].id] == Marked(rows[todo[i].id], todo[i].outcome, todo[i].now) {
        if i > 0 { assert todo[1..][i - 1] == todo[i]; }
      }
      assert Ids(todo[1..]) <= Ids(todo) && a.id in Ids(todo);
    }
  }

  /** The requests that reach the server, in the order of the answer. */
  function SubmitAll(rows: map<OutboxId, Row>, v: Server, todo: seq<Attempt>): Server
    requires forall i :: 0 <= i < |todo| ==> todo[i].id in rows
    decreases |todo|
  {
    if todo == [] then v else SubmitAll(rows, Submit(v, rows[todo[0].id].request, todo[0].outcome), todo[1..])
  }

  lemma {:induction false} SameRequestsSameServer(rows: map<OutboxId, Row>, rows': map<OutboxId, Row>, v: Server,
                                                  todo: seq<Attempt>)
    requires forall i :: 0 <= i < |todo| ==>
               todo[i].id in rows && todo[i].id in rows' && rows[todo[i].id].request == rows'[todo[i].id].request
    ensures SubmitAll(rows, v, todo) == SubmitAll(rows', v, todo)
    decreases |todo|
  {
    if todo != [] {
      SameRequestsSameServer(rows, rows', Submit(v, rows[todo[0].id].request, todo[0].outcome), todo[1..]);
    }
  }

  lemma {:induction false} EachSubmittedOnce(rows: map<OutboxId, Row>, v: Server, todo: seq<Attempt>)
    requires OncePerRow(todo) && AllUnsent(rows, todo)
    ensures PublishAllServer(rows, v, todo) == SubmitAll(rows, v, todo)
    ensures PublishAllCount(rows, todo) == |Successes(todo)|
    decreases |todo|
  {
    if todo != [] {
      var a := todo[0];
      var next := PublishedRows(rows, a.id, a.outcome, a.now);
      var v' := Submit(v, rows[a.id].request, a.outcome);
      RestUnsent(rows, todo);
      EachSubmittedOnce(next, v', todo[1..]);
      SameRequestsSameServer(rows, next, v', todo[1..]);
    }
  }

  function Successes(todo: seq<Attempt>): seq<Attempt> {
    if todo == [] then [] else (if todo[0].outcome == Accepted then [todo[0]] else []) + Successes(todo[1..])
  }

  /** `WorkflowOutboxPublisher` with its session's rows and the server it talks to. */
  class Publisher {
    var rows: map<OutboxId, Row>
    var server: Server

    constructor (rows: map<OutboxId, Row>, server: Server)
      ensures this.rows == rows && this.server == server
    {
      this.rows, this.server := rows, server;
    }

    /** `publish_one`; `None` when the row does not exist. */
    method PublishOne(id: OutboxId, outcome: Outcome, now: int) returns (published: Option<bool>)
      modifies this
      ensures rows.Keys == old(rows).Keys && forall k :: k in rows && k != id ==> rows[k] == old(rows)[k]
      ensures id in old(rows) ==>
                if old(rows)[id].status == Submitted then rows[id] == old(rows)[id]
                else Attempted(old(rows)[id], rows[id], outcome, now)
      ensures rows == PublishedRows(old(rows), id, outcome, now)
      ensures server == PublishedServer(old(rows), old(server), id, outcome)
      ensures published == if id !in old(rows) then None
              else Some(old(rows)[id].status != Submitted && outcome == Accepted)
    {
      if id !in rows {
        return None;
      }
      var row := rows[id];
      if row.status == Submitted {
        return Some(false);
      }
      row := row.(attempts := row.attempts + 1);
      server := Submit(server, row.request, outcome);
      if outcome != Accepted {
        rows := rows[id := row.(status := Failed, lastError := Some("workflow submission failed"))];
        return Some(false);
      }
      rows := rows[id := row.(status := Submitted, lastError := None, submittedAt := Some(now))];
      return Some(true);
    }

    /** `publish_pending`: the loop over the rows its query returned. */
    method PublishPending(limit: nat, todo: seq<Attempt>) returns (published: nat)
      requires QueryAnswer(rows, limit, todo)
      modifies this
      ensures rows.Keys == old(rows).Keys
      ensures forall i :: 0 <= i < |todo| ==>
                Attempted(old(rows)[todo[i].id], rows[todo[i].id], todo[i].outcome, todo[i].now)
      ensures forall id :: id in rows && id !in Ids(todo) ==> rows[id] == old(rows)[id]
      ensures server == SubmitAll(old(rows), old(server), todo)
      ensures published == |Successes(todo)|
      ensures rows == PublishAllRows(old(rows), todo)
      ensures server == PublishAllServer(old(rows), old(server), todo)
      ensures published == PublishAllCount(old(rows), todo)
    {
      EachAttemptedOnce(rows, todo);
      EachSubmittedOnce(rows, server, todo);
      published := 0;
      var rest := todo;
      while rest != []
        invariant published + PublishAllCount(rows, rest) == PublishAllCount(old(rows), todo)
        invariant PublishAllRows(rows, rest) == PublishAllRows(old(rows), todo)
        invariant PublishAllServer(rows, server, rest) == PublishAllServer(old(rows), old(server), todo)
        decreases |rest|
      {
        var ok := PublishOne(rest[0].id, rest[0].outcome, rest[0].now);
        if ok == Some(true) {
          published := published + 1;
        }
        rest := rest[1..];
      }
    }
  }

  // ------------------------------------------------------------------ the whole system

  /** An open publisher session: the rows it loaded, as it has marked them, and which of them it will write. */
  datatype Session = Session(view: map<OutboxId, Row>, dirty: set<OutboxId>)

  /** Committed rows, the open publisher sessions, and the server. */
  datatype System = System(rows: map<OutboxId, Row>, sessions: map<nat, Session>, server: Server)

  datatype Event =
    | Dispatch(id: OutboxId, request: Request, createdAt: int)
    | Begin(sid: nat, ids: set<OutboxId>)
    | Publish(sid: nat, id: OutboxId, outcome: Outcome, now: int)
    | Commit(sid: nat)
    | Crash(sid: nat)
    | Close(workflowId: WorkflowId)

  /** The rows a session loads: those of the unsent ones it asks for. */
  function Loaded(rows: map<OutboxId, Row>, ids: set<OutboxId>): map<OutboxId, Row> {
    map id | id in rows && id in ids && Unsent(rows[id]) :: rows[id]
  }

  predicate WorkflowIdTaken(rows: map<OutboxId, Row>, w: WorkflowId) {
    exists id :: id in rows && rows[id].request.workflowId == w
  }

  /** What a commit writes. */
  function Written(session: Session): map<OutboxId, Row> {
    map id | id in session.view && id in session.dirty :: session.view[id]
  }

  function Next(y: System, e: Event): System {
    match e
    case Dispatch(id, request, createdAt) =>
      if id in y.rows || WorkflowIdTaken(y.rows, request.workflowId) then y
      else y.(rows := y.rows[id := Row(request, Pending, 0, None, None, createdAt)])
    case Begin(sid, ids) =>
      if sid in y.sessions then y else y.(sessions := y.sessions[sid := Session(Loaded(y.rows, ids), {})])
    case Publish(sid, id, outcome, now) =>
      if sid !in y.sessions then y
      else
        var Session(view, dirty) := y.sessions[sid];
        System(y.rows, y.sessions[sid := Session(PublishedRows(view, id, outcome, now), dirty + {id})],
               PublishedServer(view, y.server, id, outcome))
    case Commit(sid) =>
      if sid !in y.sessions then y else System(y.rows + Written(y.sessions[sid]), y.sessions - {sid}, y.server)
    case Crash(sid) =>
      y.(sessions := y.sessions - {sid})
    case Close(w) =>
      y.(server := y.server.(running := y.server.running - {w}))
  }

  function After(y: System, events: seq<Event>): System
    decreases |events|
  {
    if events == [] then y else After(Next(y, events[0]), events[1..])
  }

  /** The attempts of one session as steps of a run. */
  function PublishEvents(sid: nat, todo: seq<Attempt>): (r: seq<Event>)
    ensures |r| == |todo| && forall i :: 0 <= i < |r| ==> r[i] == Publish(sid, todo[i].id, todo[i].outcome, todo[i].now)
  {
    seq(|todo|, i requires 0 <= i < |todo| => Publish(sid, todo[i].id, todo[i].outcome, todo[i].now))
  }

  /** What `publish_pending` does to its rows and the server is what its publish steps do in a run. */
  lemma {:induction false} PublisherRunsSteps(y: System, sid: nat, todo: seq<Attempt>)
    requires sid in y.sessions
    ensures var z := After(y, PublishEvents(sid, todo));
            var Session(view, dirty) := y.sessions[sid];
            z == System(y.rows, y.sessions[sid := Session(PublishAllRows(view, todo), dirty + Ids(todo))],
                        PublishAllServer(view, y.server, todo))
    decreases |todo|
  {
    if todo == [] {
      assert y.sessions[sid := y.sessions[sid]] == y.sessions;
      assert y.sessions[sid].dirty + Ids(todo) == y.sessions[sid].dirty;
    } else {
      var events := PublishEvents(sid, todo);
      var y1 := Next(y, events[0]);
      assert events[1..] == PublishEvents(sid, todo[1..]);
      PublisherRunsSteps(y1, sid, todo[1..]);
      var Session(view, dirty) := y.sessions[sid];
      assert Ids(todo) == {todo[0].id} + Ids(todo[1..]);
      assert dirty + {todo[0].id} + Ids(todo[1..]) == dirty + Ids(todo);
      assert y1.sessions[sid := Session(PublishAllRows(y1.sessions[sid].view, todo[1..]), dirty + Ids(todo))]
          == y.sessions[sid := Session(PublishAllRows(view, todo), dirty + Ids(todo))];
    }
  }

  function Initial(rejectClosed: bool): System {
    System(map[], map[], Server([], {}, rejectClosed))
  }

  // ------------------------------------------------------------------ what every step keeps

  /** A loaded row is a committed one: same request; and whatever is marked sent has been started. */
  ghost predicate FaithfulView(y: System, view: map<OutboxId, Row>) {
    forall id :: id in view ==>
      (id in y.rows && view[id].request == y.rows[id].request
       && (view[id].status == Submitted ==> view[id].request.workflowId in StartedIds(y.server)))
  }

  ghost predicate FaithfulViews(y: System) {
    forall sid :: sid in y.sessions ==> FaithfulView(y, y.sessions[sid].view)
  }

  ghost predicate SentAreStarted(rows: map<OutboxId, Row>, v: Server) {
    forall id :: id in rows && rows[id].status == Submitted ==> rows[id].request.workflowId in StartedIds(v)
  }

  ghost predicate UniqueWorkflowIds(rows: map<OutboxId, Row>) {
    forall a, b :: a in rows && b in rows && rows[a].request.workflowId == rows[b].request.workflowId ==> a == b
  }

  ghost predicate StartsAreCommitted(starts: seq<Request>, rows: map<OutboxId, Row>) {
    forall r :: r in starts ==> exists id :: id in rows && rows[id].request == r
  }

  ghost predicate Faithful(y: System) {
    && FaithfulViews(y)
    && SentAreStarted(y.rows, y.server)
    && UniqueWorkflowIds(y.rows)
    && StartsAreCommitted(y.server.starts, y.rows)
    && y.server.running <= StartedIds(y.server)
  }

  lemma ReceiveStarts(v: Server, request: Request)
    requires v.running <= StartedIds(v)
    ensures request.workflowId in StartedIds(Receive(v, request)) && StartedIds(v) <= StartedIds(Receive(v, request))
    ensures Receive(v, request).running <= StartedIds(Receive(v, request))
    ensures forall r :: r in Receive(v, request).starts ==> r in v.starts || r == request
  {
    var v' := Receive(v, request);
    if v' != v {
      assert request in v'.starts;
      assert forall r :: r in v.starts ==> r in v'.starts;
    }
  }

  lemma PublishKeepsViews(y: System, sid: nat, id: OutboxId, outcome: Outcome, now: int)
    requires FaithfulViews(y) && sid in y.sessions && id in y.sessions[sid].view
             && y.sessions[sid].view[id].status != Submitted
    requires y.server.running <= StartedIds(y.server)
    ensures FaithfulViews(Next(y, Publish(sid, id, outcome, now)))
  {
    var view := y.sessions[sid].view;
    var z := Next(y, Publish(sid, id, outcome, now));
    ReceiveStarts(y.server, view[id].request);
    forall s | s in z.sessions ensures FaithfulView(z, z.sessions[s].view) {
      assert FaithfulView(y, y.sessions[s].view);
    }
  }

  lemma PublishKeepsFaithful(y: System, sid: nat, id: OutboxId, outcome: Outcome, now: int)
    requires Faithful(y) && sid in y.sessions
    ensures Faithful(Next(y, Publish(sid, id, outcome, now)))
  {
    var view := y.sessions[sid].view;
    var z := Next(y, Publish(sid, id, outcome, now));
    if id in view && view[id].status != Submitted {
      PublishKeepsViews(y, sid, id, outcome, now);
      ReceiveStarts(y.server, view[id].request);
      assert FaithfulView(y, view);
      StillCommitted(y.server.starts, z.server.starts, y.rows, z.rows, id);
    }
    else {
      assert PublishedRows(view, id, outcome, now) == view;
      forall s | s in z.sessions ensures FaithfulView(z, z.sessions[s].view) {
        assert FaithfulView(y, y.sessions[s].view);
      }
    }
  }

  lemma StillCommitted(starts: seq<Request>, starts': seq<Request>, rows: map<OutboxId, Row>, rows': map<OutboxId, Row>,
                       id: OutboxId)
    requires StartsAreCommitted(starts, rows) && id in rows'
    requires forall k :: k in rows ==> k in rows' && rows'[k].request == rows[k].request
    requires forall r :: r in starts' ==> r in starts || r == rows'[id].request
    ensures StartsAreCommitted(starts', rows')
  {
    forall r | r in starts' ensures exists k :: k in rows' && rows'[k].request == r {
      if r in starts {
        var k :| k in rows && rows[k].request == r;
        assert rows'[k].request == r;
      } else {
        assert rows'[id].request == r;
      }
    }
  }

  lemma CommitKeepsFaithful(y: System, sid: nat)
    requires Faithful(y) && sid in y.sessions
    ensures Faithful(Next(y, Commit(sid)))
  {
    var view := y.sessions[sid].view;
    var z := Next(y, Commit(sid));
    assert FaithfulView(y, view);
    assert forall id :: id in z.rows <==> id in y.rows;
    assert forall id :: id in z.rows ==> z.rows[id].request == y.rows[id].request;
    forall s | s in z.sessions ensures FaithfulView(z, z.sessions[s].view) {
      assert FaithfulView(y, y.sessions[s].view);
    }
    forall r | r in z.server.starts ensures exists k :: k in z.rows && z.rows[k].request == r {
      var k :| k in y.rows && y.rows[k].request == r;
      assert z.rows[k].request == r;
    }
  }

  lemma DispatchKeepsFaithful(y: System, id: OutboxId, request: Request, createdAt: int)
    requires Faithful(y)
    ensures Faithful(Next(y, Dispatch(id, request, createdAt)))
  {
    var z := Next(y, Dispatch(id, request, createdAt));
    if z != y {
      forall s | s in z.sessions ensures FaithfulView(z, z.sessions[s].view) {
        assert FaithfulView(y, y.sessions[s].view);
      }
      StillCommitted(y.server.starts, z.server.starts, y.rows, z.rows, id);
      forall a, b | a in z.rows && b in z.rows && z.rows[a].request.workflowId == z.rows[b].request.workflowId
          ensures a == b {
        assert a == id || (a in y.rows && z.rows[a] == y.rows[a]);
        assert b == id || (b in y.rows && z.rows[b] == y.rows[b]);
      }
    }
  }

  lemma StepKeepsFaithful(y: System, e: Event)
    requires Faithful(y)
    ensures Faithful(Next(y, e))
  {
    match e
    case Dispatch(id, request, createdAt) => DispatchKeepsFaithful(y, id, request, createdAt);
    case Begin(sid, _) =>
      var z := Next(y, e);
      forall s | s in z.sessions ensures FaithfulView(z, z.sessions[s].view) {
        if s in y.sessions { assert FaithfulView(y, y.sessions[s].view); }
      }
    case Publish(sid, id, outcome, now) => if sid in y.sessions { PublishKeepsFaithful(y, sid, id, outcome, now); }
    case Commit(sid) => if sid in y.sessions { CommitKeepsFaithful(y, sid); }
    case Crash(sid) =>
      var z := Next(y, e);
      forall s | s in z.sessions ensures FaithfulView(z, z.sessions[s].view) {
        assert FaithfulView(y, y.sessions[s].view);
      }
    case Close(w) =>
      var z := Next(y, e);
      forall s | s in z.sessions ensures FaithfulView(z, z.sessions[s].view) {
        assert FaithfulView(y, y.sessions[s].view);
      }
  }

  /**
   Over every interleaving of dispatches, any number of publisher sessions, lost replies, failures and
   crashes: a workflow is started only for a committed row and exactly as that row says, and a row
   committed as submitted has been started.
   */
  lemma {:induction false} RunsAreFaithful(y: System, events: seq<Event>)
    requires Faithful(y)
    ensures Faithful(After(y, events))
    decreases |events|
  {
    if events != [] {
      StepKeepsFaithful(y, events[0]);
      RunsAreFaithful(Next(y, events[0]), events[1..]);
    }
  }

  // ------------------------------------------------------------------ at most one start

  ghost predicate DistinctStarts(v: Server) {
    forall i, j :: 0 <= i < j < |v.starts| ==> v.starts[i].workflowId != v.starts[j].workflowId
  }

  /** The step reaches the server for a workflow that was started before, has finished, and may be started again. */
  ghost predicate Reopens(y: System, e: Event) {
    && e.Publish? && e.sid in y.sessions && e.id in y.sessions[e.sid].view && e.outcome != FailedBefore
    && y.sessions[e.sid].view[e.id].status != Submitted
    && var w := y.sessions[e.sid].view[e.id].request.workflowId;
       w in StartedIds(y.server) && w !in y.server.running && !y.server.rejectClosed
  }

  ghost predicate NeverReopens(y: System, events: seq<Event>)
    decreases |events|
  {
    events != [] ==> !Reopens(y, events[0]) && NeverReopens(Next(y, events[0]), events[1..])
  }

  lemma StepStarts(y: System, e: Event)
    requires Faithful(y)
    ensures y.server.starts <= Next(y, e).server.starts && Next(y, e).server.rejectClosed == y.server.rejectClosed
    ensures DistinctStarts(y.server) ==> (DistinctStarts(Next(y, e).server) <==> !Reopens(y, e))
  {
    if e.Publish? && e.sid in y.sessions && e.id in y.sessions[e.sid].view
        && y.sessions[e.sid].view[e.id].status != Submitted {
      var w := y.sessions[e.sid].view[e.id].request.workflowId;
      var v, v' := y.server, Next(y, e).server;
      if v' != v {
        assert v'.starts == v.starts + [y.sessions[e.sid].view[e.id].request];
        if w in StartedIds(v) {
          var r :| r in v.starts && r.workflowId == w;
          var i :| 0 <= i < |v.starts| && v.starts[i] == r;
          assert v'.starts[i].workflowId == v'.starts[|v.starts|].workflowId;
        } else {
          forall i | 0 <= i < |v.starts| ensures v.starts[i].workflowId != w { assert v.starts[i] in v.starts; }
        }
      }
    }
  }

  lemma {:induction false} RunStarts(y: System, events: seq<Event>)
    requires Faithful(y)
    ensures y.server.starts <= After(y, events).server.starts
    decreases |events|
  {
    if events != [] {
      StepStarts(y, events[0]);
      StepKeepsFaithful(y, events[0]);
      RunStarts(Next(y, events[0]), events[1..]);
    }
  }

  /** One run starts no id twice exactly when none of its steps starts a finished workflow again. */
  lemma {:induction false} AtMostOnceIff(y: System, events: seq<Event>)
    requires Faithful(y) && DistinctStarts(y.server)
    ensures DistinctStarts(After(y, events).server) <==> NeverReopens(y, events)
    decreases |events|
  {
    if events != [] {
      var z := Next(y, events[0]);
      StepStarts(y, events[0]);
      StepKeepsFaithful(y, events[0]);
      if DistinctStarts(z.server) {
        AtMostOnceIff(z, events[1..]);
      } else {
        RunStarts(z, events[1..]);
        var i, j :| 0 <= i < j < |z.server.starts| && z.server.starts[i].workflowId == z.server.starts[j].workflowId;
        assert After(y, events).server.starts[i].workflowId == After(y, events).server.starts[j].workflowId;
      }
    }
  }

  lemma {:induction false} RejectingServerNeverReopens(y: System, events: seq<Event>)
    requires Faithful(y) && y.server.rejectClosed
    ensures NeverReopens(y, events)
    decreases |events|
  {
    if events != [] {
      StepStarts(y, events[0]);
      StepKeepsFaithful(y, events[0]);
      RejectingServerNeverReopens(Next(y, events[0]), events[1..]);
    }
  }

  /** With a server that refuses the ids of finished workflows, every run from the start is at most once. */
  lemma AtMostOnceWhenRejecting(events: seq<Event>)
    ensures DistinctStarts(After(Initial(true), events).server)
  {
    RejectingServerNeverReopens(Initial(true), events);
    AtMostOnceIff(Initial(true), events);
  }

  lemma AfterOne(y: System, e: Event, rest: seq<Event>)
    ensures After(y, [e] + rest) == After(Next(y, e), rest)
  {
    assert ([e] + rest)[1..] == rest;
  }

  /** One row published with its reply lost, finished, and published again by the next session. */
  function LostReplyRun(id: OutboxId, request: Request): seq<Event> {
    [Dispatch(id, request, 0)] + ([Begin(0, {id})] + ([Publish(0, id, LostReply, 0)] + ([Commit(0)]
      + ([Close(request.workflowId)] + ([Begin(1, {id})] + ([Publish(1, id, Accepted, 0)] + []))))))
  }

  /** On a server that lets finished ids start again, a lost reply is enough to start one workflow twice. */
  lemma LostReplyStartsTwice(id: OutboxId, request: Request)
    ensures After(Initial(false), LostReplyRun(id, request)).server.starts == [request, request]
  {
    var y0 := Initial(false);
    var y1 := Next(y0, Dispatch(id, request, 0));
    var y2 := Next(y1, Begin(0, {id}));
    var y3 := Next(y2, Publish(0, id, LostReply, 0));
    assert y3.server.starts == [request] && y3.sessions[0].view[id].status == Failed;
    var y4 := Next(y3, Commit(0));
    assert id in y4.rows && y4.rows[id].status == Failed && y4.rows[id].request == request;
    var y5 := Next(y4, Close(request.workflowId));
    var y6 := Next(y5, Begin(1, {id}));
    assert id in y6.sessions[1].view && y6.sessions[1].view[id].request == request;
    var y7 := Next(y6, Publish(1, id, Accepted, 0));
    assert y7.server.starts == [request] + [request];
    LostReplyRunEnds(id, request, y0, y1, y2, y3, y4, y5, y6, y7);
  }

  lemma LostReplyRunEnds(id: OutboxId, request: Request, y0: System, y1: System, y2: System, y3: System, y4: System,
                         y5: System, y6: System, y7: System)
    requires y1 == Next(y0, Dispatch(id, request, 0)) && y2 == Next(y1, Begin(0, {id}))
             && y3 == Next(y2, Publish(0, id, LostReply, 0))
    requires y4 == Next(y3, Commit(0)) && y5 == Next(y4, Close(request.workflowId)) && y6 == Next(y5, Begin(1, {id}))
    requires y7 == Next(y6, Publish(1, id, Accepted, 0))
    ensures After(y0, LostReplyRun(id, request)) == y7
  {
    var e7 := [Publish(1, id, Accepted, 0)] + [];
    var e6 := [Begin(1, {id})] + e7;
    var e5 := [Close(request.workflowId)] + e6;
    var e4 := [Commit(0)] + e5;
    var e3 := [Publish(0, id, LostReply, 0)] + e4;
    var e2 := [Begin(0, {id})] + e3;
    AfterOne(y0, Dispatch(id, request, 0), e2);
    AfterOne(y1, Begin(0, {id}), e3);
    AfterOne(y2, Publish(0, id, LostReply, 0), e4);
    AfterOne(y3, Commit(0), e5);
    AfterOne(y4, Close(request.workflowId), e6);
    AfterOne(y5, Begin(1, {id}), e7);
    AfterOne(y6, Publish(1, id, Accepted, 0), []);
  }

  /**
   At most once, exactly: every run starts every workflow id at most once if and only if the server refuses
   the ids of finished workflows.  That is an argument of `start_workflow`, which the submitter leaves at its default.
   */
  lemma AtMostOnceIffRejecting(rejectClosed: bool)
    ensures (forall events :: DistinctStarts(After(Initial(rejectClosed), events).server)) <==> rejectClosed
  {
    if rejectClosed {
      forall events ensures DistinctStarts(After(Initial(rejectClosed), events).server) {
        AtMostOnceWhenRejecting(events);
      }
    } else {
      var request := Request("w", "id", "q", map[]);
      LostReplyStartsTwice("row", request);
      var starts := After(Initial(false), LostReplyRun("row", request)).server.starts;
      assert starts[0].workflowId == starts[1].workflowId;
    }
  }

  // ------------------------------------------------------------------ submitted is final

  /** Some open session loaded the row before it was sent and has not sent it itself. */
  ghost predicate HeldUnsent(y: System, id: OutboxId) {
    exists sid :: sid in y.sessions && id in y.sessions[sid].view && y.sessions[sid].view[id].status != Submitted
  }

  /** The step hands the row to the submitter. */
  ghost predicate Submits(y: System, e: Event, id: OutboxId) {
    && e.Publish? && e.id == id && e.sid in y.sessions && id in y.sessions[e.sid].view
    && y.sessions[e.sid].view[id].status != Submitted
  }

  ghost predicate NeverSubmits(y: System, events: seq<Event>, id: OutboxId)
    decreases |events|
  {
    events != [] ==> !Submits(y, events[0], id) && NeverSubmits(Next(y, events[0]), events[1..], id)
  }

  lemma NotHeldStep(y: System, e: Event, id: OutboxId)
    requires id in y.rows && y.rows[id].status == Submitted && !HeldUnsent(y, id)
    ensures var z := Next(y, e); id in z.rows && z.rows[id].status == Submitted && !HeldUnsent(z, id)
    ensures !Submits(y, e, id)
  {
    var z := Next(y, e);
    forall sid | sid in z.sessions && id in z.sessions[sid].view ensures z.sessions[sid].view[id].status == Submitted {
      if sid in y.sessions && id in y.sessions[sid].view {
        assert y.sessions[sid].view[id].status == Submitted;
      }
    }
  }

  lemma {:induction false} NotHeldIsFinal(y: System, events: seq<Event>, id: OutboxId)
    requires id in y.rows && y.rows[id].status == Submitted && !HeldUnsent(y, id)
    ensures var z := After(y, events); id in z.rows && z.rows[id].status == Submitted && !HeldUnsent(z, id)
    ensures NeverSubmits(y, events, id)
    decreases |events|
  {
    if events != [] {
      NotHeldStep(y, events[0], id);
      NotHeldIsFinal(Next(y, events[0]), events[1..], id);
    }
  }

  lemma HeldCanUnmark(y: System, sid: nat, id: OutboxId)
    requires sid in y.sessions && id in y.sessions[sid].view && y.sessions[sid].view[id].status != Submitted
    ensures var z := After(y, [Publish(sid, id, FailedBefore, 0), Commit(sid)]);
            id in z.rows && z.rows[id].status == Failed
  {
    var e, f := Publish(sid, id, FailedBefore, 0), Commit(sid);
    assert [e, f][1..] == [f] && [f][1..] == [];
    var y1 := Next(y, e);
    assert y1.sessions[sid].view[id].status == Failed && id in y1.sessions[sid].dirty;
    assert After(y1, [f]) == Next(y1, f);
    assert After(y, [e, f]) == After(y1, [f]);
  }

  /**
   A row committed as submitted stays submitted in every continuation, and is never submitted again, exactly
   when no open session loaded it before it was sent: concurrent publishers can overwrite each other.
   */
  lemma SubmittedIsFinalIff(y: System, id: OutboxId)
    requires id in y.rows && y.rows[id].status == Submitted
    ensures (forall events :: StaysSubmitted(y, events, id)) <==> !HeldUnsent(y, id)
  {
    if HeldUnsent(y, id) {
      var sid :| sid in y.sessions && id in y.sessions[sid].view && y.sessions[sid].view[id].status != Submitted;
      HeldCanUnmark(y, sid, id);
      assert !StaysSubmitted(y, [Publish(sid, id, FailedBefore, 0), Commit(sid)], id);
    } else {
      forall events ensures StaysSubmitted(y, events, id) {
        NotHeldIsFinal(y, events, id);
      }
    }
  }

  /** The row is still marked at the end of the run and was handed to the submitter by none of its steps. */
  ghost predicate StaysSubmitted(y: System, events: seq<Event>, id: OutboxId) {
    id in After(y, events).rows && After(y, events).rows[id].status == Submitted && NeverSubmits(y, events, id)
  }

  lemma OtherStepStartsOther(y: System, e: Event, id: OutboxId)
    requires Faithful(y) && id in y.rows && !Submits(y, e, id)
    ensures forall k :: |y.server.starts| <= k < |Next(y, e).server.starts| ==>
              Next(y, e).server.starts[k].workflowId != y.rows[id].request.workflowId
    ensures id in Next(y, e).rows && Next(y, e).rows[id].request == y.rows[id].request
  {
    if e.Publish? && e.sid in y.sessions && e.id in y.sessions[e.sid].view {
      assert FaithfulView(y, y.sessions[e.sid].view);
    }
    if e.Commit? && e.sid in y.sessions {
      assert FaithfulView(y, y.sessions[e.sid].view);
    }
  }

  /** A workflow is not started again in any continuation that hands its row to no submitter. */
  lemma {:induction false} UnsubmittedIsNotRestarted(y: System, events: seq<Event>, id: OutboxId)
    requires Faithful(y) && id in y.rows && NeverSubmits(y, events, id)
    ensures y.server.starts <= After(y, events).server.starts
    ensures forall k :: |y.server.starts| <= k < |After(y, events).server.starts| ==>
              After(y, events).server.starts[k].workflowId != y.rows[id].request.workflowId
    decreases |events|
  {
    if events != [] {
      var z := Next(y, events[0]);
      StepStarts(y, events[0]);
      StepKeepsFaithful(y, events[0]);
      OtherStepStartsOther(y, events[0], id);
      UnsubmittedIsNotRestarted(z, events[1..], id);
      forall k | |y.server.starts| <= k < |After(y, events).server.starts|
        ensures After(y, events).server.starts[k].workflowId != y.rows[id].request.workflowId
      {
        if k < |z.server.starts| { assert After(y, events).server.starts[k] == z.server.starts[k]; }
      }
    }
  }

  /** Two sessions load the row before either sends it; the one that commits leaves it marked and held by the other. */
  lemma OverlapLeavesRowHeld(rejectClosed: bool, id: OutboxId, request: Request)
    ensures var y := After(Initial(rejectClosed), OverlapRun(id, request));
            id in y.rows && y.rows[id].status == Submitted && HeldUnsent(y, id)
  {
    var y0 := Initial(rejectClosed);
    var y1 := Next(y0, Dispatch(id, request, 0));
    var y2 := Next(y1, Begin(0, {id}));
    var y3 := Next(y2, Begin(1, {id}));
    assert id in y3.sessions[1].view && y3.sessions[1].view[id].status == Pending;
    var y4 := Next(y3, Publish(0, id, Accepted, 0));
    assert y4.sessions[1] == y3.sessions[1] && y4.sessions[0].view[id].status == Submitted;
    var y5 := Next(y4, Commit(0));
    assert id in y5.rows && y5.rows[id].status == Submitted && y5.sessions[1] == y3.sessions[1];
    AfterOne(y0, Dispatch(id, request, 0),
             [Begin(0, {id})] + ([Begin(1, {id})] + ([Publish(0, id, Accepted, 0)] + ([Commit(0)] + []))));
    AfterOne(y1, Begin(0, {id}), [Begin(1, {id})] + ([Publish(0, id, Accepted, 0)] + ([Commit(0)] + [])));
    AfterOne(y2, Begin(1, {id}), [Publish(0, id, Accepted, 0)] + ([Commit(0)] + []));
    AfterOne(y3, Publish(0, id, Accepted, 0), [Commit(0)] + []);
    AfterOne(y4, Commit(0), []);
  }

  function OverlapRun(id: OutboxId, request: Request): seq<Event> {
    [Dispatch(id, request, 0)]
    + ([Begin(0, {id})] + ([Begin(1, {id})] + ([Publish(0, id, Accepted, 0)] + ([Commit(0)] + []))))
  }

  // ------------------------------------------------------------------ one session at a time

  /** Every session of the run begins when no other is open. */
  ghost predicate OneAtATime(y: System, events: seq<Event>)
    decreases |events|
  {
    events != [] ==>
      (events[0].Begin? ==> y.sessions == map[]) && OneAtATime(Next(y, events[0]), events[1..])
  }

  /** At most one session is open, and what it loaded is still unsent in the table. */
  ghost predicate Lone(y: System) {
    && (forall a, b :: a in y.sessions && b in y.sessions ==> a == b)
    && (forall sid, id :: sid in y.sessions && id in y.sessions[sid].view ==>
          id in y.rows && y.rows[id].status != Submitted)
  }

  lemma LoneStep(y: System, e: Event)
    requires Lone(y) && (e.Begin? ==> y.sessions == map[])
    ensures Lone(Next(y, e))
  {
    var z := Next(y, e);
    match e
    case Commit(sid) =>
      if sid in y.sessions { assert forall s :: s in z.sessions ==> s in y.sessions && s != sid; }
    case _ =>
  }

  lemma {:induction false} LoneRun(y: System, events: seq<Event>)
    requires Lone(y) && OneAtATime(y, events)
    ensures Lone(After(y, events))
    decreases |events|
  {
    if events != [] {
      LoneStep(y, events[0]);
      LoneRun(Next(y, events[0]), events[1..]);
    }
  }

  /**
   What a deployment can ensure: in every run whose sessions begin one at a time, a row that is committed as
   submitted stays submitted and is handed to no submitter again, in every continuation, overlapping or not.
   */
  lemma LonePublisherIsFinal(rejectClosed: bool, events: seq<Event>, id: OutboxId, later: seq<Event>)
    requires OneAtATime(Initial(rejectClosed), events)
    requires var y := After(Initial(rejectClosed), events); id in y.rows && y.rows[id].status == Submitted
    ensures StaysSubmitted(After(Initial(rejectClosed), events), later, id)
  {
    var y := After(Initial(rejectClosed), events);
    LoneRun(Initial(rejectClosed), events);
    assert !HeldUnsent(y, id);
    NotHeldIsFinal(y, later, id);
  }
}

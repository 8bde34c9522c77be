/** backend/app/api/routes/vnc.py and worker/tasks/vnc_session.py: viewer
    sessions and the ports they hold. Requests and tasks are atomic. */
module VncPorts {
  import opened Wrappers

  type Id = nat
  type User = nat
  type RunId = nat

  const PORT_BASE: nat := 6080
  const PORT_MAX: nat := 6099

  datatype Status = Starting | Running | Stopped
  datatype Session = Session(user: User, run: RunId, port: Option<nat>, status: Status, token: Option<string>)

  /** An empty token counts as none. */
  predicate HasToken(s: Session) { s.token.Some? && s.token.value != "" }

  predicate Active(s: Session) { s.status.Starting? || s.status.Running? }

  function ActiveIds(rows: map<Id, Session>): set<Id> {
    set i | i in rows && Active(rows[i])
  }

  function UsedPorts(rows: map<Id, Session>): set<nat> {
    set i | i in rows && Active(rows[i]) && rows[i].port.Some? :: rows[i].port.value
  }

  /** The caller's running sessions for a run. */
  function RunningFor(rows: map<Id, Session>, user: User, run: RunId): set<Id> {
    set i | i in rows && rows[i].user == user && rows[i].run == run && rows[i].status.Running?
  }

  /** The lowest free port at or above `p`. */
  function LowestFree(used: set<nat>, p: nat): (r: Option<nat>)
    requires p <= PORT_MAX + 1
    ensures r.Some? ==> p <= r.value <= PORT_MAX && r.value !in used && forall q :: p <= q < r.value ==> q in used
    ensures r.None? ==> forall q :: p <= q <= PORT_MAX ==> q in used
    decreases PORT_MAX + 1 - p
  {
    if p > PORT_MAX then None else if p !in used then Some(p) else LowestFree(used, p + 1)
  }

  /** How a start request is answered. */
  datatype Started = Created(id: Id, port: nat) | Existing(id: Id) | LimitReached | NoPort | MultipleRows

  ghost function TheOne(ids: set<Id>): (id: Id)
    requires |ids| == 1
    ensures ids == {id}
  {
    var id :| id in ids;
    assert |ids - {id}| == 0;
    id
  }

  /** `start_vnc_session` for an eligible run: `id` is the new row's key. */
  ghost function Answer(rows: map<Id, Session>, limit: nat, user: User, run: RunId, id: Id): Started {
    var running := RunningFor(rows, user, run);
    if |ActiveIds(rows)| >= limit then LimitReached
    else if |running| > 1 then MultipleRows
    else if |running| == 1 && HasToken(rows[TheOne(running)]) then Existing(TheOne(running))
    else match LowestFree(UsedPorts(rows), PORT_BASE)
      case None => NoPort
      case Some(port) => Created(id, port)
  }

  datatype State = State(rows: map<Id, Session>, pending: set<Id>)   // start tasks not yet finished

  datatype Event =
    | Start(user: User, run: RunId, id: Id, token: string)
    | Task(id: Id, spawned: bool)      // start_vnc; `spawned` is false when it finds no artifacts or Docker fails
    | Stop(id: Id, user: User)

  predicate Enabled(s: State, e: Event) {
    match e
    case Start(_, _, id, _) => id !in s.rows
    case Task(id, _) => id in s.pending && id in s.rows
    case Stop(_, _) => true
  }

  ghost function Step(s: State, e: Event, limit: nat): State
    requires Enabled(s, e)
  {
    match e
    case Start(user, run, id, token) =>
      (match Answer(s.rows, limit, user, run, id)
       case Created(_, port) => State(s.rows[id := Session(user, run, Some(port), Starting, Some(token))], s.pending + {id})
       case _ => s)
    case Task(id, spawned) =>
      State(s.rows[id := s.rows[id].(status := if spawned then Running else Stopped)], s.pending - {id})
    case Stop(id, user) =>
      if id in s.rows && s.rows[id].user == user then s.(rows := s.rows[id := s.rows[id].(status := Stopped)]) else s
  }

  class VncSessions {
    const limit: nat
    var rows: map<Id, Session>
    var pending: set<Id>

    ghost function Contents(): State reads this { State(rows, pending) }

    constructor (limit: nat)
      ensures this.limit == limit && Contents() == State(map[], {})
    {
      this.limit, rows, pending := limit, map[], {};
    }

    method FindAvailablePort() returns (port: Option<nat>)
      ensures port == LowestFree(UsedPorts(rows), PORT_BASE)
    {
      var used := UsedPorts(rows);
      var p := PORT_BASE;
      while p <= PORT_MAX
        invariant PORT_BASE <= p <= PORT_MAX + 1
        invariant LowestFree(used, PORT_BASE) == LowestFree(used, p)
      {
        if p !in used { return Some(p); }
        p := p + 1;
      }
      port := None;
    }

    method StartVncSession(user: User, run: RunId, id: Id, token: string) returns (r: Started)
      requires id !in rows
      modifies this
      ensures r == Answer(old(rows), limit, user, run, id)
      ensures Contents() == Step(old(Contents()), Event.Start(user, run, id, token), limit)
      ensures if r.Created?
        then rows == old(rows)[id := Session(user, run, Some(r.port), Starting, Some(token))] && pending == old(pending) + {id}
        else unchanged(this)
    {
      if |ActiveIds(rows)| >= limit { return LimitReached; }
      var existing := RunningFor(rows, user, run);
      if |existing| > 1 { return MultipleRows; }
      if |existing| == 1 {
        var e :| e in existing;
        assert e == TheOne(existing);
        if HasToken(rows[e]) { return Existing(e); }
      }
      var port := FindAvailablePort();
      if port == None { return NoPort; }
      rows := rows[id := Session(user, run, port, Starting, None)];
      pending := pending + {id};
      rows := rows[id := rows[id].(token := Some(token))];
      r := Created(id, port.value);
    }

    method StartVnc(id: Id, spawned: bool)
      requires id in pending && id in rows
      modifies this
      ensures Contents() == Step(old(Contents()), Event.Task(id, spawned), limit)
      ensures rows == old(rows)[id := old(rows)[id].(status := if spawned then Running else Stopped)]
      ensures pending == old(pending) - {id}
    {
      rows := rows[id := rows[id].(status := if spawned then Running else Stopped)];
      pending := pending - {id};
    }

    /** false is the 404 or 403 answer. */
    method StopVncSession(id: Id, user: User) returns (ok: bool)
      modifies this
      ensures ok <==> id in old(rows) && old(rows)[id].user == user
      ensures Contents() == Step(old(Contents()), Event.Stop(id, user), limit)
      ensures if ok then rows == old(rows)[id := old(rows)[id].(status := Stopped)] && pending == old(pending)
              else unchanged(this)
    {
      if id !in rows || rows[id].user != user { return false; }
      rows := rows[id := rows[id].(status := Stopped)];
      ok := true;
    }
  }

  /** What each answer to a start request means. The limit is checked first, so a
      caller with a running session is refused too once it is reached. */
  lemma AnswersMean(rows: map<Id, Session>, limit: nat, user: User, run: RunId, id: Id)
    ensures var r := Answer(rows, limit, user, run, id);
      && (r.LimitReached? <==> |ActiveIds(rows)| >= limit)
      && (r.MultipleRows? <==> |ActiveIds(rows)| < limit && |RunningFor(rows, user, run)| > 1)
      && (r.NoPort? ==> forall p :: PORT_BASE <= p <= PORT_MAX ==> p in UsedPorts(rows))
      && (r.Existing? ==> r.id in rows && rows[r.id].user == user && rows[r.id].run == run
                          && rows[r.id].status.Running? && HasToken(rows[r.id]))
      && (r.Created? ==>
            && r.id == id && PORT_BASE <= r.port <= PORT_MAX && r.port !in UsedPorts(rows)
            && (forall p :: PORT_BASE <= p < r.port ==> p in UsedPorts(rows))
            && (forall i <- RunningFor(rows, user, run) :: !HasToken(rows[i])))
  {
    var r, running := Answer(rows, limit, user, run, id), RunningFor(rows, user, run);
    if |running| == 1 {
      assert TheOne(running) in running;
    } else if i :| i in running {
      assert |running - {i}| >= 0;
    }
  }

  /** A caller with exactly one running session for the run, and a token for it, gets
      that session as long as the limit is not reached. */
  lemma RunningSessionIsReturned(rows: map<Id, Session>, limit: nat, user: User, run: RunId, id: Id, running: Id)
    requires |ActiveIds(rows)| < limit && running in rows && HasToken(rows[running])
    requires forall i <- rows :: rows[i].user == user && rows[i].run == run && rows[i].status.Running? <==> i == running
    ensures Answer(rows, limit, user, run, id) == Existing(running)
  {
    assert RunningFor(rows, user, run) == {running};
  }

  /** Without such a session a request below the limit gets the least free port. */
  lemma NewSessionIsCreated(rows: map<Id, Session>, limit: nat, user: User, run: RunId, id: Id, port: nat)
    requires |ActiveIds(rows)| < limit
    requires forall i <- rows :: rows[i].user == user && rows[i].run == run ==> !rows[i].status.Running?
    requires PORT_BASE <= port <= PORT_MAX && port !in UsedPorts(rows)
    requires forall p :: PORT_BASE <= p < port ==> p in UsedPorts(rows)
    ensures Answer(rows, limit, user, run, id) == Created(id, port)
  {
    assert RunningFor(rows, user, run) == {};
  }

  /** Once its start task has run, a new session is what the next request of the
      same user for the same run gets, with its port. */
  lemma StartedIsFound(s: State, limit: nat, user: User, run: RunId, id: Id, token: string, next: Id)
    requires Enabled(s, Event.Start(user, run, id, token)) && token != "" && |ActiveIds(s.rows)| + 1 < limit
    requires forall i <- s.rows :: s.rows[i].user == user && s.rows[i].run == run ==> !s.rows[i].status.Running?
    requires Answer(s.rows, limit, user, run, id).Created?
    ensures var t := Step(s, Event.Start(user, run, id, token), limit);
      && Enabled(t, Event.Task(id, true))
      && var u := Step(t, Event.Task(id, true), limit);
      && Answer(u.rows, limit, user, run, next) == Existing(id)
      && u.rows[id].port == Some(Answer(s.rows, limit, user, run, id).port)
  {
    var t := Step(s, Event.Start(user, run, id, token), limit);
    var u := Step(t, Event.Task(id, true), limit);
    assert ActiveIds(u.rows) == ActiveIds(s.rows) + {id};
    RunningSessionIsReturned(u.rows, limit, user, run, next, id);
  }

  /** Active sessions hold pairwise distinct ports of the range, within the limit. */
  ghost predicate Allocated(rows: map<Id, Session>, limit: nat) {
    && (forall i <- rows :: Active(rows[i]) ==> rows[i].port.Some? && PORT_BASE <= rows[i].port.value <= PORT_MAX)
    && (forall i <- rows, j <- rows :: Active(rows[i]) && Active(rows[j]) && i != j ==> rows[i].port != rows[j].port)
    && |ActiveIds(rows)| <= limit
  }

  /** No owner stops a session while its start task is still to finish. */
  predicate Patient(s: State, e: Event) {
    e.Stop? && e.id in s.rows && s.rows[e.id].user == e.user ==> e.id !in s.pending
  }

  ghost predicate Good(s: State, limit: nat) {
    && Allocated(s.rows, limit)
    && forall i <- s.pending :: i in s.rows && s.rows[i].status.Starting?
  }

  lemma StartKeepsAllocated(rows: map<Id, Session>, limit: nat, user: User, run: RunId, id: Id, token: string)
    requires Allocated(rows, limit) && id !in rows && Answer(rows, limit, user, run, id).Created?
    ensures var port := Answer(rows, limit, user, run, id).port;
      Allocated(rows[id := Session(user, run, Some(port), Starting, Some(token))], limit)
  {
    var port := Answer(rows, limit, user, run, id).port;
    var t := rows[id := Session(user, run, Some(port), Starting, Some(token))];
    assert ActiveIds(t) == ActiveIds(rows) + {id};
    forall i <- rows | Active(rows[i]) ensures rows[i].port != Some(port) {
      assert rows[i].port.value in UsedPorts(rows);
    }
  }

  /** The row does not become active, or was, or finds its port free and room. */
  ghost predicate Harmless(rows: map<Id, Session>, limit: nat, id: Id, status: Status)
    requires id in rows && rows[id].port.Some?
  {
    || status.Stopped?
    || Active(rows[id])
    || (rows[id].port.value !in UsedPorts(rows) && |ActiveIds(rows)| < limit)
  }

  lemma StopKeepsAllocated(rows: map<Id, Session>, limit: nat, id: Id)
    requires Allocated(rows, limit) && id in rows
    ensures Allocated(rows[id := rows[id].(status := Stopped)], limit)
  {
    var t := rows[id := rows[id].(status := Stopped)];
    assert ActiveIds(t) == ActiveIds(rows) - {id};
    assert forall i <- t :: Active(t[i]) ==> i != id && t[i] == rows[i];
  }

  lemma StayActiveKeepsAllocated(rows: map<Id, Session>, limit: nat, id: Id, status: Status)
    requires Allocated(rows, limit) && id in rows && Active(rows[id]) && !status.Stopped?
    ensures Allocated(rows[id := rows[id].(status := status)], limit)
  {
    var t := rows[id := rows[id].(status := status)];
    assert ActiveIds(t) == ActiveIds(rows);
    assert forall i <- t :: t[i].port == rows[i].port && (Active(t[i]) <==> Active(rows[i]));
  }

  lemma ActivateKeepsAllocated(rows: map<Id, Session>, limit: nat, id: Id, status: Status, port: nat)
    requires Allocated(rows, limit) && id in rows && !Active(rows[id]) && !status.Stopped?
    requires rows[id].port == Some(port) && PORT_BASE <= port <= PORT_MAX
    requires port !in UsedPorts(rows) && |ActiveIds(rows)| < limit
    ensures Allocated(rows[id := rows[id].(status := status)], limit)
  {
    var t := rows[id := rows[id].(status := status)];
    assert ActiveIds(t) == ActiveIds(rows) + {id};
    forall i <- rows | Active(rows[i]) ensures rows[i].port != Some(port) {
      assert rows[i].port.value in UsedPorts(rows);
    }
  }

  lemma HarmlessKeepsAllocated(rows: map<Id, Session>, limit: nat, id: Id, status: Status)
    requires Allocated(rows, limit) && id in rows && rows[id].port.Some? && PORT_BASE <= rows[id].port.value <= PORT_MAX
    requires Harmless(rows, limit, id, status)
    ensures Allocated(rows[id := rows[id].(status := status)], limit)
  {
    if status.Stopped? {
      StopKeepsAllocated(rows, limit, id);
    } else if Active(rows[id]) {
      StayActiveKeepsAllocated(rows, limit, id, status);
    } else {
      ActivateKeepsAllocated(rows, limit, id, status, rows[id].port.value);
    }
  }

  lemma HarmfulBreaksAllocated(rows: map<Id, Session>, limit: nat, id: Id, status: Status)
    requires Allocated(rows, limit) && id in rows && rows[id].port.Some?
    requires !Harmless(rows, limit, id, status)
    ensures !Allocated(rows[id := rows[id].(status := status)], limit)
  {
    var t := rows[id := rows[id].(status := status)];
    assert ActiveIds(t) == ActiveIds(rows) + {id};
    if rows[id].port.value in UsedPorts(rows) {
      var i :| i in rows && Active(rows[i]) && rows[i].port.Some? && rows[i].port.value == rows[id].port.value;
      assert Active(t[i]) && Active(t[id]) && t[i].port == t[id].port;
    }
  }

  /** A start task keeps the allocation exactly when bringing its session up is
      harmless: in particular whenever the session was not stopped meanwhile. */
  lemma TaskKeepsAllocatedIff(s: State, limit: nat, id: Id, spawned: bool)
    requires Allocated(s.rows, limit) && Enabled(s, Event.Task(id, spawned))
    requires s.rows[id].port.Some? && PORT_BASE <= s.rows[id].port.value <= PORT_MAX
    ensures Allocated(Step(s, Event.Task(id, spawned), limit).rows, limit) <==>
      Harmless(s.rows, limit, id, if spawned then Running else Stopped)
  {
    var status := if spawned then Running else Stopped;
    if Harmless(s.rows, limit, id, status) {
      HarmlessKeepsAllocated(s.rows, limit, id, status);
    } else {
      HarmfulBreaksAllocated(s.rows, limit, id, status);
    }
  }

  lemma StepKeepsGood(s: State, e: Event, limit: nat)
    requires Good(s, limit) && Enabled(s, e) && Patient(s, e)
    ensures Good(Step(s, e, limit), limit)
  {
    match e
    case Start(user, run, id, token) =>
      if Answer(s.rows, limit, user, run, id).Created? { StartKeepsAllocated(s.rows, limit, user, run, id, token); }
    case Task(id, spawned) => TaskKeepsAllocatedIff(s, limit, id, spawned);
    case Stop(id, user) =>
      if id in s.rows && s.rows[id].user == user { StopKeepsAllocated(s.rows, limit, id); }
  }

  ghost predicate Possible(s: State, es: seq<Event>, limit: nat)
    decreases es
  {
    es == [] || (Enabled(s, es[0]) && Patient(s, es[0]) && Possible(Step(s, es[0], limit), es[1..], limit))
  }

  ghost function Run(s: State, es: seq<Event>, limit: nat): State
    requires Possible(s, es, limit)
    decreases es
  {
    if es == [] then s else Run(Step(s, es[0], limit), es[1..], limit)
  }

  /** Over every patient run active sessions have distinct ports within range and
      limit. */
  lemma {:induction false} RunKeepsGood(s: State, es: seq<Event>, limit: nat)
    requires Good(s, limit) && Possible(s, es, limit)
    ensures Good(Run(s, es, limit), limit)
    decreases es
  {
    if es != [] {
      StepKeepsGood(s, es[0], limit);
      RunKeepsGood(Step(s, es[0], limit), es[1..], limit);
    }
  }

  lemma GoodFromTheStart(es: seq<Event>, limit: nat)
    requires Possible(State(map[], {}), es, limit)
    ensures Good(Run(State(map[], {}), es, limit), limit)
  {
    assert ActiveIds(map[]) == {};
    RunKeepsGood(State(map[], {}), es, limit);
  }

  // ----- pigeonhole -----

  /** A set that holds every port from `p` on has that many members. */
  lemma {:induction false} NoneFreeMeansMany(used: set<nat>, p: nat)
    requires p <= PORT_MAX + 1 && forall q :: p <= q <= PORT_MAX ==> q in used
    ensures |used| >= PORT_MAX + 1 - p
    decreases PORT_MAX + 1 - p
  {
    if p <= PORT_MAX { NoneFreeMeansMany(used - {p}, p + 1); }
  }

  lemma {:induction false} PortsAtMostSessions(rows: map<Id, Session>, ids: set<Id>)
    requires ids <= rows.Keys
    ensures var ports := set i | i in ids && rows[i].port.Some? :: rows[i].port.value;
      |ports| <= |ids|
    decreases |ids|
  {
    var ports := set i | i in ids && rows[i].port.Some? :: rows[i].port.value;
    if ids == {} {
      assert ports == {};
    } else {
      var x :| x in ids;
      var rest := set i | i in ids - {x} && rows[i].port.Some? :: rows[i].port.value;
      PortsAtMostSessions(rows, ids - {x});
      if rows[x].port.Some? {
        assert ports == rest + {rows[x].port.value};
      } else {
        assert ports == rest;
      }
    }
  }

  lemma PortsFit(rows: map<Id, Session>)
    ensures |UsedPorts(rows)| <= |ActiveIds(rows)|
  {
    PortsAtMostSessions(rows, ActiveIds(rows));
    assert UsedPorts(rows) == set i | i in ActiveIds(rows) && rows[i].port.Some? :: rows[i].port.value;
  }

  /** With at most 20 sessions allowed, a request that passes the limit check
      always finds a port. */
  lemma SearchNeverFails(rows: map<Id, Session>, limit: nat, user: User, run: RunId, id: Id)
    requires limit <= PORT_MAX - PORT_BASE + 1
    ensures !Answer(rows, limit, user, run, id).NoPort?
  {
    PortsFit(rows);
    if LowestFree(UsedPorts(rows), PORT_BASE).None? {
      NoneFreeMeansMany(UsedPorts(rows), PORT_BASE);
    }
  }

  /** Stopping a session before its start task ran lets two active sessions share
      a port: the task brings the stopped session back. */
  lemma StopBeforeTaskSharesAPort(limit: nat, u: User, v: User, a: RunId, b: RunId, x: string, y: string)
    requires limit >= 2
    ensures
      var s0 := State(map[], {});
      var s1 := Step(s0, Event.Start(u, a, 1, x), limit);
      && Enabled(s1, Event.Stop(1, u))
      && var s2 := Step(s1, Event.Stop(1, u), limit);
      && Enabled(s2, Event.Start(v, b, 2, y))
      && var s3 := Step(s2, Event.Start(v, b, 2, y), limit);
      && Enabled(s3, Event.Task(1, true))
      && var s4 := Step(s3, Event.Task(1, true), limit);
      && 1 in s4.rows && 2 in s4.rows && Active(s4.rows[1]) && Active(s4.rows[2])
      && s4.rows[1].port == s4.rows[2].port == Some(PORT_BASE)
  {
    var s0 := State(map[], {});
    assert ActiveIds(s0.rows) == {} && UsedPorts(s0.rows) == {} && RunningFor(s0.rows, u, a) == {};
    var s1 := Step(s0, Event.Start(u, a, 1, x), limit);
    assert s1.rows == map[1 := Session(u, a, Some(PORT_BASE), Starting, Some(x))];
    var s2 := Step(s1, Event.Stop(1, u), limit);
    assert s2.rows == map[1 := Session(u, a, Some(PORT_BASE), Stopped, Some(x))];
    assert ActiveIds(s2.rows) == {} && UsedPorts(s2.rows) == {} && RunningFor(s2.rows, v, b) == {};
  }
}

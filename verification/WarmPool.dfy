/** worker/container/warm_pool.py: a list of pre-started containers. */
module WarmPool {
  import opened Wrappers

  type Cid = string

  /** What the Docker daemon answers for a container. `Broken` is any error other
      than "not found". */
  datatype Condition = Running | Stopped | Missing | Broken

  datatype Claimed = Container(cid: Cid) | Nothing | Raised

  /** `claim` on a popped container. */
  function Verdict(cid: Cid, c: Condition): Claimed {
    match c
    case Running => Container(cid)
    case Stopped => Nothing
    case Missing => Nothing
    case Broken => Raised
  }

  /** `drain`: what is left, how many were removed, and whether it raised. */
  function DrainSpec(pool: seq<Cid>, docker: Cid -> Condition): (seq<Cid>, nat, bool) {
    if pool == [] then ([], 0, false)
    else if docker(pool[0]).Broken? then (pool[1..], 0, true)
    else
      var (rest, n, raised) := DrainSpec(pool[1..], docker);
      (rest, n + (if docker(pool[0]).Missing? then 0 else 1), raised)
  }

  /** Which Redis call of `replenish` raises once the container runs, if any. */
  datatype Fault = NoFault | AtPush | AtExpire

  /** The list after `replenish`: an EXPIRE that raises comes too late to keep the
      container off the list. */
  function Replenished(list: seq<Cid>, target: nat, started: Option<Cid>, fault: Fault): seq<Cid> {
    if |list| < target && started.Some? && fault != AtPush then list + [started.value] else list
  }

  class Pool {
    const target: nat
    var list: seq<Cid>

    constructor (warmPoolSize: nat)
      ensures target >= 1 && (warmPoolSize >= 2 ==> target == warmPoolSize / 2)
      ensures list == []
    {
      target := if warmPoolSize / 2 > 1 then warmPoolSize / 2 else 1;
      list := [];
    }

    method Claim(docker: Cid -> Condition) returns (r: Claimed)
      modifies this`list
      ensures r == if old(list) == [] then Nothing else Verdict(old(list)[0], docker(old(list)[0]))
      ensures r.Container? <==> old(list) != [] && docker(old(list)[0]).Running?
      ensures r.Container? ==> r.cid == old(list)[0]
      ensures r.Raised? <==> old(list) != [] && docker(old(list)[0]).Broken?
      ensures list == if old(list) == [] then [] else old(list)[1..]
    {
      if list == [] { return Nothing; }
      var cid := list[0];
      list := list[1..];
      match docker(cid)
      case Broken => r := Raised;
      case Missing => r := Nothing;
      case Stopped => r := Nothing;
      case Running => r := Container(cid);
    }

    /** `started` is the new container, or None when Docker cannot start it. */
    method Replenish(started: Option<Cid>, fault: Fault) returns (ok: bool)
      modifies this`list
      ensures ok <==> |old(list)| < target && started.Some? && fault == NoFault
      ensures list == Replenished(old(list), target, started, fault)
      ensures |old(list)| >= target || started.None? || fault == AtPush ==> list == old(list)
      ensures |old(list)| < target && started.Some? && fault != AtPush ==> list == old(list) + [started.value]
    {
      if |list| >= target { return false; }
      if started.None? { return false; }
      if fault == AtPush { return false; }
      list := list + [started.value];
      if fault == AtExpire { return false; }
      ok := true;
    }

    method Drain(docker: Cid -> Condition) returns (count: nat, raised: bool)
      modifies this`list
      ensures (list, count, raised) == DrainSpec(old(list), docker)
    {
      count, raised := 0, false;
      while list != []
        invariant !raised
        invariant var (rest, n, bad) := DrainSpec(list, docker);
          DrainSpec(old(list), docker) == (rest, count + n, bad)
        decreases |list|
      {
        var cid := list[0];
        list := list[1..];
        match docker(cid)
        case Broken => return count, true;
        case Missing =>
        case _ => count := count + 1;
      }
    }
  }

  /** `drain` empties the pool without raising exactly when Docker answers for
      every container, and then counts those it still knows. */
  lemma {:induction false} DrainEmptiesThePool(pool: seq<Cid>, docker: Cid -> Condition)
    ensures var (rest, n, raised) := DrainSpec(pool, docker);
      && (raised <==> exists c <- pool :: docker(c).Broken?)
      && (!raised ==> rest == [] && n == |Known(pool, docker)|)
      && (raised ==> exists i :: 0 <= i < |pool| && docker(pool[i]).Broken? && rest == pool[i + 1..]
                      && n == |Known(pool[..i], docker)|)
  {
    if pool != [] {
      var tail := pool[1..];
      DrainEmptiesThePool(tail, docker);
      assert pool == [pool[0]] + tail;
      if docker(pool[0]).Broken? {
        assert pool[..0] == [];
        assert pool[0] in pool;
      } else {
        var (rest, n, raised) := DrainSpec(tail, docker);
        if raised {
          var i :| 0 <= i < |tail| && docker(tail[i]).Broken? && rest == tail[i + 1..] && n == |Known(tail[..i], docker)|;
          assert pool[i + 1] == tail[i] && pool[i + 2..] == rest;
          assert pool[..i + 1][1..] == tail[..i];
        }
      }
    }
  }

  /** The containers that Docker still knows, each as often as it is listed. */
  lemma {:induction false} KnownAre(pool: seq<Cid>, docker: Cid -> Condition, c: Cid)
    ensures multiset(Known(pool, docker))[c] == if docker(c).Missing? then 0 else multiset(pool)[c]
  {
    if pool != [] {
      KnownAre(pool[1..], docker, c);
      assert pool == [pool[0]] + pool[1..];
    }
  }

  function Known(pool: seq<Cid>, docker: Cid -> Condition): seq<Cid> {
    if pool == [] then []
    else (if docker(pool[0]).Missing? then [] else [pool[0]]) + Known(pool[1..], docker)
  }
}

/** Concurrent replenishers and claims: the size check, the start and the push of
    `replenish` are separate steps, and so are the pop and the check of `claim`.
    A concurrent `drain` pops too, and its removal is an answer of `Stopped`. */
module WarmPoolRuns {
  import opened Wrappers
  import opened WarmPool

  datatype Phase = Ready | Checked | Holding(cid: Cid)

  /** Where a started container is. */
  datatype Place = Held(w: nat) | Pooled | Popped | HandedOut | Gone | Orphaned

  datatype State = State(
    pool: seq<Cid>,
    workers: seq<Phase>,       // one per replenisher
    handedOut: seq<Cid>,
    place: map<Cid, Place>)    // every container ever started

  datatype Event =
    | SizeCheck(w: nat)
    | Start(w: nat, cid: Cid)
    | StartFails(w: nat)
    | Push(w: nat)
    | PushFails(w: nat)
    | Pop
    | Answer(cid: Cid, c: Condition)

  predicate Enabled(s: State, e: Event) {
    match e
    case SizeCheck(w) => w < |s.workers| && s.workers[w].Ready?
    case Start(w, cid) => w < |s.workers| && s.workers[w].Checked? && cid !in s.place
    case StartFails(w) => w < |s.workers| && s.workers[w].Checked?
    case Push(w) => w < |s.workers| && s.workers[w].Holding?
    case PushFails(w) => w < |s.workers| && s.workers[w].Holding?
    case Pop => s.pool != []
    case Answer(cid, _) => cid in s.place && s.place[cid].Popped?
  }

  function Step(s: State, e: Event, target: nat): State
    requires Enabled(s, e)
  {
    match e
    case SizeCheck(w) => if |s.pool| >= target then s else s.(workers := s.workers[w := Checked])
    case Start(w, cid) => s.(workers := s.workers[w := Holding(cid)], place := s.place[cid := Held(w)])
    case StartFails(w) => s.(workers := s.workers[w := Ready])
    case Push(w) =>
      var cid := s.workers[w].cid;
      s.(workers := s.workers[w := Ready], pool := s.pool + [cid], place := s.place[cid := Pooled])
    case PushFails(w) => s.(workers := s.workers[w := Ready], place := s.place[s.workers[w].cid := Orphaned])
    case Pop => s.(pool := s.pool[1..], place := s.place[s.pool[0] := Popped])
    case Answer(cid, c) =>
      match Verdict(cid, c)
      case Container(_) => s.(handedOut := s.handedOut + [cid], place := s.place[cid := HandedOut])
      case Nothing => s.(place := s.place[cid := Gone])
      case Raised => s.(place := s.place[cid := Orphaned])
  }

  predicate Possible(s: State, es: seq<Event>, target: nat)
    decreases |es|
  {
    es == [] || (Enabled(s, es[0]) && Possible(Step(s, es[0], target), es[1..], target))
  }

  function Run(s: State, es: seq<Event>, target: nat): State
    requires Possible(s, es, target)
    decreases |es|
  {
    if es == [] then s else Run(Step(s, es[0], target), es[1..], target)
  }

  /** Replenishers between their size check and their push. */
  function Busy(workers: seq<Phase>): nat {
    if workers == [] then 0 else Busy(workers[..|workers| - 1]) + (if workers[|workers| - 1].Ready? then 0 else 1)
  }

  lemma {:induction false} BusyAtMostAll(workers: seq<Phase>)
    ensures Busy(workers) <= |workers|
  {
    if workers != [] { BusyAtMostAll(workers[..|workers| - 1]); }
  }

  lemma {:induction false} BusyUpdate(workers: seq<Phase>, w: nat, p: Phase)
    requires w < |workers|
    ensures Busy(workers[w := p]) == Busy(workers) - (if workers[w].Ready? then 0 else 1) + (if p.Ready? then 0 else 1)
  {
    var n := |workers| - 1;
    if w < n {
      BusyUpdate(workers[..n], w, p);
      assert workers[w := p][..n] == workers[..n][w := p];
    } else {
      assert workers[w := p][..n] == workers[..n];
    }
  }

  /** Each replenisher that passed the size check may still add one. */
  predicate SizeBounded(s: State, target: nat) {
    |s.pool| + Busy(s.workers) <= target + |s.workers| - 1
  }

  lemma StepKeepsSize(s: State, e: Event, target: nat)
    requires SizeBounded(s, target) && Enabled(s, e)
    ensures SizeBounded(Step(s, e, target), target)
    ensures |Step(s, e, target).workers| == |s.workers|
  {
    BusyAtMostAll(Step(s, e, target).workers);
    match e
    case SizeCheck(w) => BusyUpdate(s.workers, w, Checked);
    case Start(w, cid) => BusyUpdate(s.workers, w, Holding(cid));
    case StartFails(w) => BusyUpdate(s.workers, w, Ready);
    case Push(w) => BusyUpdate(s.workers, w, Ready);
    case PushFails(w) => BusyUpdate(s.workers, w, Ready);
    case _ =>
  }

  ghost predicate Distinct(s: seq<Cid>) {
    forall i, j :: 0 <= i < j < |s| ==> s[i] != s[j]
  }

  /** The list has each container of this place once, and no other. */
  ghost predicate Lists(list: seq<Cid>, place: map<Cid, Place>, here: Place) {
    Distinct(list) && forall c :: c in list <==> c in place && place[c] == here
  }

  /** The pool and the log of hand-outs list the containers whose place they are. */
  ghost predicate Listed(s: State) {
    Lists(s.pool, s.place, Pooled) && Lists(s.handedOut, s.place, HandedOut)
  }

  /** A container is held by the replenisher that started it, and only then. */
  ghost predicate HeldByStarter(workers: seq<Phase>, place: map<Cid, Place>) {
    && (forall w :: 0 <= w < |workers| && workers[w].Holding? ==>
          workers[w].cid in place && place[workers[w].cid] == Held(w))
    && (forall c <- place :: place[c].Held? ==>
          place[c].w < |workers| && workers[place[c].w] == Holding(c))
  }

  /** Every container is in exactly one place, and the state agrees with it. */
  ghost predicate Placed(s: State) { Listed(s) && HeldByStarter(s.workers, s.place) }

  lemma ArriveKeepsLists(list: seq<Cid>, place: map<Cid, Place>, here: Place, cid: Cid)
    requires Lists(list, place, here) && (cid in place ==> place[cid] != here)
    ensures Lists(list + [cid], place[cid := here], here)
  {
    assert cid !in list;
    assert forall c :: c in list + [cid] <==> c in list || c == cid;
  }

  lemma LeaveKeepsLists(list: seq<Cid>, place: map<Cid, Place>, here: Place, to: Place)
    requires Lists(list, place, here) && list != [] && to != here
    ensures Lists(list[1..], place[list[0] := to], here)
  {
    assert list == [list[0]] + list[1..];
  }

  lemma ElsewhereKeepsLists(list: seq<Cid>, place: map<Cid, Place>, here: Place, cid: Cid, to: Place)
    requires Lists(list, place, here) && (cid in place ==> place[cid] != here) && to != here
    ensures Lists(list, place[cid := to], here)
  {
  }

  lemma StepKeepsPool(s: State, e: Event, target: nat)
    requires Placed(s) && Enabled(s, e)
    ensures Lists(Step(s, e, target).pool, Step(s, e, target).place, Pooled)
  {
    match e
    case Start(w, cid) => ElsewhereKeepsLists(s.pool, s.place, Pooled, cid, Held(w));
    case Push(w) => ArriveKeepsLists(s.pool, s.place, Pooled, s.workers[w].cid);
    case PushFails(w) => ElsewhereKeepsLists(s.pool, s.place, Pooled, s.workers[w].cid, Orphaned);
    case Pop => LeaveKeepsLists(s.pool, s.place, Pooled, Popped);
    case Answer(cid, c) => ElsewhereKeepsLists(s.pool, s.place, Pooled, cid, Step(s, e, target).place[cid]);
    case _ =>
  }

  lemma StepKeepsHandedOut(s: State, e: Event, target: nat)
    requires Placed(s) && Enabled(s, e)
    ensures Lists(Step(s, e, target).handedOut, Step(s, e, target).place, HandedOut)
  {
    match e
    case Start(w, cid) => ElsewhereKeepsLists(s.handedOut, s.place, HandedOut, cid, Held(w));
    case Push(w) => ElsewhereKeepsLists(s.handedOut, s.place, HandedOut, s.workers[w].cid, Pooled);
    case PushFails(w) => ElsewhereKeepsLists(s.handedOut, s.place, HandedOut, s.workers[w].cid, Orphaned);
    case Pop =>
      assert s.pool[0] in s.pool;
      ElsewhereKeepsLists(s.handedOut, s.place, HandedOut, s.pool[0], Popped);
    case Answer(cid, c) =>
      if c.Running? {
        ArriveKeepsLists(s.handedOut, s.place, HandedOut, cid);
      } else {
        ElsewhereKeepsLists(s.handedOut, s.place, HandedOut, cid, Step(s, e, target).place[cid]);
      }
    case _ =>
  }

  lemma StartHeld(workers: seq<Phase>, place: map<Cid, Place>, w: nat, cid: Cid)
    requires HeldByStarter(workers, place) && w < |workers| && !workers[w].Holding? && cid !in place
    ensures HeldByStarter(workers[w := Holding(cid)], place[cid := Held(w)])
  {
  }

  lemma LetGo(workers: seq<Phase>, place: map<Cid, Place>, w: nat, to: Place)
    requires HeldByStarter(workers, place) && w < |workers| && workers[w].Holding? && !to.Held?
    ensures HeldByStarter(workers[w := Ready], place[workers[w].cid := to])
  {
  }

  lemma MoveFree(workers: seq<Phase>, place: map<Cid, Place>, cid: Cid, to: Place)
    requires HeldByStarter(workers, place) && cid in place && !place[cid].Held? && !to.Held?
    ensures HeldByStarter(workers, place[cid := to])
  {
  }

  lemma StepKeepsHeld(s: State, e: Event, target: nat)
    requires Placed(s) && Enabled(s, e)
    ensures HeldByStarter(Step(s, e, target).workers, Step(s, e, target).place)
  {
    match e
    case Start(w, cid) => StartHeld(s.workers, s.place, w, cid);
    case Push(w) => LetGo(s.workers, s.place, w, Pooled);
    case PushFails(w) => LetGo(s.workers, s.place, w, Orphaned);
    case Pop =>
      assert s.pool[0] in s.pool;
      MoveFree(s.workers, s.place, s.pool[0], Popped);
    case Answer(cid, c) => MoveFree(s.workers, s.place, cid, Step(s, e, target).place[cid]);
    case _ =>
  }

  lemma StepKeepsPlaced(s: State, e: Event, target: nat)
    requires Placed(s) && Enabled(s, e)
    ensures Placed(Step(s, e, target))
  {
    StepKeepsPool(s, e, target);
    StepKeepsHandedOut(s, e, target);
    StepKeepsHeld(s, e, target);
  }

  /** What becomes of a popped container: handed out if it runs, gone if it does not,
      and lost when Docker fails. */
  lemma AnswerPlaces(s: State, cid: Cid, c: Condition, target: nat)
    requires Enabled(s, Answer(cid, c))
    ensures var t := Step(s, Answer(cid, c), target);
      && t.place == s.place[cid := if c.Running? then HandedOut else if c.Broken? then Orphaned else Gone]
      && t.handedOut == (if c.Running? then s.handedOut + [cid] else s.handedOut)
      && t.pool == s.pool && t.workers == s.workers
  {
  }

  /** W replenishers and nothing started yet. */
  function Fresh(n: nat): State { State([], seq(n, _ => Ready), [], map[]) }

  lemma {:induction false} FreshIsIdle(n: nat)
    ensures Busy(Fresh(n).workers) == 0
  {
    if n > 0 {
      FreshIsIdle(n - 1);
      assert Fresh(n).workers[..n - 1] == Fresh(n - 1).workers;
    }
  }

  /** Over every interleaving of W replenishers and any claims, the pool holds at
      most target + W - 1 containers, each container is in exactly one place,
      and none is handed out twice. */
  lemma {:induction false} RunKeepsPool(s: State, es: seq<Event>, target: nat)
    requires SizeBounded(s, target) && Placed(s) && Possible(s, es, target)
    ensures var t := Run(s, es, target);
      SizeBounded(t, target) && Placed(t) && |t.pool| <= target + |s.workers| - 1
    decreases |es|
  {
    if es != [] {
      StepKeepsSize(s, es[0], target);
      StepKeepsPlaced(s, es[0], target);
      RunKeepsPool(Step(s, es[0], target), es[1..], target);
    }
  }

  lemma PoolSizeBound(n: nat, es: seq<Event>, target: nat)
    requires target >= 1 && Possible(Fresh(n), es, target)
    ensures |Run(Fresh(n), es, target).pool| <= target + n - 1
    ensures Placed(Run(Fresh(n), es, target))
  {
    FreshIsIdle(n);
    RunKeepsPool(Fresh(n), es, target);
  }

  /** A failed RPUSH or a Docker error on a popped container loses it. */
  predicate Faulty(e: Event) {
    e.PushFails? || (e.Answer? && e.c.Broken?)
  }

  /** Without such faults no container is ever orphaned. */
  lemma {:induction false} NoFaultsNoOrphans(s: State, es: seq<Event>, target: nat)
    requires Possible(s, es, target)
    requires forall e <- es :: !Faulty(e)
    requires forall c <- s.place :: !s.place[c].Orphaned?
    ensures forall c <- Run(s, es, target).place :: !Run(s, es, target).place[c].Orphaned?
    decreases |es|
  {
    if es != [] {
      assert es[0] in es;
      NoFaultsNoOrphans(Step(s, es[0], target), es[1..], target);
    }
  }

  // ----- one call at a time -----

  lemma {:induction false} RunAppend(s: State, a: seq<Event>, b: seq<Event>, target: nat)
    requires Possible(s, a, target) && Possible(Run(s, a, target), b, target)
    ensures Possible(s, a + b, target) && Run(s, a + b, target) == Run(Run(s, a, target), b, target)
    decreases |a|
  {
    if a == [] {
      assert a + b == b;
    } else {
      assert (a + b)[1..] == a[1..] + b && (a + b)[0] == a[0];
      RunAppend(Step(s, a[0], target), a[1..], b, target);
    }
  }

  lemma OneStep(s: State, e: Event, target: nat)
    requires Enabled(s, e)
    ensures Possible(s, [e], target) && Run(s, [e], target) == Step(s, e, target)
  {
    assert [e][1..] == [];
  }

  lemma ThenStep(s: State, es: seq<Event>, e: Event, target: nat)
    requires Possible(s, es, target) && Enabled(Run(s, es, target), e)
    ensures Possible(s, es + [e], target) && Run(s, es + [e], target) == Step(Run(s, es, target), e, target)
  {
    OneStep(Run(s, es, target), e, target);
    RunAppend(s, es, [e], target);
  }

  /** The steps of one uninterrupted call of `replenish`. A push that raises and a
      failed start differ only in where the container is. */
  function CallSteps(w: nat, full: bool, started: Option<Cid>, fault: Fault): seq<Event> {
    [SizeCheck(w)] +
    if full then [] else if started.None? then [StartFails(w)]
    else [Start(w, started.value), if fault == AtPush then PushFails(w) else Push(w)]
  }

  /** Uninterrupted, the steps do to the pool what `Replenish` does. */
  lemma WholeReplenish(s: State, w: nat, target: nat, started: Option<Cid>, fault: Fault)
    requires w < |s.workers| && s.workers[w].Ready? && (started.Some? ==> started.value !in s.place)
    ensures var es := CallSteps(w, |s.pool| >= target, started, fault);
      && Possible(s, es, target)
      && Run(s, es, target).pool == Replenished(s.pool, target, started, fault)
      && Run(s, es, target).workers == s.workers
  {
    var e1 := SizeCheck(w);
    OneStep(s, e1, target);
    if |s.pool| < target {
      if started.None? {
        ThenStep(s, [e1], StartFails(w), target);
        assert CallSteps(w, false, started, fault) == [e1] + [StartFails(w)];
      } else {
        var e2 := Start(w, started.value);
        var e3 := if fault == AtPush then PushFails(w) else Push(w);
        ThenStep(s, [e1], e2, target);
        ThenStep(s, [e1] + [e2], e3, target);
        assert CallSteps(w, false, started, fault) == [e1] + [e2] + [e3];
      }
    } else {
      assert CallSteps(w, true, started, fault) == [e1];
    }
  }

  // ----- the bound is attained -----

  /** A container id not used before, the k-th. */
  function NewCid(k: nat): Cid { seq(k + 1, _ => 'c') }

  /** The replenishers are idle but for the first `i`, which passed their check;
      ids of `k` and more are new. */
  ghost predicate Lined(s: State, n: nat, i: nat, k: nat) {
    && i <= n && s.workers == seq(n, j => if j < i then Checked else Ready)
    && forall c <- s.place :: |c| <= k
  }

  /** One replenisher fills the pool. */
  lemma {:induction false} Fill(n: nat, target: nat, k: nat) returns (es: seq<Event>)
    requires n > 0 && k <= target
    ensures Possible(Fresh(n), es, target) && Lined(Run(Fresh(n), es, target), n, 0, k)
    ensures |Run(Fresh(n), es, target).pool| == k
  {
    if k == 0 {
      es := [];
    } else {
      var before := Fill(n, target, k - 1);
      var s := Run(Fresh(n), before, target);
      assert NewCid(k - 1) !in s.place by { assert |NewCid(k - 1)| == k; }
      var call := OneFill(s, n, target, k - 1);
      RunAppend(Fresh(n), before, call, target);
      es := before + call;
    }
  }

  lemma OneFill(s: State, n: nat, target: nat, k: nat) returns (es: seq<Event>)
    requires n > 0 && Lined(s, n, 0, k) && |s.pool| == k < target
    ensures Possible(s, es, target) && Lined(Run(s, es, target), n, 0, k + 1) && |Run(s, es, target).pool| == k + 1
  {
    var cid := NewCid(k);
    assert cid !in s.place by { assert |cid| == k + 1; }
    var e1, e2, e3 := SizeCheck(0), Start(0, cid), Push(0);
    OneStep(s, e1, target);
    ThenStep(s, [e1], e2, target);
    ThenStep(s, [e1] + [e2], e3, target);
    es := [e1] + [e2] + [e3];
    assert Run(s, es, target).workers == s.workers;
  }

  /** The first `i` replenishers check before anyone pushes. */
  lemma {:induction false} CheckAll(s: State, n: nat, target: nat, i: nat, k: nat) returns (es: seq<Event>)
    requires Lined(s, n, 0, k) && |s.pool| < target && i <= n
    ensures Possible(s, es, target) && Lined(Run(s, es, target), n, i, k) && Run(s, es, target).pool == s.pool
  {
    if i == 0 {
      es := [];
    } else {
      var before := CheckAll(s, n, target, i - 1, k);
      ThenStep(s, before, SizeCheck(i - 1), target);
      es := before + [SizeCheck(i - 1)];
    }
  }

  /** Then they start and push, one after the other, whatever the size. */
  lemma {:induction false} PushAll(s: State, n: nat, target: nat, i: nat, k: nat) returns (es: seq<Event>)
    requires Lined(s, n, i, k)
    ensures Possible(s, es, target) && |Run(s, es, target).pool| == |s.pool| + i
    decreases i
  {
    if i == 0 {
      es := [];
    } else {
      var w, cid := i - 1, NewCid(k);
      assert cid !in s.place by { assert |cid| == k + 1; }
      OneStep(s, Start(w, cid), target);
      ThenStep(s, [Start(w, cid)], Push(w), target);
      var t := Run(s, [Start(w, cid)] + [Push(w)], target);
      assert t.workers == seq(n, j => if j < w then Checked else Ready);
      var rest := PushAll(t, n, target, w, k + 1);
      RunAppend(s, [Start(w, cid)] + [Push(w)], rest, target);
      es := [Start(w, cid)] + [Push(w)] + rest;
    }
  }

  /** The bound is met: for every number of replenishers and every target some
      interleaving fills the pool to target + W - 1. */
  lemma BoundIsMet(n: nat, target: nat) returns (es: seq<Event>)
    requires n > 0 && target > 0
    ensures Possible(Fresh(n), es, target) && |Run(Fresh(n), es, target).pool| == target + n - 1
  {
    var fill := Fill(n, target, target - 1);
    var s := Run(Fresh(n), fill, target);
    var checks := CheckAll(s, n, target, n, target - 1);
    var t := Run(s, checks, target);
    var pushes := PushAll(t, n, target, n, target - 1);
    RunAppend(s, checks, pushes, target);
    RunAppend(Fresh(n), fill, checks + pushes, target);
    es := fill + (checks + pushes);
  }
}

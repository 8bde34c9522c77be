/** When a waiting run can be passed for ever under the release protocol. While it
    waits, what waits behind it cannot move, and holds its student's counter up:
    a student whose counter cannot fall below the run's score cannot pass it. */
module Starvation {
  import opened SortedSet
  import opened FairQueue
  import opened Fairness
  import opened DepthAccounting

  /** The waiting runs of `x` at or behind `v` in dispatch order. */
  ghost function Behind(h: History, x: StudentId, v: RunId): set<RunId>
    requires v in h.store.queue
  {
    set r | r in h.store.queue && OwnerOf(h, r) == x && (r == v || Before(h.store.queue, v, r))
  }

  /** The waiting runs of students of `T` ahead of `v`. */
  ghost function Ahead(h: History, T: set<StudentId>, v: RunId): set<RunId>
    requires v in h.store.queue
  {
    set r | r in h.store.queue && OwnerOf(h, r) in T && Before(h.store.queue, r, v)
  }

  /** There are ids without end before `v`: all but those made of the least
      character have them. */
  predicate Room(v: RunId) { exists c <- v :: c != '\0' }

  /** The student can pass `v` again and again. */
  ghost predicate Light(h: History, x: StudentId, v: RunId)
    requires v in h.store.queue
  {
    var s := h.store.queue[v];
    |Behind(h, x, v)| < s || (|Behind(h, x, v)| == s && Room(v))
  }

  // ----- ids -----

  lemma {:induction false} LongerThanAll(ids: set<RunId>) returns (n: nat)
    ensures forall r <- ids :: |r| <= n
    decreases |ids|
  {
    if ids == {} {
      n := 0;
    } else {
      var r :| r in ids;
      var m := LongerThanAll(ids - {r});
      n := if |r| > m then |r| else m;
    }
  }

  function Zeros(n: nat): RunId { seq(n, _ => '\0') }

  lemma {:induction false} ZerosGoBefore(v: RunId, i: nat, n: nat)
    requires i < |v| && v[i] != '\0' && n > 0
    ensures MemberLess(v[..i] + Zeros(n), v)
    decreases i
  {
    var id := v[..i] + Zeros(n);
    if i > 0 {
      assert id[1..] == v[1..][..i - 1] + Zeros(n);
      ZerosGoBefore(v[1..], i - 1, n);
    }
  }

  /** A new id, before `v` if there is room. */
  lemma NewId(ids: set<RunId>, v: RunId) returns (id: RunId)
    ensures id !in ids
    ensures Room(v) ==> MemberLess(id, v)
  {
    var n := LongerThanAll(ids);
    if Room(v) {
      var c :| c in v && c != '\0';
      var i :| 0 <= i < |v| && v[i] == c;
      ZerosGoBefore(v, i, n + 1);
      id := v[..i] + Zeros(n + 1);
    } else {
      id := Zeros(n + 1);
    }
    assert |id| > n;
  }

  /** Without room only the beginnings of `v` come before it. */
  lemma {:induction false} OnlyBeginnings(id: RunId, v: RunId)
    requires !Room(v) && MemberLess(id, v)
    ensures |id| < |v| && id == v[..|id|]
    decreases |id|
  {
    if id != "" {
      assert v[0] in v;
      assert forall c <- v[1..] :: c in v;
      OnlyBeginnings(id[1..], v[1..]);
      assert id == [id[0]] + id[1..];
    }
  }

  // ----- a light student passes for ever -----

  /** The runs of `x` that were dispatched and not yet released. */
  ghost function Unfinished(h: History, x: StudentId): set<RunId> {
    set r | r in h.unfinished && OwnerOf(h, r) == x
  }

  /** The events are within the protocol, only `x` submits, `n` runs are dispatched,
      and `v` still waits. */
  ghost predicate Passes(h: History, es: seq<Event>, x: StudentId, v: RunId, n: nat) {
    && Disciplined(h, es) && Submitters(es, {x})
    && v in Run(h, es).store.queue
    && |Run(h, es).dispatched| == |h.dispatched| + n
  }

  lemma PassesNone(h: History, x: StudentId, v: RunId)
    requires v in h.store.queue
    ensures Passes(h, [], x, v, 0)
  {
  }

  lemma StepThenPasses(h: History, e: Event, rest: seq<Event>, x: StudentId, v: RunId, n: nat)
    requires Allowed(h, e) && (e.Enqueue? ==> e.student == x)
    requires Passes(Step(h, e), rest, x, v, n)
    ensures |Step(h, e).dispatched| >= |h.dispatched|
    ensures Passes(h, [e] + rest, x, v, n + |Step(h, e).dispatched| - |h.dispatched|)
  {
    FirstStep(h, e, rest);
  }

  lemma FirstIsAhead(h: History, v: RunId)
    requires v in h.store.queue && First(h.store.queue) != v
    ensures |h.store.queue| > 0 && Before(h.store.queue, First(h.store.queue), v)
  {
    assert v in h.store.queue.Keys;
  }

  lemma ClaimKeepsBehind(h: History, x: StudentId, v: RunId)
    requires Sound(h) && v in h.store.queue && First(h.store.queue) != v
    ensures var g := Step(h, Claim);
      && v in g.store.queue && g.store.queue[v] == h.store.queue[v] && Behind(g, x, v) == Behind(h, x, v)
      && |g.dispatched| == |h.dispatched| + 1
  {
    FirstIsAhead(h, v);
    var z, run := h.store.queue, First(h.store.queue);
    MemberLessTotal(run, v);
    assert Step(h, Claim).store.queue == Remove(z, run);
  }

  lemma ReleaseKeepsBehind(h: History, x: StudentId, run: RunId, y: StudentId, v: RunId)
    requires v in h.store.queue
    ensures var g := Step(h, Event.Release(x, run));
      && g.store.queue == h.store.queue && g.owner == h.owner && g.dispatched == h.dispatched
      && Behind(g, y, v) == Behind(h, y, v)
  {
  }

  /** With `v` first and nothing of `x` running, the counter of `x` is what waits
      at or behind `v`. */
  lemma NothingElseActive(h: History, x: StudentId, v: RunId)
    requires Accounted(h) && v in h.store.queue && First(h.store.queue) == v && Unfinished(h, x) == {}
    ensures h.store.Depth(x) == |Behind(h, x, v)|
  {
    assert |h.store.queue| > 0 by { assert v in h.store.queue.Keys; }
    forall r | r in Active(h, x) ensures r in Behind(h, x, v) {
      assert r !in Unfinished(h, x);
    }
    assert Active(h, x) == Behind(h, x, v);
  }

  /** A submission that lands ahead of `v`. */
  lemma EnqueueAhead(h: History, x: StudentId, id: RunId, v: RunId)
    requires Sound(h) && v in h.store.queue && id !in h.owner
    requires h.store.Depth(x) < h.store.queue[v] || (h.store.Depth(x) == h.store.queue[v] && MemberLess(id, v))
    ensures var g := Step(h, Event.Enqueue(x, id));
      && v in g.store.queue && g.store.queue[v] == h.store.queue[v] && Behind(g, x, v) == Behind(h, x, v)
      && First(g.store.queue) != v && Unfinished(g, x) == Unfinished(h, x) && g.dispatched == h.dispatched
  {
    var g := Step(h, Event.Enqueue(x, id));
    var z := g.store.queue;
    MemberLessTotal(id, v);
    assert z == h.store.queue[id := h.store.Depth(x)];
    assert forall r <- h.store.queue :: r != id && z[r] == h.store.queue[r] && OwnerOf(g, r) == OwnerOf(h, r);
    assert Before(z, id, v) && !Before(z, v, id);
    assert |z| > 0 by { assert v in z.Keys; }
  }

  lemma ReleaseOne(h: History, x: StudentId, run: RunId)
    requires Sound(h) && run in Unfinished(h, x)
    ensures Allowed(h, Event.Release(x, run))
    ensures |Unfinished(Step(h, Event.Release(x, run)), x)| < |Unfinished(h, x)|
  {
    assert Unfinished(Step(h, Event.Release(x, run)), x) == Unfinished(h, x) - {run};
  }

  /** A light student can have any number of runs dispatched while `v` waits: claim
      what is ahead, finish what runs, submit the next. */
  lemma {:induction false} LightPasses(h: History, x: StudentId, v: RunId, n: nat) returns (es: seq<Event>)
    requires Accounted(h) && v in h.store.queue && Light(h, x, v)
    ensures Passes(h, es, x, v, n)
    decreases n, |Unfinished(h, x)|, if First(h.store.queue) == v then 1 else 0
  {
    if n == 0 {
      PassesNone(h, x, v);
      es := [];
    } else if First(h.store.queue) != v {
      es := ClaimNext(h, x, v, n);
    } else if run :| run in Unfinished(h, x) {
      es := FinishOne(h, x, v, n, run);
    } else {
      es := SubmitNext(h, x, v, n);
    }
  }

  lemma {:induction false} ClaimNext(h: History, x: StudentId, v: RunId, n: nat) returns (es: seq<Event>)
    requires Accounted(h) && v in h.store.queue && Light(h, x, v) && n > 0 && First(h.store.queue) != v
    ensures Passes(h, es, x, v, n)
    decreases n, |Unfinished(h, x)|, 0, 0
  {
    StepKeepsAccounted(h, Claim);
    ClaimKeepsBehind(h, x, v);
    var rest := LightPasses(Step(h, Claim), x, v, n - 1);
    StepThenPasses(h, Claim, rest, x, v, n - 1);
    es := [Claim] + rest;
  }

  lemma {:induction false} FinishOne(h: History, x: StudentId, v: RunId, n: nat, run: RunId) returns (es: seq<Event>)
    requires Accounted(h) && v in h.store.queue && Light(h, x, v) && n > 0 && run in Unfinished(h, x)
    ensures Passes(h, es, x, v, n)
    decreases n, |Unfinished(h, x)|, 0, 0
  {
    var e := Event.Release(x, run);
    ReleaseOne(h, x, run);
    StepKeepsAccounted(h, e);
    ReleaseKeepsBehind(h, x, run, x, v);
    var rest := LightPasses(Step(h, e), x, v, n);
    StepThenPasses(h, e, rest, x, v, n);
    es := [e] + rest;
  }

  lemma {:induction false} SubmitNext(h: History, x: StudentId, v: RunId, n: nat) returns (es: seq<Event>)
    requires Accounted(h) && v in h.store.queue && Light(h, x, v) && n > 0
    requires First(h.store.queue) == v && Unfinished(h, x) == {}
    ensures Passes(h, es, x, v, n)
    decreases n, |Unfinished(h, x)|, 1, 0
  {
    var id := NewId(h.owner.Keys, v);
    var e := Event.Enqueue(x, id);
    NothingElseActive(h, x, v);
    EnqueueAhead(h, x, id, v);
    StepKeepsAccounted(h, e);
    var rest := LightPasses(Step(h, e), x, v, n);
    StepThenPasses(h, e, rest, x, v, n);
    es := [e] + rest;
  }

  // ----- a loaded student does not -----

  /** The beginnings of `v` no run was submitted with, when they are all that comes
      before it. */
  ghost function Spare(h: History, v: RunId): set<nat> {
    set k: nat | k < |v| && !Room(v) && v[..k] !in h.owner
  }

  /** Tickets of students of `T`. */
  ghost function By(ts: seq<Ticket>, T: set<StudentId>): nat {
    if ts == [] then 0 else By(ts[..|ts| - 1], T) + (if ts[|ts| - 1].student in T then 1 else 0)
  }

  lemma BySnoc(ts: seq<Ticket>, t: Ticket, T: set<StudentId>)
    ensures By(ts + [t], T) == By(ts, T) + (if t.student in T then 1 else 0)
  {
    assert (ts + [t])[..|ts|] == ts;
  }

  /** What can still go before `v`, and what has gone. */
  ghost function Budget(h: History, T: set<StudentId>, v: RunId): nat
    requires v in h.store.queue
  {
    |Ahead(h, T, v)| + |Spare(h, v)| + By(h.dispatched, T)
  }

  lemma BehindIsActive(h: History, x: StudentId, v: RunId)
    requires Accounted(h) && v in h.store.queue
    ensures |Behind(h, x, v)| <= h.store.Depth(x)
  {
    assert Behind(h, x, v) <= Active(h, x);
    SubsetSize(Behind(h, x, v), Active(h, x));
  }

  lemma EnqueueBehindGrows(h: History, y: StudentId, id: RunId, x: StudentId, v: RunId)
    requires Sound(h) && v in h.store.queue && id !in h.owner
    ensures var g := Step(h, Event.Enqueue(y, id));
      v in g.store.queue && g.store.queue[v] == h.store.queue[v] && |Behind(h, x, v)| <= |Behind(g, x, v)|
  {
    var g := Step(h, Event.Enqueue(y, id));
    assert forall r <- h.store.queue :: g.store.queue[r] == h.store.queue[r] && OwnerOf(g, r) == OwnerOf(h, r);
    SubsetSize(Behind(h, x, v), Behind(g, x, v));
  }

  /** Loaded students stay loaded while `v` waits. */
  lemma StepKeepsLoaded(h: History, e: Event, x: StudentId, v: RunId)
    requires Accounted(h) && Allowed(h, e) && v in h.store.queue && v in Step(h, e).store.queue && !Light(h, x, v)
    ensures !Light(Step(h, e), x, v)
  {
    match e
    case Enqueue(y, id) => EnqueueBehindGrows(h, y, id, x, v);
    case Claim => ClaimLeaves(h, v); ClaimKeepsBehind(h, x, v);
    case Release(y, run) => ReleaseKeepsBehind(h, y, run, x, v);
  }

  lemma ClaimLeaves(h: History, v: RunId)
    requires v in h.store.queue && v in Step(h, Claim).store.queue
    ensures First(h.store.queue) != v
  {
    assert |h.store.queue| > 0 by { assert v in h.store.queue.Keys; }
  }

  lemma AheadAfterEnqueue(h: History, y: StudentId, id: RunId, T: set<StudentId>, v: RunId)
    requires Sound(h) && v in h.store.queue && id !in h.owner
    ensures var g := Step(h, Event.Enqueue(y, id));
      && v in g.store.queue && id in g.store.queue
      && Ahead(g, T, v) == if y in T && Before(g.store.queue, id, v) then Ahead(h, T, v) + {id} else Ahead(h, T, v)
  {
    var g := Step(h, Event.Enqueue(y, id));
    assert forall r <- h.store.queue :: r != id && g.store.queue[r] == h.store.queue[r] && OwnerOf(g, r) == OwnerOf(h, r);
    assert forall r <- g.store.queue :: r != id ==> r in h.store.queue;
  }

  lemma SpareAfterEnqueue(h: History, y: StudentId, id: RunId, v: RunId)
    requires id !in h.owner
    ensures |Spare(Step(h, Event.Enqueue(y, id)), v)| <= |Spare(h, v)|
    ensures !Room(v) && MemberLess(id, v) ==> |Spare(Step(h, Event.Enqueue(y, id)), v)| < |Spare(h, v)|
  {
    var g := Step(h, Event.Enqueue(y, id));
    SubsetSize(Spare(g, v), Spare(h, v));
    if !Room(v) && MemberLess(id, v) {
      OnlyBeginnings(id, v);
      assert |id| in Spare(h, v) && |id| !in Spare(g, v);
      SubsetSize(Spare(g, v), Spare(h, v) - {|id|});
    }
  }

  lemma EnqueueKeepsBudget(h: History, y: StudentId, id: RunId, T: set<StudentId>, v: RunId)
    requires Accounted(h) && v in h.store.queue && id !in h.owner && (y in T ==> !Light(h, y, v))
    ensures var g := Step(h, Event.Enqueue(y, id)); v in g.store.queue && Budget(g, T, v) <= Budget(h, T, v)
  {
    AheadAfterEnqueue(h, y, id, T, v);
    SpareAfterEnqueue(h, y, id, v);
    BehindIsActive(h, y, v);
  }

  lemma AheadAfterClaim(h: History, T: set<StudentId>, v: RunId)
    requires v in h.store.queue && First(h.store.queue) != v
    ensures var g, run := Step(h, Claim), First(h.store.queue);
      && v in g.store.queue
      && |Ahead(g, T, v)| == |Ahead(h, T, v)| - (if OwnerOf(h, run) in T then 1 else 0)
  {
    FirstIsAhead(h, v);
    var g, run := Step(h, Claim), First(h.store.queue);
    var was, now := Ahead(h, T, v), Ahead(g, T, v);
    ClaimRemoves(h);
    if OwnerOf(h, run) in T {
      assert run in was && now == was - {run};
    } else {
      assert now == was;
    }
  }

  lemma ClaimKeepsBudget(h: History, T: set<StudentId>, v: RunId)
    requires Sound(h) && v in h.store.queue && v in Step(h, Claim).store.queue
    ensures Budget(Step(h, Claim), T, v) <= Budget(h, T, v)
  {
    ClaimLeaves(h, v);
    FirstIsAhead(h, v);
    AheadAfterClaim(h, T, v);
    var run := First(h.store.queue);
    BySnoc(h.dispatched, Ticket(OwnerOf(h, run), run, h.store.queue[run]), T);
    assert Spare(Step(h, Claim), v) == Spare(h, v);
  }

  lemma StepKeepsBudget(h: History, e: Event, T: set<StudentId>, v: RunId)
    requires Accounted(h) && Allowed(h, e) && v in h.store.queue && v in Step(h, e).store.queue
    requires e.Enqueue? && e.student in T ==> !Light(h, e.student, v)
    ensures Budget(Step(h, e), T, v) <= Budget(h, T, v)
  {
    match e
    case Enqueue(y, id) => EnqueueKeepsBudget(h, y, id, T, v);
    case Claim => ClaimKeepsBudget(h, T, v);
    case Release(y, run) =>
      var g := Step(h, e);
      assert Ahead(g, T, v) == Ahead(h, T, v) && Spare(g, v) == Spare(h, v);
  }

  /** A run that no longer waits never waits again. */
  lemma {:induction false} GoneStaysGone(h: History, es: seq<Event>, v: RunId)
    requires v in h.owner && v !in h.store.queue && Disciplined(h, es)
    ensures v !in Run(h, es).store.queue
    decreases es
  {
    if es != [] { GoneStaysGone(Step(h, es[0]), es[1..], v); }
  }

  /** While `v` waits, the loaded students of `T` have no more runs dispatched than
      waited ahead of it, whoever else submits. */
  lemma {:induction false} BudgetHolds(h: History, es: seq<Event>, S: set<StudentId>, T: set<StudentId>, v: RunId)
    requires Accounted(h) && Disciplined(h, es) && Submitters(es, S)
    requires v in h.store.queue && v in Run(h, es).store.queue
    requires forall x <- S :: x in T ==> !Light(h, x, v)
    ensures Budget(Run(h, es), T, v) <= Budget(h, T, v)
    decreases es
  {
    if es != [] {
      var e, g := es[0], Step(h, es[0]);
      assert e in es && Submitters(es[1..], S);
      StepKeepsAccounted(h, e);
      if v !in g.store.queue { GoneStaysGone(g, es[1..], v); }
      StepKeepsBudget(h, e, T, v);
      forall x <- S | x in T ensures !Light(g, x, v) { StepKeepsLoaded(h, e, x, v); }
      BudgetHolds(g, es[1..], S, T, v);
    }
  }

  /** A loaded student passes `v` only with what already waited ahead of it, over
      every continuation within the protocol. */
  lemma LoadedStudent(h: History, es: seq<Event>, S: set<StudentId>, x: StudentId, v: RunId)
    requires Accounted(h) && Disciplined(h, es) && Submitters(es, S)
    requires v in h.store.queue && v in Run(h, es).store.queue
    requires !Light(h, x, v)
    ensures By(Run(h, es).dispatched, {x}) - By(h.dispatched, {x}) <= |Ahead(h, {x}, v)| + |Spare(h, v)|
  {
    BudgetHolds(h, es, S, {x}, v);
  }

  /** Every student there is. */
  lemma {:induction false} EveryoneCounts(h: History, es: seq<Event>, T: set<StudentId>)
    requires Sound(h) && Disciplined(h, es) && Submitters(es, T) && h.owner.Values <= T
    ensures By(Run(h, es).dispatched, T) - By(h.dispatched, T) == |Run(h, es).dispatched| - |h.dispatched|
    decreases es
  {
    if es != [] {
      var e, g := es[0], Step(h, es[0]);
      assert e in es && Submitters(es[1..], T);
      StepKeepsSound(h, e);
      StepKeepsOwners(h, e, T);
      OneCounts(h, e, T);
      EveryoneCounts(g, es[1..], T);
    }
  }

  lemma OneCounts(h: History, e: Event, T: set<StudentId>)
    requires Sound(h) && h.owner.Values <= T
    ensures By(Step(h, e).dispatched, T) - By(h.dispatched, T) == |Step(h, e).dispatched| - |h.dispatched|
  {
    if e.Claim? && |h.store.queue| != 0 {
      var run := First(h.store.queue);
      assert h.owner[run] in h.owner.Values;
      BySnoc(h.dispatched, Ticket(OwnerOf(h, run), run, h.store.queue[run]), T);
    }
  }

  /** With no light student `v` is passed only by what already waits ahead of it. */
  lemma AllLoaded(h: History, es: seq<Event>, S: set<StudentId>, v: RunId)
    requires Accounted(h) && Disciplined(h, es) && Submitters(es, S)
    requires v in h.store.queue && v in Run(h, es).store.queue
    requires forall x <- S :: !Light(h, x, v)
    ensures |Run(h, es).dispatched| - |h.dispatched| <= |Ahead(h, S + h.owner.Values, v)| + |Spare(h, v)|
  {
    var T := S + h.owner.Values;
    BudgetHolds(h, es, S, T, v);
    EveryoneCounts(h, es, T);
  }

  // ----- the condition -----

  /** Students of `S` can keep `v` waiting through `n` dispatches. */
  ghost predicate CanPass(h: History, S: set<StudentId>, v: RunId, n: nat) {
    exists es :: PassedBy(h, es, S, v, n)
  }

  ghost predicate PassedBy(h: History, es: seq<Event>, S: set<StudentId>, v: RunId, n: nat) {
    && Disciplined(h, es) && Submitters(es, S) && v in Run(h, es).store.queue
    && |Run(h, es).dispatched| - |h.dispatched| >= n
  }

  /** Under the release protocol students of `S` can keep a waiting run waiting for
      ever exactly when one of them has fewer runs waiting at or behind it than its
      score, or as many and an id before it can be had. */
  lemma StarvesIff(h: History, S: set<StudentId>, v: RunId)
    requires Accounted(h) && v in h.store.queue
    ensures (forall n :: CanPass(h, S, v, n)) <==> exists x <- S :: Light(h, x, v)
  {
    if x :| x in S && Light(h, x, v) {
      forall n ensures CanPass(h, S, v, n) {
        var es := LightPasses(h, x, v, n);
        assert PassedBy(h, es, S, v, n);
      }
    } else {
      var n := |Ahead(h, S + h.owner.Values, v)| + |Spare(h, v)| + 1;
      if CanPass(h, S, v, n) {
        var es :| PassedBy(h, es, S, v, n);
        AllLoaded(h, es, S, v);
      }
    }
  }

  /** Three ordinary steps lead to a run that a second student can keep waiting. */
  lemma StarvableIsReachable()
    ensures var es := [Event.Enqueue("a", "0"), Claim, Event.Enqueue("a", "v")];
      && Disciplined(INIT, es) && "v" in Run(INIT, es).store.queue
      && Accounted(Run(INIT, es)) && Light(Run(INIT, es), "b", "v")
  {
    var e1, e3 := Event.Enqueue("a", "0"), Event.Enqueue("a", "v");
    var h1 := Step(INIT, e1);
    assert First(h1.store.queue) == "0";
    var h2 := Step(h1, Claim);
    assert h2.store.queue == map[];
    assert "0" != "v";
    var h3 := Step(h2, e3);
    FirstStep(INIT, e1, [Claim, e3]);
    FirstStep(h1, Claim, [e3]);
    FirstStep(h2, e3, []);
    assert [e1] + [Claim, e3] == [e1, Claim, e3] && [Claim] + [e3] == [Claim, e3] && [e3] + [] == [e3];
    assert Behind(h3, "b", "v") == {};
    ExactFromTheStart([e1, Claim, e3]);
  }
}

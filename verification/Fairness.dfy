/** Whole runs of the fair queue: every interleaving of submissions, dispatches
    and releases, each atomic, with no key expiring. */
module Fairness {
  import opened Wrappers
  import opened SortedSet
  import opened FairQueue

  datatype Event =
    | Enqueue(student: StudentId, run: RunId)
    | Claim
    | Release(student: StudentId, run: RunId)   // release_student_slot(student) on behalf of `run`

  /** What was issued to a run when it was submitted. */
  datatype Ticket = Ticket(student: StudentId, run: RunId, score: nat)

  /** The Redis keys and what happened so far. */
  datatype History = History(
    store: Store,
    issued: seq<Ticket>,
    dispatched: seq<Ticket>,
    releases: seq<StudentId>,
    owner: map<RunId, StudentId>,
    unfinished: set<RunId>)    // dispatched and not yet released

  const INIT := History(Store(map[], map[]), [], [], [], map[], {})

  /** A submitted run carries a new id. */
  ghost predicate Enabled(h: History, e: Event) {
    e.Enqueue? ==> e.run !in h.owner
  }

  function OwnerOf(h: History, run: RunId): StudentId {
    if run in h.owner then h.owner[run] else ""
  }

  ghost function Step(h: History, e: Event): History {
    match e
    case Enqueue(student, run) =>
      h.(store := h.store.Enqueue(student, run),
         issued := h.issued + [Ticket(student, run, h.store.Depth(student))],
         owner := h.owner[run := student])
    case Claim =>
      if |h.store.queue| == 0 then h else
        var run := First(h.store.queue);
        h.(store := h.store.Claim(),
           dispatched := h.dispatched + [Ticket(OwnerOf(h, run), run, h.store.queue[run])],
           unfinished := h.unfinished + {run})
    case Release(student, run) =>
      h.(store := h.store.Release(student),
         releases := h.releases + [student],
         unfinished := h.unfinished - {run})
  }

  /** Every waiting run was submitted. */
  ghost predicate Queued(h: History) {
    h.store.queue.Keys <= h.owner.Keys
  }

  /** `es` can happen from `h`: every submitted run is new. */
  ghost predicate Possible(h: History, es: seq<Event>)
    decreases es
  {
    es == [] || (Enabled(h, es[0]) && Possible(Step(h, es[0]), es[1..]))
  }

  ghost function Run(h: History, es: seq<Event>): History
    decreases es
  {
    if es == [] then h else Run(Step(h, es[0]), es[1..])
  }

  ghost function Claims(es: seq<Event>): nat {
    if es == [] then 0 else (if es[0].Claim? then 1 else 0) + Claims(es[1..])
  }

  ghost function Releases(es: seq<Event>): nat {
    if es == [] then 0 else (if es[0].Release? then 1 else 0) + Releases(es[1..])
  }

  /** Every submission comes from a student of `S`. */
  ghost predicate Submitters(es: seq<Event>, S: set<StudentId>) {
    forall e <- es :: e.Enqueue? ==> e.student in S
  }

  // ----- counting tickets -----

  /** Tickets with a score of at most `s` held by students of `S`. */
  ghost function Low(ts: seq<Ticket>, S: set<StudentId>, s: nat): nat {
    if ts == [] then 0 else
      Low(ts[..|ts| - 1], S, s) + (if ts[|ts| - 1].student in S && ts[|ts| - 1].score <= s then 1 else 0)
  }

  ghost function CountIn(rs: seq<StudentId>, S: set<StudentId>): nat {
    if rs == [] then 0 else CountIn(rs[..|rs| - 1], S) + (if rs[|rs| - 1] in S then 1 else 0)
  }

  lemma {:induction false} LowSplit(ts: seq<Ticket>, S: set<StudentId>, x: StudentId, s: nat)
    requires x in S
    ensures Low(ts, S, s) == Low(ts, S - {x}, s) + Low(ts, {x}, s)
  {
    if ts != [] { LowSplit(ts[..|ts| - 1], S, x, s); }
  }

  lemma {:induction false} CountSplit(rs: seq<StudentId>, S: set<StudentId>, x: StudentId)
    requires x in S
    ensures CountIn(rs, S) == CountIn(rs, S - {x}) + CountIn(rs, {x})
  {
    if rs != [] { CountSplit(rs[..|rs| - 1], S, x); }
  }

  lemma {:induction false} LowNone(ts: seq<Ticket>, s: nat)
    ensures Low(ts, {}, s) == 0
  {
    if ts != [] { LowNone(ts[..|ts| - 1], s); }
  }

  lemma {:induction false} CountAtMostLength(rs: seq<StudentId>, S: set<StudentId>)
    ensures CountIn(rs, S) <= |rs|
  {
    if rs != [] { CountAtMostLength(rs[..|rs| - 1], S); }
  }

  lemma LowSnoc(ts: seq<Ticket>, t: Ticket, S: set<StudentId>, s: nat)
    ensures Low(ts + [t], S, s) == Low(ts, S, s) + (if t.student in S && t.score <= s then 1 else 0)
  {
    assert (ts + [t])[..|ts|] == ts;
  }

  lemma CountSnoc(rs: seq<StudentId>, r: StudentId, S: set<StudentId>)
    ensures CountIn(rs + [r], S) == CountIn(rs, S) + (if r in S then 1 else 0)
  {
    assert (rs + [r])[..|rs|] == rs;
  }

  // ----- what every run keeps -----

  /** A moment of a history: how much was dispatched and released by then. */
  datatype Mark = Mark(dispatched: nat, releases: nat)

  const START := Mark(0, 0)

  ghost function Now(h: History): Mark { Mark(|h.dispatched|, |h.releases|) }

  ghost predicate Since(h: History, m: Mark) {
    m.dispatched <= |h.dispatched| && m.releases <= |h.releases|
  }

  /** The waiting runs of students of `S` with a score of at most `s`. */
  ghost function LowWaiting(h: History, S: set<StudentId>, s: nat): set<RunId> {
    set r | r in h.store.queue && h.store.queue[r] <= s && OwnerOf(h, r) in S
  }

  /** Low runs of `x` that wait, or were dispatched since `m`: a student is issued
      a score of at most `s` only while their counter is at most `s`, and only a
      release brings the counter back down. */
  ghost predicate BoundedFor(h: History, m: Mark, x: StudentId, s: nat)
    requires Since(h, m)
  {
    |LowWaiting(h, {x}, s)| + Low(h.dispatched[m.dispatched..], {x}, s)
      <= Min(h.store.Depth(x), s + 1) + CountIn(h.releases[m.releases..], {x})
  }

  ghost predicate Good(h: History, m: Mark, S: set<StudentId>, s: nat) {
    && Since(h, m) && Queued(h) && h.owner.Values <= S
    && forall x :: BoundedFor(h, m, x, s)
  }

  lemma EnqueueAddsOne(h: History, student: StudentId, run: RunId, x: StudentId, s: nat)
    requires Queued(h) && run !in h.owner
    ensures |LowWaiting(Step(h, Enqueue(student, run)), {x}, s)| ==
      |LowWaiting(h, {x}, s)| + (if x == student && h.store.Depth(student) <= s then 1 else 0)
  {
    var more := if x == student && h.store.Depth(student) <= s then {run} else {};
    assert LowWaiting(Step(h, Enqueue(student, run)), {x}, s) == LowWaiting(h, {x}, s) + more;
  }

  lemma EnqueueKeepsBoundedFor(h: History, student: StudentId, run: RunId, m: Mark, x: StudentId, s: nat)
    requires Since(h, m) && Queued(h) && run !in h.owner && BoundedFor(h, m, x, s)
    ensures BoundedFor(Step(h, Enqueue(student, run)), m, x, s)
  {
    EnqueueAddsOne(h, student, run, x, s);
  }

  lemma ClaimRemoves(h: History)
    requires |h.store.queue| != 0
    ensures var g, run := Step(h, Claim), First(h.store.queue);
      && g.store.queue == Remove(h.store.queue, run) && g.owner == h.owner
      && (forall r :: r in g.store.queue <==> r in h.store.queue && r != run)
      && (forall r <- g.store.queue :: g.store.queue[r] == h.store.queue[r] && OwnerOf(g, r) == OwnerOf(h, r))
  {
  }

  lemma ClaimTakesOne(h: History, x: StudentId, s: nat)
    requires |h.store.queue| != 0
    ensures var run := First(h.store.queue);
      |LowWaiting(Step(h, Claim), {x}, s)| ==
        |LowWaiting(h, {x}, s)| - (if OwnerOf(h, run) == x && h.store.queue[run] <= s then 1 else 0)
  {
    var run := First(h.store.queue);
    var was, now := LowWaiting(h, {x}, s), LowWaiting(Step(h, Claim), {x}, s);
    assert now == was - {run} by { ClaimRemoves(h); }
    assert run in was <==> OwnerOf(h, run) == x && h.store.queue[run] <= s;
  }

  lemma ClaimLogs(h: History, k: nat)
    requires |h.store.queue| != 0 && k <= |h.dispatched|
    ensures var g, run := Step(h, Claim), First(h.store.queue);
      && g.store.depth == h.store.depth && g.releases == h.releases && |g.dispatched| == |h.dispatched| + 1
      && g.dispatched[k..] == h.dispatched[k..] + [Ticket(OwnerOf(h, run), run, h.store.queue[run])]
  {
  }

  lemma ClaimKeepsBoundedFor(h: History, m: Mark, x: StudentId, s: nat)
    requires Since(h, m) && Queued(h) && BoundedFor(h, m, x, s)
    ensures BoundedFor(Step(h, Claim), m, x, s)
  {
    if |h.store.queue| != 0 {
      var run := First(h.store.queue);
      ClaimLogs(h, m.dispatched);
      ClaimTakesOne(h, x, s);
      LowSnoc(h.dispatched[m.dispatched..], Ticket(OwnerOf(h, run), run, h.store.queue[run]), {x}, s);
    }
  }

  lemma ReleaseKeepsWaiting(h: History, student: StudentId, run: RunId, x: StudentId, s: nat)
    ensures LowWaiting(Step(h, Release(student, run)), {x}, s) == LowWaiting(h, {x}, s)
  {
    assert Step(h, Release(student, run)).store.queue == h.store.queue;
  }

  lemma ReleaseKeepsBoundedFor(h: History, student: StudentId, run: RunId, m: Mark, x: StudentId, s: nat)
    requires Since(h, m) && BoundedFor(h, m, x, s)
    ensures BoundedFor(Step(h, Release(student, run)), m, x, s)
  {
    var g := Step(h, Release(student, run));
    ReleaseKeepsWaiting(h, student, run, x, s);
    assert g.releases[m.releases..] == h.releases[m.releases..] + [student];
    CountSnoc(h.releases[m.releases..], student, {x});
  }

  lemma StepKeepsOwners(h: History, e: Event, S: set<StudentId>)
    requires Queued(h) && h.owner.Values <= S && Enabled(h, e) && (e.Enqueue? ==> e.student in S)
    ensures Queued(Step(h, e)) && Step(h, e).owner.Values <= S
  {
    if e.Enqueue? { assert Step(h, e).owner.Values <= h.owner.Values + {e.student}; }
  }

  lemma {:induction false} RunKeepsOwners(h: History, es: seq<Event>, S: set<StudentId>)
    requires Queued(h) && h.owner.Values <= S && Possible(h, es) && Submitters(es, S)
    ensures Queued(Run(h, es)) && Run(h, es).owner.Values <= S
    decreases es
  {
    if es != [] {
      assert es[0] in es;
      StepKeepsOwners(h, es[0], S);
      RunKeepsOwners(Step(h, es[0]), es[1..], S);
    }
  }

  lemma StepKeepsGood(h: History, e: Event, m: Mark, S: set<StudentId>, s: nat)
    requires Good(h, m, S, s) && Enabled(h, e) && (e.Enqueue? ==> e.student in S)
    ensures Good(Step(h, e), m, S, s)
  {
    StepKeepsOwners(h, e, S);
    forall x ensures BoundedFor(Step(h, e), m, x, s) {
      assert BoundedFor(h, m, x, s);
      match e
      case Enqueue(student, run) => EnqueueKeepsBoundedFor(h, student, run, m, x, s);
      case Claim => ClaimKeepsBoundedFor(h, m, x, s);
      case Release(student, run) => ReleaseKeepsBoundedFor(h, student, run, m, x, s);
    }
  }

  lemma {:induction false} RunKeepsGood(h: History, es: seq<Event>, m: Mark, S: set<StudentId>, s: nat)
    requires Good(h, m, S, s) && Possible(h, es) && Submitters(es, S)
    ensures Good(Run(h, es), m, S, s)
    decreases es
  {
    if es != [] {
      assert es[0] in es;
      StepKeepsGood(h, es[0], m, S, s);
      RunKeepsGood(Step(h, es[0]), es[1..], m, S, s);
    }
  }

  lemma InitIsGood(S: set<StudentId>, s: nat)
    ensures Good(INIT, START, S, s)
  {
    forall x ensures BoundedFor(INIT, START, x, s) { assert LowWaiting(INIT, {x}, s) == {}; }
  }

  /** Summing the per-student bounds. */
  lemma {:induction false} LowOverAll(h: History, m: Mark, T: set<StudentId>, s: nat)
    requires Since(h, m) && forall x :: BoundedFor(h, m, x, s)
    ensures |LowWaiting(h, T, s)| + Low(h.dispatched[m.dispatched..], T, s)
      <= |T| * (s + 1) + CountIn(h.releases[m.releases..], T)
    decreases |T|
  {
    var ts, rs := h.dispatched[m.dispatched..], h.releases[m.releases..];
    if T == {} {
      LowNone(ts, s);
      assert LowWaiting(h, T, s) == {};
    } else {
      var x :| x in T;
      LowOverAll(h, m, T - {x}, s);
      LowSplit(ts, T, x, s);
      CountSplit(rs, T, x);
      WaitingSplit(h, T, x, s);
      assert BoundedFor(h, m, x, s);
      OneMore(T, x, s + 1);
    }
  }

  lemma OneMore(T: set<StudentId>, x: StudentId, n: nat)
    requires x in T
    ensures |T| * n == |T - {x}| * n + n
  {
    assert |T| == |T - {x}| + 1;
  }

  lemma WaitingSplit(h: History, T: set<StudentId>, x: StudentId, s: nat)
    requires x in T
    ensures |LowWaiting(h, T, s)| == |LowWaiting(h, T - {x}, s)| + |LowWaiting(h, {x}, s)|
  {
    assert LowWaiting(h, T, s) == LowWaiting(h, T - {x}, s) + LowWaiting(h, {x}, s);
  }

  /** With N students and R releases since `m`: (s+1)·N + R. */
  ghost function Limit(h: History, m: Mark, S: set<StudentId>, s: nat): int {
    (s + 1) * |S| + |h.releases| - m.releases
  }

  /** While a run of score `s` waits, fewer low tickets than the limit have been
      dispatched since `m`. */
  lemma WaitingBoundsDispatches(h: History, m: Mark, S: set<StudentId>, run: RunId)
    requires run in h.store.queue
    requires Good(h, m, S, h.store.queue[run])
    ensures Low(h.dispatched[m.dispatched..], S, h.store.queue[run]) < Limit(h, m, S, h.store.queue[run])
  {
    var s := h.store.queue[run];
    LowOverAll(h, m, S, s);
    CountAtMostLength(h.releases[m.releases..], S);
    assert h.owner[run] in h.owner.Values;
    assert run in LowWaiting(h, S, s);
    assert |LowWaiting(h, S, s)| > 0;
    assert |S| * (s + 1) == (s + 1) * |S|;
  }

  // ----- bounded overtaking -----

  /** The run still waits with score `s`, and everything dispatched since the log
      had length `base` scored at most `s`. */
  ghost predicate Waiting(h: History, m: Mark, S: set<StudentId>, run: RunId, s: nat, base: nat) {
    && run in h.store.queue && h.store.queue[run] == s
    && m.dispatched <= base <= |h.dispatched|
    && |h.dispatched| - base <= Low(h.dispatched[m.dispatched..], S, s)
  }

  /** `es[i]` dispatches the run. */
  ghost predicate DispatchedAt(h: History, es: seq<Event>, run: RunId, i: nat) {
    && i < |es| && es[i].Claim?
    && run in Run(h, es[..i]).store.queue && First(Run(h, es[..i]).store.queue) == run
  }

  /** The runs dispatched by the first `i` events. */
  ghost function Overtakers(h: History, es: seq<Event>, i: nat): int
    requires i <= |es|
  {
    |Run(h, es[..i]).dispatched| - |h.dispatched|
  }

  /** Every claim dispatches while the run waits, and as long as it waits the
      limit holds. */
  lemma WaitingStep(h: History, e: Event, m: Mark, S: set<StudentId>, run: RunId, s: nat, base: nat)
    requires Good(h, m, S, s) && Enabled(h, e) && Waiting(h, m, S, run, s, base)
    ensures |h.dispatched| - base < Limit(h, m, S, s)
    ensures Waiting(Step(h, e), m, S, run, s, base) || (e.Claim? && First(h.store.queue) == run)
    ensures |Step(h, e).dispatched| == |h.dispatched| + Claims([e])
  {
    WaitingBoundsDispatches(h, m, S, run);
    if e.Claim? {
      var g, first := Step(h, e), First(h.store.queue);
      var t := Ticket(OwnerOf(h, first), first, h.store.queue[first]);
      assert |h.store.queue| > 0 by { assert run in h.store.queue.Keys; }
      assert g.dispatched[m.dispatched..] == h.dispatched[m.dispatched..] + [t];
      LowSnoc(h.dispatched[m.dispatched..], t, S, s);
      assert h.owner[first] in h.owner.Values;
      if first != run { assert Before(h.store.queue, first, run); }
    }
  }

  /** The state after the first events, one event later. */
  lemma RunFromNext(h: History, es: seq<Event>, i: nat)
    requires i < |es|
    ensures Run(h, es[..i + 1]) == Run(Step(h, es[0]), es[1..][..i])
  {
    assert es[..i + 1][1..] == es[1..][..i];
  }

  ghost predicate InTime(h: History, es: seq<Event>, m: Mark, S: set<StudentId>, s: nat, base: nat, i: nat) {
    i <= |es| && var g := Run(h, es[..i]); |g.dispatched| - base < Limit(g, m, S, s)
  }

  lemma {:induction false} WindowBound(h: History, es: seq<Event>, m: Mark, S: set<StudentId>, run: RunId, s: nat, base: nat)
    requires Good(h, m, S, s) && Possible(h, es) && Submitters(es, S)
    requires Waiting(h, m, S, run, s, base)
    ensures
      || (Waiting(Run(h, es), m, S, run, s, base) && |Run(h, es).dispatched| == |h.dispatched| + Claims(es))
      || DispatchedInTime(h, es, m, S, run, s, base)
    decreases es
  {
    if es != [] {
      var e, g := es[0], Step(h, es[0]);
      assert e in es;
      StepKeepsGood(h, e, m, S, s);
      WaitingStep(h, e, m, S, run, s, base);
      if Waiting(g, m, S, run, s, base) {
        assert Submitters(es[1..], S);
        WindowBound(g, es[1..], m, S, run, s, base);
        if DispatchedInTime(g, es[1..], m, S, run, s, base) { InTimeFromNext(h, es, m, S, run, s, base); }
      } else {
        assert Run(h, es[..0]) == h;
        assert DispatchedAt(h, es, run, 0) && InTime(h, es, m, S, s, base, 0);
      }
    }
  }

  ghost predicate DispatchedInTime(h: History, es: seq<Event>, m: Mark, S: set<StudentId>, run: RunId, s: nat, base: nat) {
    exists i: nat :: DispatchedAt(h, es, run, i) && InTime(h, es, m, S, s, base, i)
  }

  lemma InTimeFromNext(h: History, es: seq<Event>, m: Mark, S: set<StudentId>, run: RunId, s: nat, base: nat)
    requires es != [] && DispatchedInTime(Step(h, es[0]), es[1..], m, S, run, s, base)
    ensures DispatchedInTime(h, es, m, S, run, s, base)
  {
    var g := Step(h, es[0]);
    var i: nat :| DispatchedAt(g, es[1..], run, i) && InTime(g, es[1..], m, S, s, base, i);
    RunFromNext(h, es, i);
    assert DispatchedAt(h, es, run, i + 1) && InTime(h, es, m, S, s, base, i + 1);
  }

  // ----- once dispatched, gone -----

  /** A dispatched run was submitted and no longer waits. */
  ghost predicate Apart(h: History) {
    && Queued(h)
    && forall t <- h.dispatched :: t.run in h.owner && t.run !in h.store.queue
  }

  lemma StepKeepsApart(h: History, e: Event)
    requires Apart(h) && Enabled(h, e)
    ensures Apart(Step(h, e))
  {
  }

  lemma {:induction false} RunKeepsApart(h: History, es: seq<Event>)
    requires Apart(h) && Possible(h, es)
    ensures Apart(Run(h, es)) && h.dispatched <= Run(h, es).dispatched
    decreases es
  {
    if es != [] {
      StepKeepsApart(h, es[0]);
      RunKeepsApart(Step(h, es[0]), es[1..]);
    }
  }

  lemma {:induction false} RunAppend(h: History, a: seq<Event>, b: seq<Event>)
    ensures Run(h, a + b) == Run(Run(h, a), b)
    ensures Possible(h, a + b) <==> Possible(h, a) && Possible(Run(h, a), b)
    decreases a
  {
    if a == [] {
      assert a + b == b;
    } else {
      assert (a + b)[1..] == a[1..] + b && (a + b)[0] == a[0];
      RunAppend(Step(h, a[0]), a[1..], b);
    }
  }

  /** The claim that dispatches a run ends its waiting for good. */
  lemma DispatchedIsGone(h: History, es: seq<Event>, run: RunId, i: nat)
    requires Apart(h) && Possible(h, es) && DispatchedAt(h, es, run, i)
    ensures run !in Run(h, es).store.queue
    ensures |h.dispatched| <= |Run(h, es[..i]).dispatched| < |Run(h, es).dispatched|
    ensures Run(h, es).dispatched[|Run(h, es[..i]).dispatched|].run == run
  {
    var g := Run(h, es[..i]);
    assert es == es[..i] + es[i..] && es[i..][0] == es[i] && es[i..][1..] == es[i + 1..];
    RunAppend(h, es[..i], es[i..]);
    RunKeepsApart(h, es[..i]);
    var n := Step(g, es[i]);
    assert |g.store.queue| > 0 by { assert run in g.store.queue.Keys; }
    assert n.dispatched[|g.dispatched|].run == run;
    StepKeepsApart(g, es[i]);
    RunKeepsApart(n, es[i + 1..]);
    var end := Run(h, es);
    assert end == Run(n, es[i + 1..]);
    assert end.dispatched[|g.dispatched|] == n.dispatched[|g.dispatched|] && end.dispatched[|g.dispatched|] in end.dispatched;
  }

  lemma {:induction false} ReleasesLogged(h: History, es: seq<Event>)
    ensures |Run(h, es).releases| == |h.releases| + Releases(es)
    decreases es
  {
    if es != [] { ReleasesLogged(Step(h, es[0]), es[1..]); }
  }

  /** What a bound on overtaking says of a run that waits in `a`: until `es[i]`
      dispatches it, at most `bound` runs and those released meanwhile go first;
      and while it waits no more claims than that were made. */
  ghost predicate Served(a: History, es: seq<Event>, run: RunId, bound: int) {
    && (run in Run(a, es).store.queue ==> Overtakers(a, es, |es|) == Claims(es) <= bound + Releases(es))
    && (run !in Run(a, es).store.queue ==>
          exists i: nat :: DispatchedAt(a, es, run, i) && Overtakers(a, es, i) <= bound + Releases(es[..i]))
  }

  lemma StillWaiting(a: History, es: seq<Event>, m: Mark, S: set<StudentId>, run: RunId, s: nat)
    requires Good(a, m, S, s) && Possible(a, es) && Submitters(es, S)
    requires Waiting(Run(a, es), m, S, run, s, |a.dispatched|)
    ensures |Run(a, es).dispatched| - |a.dispatched| <= (s + 1) * |S| - 1 + |a.releases| - m.releases + Releases(es)
  {
    RunKeepsGood(a, es, m, S, s);
    WaitingBoundsDispatches(Run(a, es), m, S, run);
    ReleasesLogged(a, es);
  }

  lemma WaitingIsServed(a: History, es: seq<Event>, m: Mark, S: set<StudentId>, run: RunId, s: nat)
    requires Good(a, m, S, s) && Apart(a) && Possible(a, es) && Submitters(es, S)
    requires Waiting(a, m, S, run, s, |a.dispatched|)
    ensures Served(a, es, run, (s + 1) * |S| - 1 + |a.releases| - m.releases)
  {
    var base := |a.dispatched|;
    WindowBound(a, es, m, S, run, s, base);
    assert es[..|es|] == es;
    if run in Run(a, es).store.queue {
      if DispatchedInTime(a, es, m, S, run, s, base) {
        var i: nat :| DispatchedAt(a, es, run, i);
        DispatchedIsGone(a, es, run, i);
      }
      StillWaiting(a, es, m, S, run, s);
    } else {
      var i: nat :| DispatchedAt(a, es, run, i) && InTime(a, es, m, S, s, base, i);
      ReleasesLogged(a, es[..i]);
    }
  }

  /** The history once `run` is submitted after `pre`, and the score it gets. */
  ghost function Submitted(pre: seq<Event>, student: StudentId, run: RunId): History {
    Step(Run(INIT, pre), Enqueue(student, run))
  }

  ghost function ScoreAfter(pre: seq<Event>, student: StudentId): nat { Run(INIT, pre).store.Depth(student) }

  lemma SubmittedWaits(h: History, m: Mark, S: set<StudentId>, student: StudentId, run: RunId, s: nat)
    requires Good(h, m, S, s) && Apart(h) && run !in h.owner && student in S && s == h.store.Depth(student)
    ensures var a := Step(h, Enqueue(student, run));
      Good(a, m, S, s) && Apart(a) && Waiting(a, m, S, run, s, |a.dispatched|) && a.releases == h.releases
  {
    StepKeepsGood(h, Enqueue(student, run), m, S, s);
    StepKeepsApart(h, Enqueue(student, run));
  }

  lemma InitIsApart()
    ensures Apart(INIT)
  {
  }

  /** Bounded overtaking for every interleaving, releases of any kind included: a
      run submitted with score s is overtaken by at most (s+1)·N - 1 runs, and
      one more for each release up to its dispatch. */
  lemma BoundedOvertaking(S: set<StudentId>, pre: seq<Event>, student: StudentId, run: RunId, post: seq<Event>)
    requires Possible(INIT, pre) && Submitters(pre, S) && student in S
    requires Enabled(Run(INIT, pre), Enqueue(student, run))
    requires Possible(Submitted(pre, student, run), post) && Submitters(post, S)
    ensures Served(Submitted(pre, student, run), post, run, (ScoreAfter(pre, student) + 1) * |S| - 1 + Releases(pre))
  {
    var h, s := Run(INIT, pre), ScoreAfter(pre, student);
    InitIsGood(S, s);
    RunKeepsGood(INIT, pre, START, S, s);
    InitIsApart();
    RunKeepsApart(INIT, pre);
    ReleasesLogged(INIT, pre);
    SubmittedWaits(h, START, S, student, run, s);
    WaitingIsServed(Submitted(pre, student, run), post, START, S, run, s);
  }

  ghost predicate NoReleases(es: seq<Event>) {
    forall e <- es :: !e.Release?
  }

  lemma {:induction false} NoneReleased(es: seq<Event>)
    requires NoReleases(es)
    ensures Releases(es) == 0
  {
    if es != [] {
      assert es[0] in es;
      NoneReleased(es[1..]);
    }
  }

  /** At most `bound` runs pass the run before some `es[i]` dispatches it, and more
      claims than that always do dispatch it. */
  ghost predicate PassedByAtMost(a: History, es: seq<Event>, run: RunId, bound: int) {
    && (run in Run(a, es).store.queue ==> Overtakers(a, es, |es|) == Claims(es) <= bound)
    && (run !in Run(a, es).store.queue ==> exists i: nat :: DispatchedAt(a, es, run, i) && Overtakers(a, es, i) <= bound)
  }

  lemma ServedWithoutReleases(a: History, es: seq<Event>, run: RunId, bound: int)
    requires Served(a, es, run, bound) && NoReleases(es)
    ensures PassedByAtMost(a, es, run, bound)
  {
    NoneReleased(es);
    if run !in Run(a, es).store.queue {
      var i: nat :| DispatchedAt(a, es, run, i) && Overtakers(a, es, i) <= bound + Releases(es[..i]);
      NoneReleased(es[..i]);
    }
  }

  /** As the code stands nothing calls release_student_slot: a run of score s is
      overtaken by at most (s+1)·N - 1 runs, and (s+1)·N claims suffice. */
  lemma OvertakingWithoutReleases(S: set<StudentId>, pre: seq<Event>, student: StudentId, run: RunId, post: seq<Event>)
    requires Possible(INIT, pre) && Submitters(pre, S) && student in S && NoReleases(pre)
    requires Enabled(Run(INIT, pre), Enqueue(student, run))
    requires Possible(Submitted(pre, student, run), post) && Submitters(post, S) && NoReleases(post)
    ensures PassedByAtMost(Submitted(pre, student, run), post, run, (ScoreAfter(pre, student) + 1) * |S| - 1)
  {
    BoundedOvertaking(S, pre, student, run, post);
    NoneReleased(pre);
    ServedWithoutReleases(Submitted(pre, student, run), post, run, (ScoreAfter(pre, student) + 1) * |S| - 1 + Releases(pre));
  }

  // ----- scores -----

  /** The scores issued to `x`, oldest first. */
  ghost function ScoresOf(ts: seq<Ticket>, x: StudentId): seq<nat> {
    if ts == [] then [] else
      ScoresOf(ts[..|ts| - 1], x) + (if ts[|ts| - 1].student == x then [ts[|ts| - 1].score] else [])
  }

  ghost predicate CountingUp(h: History, x: StudentId) {
    var scores := ScoresOf(h.issued, x);
    |scores| == h.store.Depth(x) && forall i :: 0 <= i < |scores| ==> scores[i] == i
  }

  /** Without releases each student's scores go on counting up. */
  lemma {:induction false} ScoresCountUp(h: History, es: seq<Event>, x: StudentId)
    requires CountingUp(h, x) && NoReleases(es)
    ensures CountingUp(Run(h, es), x)
    decreases es
  {
    if es != [] {
      var g := Step(h, es[0]);
      assert es[0] in es;
      if es[0].Enqueue? { assert g.issued[..|h.issued|] == h.issued; }
      ScoresCountUp(g, es[1..], x);
    }
  }

  /** Without releases each student's scores are exactly 0, 1, 2, ... */
  lemma ScoresFromTheStart(es: seq<Event>, x: StudentId)
    requires NoReleases(es)
    ensures CountingUp(Run(INIT, es), x)
  {
    ScoresCountUp(INIT, es, x);
  }
}

/** The documented protocol: every dispatched run is released exactly once. */
module DepthAccounting {
  import opened SortedSet
  import opened FairQueue
  import opened Fairness

  ghost predicate Allowed(h: History, e: Event) {
    Enabled(h, e) && (e.Release? ==> e.run in h.unfinished && e.run in h.owner && h.owner[e.run] == e.student)
  }

  ghost predicate Disciplined(h: History, es: seq<Event>)
    decreases es
  {
    es == [] || (Allowed(h, es[0]) && Disciplined(Step(h, es[0]), es[1..]))
  }

  lemma {:induction false} DisciplinedIsPossible(h: History, es: seq<Event>)
    requires Disciplined(h, es)
    ensures Possible(h, es)
    decreases es
  {
    if es != [] {
      DisciplinedIsPossible(Step(h, es[0]), es[1..]);
    }
  }

  /** The runs of `x` that wait or were dispatched and not yet released. */
  ghost function Active(h: History, x: StudentId): set<RunId> {
    set r | r in h.owner && h.owner[r] == x && (r in h.store.queue || r in h.unfinished)
  }

  ghost predicate Sound(h: History) {
    && Queued(h)
    && h.unfinished <= h.owner.Keys
    && h.unfinished !! h.store.queue.Keys
  }

  ghost predicate Accounted(h: History) {
    Sound(h) && forall x :: h.store.Depth(x) == |Active(h, x)|
  }

  lemma ActiveAfterEnqueue(h: History, student: StudentId, run: RunId, x: StudentId)
    requires Sound(h) && run !in h.owner
    ensures var g := Step(h, Event.Enqueue(student, run));
      Active(g, x) == if student == x then Active(h, x) + {run} else Active(h, x)
  {
    var g := Step(h, Event.Enqueue(student, run));
    assert g.store.queue.Keys == h.store.queue.Keys + {run};
    assert g.owner == h.owner[run := student] && g.unfinished == h.unfinished;
  }

  lemma ActiveAfterClaim(h: History, x: StudentId)
    requires Sound(h)
    ensures Active(Step(h, Claim), x) == Active(h, x)
  {
    if |h.store.queue| > 0 {
      var g, run := Step(h, Claim), First(h.store.queue);
      assert g.store.queue.Keys == h.store.queue.Keys - {run};
      assert g.owner == h.owner && g.unfinished == h.unfinished + {run};
    }
  }

  lemma ActiveAfterRelease(h: History, student: StudentId, run: RunId, x: StudentId)
    requires Sound(h) && Allowed(h, Event.Release(student, run))
    ensures var g := Step(h, Event.Release(student, run));
      Active(g, x) == if student == x then Active(h, x) - {run} else Active(h, x)
  {
    var g := Step(h, Event.Release(student, run));
    assert g.store.queue == h.store.queue && g.owner == h.owner && g.unfinished == h.unfinished - {run};
    assert run !in h.store.queue;
  }

  lemma StepKeepsSound(h: History, e: Event)
    requires Sound(h) && Allowed(h, e)
    ensures Sound(Step(h, e))
  {
  }

  lemma DepthAfter(h: History, e: Event, x: StudentId)
    requires Sound(h) && Allowed(h, e) && h.store.Depth(x) == |Active(h, x)|
    ensures Step(h, e).store.Depth(x) == |Active(Step(h, e), x)|
  {
    match e
    case Enqueue(student, run) => ActiveAfterEnqueue(h, student, run, x);
    case Claim => ActiveAfterClaim(h, x);
    case Release(student, run) =>
      ActiveAfterRelease(h, student, run, x);
      if student == x { assert run in Active(h, x); }
  }

  /** The counter stays exact, and the zero guard never decides. */
  lemma StepKeepsAccounted(h: History, e: Event)
    requires Accounted(h) && Allowed(h, e)
    ensures Accounted(Step(h, e))
    ensures e.Release? ==> h.store.Depth(e.student) > 0
  {
    var g := Step(h, e);
    if e.Release? {
      assert e.run in Active(h, e.student);
      assert |Active(h, e.student)| > 0;
    }
    StepKeepsSound(h, e);
    forall x ensures g.store.Depth(x) == |Active(g, x)| {
      assert h.store.Depth(x) == |Active(h, x)|;
      DepthAfter(h, e, x);
    }
  }

  /** Over every disciplined run each counter is the number of that student's
      waiting and unfinished runs. */
  lemma {:induction false} DepthIsExact(h: History, es: seq<Event>)
    requires Accounted(h) && Disciplined(h, es)
    ensures Possible(h, es) && Accounted(Run(h, es))
    decreases es
  {
    DisciplinedIsPossible(h, es);
    if es != [] {
      StepKeepsAccounted(h, es[0]);
      DepthIsExact(Step(h, es[0]), es[1..]);
    }
  }

  lemma ExactFromTheStart(es: seq<Event>)
    requires Disciplined(INIT, es)
    ensures Accounted(Run(INIT, es))
  {
    InitIsAccounted();
    DepthIsExact(INIT, es);
  }

  lemma InitIsAccounted()
    ensures Accounted(INIT)
  {
    assert forall x :: Active(INIT, x) == {};
  }

  // ----- overtaking under the protocol -----

  lemma WaitingIsActive(h: History, x: StudentId, s: nat)
    requires Accounted(h)
    ensures |LowWaiting(h, {x}, s)| <= h.store.Depth(x)
  {
    assert LowWaiting(h, {x}, s) <= Active(h, x);
    SubsetSize(LowWaiting(h, {x}, s), Active(h, x));
  }

  lemma SubsetSize<T>(a: set<T>, b: set<T>)
    requires a <= b
    ensures |a| <= |b|
  {
    assert b == a + (b - a);
  }

  /** A student has at most s+1 waiting runs of score up to s. */
  ghost predicate FewWaiting(h: History, s: nat) {
    forall x :: |LowWaiting(h, {x}, s)| <= s + 1
  }

  lemma FewWaitingAfter(h: History, e: Event, x: StudentId, s: nat)
    requires Accounted(h) && Allowed(h, e) && |LowWaiting(h, {x}, s)| <= s + 1
    ensures |LowWaiting(Step(h, e), {x}, s)| <= s + 1
  {
    match e
    case Enqueue(student, run) =>
      EnqueueAddsOne(h, student, run, x, s);
      WaitingIsActive(h, x, s);
    case Claim =>
      if |h.store.queue| != 0 { ClaimTakesOne(h, x, s); }
    case Release(student, run) =>
      ReleaseKeepsWaiting(h, student, run, x, s);
  }

  lemma StepKeepsFewWaiting(h: History, e: Event, s: nat)
    requires Accounted(h) && Allowed(h, e) && FewWaiting(h, s)
    ensures FewWaiting(Step(h, e), s)
  {
    forall x ensures |LowWaiting(Step(h, e), {x}, s)| <= s + 1 {
      assert |LowWaiting(h, {x}, s)| <= s + 1;
      FewWaitingAfter(h, e, x, s);
    }
  }

  lemma {:induction false} RunKeepsFewWaiting(h: History, es: seq<Event>, s: nat)
    requires Accounted(h) && Disciplined(h, es) && FewWaiting(h, s)
    ensures FewWaiting(Run(h, es), s)
    decreases es
  {
    if es != [] {
      StepKeepsAccounted(h, es[0]);
      StepKeepsFewWaiting(h, es[0], s);
      RunKeepsFewWaiting(Step(h, es[0]), es[1..], s);
    }
  }

  /** Exact counters start every window afresh. */
  lemma AccountedIsGoodNow(h: History, S: set<StudentId>, s: nat)
    requires Accounted(h) && FewWaiting(h, s) && h.owner.Values <= S
    ensures Good(h, Now(h), S, s)
  {
    forall x ensures BoundedFor(h, Now(h), x, s) {
      assert h.dispatched[|h.dispatched|..] == [] && h.releases[|h.releases|..] == [];
      assert |LowWaiting(h, {x}, s)| <= s + 1;
      WaitingIsActive(h, x, s);
    }
  }

  lemma DisciplinedPastIsGood(pre: seq<Event>, S: set<StudentId>, s: nat)
    requires Disciplined(INIT, pre) && Submitters(pre, S)
    ensures Good(Run(INIT, pre), Now(Run(INIT, pre)), S, s) && Apart(Run(INIT, pre))
  {
    ExactFromTheStart(pre);
    DisciplinedIsPossible(INIT, pre);
    InitIsAccounted();
    assert forall x :: LowWaiting(INIT, {x}, s) == {};
    RunKeepsFewWaiting(INIT, pre, s);
    RunKeepsOwners(INIT, pre, S);
    InitIsApart();
    RunKeepsApart(INIT, pre);
    AccountedIsGoodNow(Run(INIT, pre), S, s);
  }

  /** After any disciplined past, however long: a run submitted with score s is
      overtaken by at most (s+1)·N - 1 runs, and one more for each release
      between its submission and its dispatch. */
  lemma OvertakingUnderTheProtocol(S: set<StudentId>, pre: seq<Event>, student: StudentId, run: RunId, post: seq<Event>)
    requires Disciplined(INIT, pre) && Submitters(pre, S) && student in S
    requires Enabled(Run(INIT, pre), Event.Enqueue(student, run))
    requires Possible(Submitted(pre, student, run), post) && Submitters(post, S)
    ensures Served(Submitted(pre, student, run), post, run, (ScoreAfter(pre, student) + 1) * |S| - 1)
  {
    var h, s := Run(INIT, pre), ScoreAfter(pre, student);
    DisciplinedPastIsGood(pre, S, s);
    SubmittedWaits(h, Now(h), S, student, run, s);
    WaitingIsServed(Submitted(pre, student, run), post, Now(h), S, run, s);
  }

  // ----- one step at a time -----

  lemma FirstStep(h: History, e: Event, rest: seq<Event>)
    ensures Run(h, [e] + rest) == Run(Step(h, e), rest)
    ensures Disciplined(h, [e] + rest) <==> Allowed(h, e) && Disciplined(Step(h, e), rest)
  {
    assert ([e] + rest)[1..] == rest;
  }
}

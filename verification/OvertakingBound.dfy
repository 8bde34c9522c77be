/** The bound on overtaking without releases is attained, for every number of
    students and every score. */
module OvertakingBound {
  import opened SortedSet
  import opened FairQueue
  import opened Fairness
  import opened Starvation

  /** The run that is overtaken, and the k-th of the others: all before it. */
  const LAST: RunId := "v"

  function Id(k: nat): RunId { seq(k + 2, _ => 'a') }

  lemma IdGoesBefore(k: nat)
    ensures MemberLess(Id(k), LAST) && Id(k) != LAST
  {
    assert Id(k)[0] == 'a' < LAST[0];
  }

  /** Ids from the k-th on are new. */
  ghost predicate Numbered(h: History, k: nat) {
    Queued(h) && forall r <- h.owner :: r == LAST || |r| < |Id(k)|
  }

  lemma FirstEvent(h: History, e: Event, rest: seq<Event>)
    ensures Run(h, [e] + rest) == Run(Step(h, e), rest)
    ensures Possible(h, [e] + rest) <==> Enabled(h, e) && Possible(Step(h, e), rest)
  {
    assert ([e] + rest)[1..] == rest;
  }

  /** The events are submissions of students of `S`, and claims. */
  ghost predicate Quiet(es: seq<Event>, S: set<StudentId>) {
    Submitters(es, S) && NoReleases(es)
  }

  lemma QuietAppend(a: seq<Event>, b: seq<Event>, S: set<StudentId>)
    requires Quiet(a, S) && Quiet(b, S)
    ensures Quiet(a + b, S)
  {
  }

  /** Running one event and then the rest. */
  lemma Prepend(h: History, e: Event, rest: seq<Event>, g: History)
    requires Enabled(h, e) && Possible(Step(h, e), rest) && Run(Step(h, e), rest) == g
    ensures Possible(h, [e] + rest) && Run(h, [e] + rest) == g
  {
    FirstEvent(h, e, rest);
  }

  lemma QuietPrepend(e: Event, rest: seq<Event>, S: set<StudentId>)
    requires (e.Enqueue? && e.student in S) || e.Claim?
    requires Quiet(rest, S)
    ensures Quiet([e] + rest, S)
  {
  }

  // ----- submissions -----

  lemma NewIdIsNew(h: History, k: nat)
    requires Numbered(h, k)
    ensures Id(k) !in h.owner && Id(k) !in h.store.queue && MemberLess(Id(k), LAST) && Id(k) != LAST
  {
    IdGoesBefore(k);
  }

  lemma SubmitKeepsNumbered(h: History, x: StudentId, k: nat)
    requires Numbered(h, k)
    ensures Enabled(h, Enqueue(x, Id(k))) && Numbered(Step(h, Enqueue(x, Id(k))), k + 1)
  {
    NewIdIsNew(h, k);
  }

  /** No student but `x` has a counter. */
  ghost predicate NoneBut(h: History, x: StudentId) {
    forall y :: y != x ==> h.store.Depth(y) == 0
  }

  /** As many runs wait as the counter says, all scoring below it. */
  ghost predicate AllBelow(h: History, x: StudentId) {
    |h.store.queue| == h.store.Depth(x) && forall r <- h.store.queue :: h.store.queue[r] < h.store.Depth(x)
  }

  ghost predicate OnlyOwn(h: History, x: StudentId, k: nat) {
    Numbered(h, k) && LAST !in h.owner && h.dispatched == [] && AllBelow(h, x) && NoneBut(h, x)
  }

  lemma SubmitKeepsNoneBut(h: History, x: StudentId, run: RunId)
    requires NoneBut(h, x)
    ensures NoneBut(Step(h, Enqueue(x, run)), x)
  {
    var g := Step(h, Enqueue(x, run));
    forall y | y != x ensures g.store.Depth(y) == 0 { assert h.store.Depth(y) == 0; }
  }

  lemma SubmitKeepsAllBelow(h: History, x: StudentId, run: RunId)
    requires AllBelow(h, x) && run !in h.store.queue
    ensures AllBelow(Step(h, Enqueue(x, run)), x)
  {
    var z := Step(h, Enqueue(x, run)).store.queue;
    assert z.Keys == h.store.queue.Keys + {run};
    assert |z| == |z.Keys| && |h.store.queue| == |h.store.queue.Keys|;
  }

  lemma SubmitOneOwn(h: History, x: StudentId, k: nat)
    requires OnlyOwn(h, x, k)
    ensures OnlyOwn(Step(h, Enqueue(x, Id(k))), x, k + 1)
  {
    NewIdIsNew(h, k);
    SubmitKeepsNumbered(h, x, k);
    SubmitKeepsNoneBut(h, x, Id(k));
    SubmitKeepsAllBelow(h, x, Id(k));
  }

  /** `x` submits `m` runs before anyone else does. */
  lemma {:induction false} SubmitOwn(h: History, x: StudentId, m: nat, k: nat, S: set<StudentId>) returns (es: seq<Event>, g: History)
    requires OnlyOwn(h, x, k) && x in S
    ensures Possible(h, es) && Quiet(es, S) && Run(h, es) == g
    ensures OnlyOwn(g, x, k + m) && g.store.Depth(x) == h.store.Depth(x) + m
    decreases m
  {
    if m == 0 {
      es, g := [], h;
    } else {
      var e, rest := Enqueue(x, Id(k)), [];
      SubmitKeepsNumbered(h, x, k);
      SubmitOneOwn(h, x, k);
      rest, g := SubmitOwn(Step(h, e), x, m - 1, k + 1, S);
      Prepend(h, e, rest, g);
      QuietPrepend(e, rest, S);
      es := [e] + rest;
    }
  }

  /** From `h` to `g`, `n` runs of `x` landed ahead of the last one. */
  ghost predicate Landed(h: History, g: History, x: StudentId, n: nat, S: set<StudentId>) {
    && LAST in h.store.queue && LAST in g.store.queue && g.store.queue[LAST] == h.store.queue[LAST]
    && |Ahead(g, S, LAST)| == |Ahead(h, S, LAST)| + n && g.dispatched == h.dispatched
    && g.store.Depth(x) == h.store.Depth(x) + n && SameBut(h, g, x)
  }

  /** Other counters are the same. */
  ghost predicate SameBut(h: History, g: History, x: StudentId) {
    forall y :: y != x ==> g.store.Depth(y) == h.store.Depth(y)
  }

  lemma LandedThen(h: History, g: History, i: History, x: StudentId, n: nat, S: set<StudentId>)
    requires Landed(h, g, x, 1, S) && Landed(g, i, x, n, S)
    ensures Landed(h, i, x, n + 1, S)
  {
    forall y | y != x ensures i.store.Depth(y) == h.store.Depth(y) { assert g.store.Depth(y) == h.store.Depth(y); }
  }

  lemma AheadGrows(h: History, x: StudentId, run: RunId, S: set<StudentId>)
    requires Queued(h) && LAST in h.store.queue && h.store.Depth(x) <= h.store.queue[LAST] && x in S
    requires run !in h.owner && run !in h.store.queue && MemberLess(run, LAST)
    ensures var g := Step(h, Enqueue(x, run));
      LAST in g.store.queue && |Ahead(g, S, LAST)| == |Ahead(h, S, LAST)| + 1
  {
    var g := Step(h, Enqueue(x, run));
    MemberLessTotal(run, LAST);
    assert forall r <- h.store.queue :: r != run && g.store.queue[r] == h.store.queue[r] && OwnerOf(g, r) == OwnerOf(h, r);
    assert Ahead(g, S, LAST) == Ahead(h, S, LAST) + {run};
  }

  /** A submission scoring no more than the waiting run lands ahead of it. */
  lemma SubmitOneAhead(h: History, x: StudentId, k: nat, S: set<StudentId>)
    requires Numbered(h, k) && LAST in h.store.queue && h.store.Depth(x) <= h.store.queue[LAST] && x in S
    ensures Landed(h, Step(h, Enqueue(x, Id(k))), x, 1, S)
  {
    NewIdIsNew(h, k);
    AheadGrows(h, x, Id(k), S);
  }

  lemma LandedNothing(h: History, x: StudentId, S: set<StudentId>)
    requires LAST in h.store.queue
    ensures Landed(h, h, x, 0, S)
  {
  }

  lemma {:induction false} SubmitAllAhead(h: History, x: StudentId, m: nat, k: nat, S: set<StudentId>) returns (es: seq<Event>, g: History)
    requires Numbered(h, k) && LAST in h.store.queue && x in S && h.store.Depth(x) + m <= h.store.queue[LAST] + 1
    ensures Possible(h, es) && Quiet(es, S) && Run(h, es) == g
    ensures Numbered(g, k + m) && Landed(h, g, x, m, S)
    decreases m
  {
    if m == 0 {
      LandedNothing(h, x, S);
      es, g := [], h;
    } else {
      var e, rest := Enqueue(x, Id(k)), [];
      SubmitKeepsNumbered(h, x, k);
      SubmitOneAhead(h, x, k, S);
      rest, g := SubmitAllAhead(Step(h, e), x, m - 1, k + 1, S);
      LandedThen(h, Step(h, e), g, x, m - 1, S);
      Prepend(h, e, rest, g);
      QuietPrepend(e, rest, S);
      es := [e] + rest;
    }
  }

  /** None of these students has a counter. */
  ghost predicate NoneOf(h: History, T: set<StudentId>) {
    forall y <- T :: h.store.Depth(y) == 0
  }

  lemma NoneOfTheRest(h: History, g: History, x: StudentId, T: set<StudentId>)
    requires NoneOf(h, T) && SameBut(h, g, x)
    ensures NoneOf(g, T - {x})
  {
    forall y <- T - {x} ensures g.store.Depth(y) == 0 { assert h.store.Depth(y) == 0 && g.store.Depth(y) == h.store.Depth(y); }
  }

  /** Each other student submits `m` runs, one more than the score of the last. */
  lemma {:induction false} OthersSubmit(h: History, T: set<StudentId>, m: nat, k: nat, S: set<StudentId>) returns (es: seq<Event>, g: History)
    requires Numbered(h, k) && LAST in h.store.queue && m == h.store.queue[LAST] + 1 && T <= S && NoneOf(h, T)
    ensures Possible(h, es) && Quiet(es, S) && Run(h, es) == g
    ensures LAST in g.store.queue && g.dispatched == h.dispatched
    ensures |Ahead(g, S, LAST)| == |Ahead(h, S, LAST)| + |T| * m
    decreases |T|
  {
    if T == {} {
      es, g := [], h;
    } else {
      var x :| x in T;
      assert h.store.Depth(x) == 0;
      var first, i := SubmitAllAhead(h, x, m, k, S);
      NoneOfTheRest(h, i, x, T);
      var rest: seq<Event>;
      rest, g := OthersSubmit(i, T - {x}, m, k + m, S);
      RunAppend(h, first, rest);
      QuietAppend(first, rest, S);
      OneMore(T, x, m);
      es := first + rest;
    }
  }

  // ----- claims -----

  /** Claims dispatch all that is ahead. */
  lemma {:induction false} ClaimAhead(h: History, S: set<StudentId>) returns (es: seq<Event>)
    requires LAST in h.store.queue && Queued(h) && h.owner.Values <= S
    ensures Possible(h, es) && Quiet(es, S) && LAST in Run(h, es).store.queue
    ensures |Run(h, es).dispatched| == |h.dispatched| + |Ahead(h, S, LAST)|
    decreases |Ahead(h, S, LAST)|
  {
    if Ahead(h, S, LAST) == {} {
      es := [];
    } else {
      NotFirst(h, S);
      ClaimOneAhead(h, S);
      StepKeepsOwners(h, Claim, S);
      var rest := ClaimAhead(Step(h, Claim), S);
      Prepend(h, Claim, rest, Run(Step(h, Claim), rest));
      QuietPrepend(Claim, rest, S);
      es := [Claim] + rest;
    }
  }

  lemma NotFirst(h: History, S: set<StudentId>)
    requires LAST in h.store.queue && Ahead(h, S, LAST) != {}
    ensures First(h.store.queue) != LAST
  {
    var r :| r in Ahead(h, S, LAST);
    MemberLessTotal(r, LAST);
    assert |h.store.queue| > 0 by { assert LAST in h.store.queue.Keys; }
  }

  lemma ClaimOneAhead(h: History, S: set<StudentId>)
    requires LAST in h.store.queue && Queued(h) && h.owner.Values <= S && First(h.store.queue) != LAST
    ensures var g := Step(h, Claim);
      LAST in g.store.queue && |Ahead(g, S, LAST)| == |Ahead(h, S, LAST)| - 1 && |g.dispatched| == |h.dispatched| + 1
  {
    FirstIsAhead(h, LAST);
    AheadAfterClaim(h, S, LAST);
    assert h.owner[First(h.store.queue)] in h.owner.Values;
  }

  // ----- the bound -----

  /** The student's own earlier runs are all ahead of the last. */
  lemma OwnRunsAhead(h: History, t: StudentId, S: set<StudentId>)
    requires Queued(h) && h.owner.Values <= S && t in S && LAST !in h.owner && AllBelow(h, t)
    ensures var a := Step(h, Enqueue(t, LAST));
      LAST in a.store.queue && a.store.queue[LAST] == h.store.Depth(t) && |Ahead(a, S, LAST)| == |h.store.queue|
  {
    var a := Step(h, Enqueue(t, LAST));
    forall r | r in h.store.queue.Keys ensures r in Ahead(a, S, LAST) {
      assert h.owner[r] in h.owner.Values;
    }
    MemberLessTotal(LAST, LAST);
    assert Ahead(a, S, LAST) == h.store.queue.Keys;
  }

  /** The last run waits with score `s` behind `s` others, and the other students
      have submitted nothing. */
  ghost predicate Ready(a: History, S: set<StudentId>, t: StudentId, s: nat) {
    && Numbered(a, s) && LAST in a.store.queue && a.store.queue[LAST] == s
    && |Ahead(a, S, LAST)| == s && a.dispatched == [] && NoneBut(a, t) && a.owner.Values <= S
  }

  lemma SubmitLast(h: History, S: set<StudentId>, t: StudentId, s: nat)
    requires OnlyOwn(h, t, s) && h.store.Depth(t) == s && h.owner.Values <= S && t in S
    ensures Ready(Step(h, Enqueue(t, LAST)), S, t, s)
  {
    OwnRunsAhead(h, t, S);
    SubmitKeepsNoneBut(h, t, LAST);
    StepKeepsOwners(h, Enqueue(t, LAST), S);
  }

  lemma InitIsOwn(t: StudentId)
    ensures OnlyOwn(INIT, t, 0)
  {
  }

  /** The student's `s` runs before the last, and the last. */
  lemma Prelude(S: set<StudentId>, t: StudentId, s: nat) returns (pre: seq<Event>)
    requires t in S
    ensures Possible(INIT, pre) && Quiet(pre, S) && LAST !in Run(INIT, pre).owner && ScoreAfter(pre, t) == s
    ensures Ready(Submitted(pre, t, LAST), S, t, s)
  {
    InitIsOwn(t);
    var h: History;
    pre, h := SubmitOwn(INIT, t, s, 0, S);
    RunKeepsOwners(INIT, pre, S);
    SubmitLast(h, S, t, s);
  }

  /** The others submit, and everything ahead is claimed. */
  lemma Postlude(a: History, S: set<StudentId>, t: StudentId, s: nat) returns (post: seq<Event>)
    requires t in S && Ready(a, S, t, s)
    ensures Possible(a, post) && Quiet(post, S) && LAST in Run(a, post).store.queue
    ensures |Run(a, post).dispatched| == s + |S - {t}| * (s + 1)
  {
    assert NoneOf(a, S - {t}) by { forall y <- S - {t} ensures a.store.Depth(y) == 0 { } }
    var others, g := OthersSubmit(a, S - {t}, s + 1, s, S);
    RunKeepsOwners(a, others, S);
    var claims := ClaimAhead(g, S);
    RunAppend(a, others, claims);
    QuietAppend(others, claims, S);
    post := others + claims;
  }

  /** For every set of students, one of them and every score there is a history
      without releases in which that student's run gets that score and exactly
      (s+1)·N - 1 others are dispatched while it waits. */
  lemma BoundIsMet(S: set<StudentId>, t: StudentId, s: nat) returns (pre: seq<Event>, post: seq<Event>)
    requires t in S
    ensures Possible(INIT, pre) && Quiet(pre, S) && Enabled(Run(INIT, pre), Enqueue(t, LAST)) && ScoreAfter(pre, t) == s
    ensures var a := Submitted(pre, t, LAST);
      && Possible(a, post) && Quiet(post, S) && LAST in Run(a, post).store.queue
      && Overtakers(a, post, |post|) == (s + 1) * |S| - 1
  {
    pre := Prelude(S, t, s);
    post := Postlude(Submitted(pre, t, LAST), S, t, s);
    assert post[..|post|] == post;
    OneMore(S, t, s + 1);
    Commutes(|S|, s + 1);
  }

  lemma Commutes(m: nat, n: nat)
    ensures m * n == n * m
  {
  }
}

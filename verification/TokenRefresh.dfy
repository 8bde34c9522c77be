/** frontend/src/hooks/useTokenRefresh.ts: one token refresh at a time, with the
    requests that fail meanwhile queued as promises. Handlers run to completion;
    only the refresh call itself is awaited. */
module TokenRefresh {
  import opened Wrappers

  type Request = nat

  /** What happened to a queued promise. `Hanging`: neither callback was called. */
  datatype Settled = Resolved(token: string) | Rejected(error: string) | Hanging

  /** How the refresh call ended. */
  datatype Refreshed = Token(token: string) | Failed(error: string)

  /** What the interceptor does with a failed response. */
  datatype Action = PassOn | Queue | StartRefresh

  datatype State = State(
    isRefreshing: bool,
    failedQueue: seq<nat>,       // promises, numbered as they are created
    retried: set<Request>,       // requests whose _retry flag is set
    created: nat,                // promises created
    settled: seq<Settled>,       // settled[p] is what happened to promise p
    inFlight: seq<Request>,      // refresh calls not yet answered, by who started them
    started: seq<Request>)       // every refresh call ever started

  const INIT := State(false, [], {}, 0, [], [], [])

  function Decide(s: State, req: Request, refreshUrl: bool, unauthorized: bool): Action {
    if refreshUrl then PassOn
    else if unauthorized && req !in s.retried then (if s.isRefreshing then Queue else StartRefresh)
    else PassOn
  }

  /** What `processQueue` does to one promise. */
  function Settle(r: Refreshed): Settled {
    match r
    case Failed(error) => Rejected(error)
    case Token(token) => if token == "" then Hanging else Resolved(token)
  }

  datatype Event =
    | ResponseError(req: Request, refreshUrl: bool, unauthorized: bool)
    | RefreshDone(r: Refreshed)

  predicate Enabled(s: State, e: Event) {
    e.RefreshDone? ==> s.inFlight != []
  }

  function Step(s: State, e: Event): State
    requires Enabled(s, e)
  {
    match e
    case ResponseError(req, refreshUrl, unauthorized) =>
      (match Decide(s, req, refreshUrl, unauthorized)
       case PassOn => s
       case Queue => s.(failedQueue := s.failedQueue + [s.created], created := s.created + 1)
       case StartRefresh =>
         s.(isRefreshing := true, retried := s.retried + {req},
            inFlight := s.inFlight + [req], started := s.started + [req]))
    case RefreshDone(r) =>
      s.(isRefreshing := false, failedQueue := [], inFlight := s.inFlight[1..],
         settled := s.settled + seq(|s.failedQueue|, _ => Settle(r)))
  }

  class Interceptor {
    var isRefreshing: bool
    var failedQueue: seq<nat>
    var retried: set<Request>
    var created: nat
    var settled: seq<Settled>
    var inFlight: seq<Request>
    var started: seq<Request>

    ghost function Contents(): State reads this {
      State(isRefreshing, failedQueue, retried, created, settled, inFlight, started)
    }

    constructor ()
      ensures Contents() == INIT
    {
      isRefreshing, failedQueue, retried := false, [], {};
      created, settled, inFlight, started := 0, [], [], [];
    }

    method ProcessQueue(error: Option<string>, token: Option<string>)
      modifies this`failedQueue, this`settled
      ensures failedQueue == []
      ensures settled == old(settled) + seq(|old(failedQueue)|, _ =>
                if error.Some? then Rejected(error.value)
                else if token.Some? && token.value != "" then Resolved(token.value) else Hanging)
    {
      var i := 0;
      while i < |failedQueue|
        invariant 0 <= i <= |failedQueue| && failedQueue == old(failedQueue)
        invariant settled == old(settled) + seq(i, _ =>
                    if error.Some? then Rejected(error.value)
                    else if token.Some? && token.value != "" then Resolved(token.value) else Hanging)
      {
        if error.Some? {
          settled := settled + [Rejected(error.value)];
        } else if token.Some? && token.value != "" {
          settled := settled + [Resolved(token.value)];
        } else {
          settled := settled + [Hanging];
        }
        i := i + 1;
      }
      failedQueue := [];
    }

    /** A response failed: pass the error on, queue a promise, or start a refresh. */
    method OnResponseError(req: Request, refreshUrl: bool, unauthorized: bool) returns (action: Action)
      modifies this
      ensures action == Decide(old(Contents()), req, refreshUrl, unauthorized)
      ensures Contents() == Step(old(Contents()), ResponseError(req, refreshUrl, unauthorized))
      ensures refreshUrl || !unauthorized || req in old(retried) ==> action == PassOn && unchanged(this)
      ensures !refreshUrl && unauthorized && req !in old(retried) ==> isRefreshing && settled == old(settled)
      ensures !refreshUrl && unauthorized && req !in old(retried) && old(isRefreshing) ==>
        && action == Queue && unchanged(`retried, `inFlight, `started)
        && failedQueue == old(failedQueue) + [old(created)] && created == old(created) + 1
      ensures !refreshUrl && unauthorized && req !in old(retried) && !old(isRefreshing) ==>
        && action == StartRefresh && unchanged(`failedQueue, `created)
        && retried == old(retried) + {req} && inFlight == old(inFlight) + [req] && started == old(started) + [req]
    {
      if refreshUrl { return PassOn; }
      if unauthorized && req !in retried {
        if isRefreshing {
          failedQueue := failedQueue + [created];
          created := created + 1;
          return Queue;
        }
        retried := retried + {req};
        isRefreshing := true;
        inFlight := inFlight + [req];
        started := started + [req];
        return StartRefresh;
      }
      action := PassOn;
    }

    /** The awaited refresh call returned or threw. */
    method OnRefreshDone(r: Refreshed)
      requires inFlight != []
      modifies this
      ensures Contents() == Step(old(Contents()), RefreshDone(r))
      ensures !isRefreshing && failedQueue == [] && inFlight == old(inFlight)[1..]
      ensures settled == old(settled) + seq(|old(failedQueue)|, _ =>
                if r.Failed? then Rejected(r.error) else if r.token == "" then Hanging else Resolved(r.token))
      ensures unchanged(`retried, `created, `started)
    {
      inFlight := inFlight[1..];
      match r {
        case Token(token) => ProcessQueue(None, Some(token));
        case Failed(error) => ProcessQueue(Some(error), None);
      }
      isRefreshing := false;
    }
  }

  /** At most one refresh is in flight and the flag says whether; nothing is
      queued otherwise; every promise is queued or settled, once, in order; and
      no request started two refreshes. */
  ghost predicate SingleFlight(s: State) {
    && |s.inFlight| <= 1
    && (s.isRefreshing <==> |s.inFlight| == 1)
    && (!s.isRefreshing ==> s.failedQueue == [])
    && |s.settled| + |s.failedQueue| == s.created
    && (forall i :: 0 <= i < |s.failedQueue| ==> s.failedQueue[i] == |s.settled| + i)
    && (forall r :: r in s.started <==> r in s.retried)
    && (forall i, j :: 0 <= i < j < |s.started| ==> s.started[i] != s.started[j])
  }

  lemma StepKeepsSingleFlight(s: State, e: Event)
    requires SingleFlight(s) && Enabled(s, e)
    ensures SingleFlight(Step(s, e))
  {
    var t := Step(s, e);
    if e.ResponseError? {
      assert forall r :: r in t.started <==> r in s.started || (t != s && |t.started| > |s.started| && r == e.req);
    }
  }

  predicate Possible(s: State, es: seq<Event>)
    decreases |es|
  {
    es == [] || (Enabled(s, es[0]) && Possible(Step(s, es[0]), es[1..]))
  }

  function Run(s: State, es: seq<Event>): State
    requires Possible(s, es)
    decreases |es|
  {
    if es == [] then s else Run(Step(s, es[0]), es[1..])
  }

  /** Over every interleaving of failures and refresh outcomes. */
  lemma {:induction false} RunKeepsSingleFlight(s: State, es: seq<Event>)
    requires SingleFlight(s) && Possible(s, es)
    ensures SingleFlight(Run(s, es))
    ensures s.settled <= Run(s, es).settled
    decreases |es|
  {
    if es != [] {
      StepKeepsSingleFlight(s, es[0]);
      RunKeepsSingleFlight(Step(s, es[0]), es[1..]);
    }
  }

  /** No refresh outcome is an empty token. */
  predicate NonEmptyTokens(es: seq<Event>) {
    forall e <- es :: e.RefreshDone? ==> e.r != Token("")
  }

  /** A completed refresh gives every queued promise its outcome, and leaves none
      hanging exactly when nothing was queued or the token is not empty. */
  lemma RefreshSettlesTheQueue(s: State, r: Refreshed)
    requires SingleFlight(s) && s.isRefreshing
    ensures var t := Step(s, RefreshDone(r));
      && t.failedQueue == [] && !t.isRefreshing
      && (forall p <- s.failedQueue :: p < |t.settled| && t.settled[p] ==
            if r.Failed? then Rejected(r.error) else if r.token == "" then Hanging else Resolved(r.token))
      && (forall p :: 0 <= p < |s.settled| ==> t.settled[p] == s.settled[p])
      && ((forall p <- s.failedQueue :: t.settled[p] != Hanging) <==> s.failedQueue == [] || r != Token(""))
  {
    if s.failedQueue != [] { assert s.failedQueue[0] in s.failedQueue; }
  }

  /** With non-empty tokens no promise is ever left hanging. */
  lemma {:induction false} NothingHangs(s: State, es: seq<Event>)
    requires SingleFlight(s) && Possible(s, es) && NonEmptyTokens(es)
    requires Hanging !in s.settled
    ensures Hanging !in Run(s, es).settled
    decreases |es|
  {
    if es != [] {
      assert es[0] in es;
      StepKeepsSingleFlight(s, es[0]);
      NothingHangs(Step(s, es[0]), es[1..]);
    }
  }

  /** Once no refresh is in flight every promise ever created is settled. */
  lemma QuietMeansSettled(es: seq<Event>)
    requires Possible(INIT, es) && Run(INIT, es).inFlight == []
    ensures |Run(INIT, es).settled| == Run(INIT, es).created
  {
    RunKeepsSingleFlight(INIT, es);
  }

  // ----- which requests start a refresh -----

  /** A failure that asks for a new token. */
  predicate Expired(e: Event, req: Request) { e == ResponseError(req, false, true) }

  lemma {:induction false} RunSnoc(s: State, es: seq<Event>, e: Event)
    requires Possible(s, es + [e])
    ensures Possible(s, es) && Enabled(Run(s, es), e) && Run(s, es + [e]) == Step(Run(s, es), e)
    decreases |es|
  {
    if es == [] {
      assert es + [e] == [e] && [e][1..] == [];
    } else {
      assert (es + [e])[1..] == es[1..] + [e] && (es + [e])[0] == es[0];
      RunSnoc(Step(s, es[0]), es[1..], e);
    }
  }

  function Answers(es: seq<Event>): nat {
    if es == [] then 0 else Answers(es[..|es| - 1]) + (if es[|es| - 1].RefreshDone? then 1 else 0)
  }

  /** A refresh is in flight as long as more were started than answered. */
  lemma {:induction false} InFlightCounts(es: seq<Event>)
    requires Possible(INIT, es)
    ensures |Run(INIT, es).started| == Answers(es) + |Run(INIT, es).inFlight|
  {
    if es != [] {
      var init, last := es[..|es| - 1], es[|es| - 1];
      assert es == init + [last];
      RunSnoc(INIT, init, last);
      InFlightCounts(init);
      RunKeepsSingleFlight(INIT, init);
    }
  }

  /** After these events `req` asks for a new token and no refresh is in flight. */
  predicate StartsAt(es: seq<Event>, i: nat, req: Request) {
    i < |es| && Expired(es[i], req) && Possible(INIT, es[..i]) && Run(INIT, es[..i]).inFlight == []
  }

  /** Over every run a request has started a refresh exactly when some 401 of its,
      outside the refresh URL, came while no refresh was in flight. */
  lemma {:induction false} StartedIff(es: seq<Event>, req: Request)
    requires Possible(INIT, es)
    ensures req in Run(INIT, es).started <==> exists i :: StartsAt(es, i, req)
  {
    if es != [] {
      var init, last := es[..|es| - 1], es[|es| - 1];
      assert es == init + [last];
      RunSnoc(INIT, init, last);
      StartedIff(init, req);
      RunKeepsSingleFlight(INIT, init);
      forall i: nat ensures StartsAt(es, i, req) <==> StartsAt(init, i, req) || (i == |init| && StartsAt(es, i, req)) {
        if i < |init| { assert es[..i] == init[..i]; }
      }
      assert es[..|init|] == init;
      StartedStep(Run(INIT, init), last, req);
      assert StartsAt(es, |init|, req) <==> Expired(last, req) && Run(INIT, init).inFlight == [];
    }
  }

  lemma StartedStep(s: State, e: Event, req: Request)
    requires SingleFlight(s) && Enabled(s, e)
    ensures req in Step(s, e).started <==> req in s.started || (Expired(e, req) && s.inFlight == [])
  {
  }
}

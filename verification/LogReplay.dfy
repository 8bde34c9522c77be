/** Run logs: the bounded replay buffer of worker/tasks/orfs_job.py and the
    replay-then-subscribe client of backend/app/api/websocket.py. */
module LogReplay {
  type Line = string

  const LOG_BUFFER_MAX := 5000

  /** LTRIM key -n -1 */
  function LastN(s: seq<Line>, n: nat): seq<Line> {
    if |s| <= n then s else s[|s| - n..]
  }

  // ----- publish_line and log_stream -----

  class LogBuffer {
    var published: seq<Line>   // everything sent on the channel, oldest first
    var buf: seq<Line>         // the replay list

    constructor ()
      ensures published == [] && buf == []
    {
      published, buf := [], [];
    }

    method PublishLine(line: Line)
      modifies this
      ensures published == old(published) + [line]
      ensures buf == LastN(old(buf) + [line], LOG_BUFFER_MAX)
      ensures |old(buf)| < LOG_BUFFER_MAX ==> buf == old(buf) + [line]
      ensures |old(buf)| == LOG_BUFFER_MAX ==> buf == old(buf)[1..] + [line]
    {
      published := published + [line];
      buf := buf + [line];
      if |buf| > LOG_BUFFER_MAX { buf := buf[|buf| - LOG_BUFFER_MAX..]; }
    }
  }

  /** The buffer after `publish_line` was called for each of `lines`. */
  function BufferAfter(lines: seq<Line>): seq<Line> {
    if lines == [] then [] else LastN(BufferAfter(lines[..|lines| - 1]) + [lines[|lines| - 1]], LOG_BUFFER_MAX)
  }

  /** The buffer is the last LOG_BUFFER_MAX published lines, in order. */
  lemma {:induction false} BufferIsTheTail(lines: seq<Line>)
    ensures BufferAfter(lines) == LastN(lines, LOG_BUFFER_MAX)
  {
    if lines != [] {
      var init, last := lines[..|lines| - 1], lines[|lines| - 1];
      BufferIsTheTail(init);
      LastNPush(init, last, LOG_BUFFER_MAX);
      assert init + [last] == lines;
    }
  }

  lemma LastNPush(s: seq<Line>, line: Line, n: nat)
    ensures LastN(LastN(s, n) + [line], n) == LastN(s + [line], n)
  {
  }

  /** What the subscription delivers: its own confirmation, and messages. */
  datatype Incoming = Subscribed | Message(data: Line)

  function Payloads(ms: seq<Incoming>): seq<Line> {
    if ms == [] then [] else
      Payloads(ms[..|ms| - 1]) + (if ms[|ms| - 1].Message? then [ms[|ms| - 1].data] else [])
  }

  method LogStream(buffered: seq<Line>, incoming: seq<Incoming>) returns (sent: seq<Line>)
    ensures sent == buffered + Payloads(incoming)
  {
    sent := [];
    for i := 0 to |buffered|
      invariant sent == buffered[..i]
    {
      sent := sent + [buffered[i]];
    }
    for i := 0 to |incoming|
      invariant sent == buffered + Payloads(incoming[..i])
    {
      assert incoming[..i + 1][..i] == incoming[..i];
      if incoming[i].Message? { sent := sent + [incoming[i].data]; }
    }
    assert incoming[..|incoming|] == incoming;
  }

  lemma {:induction false} PayloadsAppend(a: seq<Incoming>, b: seq<Incoming>)
    ensures Payloads(a + b) == Payloads(a) + Payloads(b)
  {
    if b == [] {
      assert a + b == a;
    } else {
      var init, last := b[..|b| - 1], b[|b| - 1];
      PayloadsAppend(a, init);
      assert (a + b)[..|a + b| - 1] == a + init;
    }
  }

  /** Every message is forwarded where it comes, an empty line too, and nothing else
      is. */
  lemma MessageIsForwarded(a: seq<Incoming>, line: Line, b: seq<Incoming>)
    ensures Payloads(a + [Message(line)] + b) == Payloads(a) + [line] + Payloads(b)
    ensures Payloads(a + [Subscribed] + b) == Payloads(a) + Payloads(b)
    ensures Payloads([]) == []
  {
    assert [Message(line)][..0] == [] && [Subscribed][..0] == [];
    PayloadsAppend(a, [Message(line)]);
    PayloadsAppend(a + [Message(line)], b);
    PayloadsAppend(a, [Subscribed]);
    PayloadsAppend(a + [Subscribed], b);
    assert Payloads(a) + [] == Payloads(a);
  }

  // ----- interleaved micro-steps -----

  /** Where the publisher is inside `publish_line`. */
  datatype Publisher = Idle | Published | Pushed

  /** Where the client is, with the line counts that describe what it got: it
      replayed lines lo..n1, and subscribed when n2 lines had been published. */
  datatype Client = Joining | Replayed(lo: nat, n1: nat) | Live(lo: nat, n1: nat, n2: nat)

  datatype State = State(
    published: seq<Line>,
    pushed: nat,
    buf: seq<Line>,
    publisher: Publisher,
    client: Client,
    received: seq<Line>)

  const INIT := State([], 0, [], Idle, Joining, [])

  datatype Event = Publish(line: Line) | RPush | LTrim | LRange | Subscribe

  predicate Enabled(s: State, e: Event) {
    match e
    case Publish(_) => s.publisher.Idle?
    case RPush => s.publisher.Published? && s.published != []
    case LTrim => s.publisher.Pushed?
    case LRange => s.client.Joining?
    case Subscribe => s.client.Replayed?
  }

  function Step(s: State, e: Event): State
    requires Enabled(s, e)
  {
    match e
    case Publish(line) =>
      s.(published := s.published + [line], publisher := Published,
         received := if s.client.Live? then s.received + [line] else s.received)
    case RPush =>
      s.(buf := s.buf + [s.published[|s.published| - 1]], pushed := s.pushed + 1, publisher := Pushed)
    case LTrim =>
      s.(buf := LastN(s.buf, LOG_BUFFER_MAX), publisher := Idle)
    case LRange =>
      s.(received := s.buf, client := Replayed(if |s.buf| <= s.pushed then s.pushed - |s.buf| else 0, s.pushed))
    case Subscribe =>
      s.(client := Live(s.client.lo, s.client.n1, |s.published|))
  }

  predicate Possible(s: State, es: seq<Event>)
    decreases |es|
  {
    es == [] || (Enabled(s, es[0]) && Possible(Step(s, es[0]), es[1..]))
  }

  function Run(s: State, es: seq<Event>): State
    requires Possible(s, es)
    decreases |es|
  {
    if es == [] then s else Run(Step(s, es[0]), es[1..])
  }

  /** The buffer is the last lines pushed: at most LOG_BUFFER_MAX, and one more
      between RPUSH and LTRIM. */
  predicate BufferOk(s: State) {
    && s.pushed == |s.published| - (if s.publisher.Published? then 1 else 0)
    && |s.buf| <= s.pushed && s.buf == s.published[s.pushed - |s.buf|..s.pushed]
    && (if s.publisher.Pushed?
        then s.pushed >= 1 && |s.buf| == 1 + (if s.pushed - 1 <= LOG_BUFFER_MAX then s.pushed - 1 else LOG_BUFFER_MAX)
        else |s.buf| == if s.pushed <= LOG_BUFFER_MAX then s.pushed else LOG_BUFFER_MAX)
  }

  /** The client has a contiguous slice ending at line n1 and then every line
      from n2 on, with n1 <= n2. */
  predicate ClientOk(s: State) {
    match s.client
    case Joining => s.received == []
    case Replayed(lo, n1) =>
      lo <= n1 <= s.pushed <= |s.published| && s.received == s.published[lo..n1]
      && ReplayBound(lo, n1)
    case Live(lo, n1, n2) =>
      lo <= n1 <= n2 <= |s.published| && s.received == s.published[lo..n1] + s.published[n2..]
      && ReplayBound(lo, n1)
  }

  /** The replay starts at the first line, or reaches back LOG_BUFFER_MAX lines
      (one more when a push was not yet trimmed). */
  predicate ReplayBound(lo: nat, n1: nat) {
    n1 - lo <= LOG_BUFFER_MAX + 1 && (lo == 0 || n1 - lo >= LOG_BUFFER_MAX)
  }

  predicate Good(s: State) { BufferOk(s) && ClientOk(s) }

  lemma StepKeepsBuffer(s: State, e: Event)
    requires BufferOk(s) && Enabled(s, e)
    ensures BufferOk(Step(s, e))
  {
    if e.RPush? {
      assert s.published[s.pushed - |s.buf|..s.pushed] + [s.published[s.pushed]]
          == s.published[s.pushed - |s.buf|..s.pushed + 1];
    }
  }

  lemma StepKeepsClient(s: State, e: Event)
    requires Good(s) && Enabled(s, e)
    ensures ClientOk(Step(s, e))
  {
    match e
    case Publish(line) =>
      if s.client.Live? {
        assert (s.published + [line])[s.client.n2..] == s.published[s.client.n2..] + [line];
        assert (s.published + [line])[s.client.lo..s.client.n1] == s.published[s.client.lo..s.client.n1];
      } else if s.client.Replayed? {
        assert (s.published + [line])[s.client.lo..s.client.n1] == s.published[s.client.lo..s.client.n1];
      }
    case Subscribe => assert s.published[|s.published|..] == [];
    case _ =>
  }

  /** Every interleaving of one publisher and one joining client keeps what the
      client received in order and without repeats. */
  lemma {:induction false} RunKeepsGood(s: State, es: seq<Event>)
    requires Good(s) && Possible(s, es)
    ensures Good(Run(s, es))
    decreases |es|
  {
    if es != [] {
      StepKeepsBuffer(s, es[0]);
      StepKeepsClient(s, es[0]);
      RunKeepsGood(Step(s, es[0]), es[1..]);
    }
  }

  /** The three micro-steps of one call, uninterrupted, do what `PublishLine`
      does. */
  lemma WholePublish(s: State, line: Line)
    requires s.publisher.Idle?
    ensures var es := [Publish(line), RPush, LTrim];
      && Possible(s, es)
      && Run(s, es).published == s.published + [line]
      && Run(s, es).buf == LastN(s.buf + [line], LOG_BUFFER_MAX)
      && Run(s, es).publisher.Idle?
  {
    var es := [Publish(line), RPush, LTrim];
    var s1 := Step(s, Publish(line));
    var s2 := Step(s1, RPush);
    assert es[1..] == [RPush, LTrim] && es[1..][1..] == [LTrim] && es[1..][1..][1..] == [];
    assert Possible(s2, [LTrim]) && Run(s2, [LTrim]) == Step(s2, LTrim);
    assert Possible(s1, [RPush, LTrim]) && Run(s1, [RPush, LTrim]) == Step(s2, LTrim);
  }

  /** The lines a live client never gets: those trimmed before it joined and
      those published in the gap. It has the full log exactly when there are
      none. */
  lemma FullHistoryIff(es: seq<Event>)
    requires Possible(INIT, es) && Run(INIT, es).client.Live?
    ensures var s := Run(INIT, es);
      && s.client.lo <= s.client.n1 <= s.client.n2 <= |s.published|
      && s.received == s.published[s.client.lo..s.client.n1] + s.published[s.client.n2..]
      && (s.received == s.published <==> s.client.lo == 0 && s.client.n1 == s.client.n2)
  {
    RunKeepsGood(INIT, es);
    var s := Run(INIT, es);
    if s.client.lo == 0 && s.client.n1 == s.client.n2 {
      assert s.published[0..s.client.n1] + s.published[s.client.n1..] == s.published;
    }
  }

  function Publishes(es: seq<Event>): nat {
    if es == [] then 0 else (if es[0].Publish? then 1 else 0) + Publishes(es[1..])
  }

  lemma {:induction false} PublishedGrows(s: State, es: seq<Event>)
    requires Possible(s, es)
    ensures |Run(s, es).published| == |s.published| + Publishes(es)
    ensures !s.client.Joining? && Subscribe !in es ==> Run(s, es).client == s.client
    decreases |es|
  {
    if es != [] {
      assert es[0] in es;
      PublishedGrows(Step(s, es[0]), es[1..]);
    }
  }

  /** The gap between replay and subscription is the number of lines published
      in between, plus the one that was published but not yet pushed. */
  lemma GapSize(pre: seq<Event>, mid: seq<Event>)
    requires Possible(INIT, pre) && Run(INIT, pre).client.Joining?
    requires Possible(Step(Run(INIT, pre), LRange), mid) && Subscribe !in mid
    ensures var s := Run(INIT, pre);
      var t := Run(Step(s, LRange), mid);
      && Enabled(t, Subscribe)
      && var c := Step(t, Subscribe).client;
      && c.lo == s.pushed - |s.buf| && c.n1 == s.pushed
      && c.n2 - c.n1 == Publishes(mid) + (if s.publisher.Published? then 1 else 0)
  {
    RunKeepsGood(INIT, pre);
    PublishedGrows(Step(Run(INIT, pre), LRange), mid);
  }

  lemma {:induction false} RunAppend(s: State, a: seq<Event>, b: seq<Event>)
    requires Possible(s, a + b)
    ensures Possible(s, a) && Possible(Run(s, a), b) && Run(s, a + b) == Run(Run(s, a), b)
    decreases |a|
  {
    if a == [] {
      assert a + b == b;
    } else {
      assert (a + b)[1..] == a[1..] + b && (a + b)[0] == a[0];
      RunAppend(Step(s, a[0]), a[1..], b);
    }
  }

  lemma FirstStep(s: State, e: Event, rest: seq<Event>)
    requires Possible(s, [e] + rest)
    ensures Enabled(s, e) && Possible(Step(s, e), rest) && Run(s, [e] + rest) == Run(Step(s, e), rest)
  {
    assert ([e] + rest)[1..] == rest;
  }

  /** A client that is live stays as it joined. */
  lemma {:induction false} LiveStaysLive(s: State, es: seq<Event>)
    requires s.client.Live? && Possible(s, es)
    ensures Run(s, es).client == s.client
    decreases |es|
  {
    if es != [] { LiveStaysLive(Step(s, es[0]), es[1..]); }
  }

  /** A client that has replayed does nothing but subscribe. */
  lemma {:induction false} NoEarlySubscription(s: State, mid: seq<Event>, rest: seq<Event>)
    requires s.client.Replayed? && Possible(s, mid + [Subscribe] + rest)
    ensures Subscribe !in mid
    decreases |mid|
  {
    if mid != [] {
      var es := mid + [Subscribe] + rest;
      assert es[0] == mid[0] && es[1..] == mid[1..] + [Subscribe] + rest;
      if mid[0] == Subscribe {
        OnlyOneSubscription(Step(s, Subscribe), mid[1..], rest);
      } else {
        NoEarlySubscription(Step(s, mid[0]), mid[1..], rest);
        assert mid == [mid[0]] + mid[1..];
      }
    }
  }

  lemma {:induction false} OnlyOneSubscription(s: State, mid: seq<Event>, rest: seq<Event>)
    requires s.client.Live?
    ensures !Possible(s, mid + [Subscribe] + rest)
    decreases |mid|
  {
    var es := mid + [Subscribe] + rest;
    if mid == [] {
      assert es[0] == Subscribe;
    } else {
      assert es[0] == mid[0] && es[1..] == mid[1..] + [Subscribe] + rest;
      if Enabled(s, mid[0]) { OnlyOneSubscription(Step(s, mid[0]), mid[1..], rest); }
    }
  }

  /** How the client stands after any schedule in which it joins, read off the
      schedule: `s` is the state in which it replays. */
  lemma JoinedClient(pre: seq<Event>, mid: seq<Event>, post: seq<Event>)
    requires Possible(INIT, pre + ([LRange] + (mid + [Subscribe] + post)))
    ensures Possible(INIT, pre)
    ensures var s := Run(INIT, pre);
      var c := Run(INIT, pre + ([LRange] + (mid + [Subscribe] + post))).client;
      && c.Live? && |s.buf| <= s.pushed && c.lo == s.pushed - |s.buf| && c.n1 == s.pushed
      && c.n2 - c.n1 == Publishes(mid) + (if s.publisher.Published? then 1 else 0)
  {
    var tail := mid + [Subscribe] + post;
    RunAppend(INIT, pre, [LRange] + tail);
    var s := Run(INIT, pre);
    FirstStep(s, LRange, tail);
    var r := Step(s, LRange);
    NoEarlySubscription(r, mid, post);
    assert tail == mid + ([Subscribe] + post);
    RunAppend(r, mid, [Subscribe] + post);
    GapSize(pre, mid);
    FirstStep(Run(r, mid), Subscribe, post);
    LiveStaysLive(Step(Run(r, mid), Subscribe), post);
  }

  /** The lines pushed are the RPUSH steps of the schedule. */
  lemma {:induction false} PushedCounts(s: State, es: seq<Event>)
    requires Possible(s, es)
    ensures Run(s, es).pushed == s.pushed + Pushes(es)
    decreases |es|
  {
    if es != [] { PushedCounts(Step(s, es[0]), es[1..]); }
  }

  function Pushes(es: seq<Event>): nat {
    if es == [] then 0 else (if es[0].RPush? then 1 else 0) + Pushes(es[1..])
  }

  /** Whether a late joiner gets the whole log, from the schedule alone: when it
      replays, no more lines were pushed than the buffer holds and none is
      published but not yet pushed; and none is published before it subscribes. */
  lemma FullLogIff(pre: seq<Event>, mid: seq<Event>, post: seq<Event>)
    requires Possible(INIT, pre + ([LRange] + (mid + [Subscribe] + post)))
    ensures Possible(INIT, pre)
    ensures var s := Run(INIT, pre);
      var t := Run(INIT, pre + ([LRange] + (mid + [Subscribe] + post)));
      t.received == t.published <==>
        && (Pushes(pre) <= LOG_BUFFER_MAX || (Pushes(pre) == LOG_BUFFER_MAX + 1 && s.publisher.Pushed?))
        && !s.publisher.Published?
        && Publishes(mid) == 0
  {
    JoinedClient(pre, mid, post);
    PushedCounts(INIT, pre);
    FullHistoryIff(pre + ([LRange] + (mid + [Subscribe] + post)));
    RunKeepsGood(INIT, pre);
  }

  /** One line published after the replay and before the subscription is lost,
      although the buffer never overflowed. */
  lemma LateJoinerCanMissALine(line: Line)
    ensures var es := [LRange, Publish(line), Subscribe];
      Possible(INIT, es) && Run(INIT, es).published == [line] && Run(INIT, es).received == []
  {
    var es := [LRange, Publish(line), Subscribe];
    var s1 := Step(INIT, LRange);
    var s2 := Step(s1, Publish(line));
    var s3 := Step(s2, Subscribe);
    assert es[1..] == [Publish(line), Subscribe] && es[1..][1..] == [Subscribe] && es[1..][1..][1..] == [];
    assert Run(s2, [Subscribe]) == Run(s3, []) == s3;
    assert Run(s1, [Publish(line), Subscribe]) == s3;
  }

  // ----- the client of the model is the client of the method -----

  /** What the subscription delivers during these steps. */
  function Deliveries(es: seq<Event>): seq<Incoming> {
    if es == [] then [] else (if es[0].Publish? then [Message(es[0].line)] else []) + Deliveries(es[1..])
  }

  lemma DeliveriesFirst(e: Event, rest: seq<Incoming>)
    ensures Payloads((if e.Publish? then [Message(e.line)] else []) + rest) ==
      (if e.Publish? then [e.line] else []) + Payloads(rest)
  {
    var first := if e.Publish? then [Message(e.line)] else [];
    if e.Publish? { assert first[..0] == []; }
    PayloadsAppend(first, rest);
  }

  lemma LiveStep(s: State, e: Event)
    requires s.client.Live? && Enabled(s, e)
    ensures Step(s, e).client.Live? && Step(s, e).received == s.received + (if e.Publish? then [e.line] else [])
  {
  }

  lemma Associate(a: seq<Line>, b: seq<Line>, c: seq<Line>)
    ensures a + (b + c) == (a + b) + c
  {
  }

  /** A live client gets every line delivered, in order. */
  lemma {:induction false} LiveReceives(s: State, es: seq<Event>)
    requires s.client.Live? && Possible(s, es)
    ensures Run(s, es).received == s.received + Payloads(Deliveries(es))
    decreases |es|
  {
    if es != [] {
      var first := if es[0].Publish? then [es[0].line] else [];
      LiveStep(s, es[0]);
      LiveReceives(Step(s, es[0]), es[1..]);
      DeliveriesFirst(es[0], Deliveries(es[1..]));
      Associate(s.received, first, Payloads(Deliveries(es[1..])));
    }
  }

  /** A client that has replayed and not subscribed gets nothing. */
  lemma {:induction false} ReplayedReceivesNothing(s: State, es: seq<Event>)
    requires s.client.Replayed? && Possible(s, es) && Subscribe !in es
    ensures Run(s, es).received == s.received && Run(s, es).client.Replayed?
    decreases |es|
  {
    if es != [] {
      assert es[0] in es;
      ReplayedReceivesNothing(Step(s, es[0]), es[1..]);
    }
  }

  /** From the replay on. */
  lemma ReplayThenLive(r: State, mid: seq<Event>, post: seq<Event>)
    requires r.client.Replayed? && Possible(r, mid + ([Subscribe] + post)) && Subscribe !in mid
    ensures Run(r, mid + ([Subscribe] + post)).received == r.received + Payloads(Deliveries(post))
  {
    RunAppend(r, mid, [Subscribe] + post);
    ReplayedReceivesNothing(r, mid);
    FirstStep(Run(r, mid), Subscribe, post);
    LiveReceives(Step(Run(r, mid), Subscribe), post);
  }

  lemma ConfirmationIsNotForwarded(ms: seq<Incoming>)
    ensures Payloads([Subscribed] + ms) == Payloads(ms)
  {
    var none: seq<Incoming> := [];
    MessageIsForwarded(none, "", ms);
    assert none + [Subscribed] + ms == [Subscribed] + ms;
    assert Payloads(none) + Payloads(ms) == Payloads(ms);
  }

  /** After any schedule in which the client joins, it has received exactly what
      `LogStream` sends for the buffer it read and for what was delivered since. */
  lemma LogStreamSendsReceived(pre: seq<Event>, mid: seq<Event>, post: seq<Event>)
    requires Possible(INIT, pre + ([LRange] + (mid + [Subscribe] + post)))
    ensures Possible(INIT, pre)
    ensures Run(INIT, pre + ([LRange] + (mid + [Subscribe] + post))).received ==
      Run(INIT, pre).buf + Payloads([Subscribed] + Deliveries(post))
  {
    var tail := mid + [Subscribe] + post;
    RunAppend(INIT, pre, [LRange] + tail);
    var s := Run(INIT, pre);
    FirstStep(s, LRange, tail);
    NoEarlySubscription(Step(s, LRange), mid, post);
    assert tail == mid + ([Subscribe] + post);
    ReplayThenLive(Step(s, LRange), mid, post);
    ConfirmationIsNotForwarded(Deliveries(post));
  }
}

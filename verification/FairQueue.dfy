/** worker/tasks/fair_queue.py: the sorted set of waiting runs and the
    per-student depth counters, as values and as the mutable Redis keys. */
module FairQueue {
  import opened Wrappers
  import opened SortedSet

  type StudentId = string
  type RunId = Member

  /** The Redis keys: `fair_queue:normal` and `fair_queue:depth:{student}`. */
  datatype Store = Store(queue: ZSet, depth: map<StudentId, nat>) {
    /** A missing counter reads as 0. */
    function Depth(student: StudentId): nat {
      if student in depth then depth[student] else 0
    }

    function Enqueue(student: StudentId, run: RunId): Store {
      Store(queue[run := Depth(student)], depth[student := Depth(student) + 1])
    }

    function Release(student: StudentId): Store {
      if Depth(student) > 0 then this.(depth := depth[student := Depth(student) - 1]) else this
    }

    ghost function Claim(): Store {
      if |queue| == 0 then this else this.(queue := Remove(queue, First(queue)))
    }
  }

  /** Popping the first run moves it from the dispatch order to the log. */
  lemma PopStep(log: seq<Member>, z: ZSet)
    requires |z| > 0
    ensures log + Order(z) == (log + [First(z)]) + Order(Remove(z, First(z)))
  {
  }

  /** Where `submit_job` sends a new run. */
  datatype Route = HighPriority | FairSet | DirectCelery

  /** Which Redis call of `submit_job` raises first, if any. */
  datatype Fault = NoFault | BeforeAdd | AtIncr

  class RedisFairQueue {
    var queue: ZSet
    var depth: map<StudentId, nat>

    ghost function Contents(): Store reads this { Store(queue, depth) }

    constructor ()
      ensures Contents() == Store(map[], map[])
    {
      queue, depth := map[], map[];
    }

    method GetStudentQueueDepth(student: StudentId) returns (d: nat)
      ensures d == Contents().Depth(student)
      ensures d == if student in depth then depth[student] else 0
    {
      if student in depth { d := depth[student]; } else { d := 0; }
    }

    method EnqueueStudentJob(student: StudentId, run: RunId) returns (score: nat)
      modifies this
      ensures score == old(Contents()).Depth(student)
      ensures Contents() == old(Contents()).Enqueue(student, run)
      ensures queue == old(queue)[run := score] && depth == old(depth)[student := score + 1]
    {
      score := GetStudentQueueDepth(student);
      queue := queue[run := score];
      depth := depth[student := score + 1];
    }

    method ClaimNextJob() returns (run: Option<RunId>)
      modifies this`queue
      ensures run == if |old(queue)| == 0 then None else Some(First(old(queue)))
      ensures Contents() == old(Contents()).Claim()
    {
      if |queue| == 0 { return None; }
      FirstExists(queue);
      var m :| m in queue && IsFirst(queue, m);
      FirstUnique(queue, m, First(queue));
      queue := Remove(queue, m);
      run := Some(m);
    }

    method ReleaseStudentSlot(student: StudentId)
      modifies this`depth
      ensures Contents() == old(Contents()).Release(student)
      ensures depth == if student in old(depth) && old(depth)[student] > 0
                       then old(depth)[student := old(depth)[student] - 1] else old(depth)
    {
      var current := GetStudentQueueDepth(student);
      if current > 0 { depth := depth[student := current - 1]; }
    }

    /** One beat: `dispatched` are the runs handed to Celery, in order. */
    method DrainQueue(maxConcurrent: int, running: nat) returns (dispatched: seq<RunId>)
      modifies this`queue
      ensures |dispatched| == Min(Max(0, maxConcurrent - running), |old(queue)|)
      ensures dispatched + Order(queue) == Order(old(queue))
      ensures Keeps(queue, old(queue))
    {
      var capacity := maxConcurrent - running;
      dispatched := [];
      var i := 0;
      while i < Max(0, capacity)
        invariant 0 <= i <= Max(0, capacity) && |dispatched| == i
        invariant dispatched + Order(queue) == Order(old(queue))
        invariant Keeps(queue, old(queue))
      {
        ghost var was := queue;
        var next := ClaimNextJob();
        if next == None { break; }
        PopStep(dispatched, was);
        dispatched := dispatched + [next.value];
        i := i + 1;
      }
      assert |Order(queue)| == |queue|;
    }

    /** `submit_job` after the run row is committed. A fault sends the run
        straight to Celery; when it comes between the ZADD and the INCR, the run
        stays in the sorted set as well and will be dispatched twice. */
    method SubmitJob(privileged: bool, fault: Fault, user: StudentId, run: RunId) returns (route: Route)
      modifies this
      ensures route == if privileged then HighPriority else if fault == NoFault then FairSet else DirectCelery
      ensures route == FairSet ==> Contents() == old(Contents()).Enqueue(user, run)
      ensures route != FairSet ==> depth == old(depth)
      ensures route != FairSet && run !in old(queue) ==>
        (queue == old(queue) <==> privileged || fault == BeforeAdd)
        && (run in queue <==> !privileged && fault == AtIncr)
      ensures forall r <- old(queue) :: r != run ==> r in queue && queue[r] == old(queue)[r]
    {
      if privileged { return HighPriority; }
      if fault == BeforeAdd { return DirectCelery; }
      var score := GetStudentQueueDepth(user);
      queue := queue[run := score];
      if fault == AtIncr { return DirectCelery; }
      depth := depth[user := score + 1];
      route := FairSet;
    }
  }

  /** What a drain leaves behind: `z` is the queue before, `r` the queue after,
      `gone` what it dispatched. Every run is dispatched or kept, never both. */
  lemma DrainPartition(z: ZSet, r: ZSet, gone: seq<RunId>, m: RunId)
    requires gone + Order(r) == Order(z)
    ensures m in z <==> m in r || m in gone
    ensures !(m in r && m in gone)
  {
    OrderListsMembers(z, m);
    OrderListsMembers(r, m);
    if m in r && m in gone {
      DispatchedFirst(z, r, gone, m, m);
      MemberLessTotal(m, m);
    }
  }

  /** Every run a drain dispatches is before every run it leaves. */
  lemma DispatchedFirst(z: ZSet, r: ZSet, gone: seq<RunId>, m: RunId, kept: RunId)
    requires gone + Order(r) == Order(z) && m in gone && kept in r
    ensures m in z && kept in z && Before(z, m, kept)
  {
    OrderListsMembers(r, kept);
    var i :| 0 <= i < |gone| && gone[i] == m;
    var j :| 0 <= j < |r| && Order(r)[j] == kept;
    var o := Order(z);
    assert o[i] == m && o[|gone| + j] == kept;
    OrderIsSorted(z, i, |gone| + j);
  }
}

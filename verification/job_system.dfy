/** The sequential skeleton of `won::jobsystem`: jobs that iterate a range of
    indices, FIFO queues per worker, the per-tier modulus lookup table and
    round-robin queue choice, the thread-count policy of `Initialize`,
    `ShutDown`, and `Execute`/`Dispatch`/`Wait` run on one thread.

    Worker threads are not modelled: a job either runs inline (a tier with
    no workers) or waits in a queue until a `Work` sweep drains it. A task
    is represented by an identifier, and running it records one `Call` in
    the trace. Each context's counter lives in `counters`, keyed by the
    context's identifier; an absent key reads as 0. The counter is a plain
    integer: its `uint32` wrap-around is not modelled. */
module JobSystem {
  import opened Common
  import MathUtils

  type CtxId = nat
  type TaskId = nat

  datatype Priority = High | Low | Streaming

  /** The index of a priority in `resources[Priority::Count]`. */
  function TierIndex(p: Priority): (i: nat)
    ensures i < TierCount
  {
    match p
    case High => 0
    case Low => 1
    case Streaming => 2
  }

  const TierCount: nat := 3

  /** `arraysize(PriorityResources::mod_lut)`. */
  const LutSize: nat := 256

  datatype JobArgs = JobArgs(
    jobIndex: nat,
    groupId: nat,
    groupIndex: nat,
    isFirstJobInGroup: bool,
    isLastJobInGroup: bool)

  /** One invocation of a task, as the trace records it. */
  datatype Call = Call(task: TaskId, args: JobArgs)

  /** A job covers the job indices [offset, end) of one group. */
  datatype Job = Job(ctx: CtxId, task: TaskId, groupId: nat, offset: nat, end: nat)

  datatype Context = Context(id: CtxId, priority: Priority)

  // ---------------------------------------------------------------------
  // Job::Execute

  /** The calls the loop of `Job::Execute` makes from index `j` on. */
  function CallsFrom(job: Job, j: nat): (r: seq<Call>)
    requires job.offset <= j
    ensures |r| == if j < job.end then job.end - j else 0
    ensures forall k :: 0 <= k < |r| ==>
      r[k].task == job.task &&
      r[k].args.jobIndex == j + k &&
      r[k].args.groupId == job.groupId &&
      r[k].args.groupIndex == j + k - job.offset &&
      r[k].args.isFirstJobInGroup == (j + k == job.offset) &&
      r[k].args.isLastJobInGroup == (j + k + 1 == job.end)
    decreases job.end - j
  {
    if j >= job.end then []
    else
      [Call(job.task, JobArgs(j, job.groupId, j - job.offset, j == job.offset, j == job.end - 1))]
      + CallsFrom(job, j + 1)
  }

  /** All calls one job makes, in ascending index order. */
  function Calls(job: Job): seq<Call> {
    CallsFrom(job, job.offset)
  }

  /** The job indices a run of calls visited. */
  function Indices(calls: seq<Call>): (r: seq<nat>)
    ensures |r| == |calls|
    ensures forall k :: 0 <= k < |r| ==> r[k] == calls[k].args.jobIndex
  {
    if |calls| == 0 then [] else [calls[0].args.jobIndex] + Indices(calls[1..])
  }

  lemma {:induction false} IndicesAppend(a: seq<Call>, b: seq<Call>)
    ensures Indices(a + b) == Indices(a) + Indices(b)
  {
    var l, r := Indices(a + b), Indices(a) + Indices(b);
    assert |l| == |r|;
    forall k | 0 <= k < |l|
      ensures l[k] == r[k]
    {
      if k < |a| {
        assert (a + b)[k] == a[k];
      } else {
        assert (a + b)[k] == b[k - |a|];
      }
    }
  }

  /** A job visits exactly its own index range, in order. */
  lemma JobVisitsItsRange(job: Job)
    ensures Indices(Calls(job)) == Range(job.offset, job.end)
  {
    var a, b := Indices(Calls(job)), Range(job.offset, job.end);
    assert |a| == |b|;
    assert forall k :: 0 <= k < |a| ==> a[k] == b[k];
  }

  // ---------------------------------------------------------------------
  // JobQueue

  /** A deque of jobs with the atomic `count` beside it. */
  datatype Queue = Queue(items: seq<Job>, count: nat)

  const EmptyQueue: Queue := Queue([], 0)

  /** `count` tracks the number of items. */
  predicate QueueOk(q: Queue) {
    q.count == |q.items|
  }

  function PushBack(q: Queue, job: Job): (r: Queue)
    ensures QueueOk(q) ==> QueueOk(r)
    ensures r.items == q.items + [job]
  {
    Queue(q.items + [job], q.count + 1)
  }

  /** `PopFront`: nothing when the count is zero or the deque is empty;
      otherwise the front job. */
  function PopFront(q: Queue): (r: (Option<Job>, Queue))
    ensures QueueOk(q) ==> QueueOk(r.1)
    ensures r.0 == None ==> r.1 == q
    ensures r.0 != None ==> |q.items| > 0 && r.0.value == q.items[0] && r.1.items == q.items[1..]
    ensures QueueOk(q) ==> (r.0 == None <==> |q.items| == 0)
  {
    if q.count == 0 then (None, q)
    else if |q.items| == 0 then (None, q)
    else (Some(q.items[0]), Queue(q.items[1..], q.count - 1))
  }

  function PushAll(q: Queue, jobs: seq<Job>): (r: Queue)
    ensures QueueOk(q) ==> QueueOk(r)
    ensures r.items == q.items + jobs
    decreases |jobs|
  {
    if |jobs| == 0 then q else PushAll(PushBack(q, jobs[0]), jobs[1..])
  }

  /** Pop until `PopFront` fails, collecting the jobs in order. */
  function PopAll(q: Queue): (r: seq<Job>)
    decreases |q.items|
  {
    var (front, rest) := PopFront(q);
    if front == None then [] else [front.value] + PopAll(rest)
  }

  /** The queue is FIFO: what is pushed comes out in the same order. */
  lemma {:induction false} QueueIsFifo(jobs: seq<Job>)
    ensures PopAll(PushAll(EmptyQueue, jobs)) == jobs
  {
    PopAllOk(PushAll(EmptyQueue, jobs));
  }

  lemma {:induction false} PopAllOk(q: Queue)
    requires QueueOk(q)
    ensures PopAll(q) == q.items
    decreases |q.items|
  {
    var (front, rest) := PopFront(q);
    if front != None {
      PopAllOk(rest);
    }
  }

  /** The jobs of context `c` among `jobs`. */
  function CountFor(jobs: seq<Job>, c: CtxId): (n: nat)
    ensures n <= |jobs|
  {
    if |jobs| == 0 then 0 else (if jobs[0].ctx == c then 1 else 0) + CountFor(jobs[1..], c)
  }

  lemma {:induction false} CountForAppend(jobs: seq<Job>, job: Job, c: CtxId)
    ensures CountFor(jobs + [job], c) == CountFor(jobs, c) + (if job.ctx == c then 1 else 0)
    decreases |jobs|
  {
    if |jobs| > 0 {
      assert (jobs + [job])[1..] == jobs[1..] + [job];
      CountForAppend(jobs[1..], job, c);
    } else {
      assert (jobs + [job])[1..] == [];
    }
  }

  // ---------------------------------------------------------------------
  // PriorityResources

  /** One priority tier: its workers' queues, the `uint8` round-robin
      counter and the modulus lookup table. */
  datatype Tier = Tier(numThreads: nat, queues: seq<Queue>, nextQueueIndex: nat, lut: seq<nat>)

  predicate TierOk(t: Tier) {
    && t.numThreads <= LutSize
    && |t.queues| == t.numThreads
    && t.nextQueueIndex < LutSize
    && |t.lut| == LutSize
    && (t.numThreads > 0 ==> t.lut == ModLut(t.numThreads))
    && (forall i :: 0 <= i < |t.queues| ==> QueueOk(t.queues[i]))
  }

  /** The table `Initialize` fills: entry i is i mod n. */
  function ModLut(n: nat): (lut: seq<nat>)
    requires n > 0
    ensures |lut| == LutSize
    ensures forall i :: 0 <= i < LutSize ==> lut[i] == i % n && lut[i] < n
  {
    seq(LutSize, i requires 0 <= i < LutSize => i % n)
  }

  /** `GetNextQueueIndex`: read and bump the `uint8` counter, then map it
      through the table. */
  function GetNextQueueIndex(t: Tier): (r: (nat, Tier))
    requires TierOk(t)
    ensures TierOk(r.1)
    ensures r.1 == t.(nextQueueIndex := (t.nextQueueIndex + 1) % LutSize)
    ensures t.numThreads > 0 ==> r.0 == t.nextQueueIndex % t.numThreads && r.0 < t.numThreads
  {
    (t.lut[t.nextQueueIndex], t.(nextQueueIndex := (t.nextQueueIndex + 1) % LutSize))
  }

  /** `k` successive calls pick queues round-robin over the `uint8`
      counter. */
  function NextQueueIndices(t: Tier, k: nat): (r: seq<nat>)
    requires TierOk(t)
    ensures |r| == k
    decreases k
  {
    if k == 0 then [] else
      var (i, t') := GetNextQueueIndex(t);
      [i] + NextQueueIndices(t', k - 1)
  }

  lemma {:induction false} NextQueueIndicesRoundRobin(t: Tier, k: nat)
    requires TierOk(t) && t.numThreads > 0
    ensures |NextQueueIndices(t, k)| == k
    ensures forall m :: 0 <= m < k ==>
      NextQueueIndices(t, k)[m] == (t.nextQueueIndex + m) % LutSize % t.numThreads
    decreases k
  {
    if k > 0 {
      var (i, t') := GetNextQueueIndex(t);
      NextQueueIndicesRoundRobin(t', k - 1);
      var rest := NextQueueIndices(t', k - 1);
      var r := NextQueueIndices(t, k);
      var a, n := t.nextQueueIndex, t.numThreads;
      assert r == [i] + rest;
      assert t'.nextQueueIndex == (a + 1) % LutSize && t'.numThreads == n;
      forall m | 0 <= m < k
        ensures r[m] == (a + m) % LutSize % n
      {
        if m > 0 {
          calc {
            r[m];
            rest[m - 1];
            ((a + 1) % LutSize + (m - 1)) % LutSize % n;
            { ModSucc(a, m - 1, LutSize); }
            (a + m) % LutSize % n;
          }
        } else {
          SmallMod(a, LutSize);
        }
      }
    }
  }

  lemma SmallMod(x: nat, m: nat)
    requires x < m
    ensures (x + 0) % m == x
  {
  }

  /** ((a + 1) mod m + j) mod m == (a + 1 + j) mod m. */
  lemma ModSucc(a: nat, j: nat, m: nat)
    requires 0 < m
    ensures ((a + 1) % m + j) % m == (a + j + 1) % m
  {
    var q := (a + 1) / m;
    assert a + 1 == q * m + (a + 1) % m;
    ModAddMultiple((a + 1) % m + j, q, m);
  }

  lemma ModAddMultiple(x: nat, q: nat, m: nat)
    requires 0 < m
    ensures (x + q * m) % m == x % m
  {
    var y := x + q * m;
    var d: int := y / m - x / m - q;
    assert y == (y / m) * m + y % m;
    assert x == (x / m) * m + x % m;
    assert d * m == x % m - y % m;
    assert d * m > 0 - (m as int) && d * m < m;
    if d > 0 {
      MathUtils.MulLe(1, d, m);
    } else if d < 0 {
      MathUtils.MulLe(1, 0 - d, m);
    }
  }

  // ---------------------------------------------------------------------
  // The whole system

  datatype Sys = Sys(
    numCores: nat,
    tiers: seq<Tier>,
    alive: bool,
    counters: map<CtxId, int>,
    trace: seq<Call>)

  predicate Ok(st: Sys) {
    TiersOk(st.tiers, st.numCores)
  }

  /** Every tier is well formed, and a system with no cores has no
      workers. */
  predicate TiersOk(tiers: seq<Tier>, numCores: nat) {
    && |tiers| == TierCount
    && (forall p :: 0 <= p < TierCount ==> TierOk(tiers[p]))
    && (numCores == 0 ==> forall p :: 0 <= p < TierCount ==> tiers[p].numThreads == 0)
  }

  /** `ctx.counter`. */
  function Counter(st: Sys, c: CtxId): int
    requires Ok(st)
  {
    if c in st.counters then st.counters[c] else 0
  }

  function SetCounter(st: Sys, c: CtxId, v: int): (r: Sys)
    requires Ok(st)
    ensures Ok(r) && Counter(r, c) == v
    ensures forall d :: d != c ==> Counter(r, d) == Counter(st, d)
    ensures r.tiers == st.tiers && r.trace == st.trace && r.numCores == st.numCores && r.alive == st.alive
  {
    st.(counters := st.counters[c := v])
  }

  function InitialTier(): Tier {
    Tier(0, [], 0, seq(LutSize, _ => 0))
  }

  /** The static `internal_state` before `Initialize`. */
  function InitialSys(): (r: Sys)
    ensures Ok(r)
  {
    Sys(0, [InitialTier(), InitialTier(), InitialTier()], true, map[], [])
  }

  /** `Job::Execute`: run the calls, then `fetch_sub(1)` on the job's
      context, returning the value before the decrement. */
  function ExecuteJob(st: Sys, job: Job): (r: (int, Sys))
    requires Ok(st)
    ensures Ok(r.1)
    ensures r.0 == Counter(st, job.ctx)
    ensures Counter(r.1, job.ctx) == Counter(st, job.ctx) - 1
    ensures forall d :: d != job.ctx ==> Counter(r.1, d) == Counter(st, d)
    ensures r.1.trace == st.trace + Calls(job)
    ensures r.1.tiers == st.tiers && r.1.numCores == st.numCores && r.1.alive == st.alive
  {
    var before := Counter(st, job.ctx);
    var st' := st.(trace := st.trace + Calls(job));
    (before, SetCounter(st', job.ctx, before - 1))
  }

  function WithTier(st: Sys, p: nat, t: Tier): (r: Sys)
    requires Ok(st) && p < TierCount && TierOk(t)
    requires st.numCores == 0 ==> t.numThreads == 0
    ensures Ok(r)
    ensures r.counters == st.counters && r.trace == st.trace
  {
    st.(tiers := st.tiers[p := t])
  }

  // ---------------------------------------------------------------------
  // Initialize and ShutDown

  /** The thread count each tier asks for on a machine with `cores` cores. */
  function ThreadPolicy(p: Priority, cores: nat): nat {
    match p
    case High => if cores > 1 then cores - 1 else 1
    case Low => if cores > 2 then cores - 2 else 1
    case Streaming => 1
  }

  /** The thread count a tier gets from `Initialize`. */
  function TierThreads(p: Priority, maxThreadCount: nat, hardwareThreads: nat): (n: nat)
    ensures 1 <= n <= LutSize
  {
    var limit := MathUtils.Clamp(maxThreadCount, 1, LutSize);
    var cores := if hardwareThreads > 1 then hardwareThreads else 1;
    MathUtils.Clamp(ThreadPolicy(p, cores), 1, limit)
  }

  function FreshTier(prev: Tier, n: nat): (t: Tier)
    requires TierOk(prev) && 0 < n <= LutSize
    ensures TierOk(t) && t.numThreads == n
    ensures forall i :: 0 <= i < n ==> t.queues[i] == EmptyQueue
  {
    Tier(n, seq(n, _ => EmptyQueue), prev.nextQueueIndex, ModLut(n))
  }

  /** `Initialize(max_thread_count)`, with the hardware thread count as an
      input. Nothing happens once cores are recorded. */
  function Initialize(st: Sys, maxThreadCount: nat, hardwareThreads: nat): (r: Sys)
    requires Ok(st)
    ensures Ok(r)
    ensures st.numCores > 0 ==> r == st
    ensures st.numCores == 0 ==>
      && r.numCores == (if hardwareThreads > 1 then hardwareThreads else 1)
      && r.counters == st.counters && r.trace == st.trace && r.alive == st.alive
      && (forall p: Priority :: r.tiers[TierIndex(p)].numThreads == TierThreads(p, maxThreadCount, hardwareThreads))
      && (forall p: Priority, i :: 0 <= i < LutSize ==>
            r.tiers[TierIndex(p)].lut[i] == i % r.tiers[TierIndex(p)].numThreads)
      && (forall p: Priority, i :: 0 <= i < r.tiers[TierIndex(p)].numThreads ==>
            r.tiers[TierIndex(p)].queues[i] == EmptyQueue)
  {
    if st.numCores > 0 then st
    else
      var tiers := [
        FreshTier(st.tiers[0], TierThreads(High, maxThreadCount, hardwareThreads)),
        FreshTier(st.tiers[1], TierThreads(Low, maxThreadCount, hardwareThreads)),
        FreshTier(st.tiers[2], TierThreads(Streaming, maxThreadCount, hardwareThreads))];
      st.(numCores := if hardwareThreads > 1 then hardwareThreads else 1, tiers := tiers)
  }

  /** The policy's consequences: every tier has between 1 and
      `max(1, min(max_thread_count, 256))` workers, the streaming tier
      exactly one, and the low tier never more than the high one. */
  lemma InitializeThreadBounds(maxThreadCount: nat, hardwareThreads: nat)
    ensures forall p: Priority ::
      1 <= TierThreads(p, maxThreadCount, hardwareThreads) <= MathUtils.Clamp(maxThreadCount, 1, LutSize)
    ensures TierThreads(Streaming, maxThreadCount, hardwareThreads) == 1
    ensures TierThreads(Low, maxThreadCount, hardwareThreads) <= TierThreads(High, maxThreadCount, hardwareThreads)
    ensures hardwareThreads > 1 ==> TierThreads(High, maxThreadCount, hardwareThreads) < hardwareThreads
  {
    var limit := MathUtils.Clamp(maxThreadCount, 1, LutSize);
    var cores := if hardwareThreads > 1 then hardwareThreads else 1;
    MathUtils.ClampMonotone(ThreadPolicy(Low, cores), ThreadPolicy(High, cores), 1, limit);
  }

  /** `ShutDown`: once alive, clear the flag, drop the queues with whatever
      they still hold, and forget the thread and core counts. The lookup
      table and the round-robin counter are kept, and `alive` is never set
      again. */
  function ShutDown(st: Sys): (r: Sys)
    requires Ok(st)
    ensures Ok(r)
    ensures !st.alive ==> r == st
    ensures st.alive ==> !r.alive && r.numCores == 0
    ensures forall p :: 0 <= p < TierCount ==> st.alive ==> r.tiers[p].numThreads == 0 && r.tiers[p].queues == []
    ensures forall p :: 0 <= p < TierCount ==>
      r.tiers[p].lut == st.tiers[p].lut && r.tiers[p].nextQueueIndex == st.tiers[p].nextQueueIndex
    ensures r.counters == st.counters && r.trace == st.trace
  {
    if !st.alive then st
    else
      var tiers := seq(TierCount, p requires 0 <= p < TierCount => st.tiers[p].(numThreads := 0, queues := []));
      st.(alive := false, numCores := 0, tiers := tiers)
  }

  lemma ShutDownIdempotent(st: Sys)
    requires Ok(st)
    ensures ShutDown(ShutDown(st)) == ShutDown(st)
  {
  }

  /** `IsShuttingDown`. */
  function IsShuttingDown(st: Sys): bool {
    !st.alive
  }

  /** `IsBusy`: the context still has unfinished jobs. */
  function IsBusy(st: Sys, ctx: Context): (busy: bool)
    requires Ok(st)
    ensures busy <==> GetRemainingJobCount(st, ctx) > 0
  {
    Counter(st, ctx.id) > 0
  }

  /** `GetRemainingJobCount`. */
  function GetRemainingJobCount(st: Sys, ctx: Context): int
    requires Ok(st)
  {
    Counter(st, ctx.id)
  }

  /** `GetThreadCount`: never more than the lookup table has entries, and
      zero until cores are recorded. */
  function GetThreadCount(st: Sys, p: Priority): (n: nat)
    requires Ok(st)
    ensures n <= LutSize
    ensures st.numCores == 0 ==> n == 0
  {
    st.tiers[TierIndex(p)].numThreads
  }

  /** After `ShutDown` the system reports that it is shutting down, and a
      live system that shut down reports no threads in any tier. */
  lemma ShutDownReports(st: Sys)
    requires Ok(st)
    ensures IsShuttingDown(ShutDown(st))
    ensures st.alive ==> forall p: Priority :: GetThreadCount(ShutDown(st), p) == 0
  {
  }

  /** After a first `Initialize` the thread counts are the policy's, and
      the shutting-down flag is untouched. */
  lemma InitializeReports(st: Sys, maxThreadCount: nat, hardwareThreads: nat)
    requires Ok(st) && st.numCores == 0
    ensures var r := Initialize(st, maxThreadCount, hardwareThreads);
      && (forall p: Priority :: GetThreadCount(r, p) == TierThreads(p, maxThreadCount, hardwareThreads))
      && IsShuttingDown(r) == IsShuttingDown(st)
  {
  }

  // ---------------------------------------------------------------------
  // Execute and Dispatch

  /** Run a job inline when the tier has no workers, otherwise push it to
      the queue `NextQueue` picks. */
  function RunOrQueue(st: Sys, p: nat, job: Job): (r: Sys)
    requires Ok(st) && p < TierCount
    ensures Ok(r)
    ensures st.tiers[p].numThreads == 0 ==> r == ExecuteJob(st, job).1
    ensures st.tiers[p].numThreads > 0 ==>
      && r.counters == st.counters && r.trace == st.trace
      && |r.tiers| == |st.tiers|
      && (forall p' :: 0 <= p' < TierCount && p' != p ==> r.tiers[p'] == st.tiers[p'])
      && r.tiers[p].numThreads == st.tiers[p].numThreads
      // the round-robin counter moves on and the table is kept
      && r.tiers[p].nextQueueIndex == (st.tiers[p].nextQueueIndex + 1) % LutSize
      && r.tiers[p].lut == st.tiers[p].lut
      && r.numCores == st.numCores && r.alive == st.alive
      && var i := st.tiers[p].nextQueueIndex % st.tiers[p].numThreads;
         r.tiers[p].queues == st.tiers[p].queues[i := PushBack(st.tiers[p].queues[i], job)]
  {
    var t := st.tiers[p];
    if t.numThreads < 1 then ExecuteJob(st, job).1
    else
      var (i, t') := GetNextQueueIndex(t);
      var t'' := t'.(queues := t'.queues[i := PushBack(t'.queues[i], job)]);
      WithTier(st, p, t'')
  }

  /** `Execute`: count one job over the single index 0, then run or queue
      it. Run inline, the job's one call is made and the counter is back
      where it was; queued, the counter stays one higher and nothing runs
      yet. */
  function Execute(st: Sys, ctx: Context, task: TaskId): (r: Sys)
    requires Ok(st)
    ensures Ok(r)
    ensures forall d :: d != ctx.id ==> Counter(r, d) == Counter(st, d)
    ensures var t := st.tiers[TierIndex(ctx.priority)];
      t.numThreads == 0 ==>
        && Counter(r, ctx.id) == Counter(st, ctx.id)
        && r.trace == st.trace + Calls(Job(ctx.id, task, 0, 0, 1))
        && r.tiers == st.tiers
    ensures var p := TierIndex(ctx.priority); var t := st.tiers[p];
      t.numThreads > 0 ==>
        && Counter(r, ctx.id) == Counter(st, ctx.id) + 1
        && r.trace == st.trace
        && (forall p' :: 0 <= p' < TierCount && p' != p ==> r.tiers[p'] == st.tiers[p'])
        && r.tiers[p].nextQueueIndex == (t.nextQueueIndex + 1) % LutSize
        && var i := t.nextQueueIndex % t.numThreads;
           r.tiers[p].queues == t.queues[i := PushBack(t.queues[i], Job(ctx.id, task, 0, 0, 1))]
  {
    var st1 := SetCounter(st, ctx.id, Counter(st, ctx.id) + 1);
    RunOrQueue(st1, TierIndex(ctx.priority), Job(ctx.id, task, 0, 0, 1))
  }

  /** `DispatchGroupCount` as written: the sum wraps at 2^32 before the
      division. */
  function DispatchGroupCountAsWritten(jobCount: nat, groupSize: nat): nat
    requires jobCount < U32 && 0 < groupSize < U32
  {
    ((jobCount + groupSize - 1) % U32) / groupSize
  }

  /** The number of groups without wrap-around: the ceiling of the
      quotient. */
  function GroupCount(jobCount: nat, groupSize: nat): (gc: nat)
    requires 0 < groupSize
    ensures gc * groupSize >= jobCount
    ensures gc > 0 ==> (gc - 1) * groupSize < jobCount
    ensures gc <= jobCount
  {
    CeilDiv(jobCount, groupSize);
    (jobCount + groupSize - 1) / groupSize
  }

  lemma CeilDiv(n: nat, d: nat)
    requires 0 < d
    ensures var c := (n + d - 1) / d;
      c * d >= n && (c > 0 ==> (c - 1) * d < n) && c <= n
  {
    var c := (n + d - 1) / d;
    var m := n + d - 1;
    assert m == c * d + m % d;
    assert c * d >= n;
    if c > 0 {
      assert (c - 1) * d == c * d - d;
    }
    if c > n {
      MathUtils.MulLe(n + 1, c, d);
      assert (n + 1) * d == n * d + d;
      MathUtils.MulLe(1, d, n);
    }
  }

  /** The two agree exactly when the sum does not wrap. */
  lemma DispatchGroupCountAgrees(jobCount: nat, groupSize: nat)
    requires jobCount < U32 && 0 < groupSize < U32
    requires jobCount + groupSize - 1 < U32
    ensures DispatchGroupCountAsWritten(jobCount, groupSize) == GroupCount(jobCount, groupSize)
  {
  }

  /** `DispatchGroupCount(0xFFFFFFFF, 2)` is 0 as written; the ceiling is
      2^31. */
  lemma DispatchGroupCountWraps()
    ensures DispatchGroupCountAsWritten(U32 - 1, 2) == 0
    ensures GroupCount(U32 - 1, 2) == 0x8000_0000
  {
  }

  lemma DispatchGroupCountExample()
    ensures GroupCount(10, 3) == 4
  {
  }

  /** Group `g` of a dispatch, with the bounds of the source computed
      without wrap-around. */
  function GroupJob(ctx: CtxId, task: TaskId, jobCount: nat, groupSize: nat, g: nat): (job: Job)
    ensures job.ctx == ctx && job.task == task
    ensures job.offset == g * groupSize && job.groupId == g
    // the end is the smaller of a full group's end and the job count
    ensures job.end <= job.offset + groupSize && job.end <= jobCount
    ensures job.end == job.offset + groupSize || job.end == jobCount
  {
    var offset := g * groupSize;
    Job(ctx, task, g, offset, if offset + groupSize < jobCount then offset + groupSize else jobCount)
  }

  /** Group `g` calls the task on exactly the indices of the `g`-th block
      of `groupSize` that lie below the job count, in ascending order. */
  lemma GroupJobIndices(ctx: CtxId, task: TaskId, jobCount: nat, groupSize: nat, g: nat)
    ensures var ix := Indices(Calls(GroupJob(ctx, task, jobCount, groupSize, g)));
      && (forall k :: 0 <= k < |ix| - 1 ==> ix[k] < ix[k + 1])
      && forall i :: i in ix <==> g * groupSize <= i < g * groupSize + groupSize && i < jobCount
  {
    var job := GroupJob(ctx, task, jobCount, groupSize, g);
    JobVisitsItsRange(job);
    var ix := Indices(Calls(job));
    forall i
      ensures i in ix <==> g * groupSize <= i < g * groupSize + groupSize && i < jobCount
    {
      if job.offset <= i < job.end {
        assert ix[i - job.offset] == i;
      }
    }
  }

  /** The end of group `g` as written: `group_job_offset + group_size`
      is a `uint32` sum. */
  function GroupEndAsWritten(jobCount: nat, groupSize: nat, g: nat): nat
    requires jobCount < U32 && groupSize < U32
  {
    var offset := (g * groupSize) % U32;
    var sum := (offset + groupSize) % U32;
    if sum < jobCount then sum else jobCount
  }

  /** The `uint32` sum at line 356 never wraps for a group the loop
      reaches: below the as-written group count, a group's end stays under
      2^32, so the as-written end is the unwrapped one. */
  lemma DispatchedGroupEndFits(jobCount: nat, groupSize: nat, g: nat)
    requires jobCount < U32 && 0 < groupSize < U32
    requires g < DispatchGroupCountAsWritten(jobCount, groupSize)
    ensures g * groupSize + groupSize < U32
    ensures GroupEndAsWritten(jobCount, groupSize, g) == GroupJob(0, 0, jobCount, groupSize, g).end
  {
    var m := (jobCount + groupSize - 1) % U32;
    GroupBelowSpan(m, groupSize, g);
    var offset := g * groupSize;
    SmallMod(offset, U32);
    SmallMod(offset + groupSize, U32);
    assert offset % U32 == offset;
    assert (offset + groupSize) % U32 == offset + groupSize;
  }

  /** A group below `m / groupSize` ends by `m`. */
  lemma GroupBelowSpan(m: nat, groupSize: nat, g: nat)
    requires 0 < groupSize && m < U32 && g < m / groupSize
    ensures g * groupSize + groupSize <= m
  {
    var c := m / groupSize;
    MathUtils.DivMulBounds(m, groupSize);
    MathUtils.MulLe(g + 1, c, groupSize);
    assert (g + 1) * groupSize == g * groupSize + groupSize;
  }


  /** The groups tile [0, job_count): consecutive, non-empty, in order. */
  lemma {:induction false} GroupsTile(jobCount: nat, groupSize: nat)
    requires 0 < jobCount && 0 < groupSize
    ensures var gc := GroupCount(jobCount, groupSize);
      && GroupJob(0, 0, jobCount, groupSize, 0).offset == 0
      && GroupJob(0, 0, jobCount, groupSize, gc - 1).end == jobCount
      && (forall g :: 0 <= g < gc ==>
            GroupJob(0, 0, jobCount, groupSize, g).offset < GroupJob(0, 0, jobCount, groupSize, g).end)
      && (forall g :: 0 <= g < gc - 1 ==>
            GroupJob(0, 0, jobCount, groupSize, g).end == GroupJob(0, 0, jobCount, groupSize, g + 1).offset)
  {
    var gc := GroupCount(jobCount, groupSize);
    forall g | 0 <= g < gc
      ensures GroupJob(0, 0, jobCount, groupSize, g).offset < GroupJob(0, 0, jobCount, groupSize, g).end
    {
      MathUtils.MulLe(g, gc - 1, groupSize);
    }
    forall g | 0 <= g < gc - 1
      ensures GroupJob(0, 0, jobCount, groupSize, g).end == GroupJob(0, 0, jobCount, groupSize, g + 1).offset
    {
      MathUtils.MulLe(g + 1, gc - 1, groupSize);
      assert (g + 1) * groupSize == g * groupSize + groupSize;
    }
    assert (gc - 1) * groupSize + groupSize == gc * groupSize;
  }

  /** The calls groups `g` .. `gc - 1` make when run inline, in order. */
  function GroupCalls(ctx: CtxId, task: TaskId, jobCount: nat, groupSize: nat, g: nat, gc: nat): seq<Call>
    decreases gc - g
  {
    if g >= gc then []
    else Calls(GroupJob(ctx, task, jobCount, groupSize, g)) + GroupCalls(ctx, task, jobCount, groupSize, g + 1, gc)
  }

  /** Every group but the last is full; the last reaches the job count. */
  lemma GroupBounds(jobCount: nat, groupSize: nat, g: nat)
    requires 0 < groupSize && g < GroupCount(jobCount, groupSize)
    ensures g * groupSize < jobCount
    ensures g + 1 < GroupCount(jobCount, groupSize) ==> g * groupSize + groupSize < jobCount
    ensures g + 1 == GroupCount(jobCount, groupSize) ==> g * groupSize + groupSize >= jobCount
    ensures (g + 1) * groupSize == g * groupSize + groupSize
  {
    var gc := GroupCount(jobCount, groupSize);
    MathUtils.MulLe(g, gc - 1, groupSize);
    if g + 1 < gc {
      MathUtils.MulLe(g + 1, gc - 1, groupSize);
    }
  }

  /** Run inline, groups `g` onwards visit the indices from group `g`'s
      offset to the end, each once and in ascending order. */
  lemma {:induction false} GroupCallsVisitRange(ctx: CtxId, task: TaskId, jobCount: nat, groupSize: nat, g: nat)
    requires 0 < groupSize
    requires g < GroupCount(jobCount, groupSize)
    ensures Indices(GroupCalls(ctx, task, jobCount, groupSize, g, GroupCount(jobCount, groupSize)))
         == Range(g * groupSize, jobCount)
    decreases GroupCount(jobCount, groupSize) - g
  {
    var gc := GroupCount(jobCount, groupSize);
    var job := GroupJob(ctx, task, jobCount, groupSize, g);
    var rest := GroupCalls(ctx, task, jobCount, groupSize, g + 1, gc);
    GroupBounds(jobCount, groupSize, g);
    assert GroupCalls(ctx, task, jobCount, groupSize, g, gc) == Calls(job) + rest;
    IndicesAppend(Calls(job), rest);
    JobVisitsItsRange(job);
    if g + 1 < gc {
      GroupCallsVisitRange(ctx, task, jobCount, groupSize, g + 1);
      assert job.end == (g + 1) * groupSize;
      RangeSplit(job.offset, job.end, jobCount);
    } else {
      assert job.end == jobCount;
      assert rest == [];
    }
  }

  /** Run inline, a whole dispatch visits [0, job_count) once each, in
      order. */
  lemma DispatchInlineVisitsAll(ctx: CtxId, task: TaskId, jobCount: nat, groupSize: nat)
    requires 0 < jobCount && 0 < groupSize
    ensures Indices(GroupCalls(ctx, task, jobCount, groupSize, 0, GroupCount(jobCount, groupSize)))
         == Range(0, jobCount)
  {
    GroupCallsVisitRange(ctx, task, jobCount, groupSize, 0);
  }

  lemma ConcatAssoc<T>(a: seq<T>, b: seq<T>, c: seq<T>)
    ensures (a + b) + c == a + (b + c)
  {
  }

  /** Dispatch the groups `g` .. `gc - 1`. */
  function DispatchFrom(st: Sys, p: nat, ctx: CtxId, task: TaskId, jobCount: nat, groupSize: nat, g: nat, gc: nat): (r: Sys)
    requires Ok(st) && p < TierCount
    ensures Ok(r)
    ensures r.tiers[p].numThreads == st.tiers[p].numThreads
    ensures st.tiers[p].numThreads > 0 ==> r.counters == st.counters && r.trace == st.trace
    ensures st.tiers[p].numThreads == 0 ==>
      && r.trace == st.trace + GroupCalls(ctx, task, jobCount, groupSize, g, gc)
      && r.tiers == st.tiers
      && Counter(r, ctx) == Counter(st, ctx) - (if g < gc then gc - g else 0)
    decreases gc - g
  {
    if g >= gc then st
    else
      var st' := RunOrQueue(st, p, GroupJob(ctx, task, jobCount, groupSize, g));
      var r := DispatchFrom(st', p, ctx, task, jobCount, groupSize, g + 1, gc);
      assert (if g + 1 < gc then gc - (g + 1) else 0) == gc - g - 1;
      if st.tiers[p].numThreads == 0 then
        DispatchFromInline(st, st', r, p, ctx, task, jobCount, groupSize, g, gc);
        r
      else r
  }

  lemma DispatchFromInline(st: Sys, st': Sys, r: Sys, p: nat, ctx: CtxId, task: TaskId, jobCount: nat, groupSize: nat, g: nat, gc: nat)
    requires Ok(st) && Ok(st') && p < TierCount && g < gc
    requires st' == ExecuteJob(st, GroupJob(ctx, task, jobCount, groupSize, g)).1
    requires r.trace == st'.trace + GroupCalls(ctx, task, jobCount, groupSize, g + 1, gc)
    requires Ok(r) && Counter(r, ctx) == Counter(st', ctx) - (gc - g - 1)
    ensures r.trace == st.trace + GroupCalls(ctx, task, jobCount, groupSize, g, gc)
    ensures Counter(r, ctx) == Counter(st, ctx) - (gc - g)
  {
    var job := GroupJob(ctx, task, jobCount, groupSize, g);
    var rest := GroupCalls(ctx, task, jobCount, groupSize, g + 1, gc);
    assert GroupCalls(ctx, task, jobCount, groupSize, g, gc) == Calls(job) + rest;
    assert st'.trace == st.trace + Calls(job);
    ConcatAssoc(st.trace, Calls(job), rest);
  }

  /** Dispatching touches no other context's counter and no other tier. */
  lemma {:induction false} DispatchFromFrame(st: Sys, p: nat, ctx: CtxId, task: TaskId, jobCount: nat, groupSize: nat, g: nat, gc: nat)
    requires Ok(st) && p < TierCount
    ensures var r := DispatchFrom(st, p, ctx, task, jobCount, groupSize, g, gc);
      && (forall d :: d != ctx ==> Counter(r, d) == Counter(st, d))
      && (forall q :: 0 <= q < TierCount && q != p ==> r.tiers[q] == st.tiers[q])
    decreases gc - g
  {
    if g < gc {
      var st' := RunOrQueue(st, p, GroupJob(ctx, task, jobCount, groupSize, g));
      DispatchFromFrame(st', p, ctx, task, jobCount, groupSize, g + 1, gc);
    }
  }

  /** `Dispatch`: nothing for zero jobs or a zero group size; otherwise add
      the group count to the context's counter, then run or queue each
      group in order. */
  function Dispatch(st: Sys, ctx: Context, jobCount: nat, groupSize: nat, task: TaskId): (r: Sys)
    requires Ok(st) && jobCount < U32 && groupSize < U32
    ensures Ok(r)
    ensures jobCount == 0 || groupSize == 0 ==> r == st
    ensures r.tiers[TierIndex(ctx.priority)].numThreads == st.tiers[TierIndex(ctx.priority)].numThreads
    // with workers, the counter grows by exactly the group count and
    // nothing runs yet
    ensures jobCount > 0 && groupSize > 0 && st.tiers[TierIndex(ctx.priority)].numThreads > 0 ==>
      Counter(r, ctx.id) == Counter(st, ctx.id) + GroupCount(jobCount, groupSize) && r.trace == st.trace
    // ... and every group's job has been pushed onto one of the tier's
    // queues, next to the jobs already waiting there
    ensures var p := TierIndex(ctx.priority);
      jobCount > 0 && groupSize > 0 && st.tiers[p].numThreads > 0 ==>
      multiset(QueuedJobs(r.tiers[p].queues))
      == multiset(QueuedJobs(st.tiers[p].queues)) + multiset(GroupJobs(ctx.id, task, jobCount, groupSize, 0, GroupCount(jobCount, groupSize)))
    // without workers every group runs before the call returns, so the
    // counter is back at its entry value
    ensures jobCount > 0 && groupSize > 0 && st.tiers[TierIndex(ctx.priority)].numThreads == 0 ==>
      && Counter(r, ctx.id) == Counter(st, ctx.id)
      && r.trace == st.trace + GroupCalls(ctx.id, task, jobCount, groupSize, 0, GroupCount(jobCount, groupSize))
      && r.tiers == st.tiers
    // no other context and no other tier is touched
    ensures forall d :: d != ctx.id ==> Counter(r, d) == Counter(st, d)
    ensures forall q :: 0 <= q < TierCount && q != TierIndex(ctx.priority) ==> r.tiers[q] == st.tiers[q]
  {
    if jobCount == 0 || groupSize == 0 then st
    else
      var p := TierIndex(ctx.priority);
      var gc := GroupCount(jobCount, groupSize);
      var st1 := SetCounter(st, ctx.id, Counter(st, ctx.id) + gc);
      var r := DispatchFrom(st1, p, ctx.id, task, jobCount, groupSize, 0, gc);
      DispatchFromFrame(st1, p, ctx.id, task, jobCount, groupSize, 0, gc);
      if st.tiers[p].numThreads > 0 then
        DispatchFromQueues(st1, p, ctx.id, task, jobCount, groupSize, 0, gc);
        r
      else r
  }

  /** With no workers a dispatch runs every index once, in ascending order,
      before it returns, and leaves the counter where it was. */
  lemma DispatchInline(st: Sys, ctx: Context, jobCount: nat, groupSize: nat, task: TaskId)
    requires Ok(st) && 0 < jobCount < U32 && 0 < groupSize < U32
    requires st.tiers[TierIndex(ctx.priority)].numThreads == 0
    ensures var r := Dispatch(st, ctx, jobCount, groupSize, task);
      && Counter(r, ctx.id) == Counter(st, ctx.id)
      && r.tiers == st.tiers
      && |r.trace| >= |st.trace|
      && r.trace[..|st.trace|] == st.trace
      && Indices(r.trace[|st.trace|..]) == Range(0, jobCount)
  {
    var p := TierIndex(ctx.priority);
    var gc := GroupCount(jobCount, groupSize);
    var st1 := SetCounter(st, ctx.id, Counter(st, ctx.id) + gc);
    var r := DispatchFrom(st1, p, ctx.id, task, jobCount, groupSize, 0, gc);
    assert r == Dispatch(st, ctx, jobCount, groupSize, task);
    DispatchInlineVisitsAll(ctx.id, task, jobCount, groupSize);
    assert r.trace[|st.trace|..] == GroupCalls(ctx.id, task, jobCount, groupSize, 0, gc);
  }

  /** What `GetRemainingJobCount` reports right after a dispatch: the
      group count more with workers, unchanged when the groups ran
      inline. */
  lemma DispatchRemaining(st: Sys, ctx: Context, jobCount: nat, groupSize: nat, task: TaskId)
    requires Ok(st) && 0 < jobCount < U32 && 0 < groupSize < U32
    ensures var r := Dispatch(st, ctx, jobCount, groupSize, task);
      GetRemainingJobCount(r, ctx) == GetRemainingJobCount(st, ctx)
        + (if st.tiers[TierIndex(ctx.priority)].numThreads > 0 then GroupCount(jobCount, groupSize) else 0)
  {
    if st.tiers[TierIndex(ctx.priority)].numThreads == 0 {
      DispatchInline(st, ctx, jobCount, groupSize, task);
    }
  }

  // ---------------------------------------------------------------------
  // Work and Wait

  /** The jobs of context `c` waiting in any of the queues. */
  function PendingIn(qs: seq<Queue>, c: CtxId): nat {
    if |qs| == 0 then 0 else CountFor(qs[0].items, c) + PendingIn(qs[1..], c)
  }

  lemma {:induction false} PendingUpdate(qs: seq<Queue>, i: nat, q: Queue, c: CtxId)
    requires i < |qs|
    ensures PendingIn(qs[i := q], c) + CountFor(qs[i].items, c) == PendingIn(qs, c) + CountFor(q.items, c)
    decreases i
  {
    if i > 0 {
      assert qs[i := q][1..] == qs[1..][i - 1 := q];
      PendingUpdate(qs[1..], i - 1, q, c);
    } else {
      assert qs[i := q][1..] == qs[1..];
    }
  }

  /** Where the counter of context `c` settles once every job of it queued in
      tier `p` has run: the counter minus those jobs. */
  function Settled(st: Sys, p: nat, c: CtxId): int
    requires Ok(st) && p < TierCount
  {
    Counter(st, c) - PendingIn(st.tiers[p].queues, c)
  }

  /** The calls a run of jobs makes, one job after another. */
  function CallsOfJobs(jobs: seq<Job>): seq<Call> {
    if |jobs| == 0 then [] else Calls(jobs[0]) + CallsOfJobs(jobs[1..])
  }

  /** Tier `p` of `r` is tier `p` of `st` with only queue `q` changed. */
  predicate OnlyQueueChanged(st: Sys, r: Sys, p: nat, q: nat)
    requires Ok(st) && Ok(r) && p < TierCount && q < st.tiers[p].numThreads
  {
    && (forall p' :: 0 <= p' < TierCount && p' != p ==> r.tiers[p'] == st.tiers[p'])
    && r.tiers[p] == st.tiers[p].(queues := r.tiers[p].queues)
    && (forall i :: 0 <= i < st.tiers[p].numThreads && i != q ==> r.tiers[p].queues[i] == st.tiers[p].queues[i])
    && r.numCores == st.numCores && r.alive == st.alive
  }

  /** Pop and run the jobs of queue `q` of tier `p` until it is empty. */
  function DrainQueue(st: Sys, p: nat, q: nat): (r: Sys)
    requires Ok(st) && p < TierCount && q < st.tiers[p].numThreads
    ensures Ok(r) && OnlyQueueChanged(st, r, p, q)
    ensures r.tiers[p].queues[q].items == []
    // the queue's jobs ran in FIFO order
    ensures r.trace == st.trace + CallsOfJobs(st.tiers[p].queues[q].items)
    ensures forall c :: Settled(r, p, c) == Settled(st, p, c)
    decreases |st.tiers[p].queues[q].items|
  {
    var t := st.tiers[p];
    var (front, rest) := PopFront(t.queues[q]);
    if front == None then st
    else
      var st1 := WithTier(st, p, t.(queues := t.queues[q := rest]));
      var st2 := ExecuteJob(st1, front.value).1;
      var r := DrainQueue(st2, p, q);
      DrainStep(st, st1, st2, r, p, q, front.value);
      r
  }

  lemma DrainStep(st: Sys, st1: Sys, st2: Sys, r: Sys, p: nat, q: nat, job: Job)
    requires Ok(st) && Ok(st1) && Ok(st2) && Ok(r) && p < TierCount && q < st.tiers[p].numThreads
    requires |st.tiers[p].queues[q].items| > 0 && job == st.tiers[p].queues[q].items[0]
    requires st1 == WithTier(st, p, st.tiers[p].(queues := st.tiers[p].queues[q := PopFront(st.tiers[p].queues[q]).1]))
    requires st2 == ExecuteJob(st1, job).1
    requires r.trace == st2.trace + CallsOfJobs(st2.tiers[p].queues[q].items)
    requires forall c :: Settled(r, p, c) == Settled(st2, p, c)
    ensures r.trace == st.trace + CallsOfJobs(st.tiers[p].queues[q].items)
    ensures forall c :: Settled(r, p, c) == Settled(st, p, c)
  {
    var items := st.tiers[p].queues[q].items;
    assert st2.tiers[p].queues[q].items == items[1..];
    assert CallsOfJobs(items) == Calls(job) + CallsOfJobs(items[1..]);
    ConcatAssoc(st.trace, Calls(job), CallsOfJobs(items[1..]));
    var rest := st1.tiers[p].queues[q];
    assert st2.tiers[p].queues == st.tiers[p].queues[q := rest];
    forall c
      ensures Settled(st2, p, c) == Settled(st, p, c)
    {
      SettledAfterPop(st.tiers[p].queues, q, rest, job, c, Counter(st, c), Counter(st2, c));
    }
  }

  /** Popping a job from one queue and running it keeps the settled value
      of every context. */
  lemma SettledAfterPop(qs: seq<Queue>, q: nat, rest: Queue, job: Job, c: CtxId, counter: int, counter': int)
    requires q < |qs| && |qs[q].items| > 0 && job == qs[q].items[0] && rest.items == qs[q].items[1..]
    requires counter' == if job.ctx == c then counter - 1 else counter
    ensures counter' - PendingIn(qs[q := rest], c) == counter - PendingIn(qs, c)
  {
    var items := qs[q].items;
    PendingUpdate(qs, q, rest, c);
    assert CountFor(items, c) == (if job.ctx == c then 1 else 0) + CountFor(items[1..], c);
  }

  /** The queue the `i`-th step of a sweep from `start` visits. The source
      maps `(uint8)(start + i)` through the lookup table; this is the
      intended `(start + i) mod n`, which agrees with it whenever the tier
      has at most 128 workers (`SweepAgrees`). */
  function SweepQueue(n: nat, start: nat, i: nat): (q: nat)
    requires n > 0
    ensures q < n
  {
    (start + i) % n
  }

  /** The queue the source's sweep visits at step `i`. */
  function SweepQueueAsWritten(lut: seq<nat>, start: nat, i: nat): nat
    requires |lut| == LutSize
  {
    lut[(start + i) % LutSize]
  }

  lemma SweepAgrees(t: Tier, start: nat, i: nat)
    requires TierOk(t) && 0 < t.numThreads <= 128
    requires start < t.numThreads && i < t.numThreads
    ensures SweepQueueAsWritten(t.lut, start, i) == SweepQueue(t.numThreads, start, i)
  {
  }

  /** With 200 workers a sweep starting at queue 150 never reaches queues 94
      to 149: the `uint8` wrap sends steps 106 onwards back to queue 0. */
  lemma SweepAsWrittenSkips(i: nat)
    requires i < 200
    ensures SweepQueueAsWritten(ModLut(200), 150, i) != 94
    ensures SweepQueue(200, 150, 144) == 94
  {
    var x := 150 + i;
    if x < 256 {
      MathUtils.ModOnce(x, 200);
      assert x % LutSize == x;
    } else {
      MathUtils.ModOnce(x, LutSize);
      assert x % LutSize < 94;
    }
  }

  /** The intended sweep visits every queue. */
  lemma SweepCovers(n: nat, start: nat, q: nat)
    requires q < n
    ensures exists i :: 0 <= i < n && SweepQueue(n, start, i) == q
  {
    var s := start % n;
    var a := start / n;
    assert start == a * n + s;
    if q >= s {
      var i := q - s;
      SweepHits(n, start, i, q, a);
    } else {
      var i := q + n - s;
      SweepHits(n, start, i, q, a + 1);
    }
  }

  lemma SweepHits(n: nat, start: nat, i: nat, q: nat, a: nat)
    requires q < n && start + i == q + a * n
    ensures SweepQueue(n, start, i) == q
  {
    ModAddMultiple(q, a, n);
  }

  /** The queues the intended sweep of a tier with `n` workers visits from
      `start`, in order. */
  function SweepOrder(n: nat, start: nat): (r: seq<nat>)
    ensures |r| == n
    ensures forall j :: 0 <= j < n ==> r[j] == SweepQueue(n, start, j)
  {
    if n == 0 then [] else seq(n, j requires 0 <= j => SweepQueue(n, start, j))
  }

  /** The queues the source's sweep visits, in order. */
  function SweepOrderAsWritten(t: Tier, start: nat): (r: seq<nat>)
    requires TierOk(t)
    ensures |r| == t.numThreads
    ensures forall j :: 0 <= j < |r| ==> r[j] == SweepQueueAsWritten(t.lut, start, j) && r[j] < t.numThreads
  {
    AsWrittenInTier(t, start);
    seq(t.numThreads, j requires 0 <= j => SweepQueueAsWritten(t.lut, start, j))
  }

  lemma AsWrittenInTier(t: Tier, start: nat)
    requires TierOk(t)
    ensures forall j :: 0 <= j < t.numThreads ==> SweepQueueAsWritten(t.lut, start, j) < t.numThreads
  {
  }

  /** Steps `i` onwards of a sweep of tier `p` that visits the queues in
      `order`: each step pops and runs the jobs of one queue until it is
      empty. */
  function Sweep(st: Sys, p: nat, order: seq<nat>, i: nat): (r: Sys)
    requires Ok(st) && p < TierCount
    requires forall k :: 0 <= k < |order| ==> order[k] < st.tiers[p].numThreads
    ensures Ok(r)
    ensures forall p' :: 0 <= p' < TierCount && p' != p ==> r.tiers[p'] == st.tiers[p']
    ensures r.tiers[p] == st.tiers[p].(queues := r.tiers[p].queues)
    ensures r.numCores == st.numCores && r.alive == st.alive
    // every queue the sweep visits is left empty ...
    ensures forall j :: i <= j < |order| ==> r.tiers[p].queues[order[j]].items == []
    // ... and no job is added anywhere
    ensures forall q :: 0 <= q < st.tiers[p].numThreads && st.tiers[p].queues[q].items == [] ==>
      r.tiers[p].queues[q].items == []
    ensures forall c :: Settled(r, p, c) == Settled(st, p, c)
    decreases |order| - i
  {
    if i >= |order| then st
    else Sweep(DrainQueue(st, p, order[i]), p, order, i + 1)
  }

  /** `Work(starting_queue)`: drain every queue of the tier once, visiting
      them from `starting_queue` on, modulo the number of workers. */
  function Work(st: Sys, p: nat, start: nat): (r: Sys)
    requires Ok(st) && p < TierCount
    ensures Ok(r)
    ensures forall p' :: 0 <= p' < TierCount && p' != p ==> r.tiers[p'] == st.tiers[p']
    ensures r.tiers[p].numThreads == st.tiers[p].numThreads
    // every queue of the tier is left empty
    ensures forall q :: 0 <= q < r.tiers[p].numThreads ==> r.tiers[p].queues[q].items == []
    // every context's counter has settled
    ensures forall c :: Counter(r, c) == Settled(st, p, c)
  {
    var r := Sweep(st, p, SweepOrder(st.tiers[p].numThreads, start), 0);
    WorkEmpties(st, r, p, start);
    r
  }

  lemma WorkEmpties(st: Sys, r: Sys, p: nat, start: nat)
    requires Ok(st) && p < TierCount
    requires r == Sweep(st, p, SweepOrder(st.tiers[p].numThreads, start), 0)
    ensures forall q :: 0 <= q < r.tiers[p].numThreads ==> r.tiers[p].queues[q].items == []
    ensures forall c :: Counter(r, c) == Settled(st, p, c)
  {
    SweepOrderEmpties(st, r, p, start);
    forall c
      ensures Counter(r, c) == Settled(st, p, c)
    {
      SettledWhenEmpty(r, p, c);
    }
  }

  /** The intended sweep visits, and so empties, every queue of the tier. */
  lemma SweepOrderEmpties(st: Sys, r: Sys, p: nat, start: nat)
    requires Ok(st) && p < TierCount
    requires r == Sweep(st, p, SweepOrder(st.tiers[p].numThreads, start), 0)
    ensures forall q :: 0 <= q < r.tiers[p].numThreads ==> r.tiers[p].queues[q].items == []
  {
    var n := st.tiers[p].numThreads;
    var order := SweepOrder(n, start);
    forall q | 0 <= q < n
      ensures r.tiers[p].queues[q].items == []
    {
      SweepCovers(n, start, q);
      var i :| 0 <= i < n && SweepQueue(n, start, i) == q;
      assert order[i] == q;
    }
  }

  /** The source's `Work(starting_queue)`: step `i` drains the queue the
      table gives for `(uint8)(start + i)`. Every queue it visits is left
      empty; with more than 128 workers some queues are never visited
      (`SweepAsWrittenSkips`). */
  function WorkAsWritten(st: Sys, p: nat, start: nat): (r: Sys)
    requires Ok(st) && p < TierCount
    ensures Ok(r)
    ensures forall p' :: 0 <= p' < TierCount && p' != p ==> r.tiers[p'] == st.tiers[p']
    ensures r.tiers[p] == st.tiers[p].(queues := r.tiers[p].queues)
    ensures forall j :: 0 <= j < st.tiers[p].numThreads ==>
      && SweepQueueAsWritten(st.tiers[p].lut, start, j) < st.tiers[p].numThreads
      && r.tiers[p].queues[SweepQueueAsWritten(st.tiers[p].lut, start, j)].items == []
    ensures forall c :: Settled(r, p, c) == Settled(st, p, c)
  {
    Sweep(st, p, SweepOrderAsWritten(st.tiers[p], start), 0)
  }

  /** With at most 128 workers and a starting queue of the tier (a worker's
      own index, or what `GetNextQueueIndex` returns), the source's sweep
      visits the queues in the intended order. */
  lemma SweepOrderAgrees(t: Tier, start: nat)
    requires TierOk(t) && 0 < t.numThreads <= 128 && start < t.numThreads
    ensures SweepOrderAsWritten(t, start) == SweepOrder(t.numThreads, start)
  {
    forall j | 0 <= j < t.numThreads
      ensures SweepQueueAsWritten(t.lut, start, j) == SweepQueue(t.numThreads, start, j)
    {
      SweepAgrees(t, start, j);
    }
  }

  /** ... so it is the intended sweep. */
  lemma WorkAgrees(st: Sys, p: nat, start: nat)
    requires Ok(st) && p < TierCount
    requires st.tiers[p].numThreads <= 128 && start < st.tiers[p].numThreads
    ensures WorkAsWritten(st, p, start) == Work(st, p, start)
  {
    SweepOrderAgrees(st.tiers[p], start);
  }

  /** With the tier's queues empty the counter has settled. */
  lemma SettledWhenEmpty(st: Sys, p: nat, c: CtxId)
    requires Ok(st) && p < TierCount
    requires forall q :: 0 <= q < |st.tiers[p].queues| ==> st.tiers[p].queues[q].items == []
    ensures Settled(st, p, c) == Counter(st, c)
  {
    PendingEmpty(st.tiers[p].queues, c);
  }

  lemma {:induction false} PendingEmpty(qs: seq<Queue>, c: CtxId)
    requires forall i :: 0 <= i < |qs| ==> qs[i].items == []
    ensures PendingIn(qs, c) == 0
  {
    if |qs| > 0 {
      PendingEmpty(qs[1..], c);
    }
  }

  /** `Wait`: while the context is busy, help by sweeping the tier from the
      queue `GetNextQueueIndex` picks. The blocking loop that follows is not
      modelled; the flag returned says whether the caller would still
      block. */
  function Wait(st: Sys, ctx: Context): (r: (bool, Sys))
    requires Ok(st)
    ensures Ok(r.1)
    ensures r.0 <==> IsBusy(r.1, ctx)
    ensures !IsBusy(st, ctx) ==> r.1 == st
    ensures Counter(st, ctx.id) > 0 ==>
      var p := TierIndex(ctx.priority);
      && (forall q :: 0 <= q < r.1.tiers[p].numThreads ==> r.1.tiers[p].queues[q].items == [])
      && (forall c :: Counter(r.1, c) == Settled(st, p, c))
  {
    if !IsBusy(st, ctx) then (false, st)
    else
      var p := TierIndex(ctx.priority);
      var (start, t') := GetNextQueueIndex(st.tiers[p]);
      var st1 := WithTier(st, p, t');
      assert forall c :: Settled(st1, p, c) == Settled(st, p, c);
      var r := Work(st1, p, start);
      (IsBusy(r, ctx), r)
  }

  /** Running or queueing one job takes one from its context's settled
      value and leaves every other context's alone. */
  lemma RunOrQueueSettled(st: Sys, p: nat, job: Job, c: CtxId)
    requires Ok(st) && p < TierCount
    ensures Settled(RunOrQueue(st, p, job), p, c)
         == Settled(st, p, c) - (if job.ctx == c then 1 else 0)
  {
    if st.tiers[p].numThreads == 0 {
      var r := RunOrQueue(st, p, job);
      assert PendingIn(r.tiers[p].queues, c) == PendingIn(st.tiers[p].queues, c);
    } else {
      QueueSettled(st, p, job, c);
    }
  }

  lemma QueueSettled(st: Sys, p: nat, job: Job, c: CtxId)
    requires Ok(st) && p < TierCount && st.tiers[p].numThreads > 0
    ensures Settled(RunOrQueue(st, p, job), p, c)
         == Settled(st, p, c) - (if job.ctx == c then 1 else 0)
  {
    var r := RunOrQueue(st, p, job);
    var t := st.tiers[p];
    var i := t.nextQueueIndex % t.numThreads;
    var pushed := PushBack(t.queues[i], job);
    PendingUpdate(t.queues, i, pushed, c);
    CountForAppend(t.queues[i].items, job, c);
    assert r.tiers[p].queues == t.queues[i := pushed];
    assert Counter(r, c) == Counter(st, c);
  }

  /** Dispatching groups `g` .. `gc - 1` takes `gc - g` from the context's
      settled value. */
  lemma {:induction false} DispatchFromSettled(st: Sys, p: nat, ctx: CtxId, task: TaskId, jobCount: nat, groupSize: nat, g: nat, gc: nat, c: CtxId)
    requires Ok(st) && p < TierCount && g <= gc
    ensures Settled(DispatchFrom(st, p, ctx, task, jobCount, groupSize, g, gc), p, c)
         == Settled(st, p, c) - (if ctx == c then gc - g else 0)
    decreases gc - g
  {
    if g < gc {
      var st' := RunOrQueue(st, p, GroupJob(ctx, task, jobCount, groupSize, g));
      RunOrQueueSettled(st, p, GroupJob(ctx, task, jobCount, groupSize, g), c);
      DispatchFromSettled(st', p, ctx, task, jobCount, groupSize, g + 1, gc, c);
    }
  }

  /** A dispatch leaves every context's settled value where it was: the
      counter grows by the group count and each group takes one back. */
  lemma DispatchSettled(st: Sys, ctx: Context, jobCount: nat, groupSize: nat, task: TaskId, c: CtxId)
    requires Ok(st) && jobCount < U32 && groupSize < U32
    ensures var p := TierIndex(ctx.priority);
      Settled(Dispatch(st, ctx, jobCount, groupSize, task), p, c) == Settled(st, p, c)
  {
    if jobCount > 0 && groupSize > 0 {
      var p := TierIndex(ctx.priority);
      var gc := GroupCount(jobCount, groupSize);
      var st1 := SetCounter(st, ctx.id, Counter(st, ctx.id) + gc);
      var r := DispatchFrom(st1, p, ctx.id, task, jobCount, groupSize, 0, gc);
      assert r == Dispatch(st, ctx, jobCount, groupSize, task);
      DispatchFromSettled(st1, p, ctx.id, task, jobCount, groupSize, 0, gc, c);
      assert PendingIn(st1.tiers[p].queues, c) == PendingIn(st.tiers[p].queues, c);
    }
  }

  /** `Execute` leaves every context's settled value where it was. */
  lemma ExecuteSettled(st: Sys, ctx: Context, task: TaskId, c: CtxId)
    requires Ok(st)
    ensures var p := TierIndex(ctx.priority);
      Settled(Execute(st, ctx, task), p, c) == Settled(st, p, c)
  {
    var p := TierIndex(ctx.priority);
    var st1 := SetCounter(st, ctx.id, Counter(st, ctx.id) + 1);
    assert Execute(st, ctx, task) == RunOrQueue(st1, p, Job(ctx.id, task, 0, 0, 1));
    RunOrQueueSettled(st1, p, Job(ctx.id, task, 0, 0, 1), c);
    assert PendingIn(st1.tiers[p].queues, c) == PendingIn(st.tiers[p].queues, c);
  }

  /** An idle context that dispatches work and then waits finds, once
      `Wait` returns, that it is no longer busy and its counter is back at
      zero, whether the tier ran the groups inline or through its queues.
      Which jobs ran is `DispatchThenWaitRunsAll`. */
  lemma DispatchThenWaitCompletes(st: Sys, ctx: Context, jobCount: nat, groupSize: nat, task: TaskId)
    requires Ok(st) && jobCount < U32 && groupSize < U32
    requires Counter(st, ctx.id) == 0
    requires PendingIn(st.tiers[TierIndex(ctx.priority)].queues, ctx.id) == 0
    ensures var (busy, r) := Wait(Dispatch(st, ctx, jobCount, groupSize, task), ctx);
      !busy && Counter(r, ctx.id) == 0
  {
    DispatchSettled(st, ctx, jobCount, groupSize, task, ctx.id);
    WaitReachesSettled(Dispatch(st, ctx, jobCount, groupSize, task), ctx);
  }

  /** A context whose settled value is zero is idle once `Wait` returns. */
  lemma WaitReachesSettled(st: Sys, ctx: Context)
    requires Ok(st) && Settled(st, TierIndex(ctx.priority), ctx.id) == 0
    ensures !Wait(st, ctx).0
  {
  }

  // ---------------------------------------------------------------------
  // Which jobs are queued, and which calls a sweep makes

  /** One step of an accounting `r == s + g`: `r == s' + g1`, `s' == s + j`
      and `g == j + g1`. */
  lemma MultisetStep<T>(r: multiset<T>, s': multiset<T>, s: multiset<T>, j: multiset<T>, g1: multiset<T>, g: multiset<T>)
    requires r == s' + g1 && s' == s + j && g == j + g1
    ensures r == s + g
  {
    forall e
      ensures r[e] == (s + g)[e]
    {
    }
  }

  /** Going from trace `t0` and queues `q0` to trace `t1` and queues `q1`
      only appended to the trace, and what was appended are calls that were
      waiting in `q0` and are no longer waiting in `q1`. */
  predicate Accounts(t0: seq<Call>, q0: seq<Queue>, t1: seq<Call>, q1: seq<Queue>) {
    && |t1| >= |t0| && t1[..|t0|] == t0
    && multiset(QueuedCalls(q1)) + multiset(t1[|t0|..]) == multiset(QueuedCalls(q0))
  }

  lemma AccountsChain(t0: seq<Call>, q0: seq<Queue>, t1: seq<Call>, q1: seq<Queue>, t2: seq<Call>, q2: seq<Queue>)
    requires Accounts(t0, q0, t1, q1) && Accounts(t1, q1, t2, q2)
    ensures Accounts(t0, q0, t2, q2)
  {
    ExtendChain(t0, t1, t2, multiset(QueuedCalls(q0)), multiset(QueuedCalls(q1)), multiset(QueuedCalls(q2)));
  }

  /** The jobs waiting in a tier's queues, queue by queue. */
  function QueuedJobs(qs: seq<Queue>): seq<Job> {
    if |qs| == 0 then [] else qs[0].items + QueuedJobs(qs[1..])
  }

  /** The calls the waiting jobs will make once run. */
  function QueuedCalls(qs: seq<Queue>): seq<Call> {
    CallsOfJobs(QueuedJobs(qs))
  }

  /** The jobs `Dispatch` creates for groups `g` .. `gc - 1`, in order. */
  function GroupJobs(ctx: CtxId, task: TaskId, jobCount: nat, groupSize: nat, g: nat, gc: nat): (r: seq<Job>)
    ensures |r| == if g < gc then gc - g else 0
    ensures forall k :: 0 <= k < |r| ==> r[k] == GroupJob(ctx, task, jobCount, groupSize, g + k)
    decreases gc - g
  {
    if g >= gc then [] else [GroupJob(ctx, task, jobCount, groupSize, g)] + GroupJobs(ctx, task, jobCount, groupSize, g + 1, gc)
  }

  lemma {:induction false} CallsOfJobsAppend(a: seq<Job>, b: seq<Job>)
    ensures CallsOfJobs(a + b) == CallsOfJobs(a) + CallsOfJobs(b)
    decreases |a|
  {
    if |a| > 0 {
      assert (a + b)[1..] == a[1..] + b;
      CallsOfJobsAppend(a[1..], b);
      ConcatAssoc(Calls(a[0]), CallsOfJobs(a[1..]), CallsOfJobs(b));
    } else {
      assert a + b == b;
    }
  }

  lemma {:induction false} QueuedJobsSplit(qs: seq<Queue>, i: nat)
    requires i < |qs|
    ensures QueuedJobs(qs) == QueuedJobs(qs[..i]) + qs[i].items + QueuedJobs(qs[i + 1..])
    decreases i
  {
    if i == 0 {
      assert qs[..0] == [];
    } else {
      QueuedJobsSplit(qs[1..], i - 1);
      assert qs[1..][..i - 1] == qs[..i][1..];
      assert qs[1..][i - 1] == qs[i];
      assert qs[1..][i..] == qs[i + 1..];
    }
  }

  /** Replacing queue `i` swaps its jobs, and their calls, for the new
      queue's, whatever the order of the rest. */
  lemma QueuedUpdate(qs: seq<Queue>, i: nat, q: Queue)
    requires i < |qs|
    ensures multiset(QueuedJobs(qs[i := q])) + multiset(qs[i].items) == multiset(QueuedJobs(qs)) + multiset(q.items)
    ensures multiset(QueuedCalls(qs[i := q])) + multiset(CallsOfJobs(qs[i].items))
         == multiset(QueuedCalls(qs)) + multiset(CallsOfJobs(q.items))
  {
    var qs' := qs[i := q];
    QueuedJobsSplit(qs, i);
    QueuedJobsSplit(qs', i);
    assert qs'[..i] == qs[..i] && qs'[i + 1..] == qs[i + 1..];
    var a, b := QueuedJobs(qs[..i]), QueuedJobs(qs[i + 1..]);
    CallsOfJobsAppend(a + qs[i].items, b);
    CallsOfJobsAppend(a, qs[i].items);
    CallsOfJobsAppend(a + q.items, b);
    CallsOfJobsAppend(a, q.items);
  }

  lemma {:induction false} QueuedEmpty(qs: seq<Queue>)
    requires forall i :: 0 <= i < |qs| ==> qs[i].items == []
    ensures QueuedJobs(qs) == [] && QueuedCalls(qs) == []
  {
    if |qs| > 0 {
      QueuedEmpty(qs[1..]);
    }
  }

  /** Pushing a job adds exactly that job, and its calls, to the tier. */
  lemma QueuedPush(qs: seq<Queue>, i: nat, job: Job)
    requires i < |qs|
    ensures multiset(QueuedJobs(qs[i := PushBack(qs[i], job)])) == multiset(QueuedJobs(qs)) + multiset{job}
    ensures multiset(QueuedCalls(qs[i := PushBack(qs[i], job)])) == multiset(QueuedCalls(qs)) + multiset(Calls(job))
  {
    var q := PushBack(qs[i], job);
    var items := qs[i].items;
    var x, y := multiset(QueuedJobs(qs[i := q])), multiset(QueuedJobs(qs));
    var xc, yc := multiset(QueuedCalls(qs[i := q])), multiset(QueuedCalls(qs));
    var ci := multiset(CallsOfJobs(items));
    assert x == y + multiset{job} by {
      QueuedUpdate(qs, i, q);
      assert multiset(q.items) == multiset(items) + multiset{job};
      MultisetTakeBack(x, y, multiset(items), multiset{job});
    }
    assert xc == yc + multiset(Calls(job)) by {
      QueuedUpdate(qs, i, q);
      assert multiset(CallsOfJobs(q.items)) == ci + multiset(Calls(job)) by {
        CallsOfJobsAppend(items, [job]);
        assert CallsOfJobs([job]) == Calls(job) + CallsOfJobs([]);
      }
      MultisetTakeBack(xc, yc, ci, multiset(Calls(job)));
    }
  }

  /** Dispatching groups `g` .. `gc - 1` to a tier with workers queues
      exactly their jobs, and so exactly their calls. */
  lemma {:induction false} DispatchFromQueues(st: Sys, p: nat, ctx: CtxId, task: TaskId, jobCount: nat, groupSize: nat, g: nat, gc: nat)
    requires Ok(st) && p < TierCount && st.tiers[p].numThreads > 0
    ensures var r := DispatchFrom(st, p, ctx, task, jobCount, groupSize, g, gc);
      && multiset(QueuedJobs(r.tiers[p].queues))
         == multiset(QueuedJobs(st.tiers[p].queues)) + multiset(GroupJobs(ctx, task, jobCount, groupSize, g, gc))
      && multiset(QueuedCalls(r.tiers[p].queues))
         == multiset(QueuedCalls(st.tiers[p].queues)) + multiset(GroupCalls(ctx, task, jobCount, groupSize, g, gc))
    decreases gc - g
  {
    if g < gc {
      var job := GroupJob(ctx, task, jobCount, groupSize, g);
      var t := st.tiers[p];
      var st' := RunOrQueue(st, p, job);
      var r := DispatchFrom(st', p, ctx, task, jobCount, groupSize, g + 1, gc);
      assert r == DispatchFrom(st, p, ctx, task, jobCount, groupSize, g, gc);
      var i := t.nextQueueIndex % t.numThreads;
      assert st'.tiers[p].queues == t.queues[i := PushBack(t.queues[i], job)];
      QueuedPush(t.queues, i, job);
      DispatchFromQueues(st', p, ctx, task, jobCount, groupSize, g + 1, gc);
      var jobs1 := GroupJobs(ctx, task, jobCount, groupSize, g + 1, gc);
      var calls1 := GroupCalls(ctx, task, jobCount, groupSize, g + 1, gc);
      assert GroupJobs(ctx, task, jobCount, groupSize, g, gc) == [job] + jobs1;
      assert GroupCalls(ctx, task, jobCount, groupSize, g, gc) == Calls(job) + calls1;
      MultisetStep(multiset(QueuedJobs(r.tiers[p].queues)), multiset(QueuedJobs(st'.tiers[p].queues)),
        multiset(QueuedJobs(t.queues)), multiset{job}, multiset(jobs1), multiset([job] + jobs1));
      MultisetStep(multiset(QueuedCalls(r.tiers[p].queues)), multiset(QueuedCalls(st'.tiers[p].queues)),
        multiset(QueuedCalls(t.queues)), multiset(Calls(job)), multiset(calls1), multiset(Calls(job) + calls1));
    }
  }

  /** Draining one queue runs exactly the calls of its jobs. */
  lemma DrainQueueRuns(st: Sys, p: nat, q: nat)
    requires Ok(st) && p < TierCount && q < st.tiers[p].numThreads
    ensures var r := DrainQueue(st, p, q);
      Accounts(st.trace, st.tiers[p].queues, r.trace, r.tiers[p].queues)
  {
    var r := DrainQueue(st, p, q);
    var qs := st.tiers[p].queues;
    var d := CallsOfJobs(qs[q].items);
    assert r.tiers[p].queues == qs[q := r.tiers[p].queues[q]];
    QueuedUpdate(qs, q, r.tiers[p].queues[q]);
    assert r.trace[|st.trace|..] == d;
  }

  /** A sweep only appends to the trace, and what it appends are calls of
      jobs that were waiting in the tier. */
  lemma {:induction false} SweepRuns(st: Sys, p: nat, order: seq<nat>, i: nat)
    requires Ok(st) && p < TierCount
    requires forall k :: 0 <= k < |order| ==> order[k] < st.tiers[p].numThreads
    ensures var r := Sweep(st, p, order, i);
      Accounts(st.trace, st.tiers[p].queues, r.trace, r.tiers[p].queues)
    decreases |order| - i, 1
  {
    if i < |order| {
      DrainThenSweepRuns(st, p, order, i);
    } else {
      assert st.trace[|st.trace|..] == [];
    }
  }

  /** One step of a sweep: drain queue `order[i]`, then sweep on. */
  lemma {:induction false} DrainThenSweepRuns(st: Sys, p: nat, order: seq<nat>, i: nat)
    requires Ok(st) && p < TierCount && i < |order|
    requires forall k :: 0 <= k < |order| ==> order[k] < st.tiers[p].numThreads
    ensures var r := Sweep(DrainQueue(st, p, order[i]), p, order, i + 1);
      Accounts(st.trace, st.tiers[p].queues, r.trace, r.tiers[p].queues)
    decreases |order| - i, 0
  {
    var st' := DrainQueue(st, p, order[i]);
    var r := Sweep(st', p, order, i + 1);
    DrainQueueRuns(st, p, order[i]);
    SweepRuns(st', p, order, i + 1);
    AccountsChain(st.trace, st.tiers[p].queues, st'.trace, st'.tiers[p].queues, r.trace, r.tiers[p].queues);
  }

  /** A full sweep runs every waiting job of the tier: the calls it appends
      are, up to order, the calls of the jobs that were queued. */
  lemma WorkRuns(st: Sys, p: nat, start: nat)
    requires Ok(st) && p < TierCount
    ensures var r := Work(st, p, start);
      && |r.trace| >= |st.trace| && r.trace[..|st.trace|] == st.trace
      && multiset(r.trace[|st.trace|..]) == multiset(QueuedCalls(st.tiers[p].queues))
  {
    var r := Work(st, p, start);
    SweepRuns(st, p, SweepOrder(st.tiers[p].numThreads, start), 0);
    QueuedEmpty(r.tiers[p].queues);
  }

  /** Visiting the same calls in another order visits the same indices. */
  lemma IndicesPermute(a: seq<Call>, b: seq<Call>)
    requires multiset(a) == multiset(b)
    ensures multiset(Indices(a)) == multiset(Indices(b))
  {
    IndicesAreMap(a);
    IndicesAreMap(b);
    MapPermute(JobIndexOf, a, b);
  }

  function JobIndexOf(c: Call): nat {
    c.args.jobIndex
  }

  lemma IndicesAreMap(calls: seq<Call>)
    ensures Indices(calls) == MapSeq(JobIndexOf, calls)
  {
    assert forall k :: 0 <= k < |calls| ==> Indices(calls)[k] == MapSeq(JobIndexOf, calls)[k];
  }

  /** An idle context dispatching to a tier with nothing queued, then
      waiting: every job index in [0, job_count) has run exactly once by
      the time `Wait` returns, inline or through the queues, and the trace
      was only appended to. */
  lemma DispatchThenWaitRunsAll(st: Sys, ctx: Context, jobCount: nat, groupSize: nat, task: TaskId)
    requires Ok(st) && 0 < jobCount < U32 && 0 < groupSize < U32
    requires Counter(st, ctx.id) == 0
    requires forall q :: 0 <= q < |st.tiers[TierIndex(ctx.priority)].queues| ==>
      st.tiers[TierIndex(ctx.priority)].queues[q].items == []
    ensures var r := Wait(Dispatch(st, ctx, jobCount, groupSize, task), ctx).1;
      && |r.trace| >= |st.trace| && r.trace[..|st.trace|] == st.trace
      && multiset(Indices(r.trace[|st.trace|..])) == multiset(Range(0, jobCount))
  {
    var p := TierIndex(ctx.priority);
    var gc := GroupCount(jobCount, groupSize);
    var d := Dispatch(st, ctx, jobCount, groupSize, task);
    var r := Wait(d, ctx).1;
    var calls := GroupCalls(ctx.id, task, jobCount, groupSize, 0, gc);
    DispatchInlineVisitsAll(ctx.id, task, jobCount, groupSize);
    if st.tiers[p].numThreads == 0 {
      DispatchInline(st, ctx, jobCount, groupSize, task);
      assert r == d;
    } else {
      var st1 := SetCounter(st, ctx.id, Counter(st, ctx.id) + gc);
      DispatchFromQueues(st1, p, ctx.id, task, jobCount, groupSize, 0, gc);
      QueuedEmpty(st.tiers[p].queues);
      assert multiset(QueuedCalls(d.tiers[p].queues)) == multiset(calls);
      var (start, t') := GetNextQueueIndex(d.tiers[p]);
      var d1 := WithTier(d, p, t');
      assert r == Work(d1, p, start);
      WorkRuns(d1, p, start);
      IndicesPermute(r.trace[|st.trace|..], calls);
    }
  }
}

/** The replication worker pool: resizing by kill tokens, and the one retry a
    failed object gets. */
module ReplicationPool {
  /** Workers are idle (in their select) or busy (replicating).  A kill token
      is first held by the goroutine sending it, then perhaps by the channel,
      which holds at most `capacity`. */
  datatype Pool = Pool(workerSize: int, idle: nat, busy: nat, sending: nat, queued: nat, capacity: nat) {
    function Live(): nat { idle + busy }

    function Tokens(): nat { sending + queued }

    predicate Valid() {
      Live() == workerSize + Tokens() && queued <= capacity
    }
  }

  // NewReplicationPool before its first resize.
  function New(capacity: nat): Pool { Pool(0, 0, 0, 0, 0, capacity) }

  // Send: a token enters the channel.  Handoff: it goes straight to a waiting
  // worker, which exits.  Kill: a worker takes it from the channel.
  datatype Event = Resize(n: int) | Send | Handoff | Kill | TakeTask | FinishTask

  predicate Enabled(p: Pool, e: Event) {
    match e
    case Resize(_) => true
    case Send => p.sending > 0 && p.queued < p.capacity
    case Handoff => p.sending > 0 && p.idle > 0
    case Kill => p.queued > 0 && p.idle > 0
    case TakeTask => p.idle > 0
    case FinishTask => p.busy > 0
  }

  function Resized(p: Pool, n: int): Pool {
    if p.workerSize < n then p.(workerSize := n, idle := p.idle + (n - p.workerSize))
    else p.(workerSize := n, sending := p.sending + (p.workerSize - n))
  }

  function Next(p: Pool, e: Event): Pool {
    if !Enabled(p, e) then p
    else
      match e
      case Resize(n) => Resized(p, n)
      case Send => p.(sending := p.sending - 1, queued := p.queued + 1)
      case Handoff => p.(sending := p.sending - 1, idle := p.idle - 1)
      case Kill => p.(queued := p.queued - 1, idle := p.idle - 1)
      case TakeTask => p.(idle := p.idle - 1, busy := p.busy + 1)
      case FinishTask => p.(idle := p.idle + 1, busy := p.busy - 1)
  }

  function Run(p: Pool, es: seq<Event>): Pool
    decreases |es|
  {
    if es == [] then p else Run(Next(p, es[0]), es[1..])
  }

  lemma {:induction false} RunAppend(p: Pool, a: seq<Event>, b: seq<Event>)
    ensures Run(p, a + b) == Run(Run(p, a), b)
    decreases |a|
  {
    if a == [] {
      assert a + b == b;
    } else {
      assert (a + b)[1..] == a[1..] + b;
      RunAppend(Next(p, a[0]), a[1..], b);
    }
  }

  /** In every interleaving of resizes, kills and work, the live workers are
      the pool's size plus the kill tokens still on their way. */
  lemma {:induction false} LiveIsSizePlusTokens(p: Pool, es: seq<Event>)
    requires p.Valid()
    ensures Run(p, es).Valid()
    decreases |es|
  {
    if es != [] {
      LiveIsSizePlusTokens(Next(p, es[0]), es[1..]);
    }
  }

  predicate NoResize(es: seq<Event>) { forall i :: 0 <= i < |es| ==> !es[i].Resize? }

  // The last resize of a run decides the size.
  lemma {:induction false} SizeOnlyByResize(p: Pool, es: seq<Event>)
    requires NoResize(es)
    ensures Run(p, es).workerSize == p.workerSize
    decreases |es|
  {
    if es != [] {
      assert !es[0].Resize?;
      SizeOnlyByResize(Next(p, es[0]), es[1..]);
    }
  }

  /** After a resize to n and anything but another resize, exactly n workers
      are left as soon as no token is on its way. */
  lemma ResizeSettles(p: Pool, n: int, es: seq<Event>)
    requires p.Valid() && NoResize(es)
    ensures var r := Run(Next(p, Resize(n)), es);
      && r.workerSize == n
      && (r.Tokens() == 0 <==> r.Live() == n)
  {
    LiveIsSizePlusTokens(Next(p, Resize(n)), es);
    SizeOnlyByResize(Next(p, Resize(n)), es);
  }

  // Let the busy finish, then hand every token to a worker.
  function Drain(p: Pool): seq<Event>
    decreases p.busy + p.Tokens()
  {
    if p.busy > 0 then [FinishTask] + Drain(Next(p, FinishTask))
    else if p.sending > 0 && p.idle > 0 then [Handoff] + Drain(Next(p, Handoff))
    else if p.queued > 0 && p.idle > 0 then [Kill] + Drain(Next(p, Kill))
    else []
  }

  /** No token is ever stranded: from every reachable pool of non-negative
      size the tokens can all be delivered, leaving exactly workerSize
      workers. */
  lemma {:induction false} TokensCanDrain(p: Pool)
    requires p.Valid() && p.workerSize >= 0
    ensures var r := Run(p, Drain(p));
      r.Tokens() == 0 && r.busy == 0 && r.Live() == p.workerSize == r.workerSize
    decreases p.busy + p.Tokens()
  {
    if p.busy > 0 {
      DrainStep(p, FinishTask);
    } else if p.sending > 0 {
      DrainStep(p, Handoff);
    } else if p.queued > 0 {
      DrainStep(p, Kill);
    }
    if p.busy > 0 || p.Tokens() > 0 {
      TokensCanDrain(Next(p, Drain(p)[0]));
    }
  }

  lemma DrainStep(p: Pool, e: Event)
    requires Drain(p) == [e] + Drain(Next(p, e))
    ensures Drain(p)[0] == e && Run(p, Drain(p)) == Run(Next(p, e), Drain(Next(p, e)))
  {
    assert Drain(p)[1..] == Drain(Next(p, e));
  }

  // A negative size strands tokens for ever: one more token than workers.
  lemma NegativeSizeStrands(p: Pool, es: seq<Event>)
    requires p.Valid() && p.workerSize < 0 && NoResize(es)
    ensures Run(p, es).Tokens() > 0
  {
    LiveIsSizePlusTokens(p, es);
    SizeOnlyByResize(p, es);
  }

  lemma {:induction false} DrainNeverResizes(p: Pool)
    ensures NoResize(Drain(p))
    decreases p.busy + p.Tokens()
  {
    if p.busy > 0 {
      DrainNeverResizes(Next(p, FinishTask));
    } else if p.sending > 0 && p.idle > 0 {
      DrainNeverResizes(Next(p, Handoff));
    } else if p.queued > 0 && p.idle > 0 {
      DrainNeverResizes(Next(p, Kill));
    }
  }

  /** The tokens of a pool can all be delivered without another resize exactly
      if its size is not negative. */
  lemma DrainableExactly(p: Pool)
    requires p.Valid()
    ensures p.workerSize >= 0 <==> exists es :: NoResize(es) && Run(p, es).Tokens() == 0
  {
    if p.workerSize >= 0 {
      TokensCanDrain(p);
      DrainNeverResizes(p);
    } else {
      forall es | NoResize(es) ensures Run(p, es).Tokens() > 0 {
        NegativeSizeStrands(p, es);
      }
    }
  }

  lemma {:induction false} SizeStaysConfigured(p: Pool, es: seq<Event>)
    requires p.workerSize >= 0 && forall i :: 0 <= i < |es| && es[i].Resize? ==> es[i].n >= 1
    ensures Run(p, es).workerSize >= 0
    decreases |es|
  {
    if es != [] {
      assert es[0].Resize? ==> es[0].n >= 1;
      SizeStaysConfigured(Next(p, es[0]), es[1..]);
    }
  }

  /** The configuration refuses sizes below one, so in every run of the server,
      at any time, all tokens can still be delivered. */
  lemma ConfiguredPoolsDrain(capacity: nat, es: seq<Event>)
    requires forall i :: 0 <= i < |es| && es[i].Resize? ==> es[i].n >= 1
    ensures exists drain :: NoResize(drain) && Run(New(capacity), es + drain).Tokens() == 0
  {
    var p := Run(New(capacity), es);
    LiveIsSizePlusTokens(New(capacity), es);
    SizeStaysConfigured(New(capacity), es);
    DrainableExactly(p);
    var drain :| NoResize(drain) && Run(p, drain).Tokens() == 0;
    RunAppend(New(capacity), es, drain);
  }

  /** ReplicationPool's sizing part.  ResizeFailedWorkers is the same code over
      the failed-task workers and their own kill channel. */
  class ReplicationPool {
    var workerSize: int
    var idle: nat
    var busy: nat
    var sending: nat
    var queued: nat
    const capacity: nat

    constructor (workers: nat)
      ensures View() == Resized(New(workers), workers)
    {
      workerSize, idle, busy, sending, queued, capacity := 0, 0, 0, 0, 0, workers;
      new;
      ResizeWorkers(workers);
    }

    function View(): Pool
      reads this
    {
      Pool(workerSize, idle, busy, sending, queued, capacity)
    }

    /** One worker or one token at a time, until the size is n. */
    method ResizeWorkers(n: int)
      modifies this
      ensures View() == Resized(old(View()), n)
      ensures old(View().Valid()) ==> View().Valid()
    {
      while workerSize < n
        invariant workerSize <= n || workerSize == old(workerSize)
        invariant View() == old(View()).(workerSize := workerSize, idle := idle)
        invariant workerSize >= old(workerSize) && idle == old(idle) + (workerSize - old(workerSize))
        decreases n - workerSize
      {
        workerSize := workerSize + 1;
        idle := idle + 1;
      }
      label grown:
      while workerSize > n
        invariant workerSize >= n
        invariant View() == old@grown(View()).(workerSize := workerSize, sending := sending)
        invariant workerSize <= old@grown(workerSize)
        invariant sending == old@grown(sending) + (old@grown(workerSize) - workerSize)
        decreases workerSize - n
      {
        workerSize := workerSize - 1;
        sending := sending + 1;
      }
    }
  }

  // ----- retries -----

  // Where a submitted object is: waiting for a worker, being replicated,
  // waiting for a failed-task worker, or out of the pool.
  datatype Place = Waiting | Running | WaitingMrf | Out

  datatype Task = Task(place: Place, retryCount: nat, attempts: nat)

  type Tasks = map<nat, Task>

  // mrfHasRoom: the failed-task queue accepts the task (it drops otherwise).
  datatype TaskEvent =
    | Submit(id: nat, hasRoom: bool)
    | Begin(id: nat)
    | End(id: nat, completed: bool, mrfHasRoom: bool)
    | Abandon(id: nat)

  // The tail of replicateObject: what becomes of a task whose attempt ended.
  function AfterAttempt(t: Task, completed: bool, mrfHasRoom: bool): Task {
    if !completed && t.retryCount < 1 then
      t.(retryCount := t.retryCount + 1, place := if mrfHasRoom then WaitingMrf else Out)
    else t.(place := Out)
  }

  function TaskStep(ts: Tasks, e: TaskEvent): Tasks {
    match e
    case Submit(id, hasRoom) =>
      if id in ts then ts else ts[id := Task(if hasRoom then Waiting else Out, 0, 0)]
    case Begin(id) =>
      if id in ts && (ts[id].place == Waiting || ts[id].place == WaitingMrf)
      then ts[id := ts[id].(place := Running, attempts := ts[id].attempts + 1)] else ts
    case End(id, completed, mrfHasRoom) =>
      if id in ts && ts[id].place == Running then ts[id := AfterAttempt(ts[id], completed, mrfHasRoom)] else ts
    case Abandon(id) =>  // an early return of replicateObject
      if id in ts && ts[id].place == Running then ts[id := ts[id].(place := Out)] else ts
  }

  function TaskRun(ts: Tasks, es: seq<TaskEvent>): Tasks
    decreases |es|
  {
    if es == [] then ts else TaskRun(TaskStep(ts, es[0]), es[1..])
  }

  predicate WellCounted(t: Task) {
    match t.place
    case Waiting => t.retryCount == 0 && t.attempts == 0
    case Running => t.retryCount <= 1 && t.attempts == t.retryCount + 1
    case WaitingMrf => t.retryCount == 1 && t.attempts == 1
    case Out => t.retryCount <= 1 && t.attempts <= 2
  }

  /** Each submitted object is attempted at most twice, the second time only
      from the failed-task queue. */
  lemma {:induction false} AtMostTwoAttempts(ts: Tasks, es: seq<TaskEvent>)
    requires forall id :: id in ts ==> WellCounted(ts[id])
    ensures forall id :: id in TaskRun(ts, es) ==> WellCounted(TaskRun(ts, es)[id]) && TaskRun(ts, es)[id].attempts <= 2
    decreases |es|
  {
    if es != [] {
      AtMostTwoAttempts(TaskStep(ts, es[0]), es[1..]);
    }
  }

  /** What becomes of an object that is submitted, for all outcomes: without
      room it is never attempted; a first attempt that fails is followed by a
      second exactly if the failed-task queue has room, and that is the last
      whatever comes of it. */
  lemma AttemptedTwiceExactly(ts: Tasks, id: nat, room: bool, done1: bool, mrfRoom: bool, done2: bool, mrfRoom2: bool)
    requires id !in ts
    ensures var r := TaskRun(ts, Life(id, room, done1, mrfRoom, done2, mrfRoom2));
      && id in r && r[id].place == Out
      && r[id].attempts == (if !room then 0 else if !done1 && mrfRoom then 2 else 1)
      && forall k :: k in ts ==> k in r && r[k] == ts[k]
  {
    var es := Life(id, room, done1, mrfRoom, done2, mrfRoom2);
    var t1, t2, t3, t4 := es[1..], es[2..], es[3..], es[4..];
    assert t1[1..] == t2 && t2[1..] == t3 && t3[1..] == t4 && t4[1..] == [];
    var s1 := TaskStep(ts, es[0]);
    var s2 := TaskStep(s1, t1[0]);
    var s3 := TaskStep(s2, t2[0]);
    var s4 := TaskStep(s3, t3[0]);
    var s5 := TaskStep(s4, t4[0]);
    assert TaskRun(s4, t4) == s5;
    assert TaskRun(s3, t3) == s5;
    assert TaskRun(s2, t2) == s5;
    assert TaskRun(s1, t1) == s5;
  }

  // Two workers come by for the object, if it is there for them.
  function Life(id: nat, room: bool, done1: bool, mrfRoom: bool, done2: bool, mrfRoom2: bool): seq<TaskEvent> {
    [Submit(id, room), Begin(id), End(id, done1, mrfRoom), Begin(id), End(id, done2, mrfRoom2)]
  }
}

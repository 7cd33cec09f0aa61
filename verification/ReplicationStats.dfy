/** In-memory replication statistics, kept by 64-bit atomic additions. */
module ReplicationStats {
  const TWO64: int := 0x1_0000_0000_0000_0000

  // A uint64 conversion, and atomic.AddUint64.
  function U64(x: int): (r: nat)
    ensures r < TWO64
  {
    x % TWO64
  }

  function Add64(a: nat, b: nat): nat { U64(a + b) }

  // ^x on uint64
  function Not64(x: nat): nat
    requires x < TWO64
  {
    TWO64 - 1 - x
  }

  /** Adding ^uint64(n-1) subtracts n exactly, for every int64 n, zero and
      negative ones included. */
  lemma SubtractionByComplement(a: int, n: int)
    requires -0x8000_0000_0000_0000 <= n < 0x8000_0000_0000_0000
    ensures Add64(U64(a), Not64(U64(n - 1))) == U64(a - n)
  {
    hide U64;
    ComplementIs(n);
    AddIsExact(a, -n);
  }

  lemma ComplementIs(n: int)
    requires -0x8000_0000_0000_0000 <= n < 0x8000_0000_0000_0000
    ensures Not64(U64(n - 1)) == U64(-n)
  {
    assert U64(n - 1) == if n >= 1 then n - 1 else n - 1 + TWO64;
  }

  lemma AddIsExact(a: int, n: int)
    ensures Add64(U64(a), U64(n)) == U64(a + n)
  {}

  // The statuses an update is called with: "COMPLETED" is Completed, but a
  // purge that has been replicated says "COMPLETE", which is Purged here.
  datatype Status = NoStatus | Pending | Completed | Failed | Replica | Purged

  datatype OpType = Unset | Object | Delete | Metadata | Heal | ExistingObject

  datatype Counters = Counters(failedSize: nat, replicatedSize: nat, replicaSize: nat, failedCount: nat)

  const ZERO := Counters(0, 0, 0, 0)

  /** What one Update does to a bucket's counters. */
  function Bump(c: Counters, n: int, status: Status, prev: Status, op: OpType): Counters {
    match status
    case Completed =>
      var c1 := if prev == Failed then c.(failedCount := Add64(c.failedCount, Not64(0))) else c;
      if op != Object then c1
      else
        var c2 := c1.(replicatedSize := Add64(c1.replicatedSize, U64(n)));
        if prev == Failed then c2.(failedSize := Add64(c2.failedSize, Not64(U64(n - 1)))) else c2
    case Failed =>
      if op == Object && prev == Pending then
        c.(failedSize := Add64(c.failedSize, U64(n)), failedCount := Add64(c.failedCount, 1))
      else c
    case Replica =>
      if op == Object then c.(replicaSize := Add64(c.replicaSize, U64(n))) else c
    case _ => c
  }

  class ReplicationStats {
    var cache: map<string, Counters>

    constructor ()
      ensures cache == map[]
    {
      cache := map[];
    }

    /** Update: the named bucket's counters move, and no other's. */
    method Update(bucket: string, n: int, status: Status, prev: Status, op: OpType)
      modifies this
      ensures cache == old(cache)[bucket := Bump(Lookup(old(cache), bucket), n, status, prev, op)]
    {
      var b := ZERO;
      if bucket in cache {
        b := cache[bucket];
      }
      match status {
        case Completed =>
          if prev == Failed {
            b := b.(failedCount := Add64(b.failedCount, Not64(0)));
          }
          if op == Object {
            b := b.(replicatedSize := Add64(b.replicatedSize, U64(n)));
            if prev == Failed {
              b := b.(failedSize := Add64(b.failedSize, Not64(U64(n - 1))));
            }
          }
        case Failed =>
          if op == Object {
            if prev == Pending {
              b := b.(failedSize := Add64(b.failedSize, U64(n)));
              b := b.(failedCount := Add64(b.failedCount, 1));
            }
          }
        case Replica =>
          if op == Object {
            b := b.(replicaSize := Add64(b.replicaSize, U64(n)));
          }
        case _ =>
      }
      cache := cache[bucket := b];
    }

    method Get(bucket: string) returns (c: Counters)
      ensures c == Lookup(cache, bucket)
    {
      if bucket !in cache {
        return ZERO;
      }
      return cache[bucket];
    }
  }

  function Lookup(cache: map<string, Counters>, bucket: string): Counters {
    if bucket in cache then cache[bucket] else ZERO
  }

  // ----- histories of one bucket -----

  // An object's size and current replication status, by position.
  datatype Tracked = Tracked(size: nat, status: Status)

  // One update: object i (a version, or a delete marker of size 0) moves to a
  // new status by an operation of type op.
  datatype Event = Event(i: nat, status: Status, op: OpType)

  // The counters, the objects, and the bytes completed and received as
  // replicas so far.
  datatype World = World(counters: Counters, objects: seq<Tracked>, completedBytes: nat, replicaBytes: nat)

  function Step(w: World, e: Event): World {
    if e.i >= |w.objects| then w
    else
      var o := w.objects[e.i];
      World(
        Bump(w.counters, o.size, e.status, o.status, e.op),
        w.objects[e.i := o.(status := e.status)],
        w.completedBytes + (if e.op == Object && e.status == Completed then o.size else 0),
        w.replicaBytes + if e.op == Object && e.status == Replica then o.size else 0)
  }

  function Run(w: World, es: seq<Event>): World
    decreases |es|
  {
    if es == [] then w else Run(Step(w, es[0]), es[1..])
  }

  function FailedCount(os: seq<Tracked>): nat {
    if os == [] then 0 else FailedCount(os[1..]) + if os[0].status == Failed then 1 else 0
  }

  function FailedSize(os: seq<Tracked>): nat {
    if os == [] then 0 else FailedSize(os[1..]) + if os[0].status == Failed then os[0].size else 0
  }

  lemma {:induction false} FailedAfterUpdate(os: seq<Tracked>, i: nat, status: Status)
    requires i < |os|
    ensures var os' := os[i := os[i].(status := status)];
      var was, now := if os[i].status == Failed then 1 else 0, if status == Failed then 1 else 0;
      && FailedCount(os') == FailedCount(os) + now - was
      && FailedSize(os') == FailedSize(os) + (now - was) * os[i].size
    decreases |os|
  {
    var os' := os[i := os[i].(status := status)];
    if i == 0 {
      assert os'[1..] == os[1..];
    } else {
      FailedAfterUpdate(os[1..], i - 1, status);
      assert os'[1..] == os[1..][i - 1 := os[i].(status := status)];
    }
  }

  /** The counters say what is true of the objects. */
  predicate Faithful(w: World) {
    && w.counters.failedCount == U64(FailedCount(w.objects))
    && w.counters.failedSize == U64(FailedSize(w.objects))
    && w.counters.replicatedSize == U64(w.completedBytes)
    && w.counters.replicaSize == U64(w.replicaBytes)
  }

  // The updates that keep count.  An object operation does if the object
  // fails from Pending, may fail again, and leaves Failed only by completing.
  // Any other operation never adds a failure and gives back only its count,
  // so it must not let an object fail, nor leave Failed except by completing
  // something of size 0.
  predicate Accounted(from: Status, to: Status, op: OpType, size: nat) {
    if op == Object then
      && (to == Failed ==> from == Pending || from == Failed)
      && (from == Failed ==> to == Failed || to == Completed)
    else
      (from == Failed <==> to == Failed) || (from == Failed && to == Completed && size == 0)
  }

  /** One update, by an operation of any type, keeps the counters faithful
      exactly when it is an accounted one. */
  lemma StepFaithfulExactly(w: World, e: Event)
    requires Faithful(w) && e.i < |w.objects|
    requires w.objects[e.i].size < 0x8000_0000_0000_0000
    ensures Faithful(Step(w, e)) <==> Accounted(w.objects[e.i].status, e.status, e.op, w.objects[e.i].size)
  {
    hide U64, Add64, Not64;
    var o := w.objects[e.i];
    FailedAfterUpdate(w.objects, e.i, e.status);
    Canonical(0);
    Canonical(1);
    Canonical(o.size);
    OnlyZeroShiftsNothing(FailedSize(w.objects), o.size);
    OnlyZeroShiftsNothing(FailedSize(w.objects) - o.size, o.size);
    var w', count, size := Step(w, e), FailedCount(w.objects), FailedSize(w.objects);
    AddIsExact(w.completedBytes, o.size);
    AddIsExact(w.replicaBytes, o.size);
    AddIsExact(size, o.size);
    AddIsExact(count, 1);
    SubtractionByComplement(count, 1);
    SubtractionByComplement(size, o.size);
    NeighboursDiffer(count);
  }

  lemma NeighboursDiffer(a: int)
    ensures U64(a) != U64(a + 1) && U64(a) != U64(a - 1)
  {}

  predicate AccountedFor(w: World, e: Event)
    requires e.i < |w.objects|
  {
    Accounted(w.objects[e.i].status, e.status, e.op, w.objects[e.i].size)
  }

  // Every status change along the way is accounted for.
  predicate AllAccounted(w: World, es: seq<Event>)
    decreases |es|
  {
    es != [] ==>
      && (es[0].i < |w.objects| ==> AccountedFor(w, es[0]))
      && AllAccounted(Step(w, es[0]), es[1..])
  }

  /** Over any history of operations whose status changes are accounted for,
      the failed counters are the number and total size of the objects now
      failed, the replicated size is the bytes completed, and the replica size
      the bytes received as replicas, all modulo 2^64. */
  lemma {:induction false} CountersFaithful(w: World, es: seq<Event>)
    requires Faithful(w) && AllAccounted(w, es)
    requires forall i :: 0 <= i < |w.objects| ==> w.objects[i].size < 0x8000_0000_0000_0000
    ensures Faithful(Run(w, es))
    decreases |es|
  {
    if es != [] {
      if es[0].i < |w.objects| {
        StepFaithfulExactly(w, es[0]);
      }
      CountersFaithful(Step(w, es[0]), es[1..]);
    }
  }

  /** A failure and the retry that completes it, from any counters: the
      failed counters come out as they were exactly when the failure was an
      object operation's and the retry is one too, or has nothing to give
      back. */
  lemma RetryBalancesExactly(c: Counters, n: nat, failing: OpType, retry: OpType)
    requires c.failedCount < TWO64 && c.failedSize < TWO64 && n < 0x8000_0000_0000_0000
    ensures var c' := FailThenComplete(c, n, failing, retry);
      (c'.failedCount == c.failedCount && c'.failedSize == c.failedSize)
        <==> (failing == Object && (retry == Object || n == 0))
  {
    hide U64, Add64, Not64;
    Canonical(c.failedCount);
    Canonical(c.failedSize);
    SubtractionByComplement(c.failedSize + n, n);
    SubtractionByComplement(c.failedSize, n);
    SubtractionByComplement(c.failedCount + 1, 1);
    SubtractionByComplement(c.failedCount, 1);
    AddIsExact(c.failedSize, n);
    AddIsExact(c.failedCount, 1);
    Canonical(0);
    Canonical(1);
    Canonical(n);
    NeighboursDiffer(c.failedCount);
    OnlyZeroShiftsNothing(c.failedSize, n);
  }

  lemma Canonical(x: int)
    requires 0 <= x < TWO64
    ensures U64(x) == x
  {}

  lemma OnlyZeroShiftsNothing(a: int, n: nat)
    requires n < TWO64
    ensures U64(a + n) == U64(a) <==> n == 0
  {}

  function FailThenComplete(c: Counters, n: int, failing: OpType, retry: OpType): Counters {
    Bump(Bump(c, n, Failed, Pending, failing), n, Completed, Failed, retry)
  }

  // The status replicateDelete reports: of a delete marker, or of a version
  // purged for good.
  function DeleteStatus(purge: bool, removed: bool): Status {
    if !removed then Failed else if purge then Purged else Completed
  }

  // replicateDelete on something pending, which fails, and its retry, which
  // does not.
  function DeleteRetried(c: Counters, purge: bool): Counters {
    var failed := Bump(c, 0, DeleteStatus(purge, false), Pending, Delete);
    Bump(failed, 0, DeleteStatus(purge, true), Failed, Delete)
  }

  /** A failed delete is not counted, but the retry of a delete marker's takes
      one off all the same, so a count of zero wraps around; a purge's retry
      changes nothing. */
  lemma DeleteRetryUnderflows(c: Counters, purge: bool)
    requires c.failedCount < TWO64
    ensures DeleteRetried(c, purge) == c <==> purge
    ensures c.failedCount == 0 && !purge ==> DeleteRetried(c, purge).failedCount == TWO64 - 1
    ensures DeleteRetried(c, purge).failedSize == c.failedSize
  {}

  // ----- many buckets -----

  datatype Call = Call(bucket: string, n: int, status: Status, prev: Status, op: OpType)

  function Calls(cache: map<string, Counters>, cs: seq<Call>): map<string, Counters>
    decreases |cs|
  {
    if cs == [] then cache
    else
      var before, c := Calls(cache, cs[..|cs| - 1]), cs[|cs| - 1];
      before[c.bucket := Bump(Lookup(before, c.bucket), c.n, c.status, c.prev, c.op)]
  }

  // The calls for one bucket, and what they make of its counters.
  function Of(cs: seq<Call>, bucket: string): seq<Call> {
    if cs == [] then []
    else Of(cs[..|cs| - 1], bucket) + if cs[|cs| - 1].bucket == bucket then [cs[|cs| - 1]] else []
  }

  function Bumps(c: Counters, cs: seq<Call>): Counters
    decreases |cs|
  {
    if cs == [] then c
    else
      var last := cs[|cs| - 1];
      Bump(Bumps(c, cs[..|cs| - 1]), last.n, last.status, last.prev, last.op)
  }

  // What Get answers for a bucket after any calls is what that bucket's own
  // calls make of its counters, in order, whatever the others did.
  lemma {:induction false} GetSeesOwnCallsOnly(cache: map<string, Counters>, cs: seq<Call>, bucket: string)
    ensures Lookup(Calls(cache, cs), bucket) == Bumps(Lookup(cache, bucket), Of(cs, bucket))
    decreases |cs|
  {
    hide Bump;
    if cs != [] {
      var front, last := cs[..|cs| - 1], cs[|cs| - 1];
      GetSeesOwnCallsOnly(cache, front, bucket);
      if last.bucket == bucket {
        assert (Of(front, bucket) + [last])[..|Of(front, bucket)|] == Of(front, bucket);
      } else {
        assert Of(front, bucket) + [] == Of(front, bucket);
      }
    }
  }
}

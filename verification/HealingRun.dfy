/** Whole runs of healing one drive: healErasureSet driving its tracker, with
    saves in between and crashes anywhere. */
module HealingRun {
  import opened Base
  import opened MessagePack
  import opened HealingTracker

  lemma AddLaws(a: Counts, b: Counts, c: Counts)
    ensures Add(Add(a, b), c) == Add(a, Add(b, c))
    ensures Add(a, b) == Add(b, a) && Add(a, ZERO) == a && Add(ZERO, a) == a
  {
    hide Plus;
    PlusLaws(a.healed, b.healed, c.healed);
    PlusLaws(a.failed, b.failed, c.failed);
    PlusLaws(a.bytesDone, b.bytesDone, c.bytesDone);
    PlusLaws(a.bytesFailed, b.bytesFailed, c.bytesFailed);
  }

  lemma PlusLaws(x: uint64, y: uint64, z: uint64)
    ensures Plus(Plus(x, y), z) == Plus(x, Plus(y, z))
    ensures Plus(x, y) == Plus(y, x) && Plus(x, 0) == x && Plus(0, x) == x
  {}

  // ----- the tracker's side -----

  const FRESH: Progress := Progress(ZERO, ZERO, [], [], [])

  // mem is lost in a crash; active: between the start of a bucket and its end.
  datatype State = State(mem: Progress, active: bool, disk: Progress)

  datatype Event =
    | Queue(buckets: seq<Bytes>, saved: bool)
    | Begin(bucket: Bytes)
    | Version(ok: bool, size: uint64)
    | Save
    | Done
    | Crash
    | Swap

  function Step(s: State, e: Event): State {
    match e
    case Queue(buckets, saved) =>
      if s.active then s
      else
        var t := s.mem.(queued := Unhealed(buckets, s.mem.healed));
        State(t, false, if saved then t else s.disk)
    case Begin(b) =>
      if s.active || b in s.mem.healed then s
      else State(BeginBucket(s.mem, b), true, s.disk)
    case Version(ok, size) =>
      if !s.active then s else s.(mem := CountVersion(s.mem, ok, size))
    case Save => s.(disk := s.mem)
    case Done => if !s.active then s else State(CloseBucket(s.mem), false, s.disk)
    case Crash => State(s.disk, false, s.disk)
    case Swap => State(FRESH, false, FRESH)
  }

  // ----- the ledger's side: attempts, not counters -----

  // A completed attempt: what it healed itself, and what earlier attempts at
  // the same bucket had left behind.
  datatype Attempt = Attempt(bucket: Bytes, own: Counts, carried: Counts)

  datatype Ledger = Ledger(done: seq<Attempt>, current: Attempt, listed: seq<Bytes>)

  const EMPTY: Ledger := Ledger([], Attempt([], ZERO, ZERO), [])

  datatype Books = Books(mem: Ledger, active: bool, disk: Ledger)

  predicate Finished(l: Ledger, b: Bytes) { exists i :: 0 <= i < |l.done| && l.done[i].bucket == b }

  function BeginAttempt(l: Ledger, b: Bytes): Ledger {
    if l.current.bucket == b then l.(current := Attempt(b, ZERO, Add(l.current.carried, l.current.own)))
    else l.(current := Attempt(b, ZERO, ZERO))
  }

  function CloseAttempt(l: Ledger): Ledger {
    l.(done := l.done + [l.current], current := Attempt(l.current.bucket, ZERO, ZERO))
  }

  function Book(k: Books, e: Event): Books {
    match e
    case Queue(buckets, saved) =>
      if k.active then k
      else
        var l := k.mem.(listed := buckets);
        Books(l, false, if saved then l else k.disk)
    case Begin(b) => if k.active || Finished(k.mem, b) then k else Books(BeginAttempt(k.mem, b), true, k.disk)
    case Version(ok, size) =>
      if !k.active then k
      else k.(mem := k.mem.(current := k.mem.current.(own := Add(k.mem.current.own, OfVersion(ok, size)))))
    case Save => k.(disk := k.mem)
    case Done => if !k.active then k else Books(CloseAttempt(k.mem), false, k.disk)
    case Crash => Books(k.disk, false, k.disk)
    case Swap => Books(EMPTY, false, EMPTY)
  }

  function Own(done: seq<Attempt>): Counts {
    if done == [] then ZERO else Add(Own(done[..|done| - 1]), done[|done| - 1].own)
  }

  function Carried(done: seq<Attempt>): Counts {
    if done == [] then ZERO else Add(Carried(done[..|done| - 1]), done[|done| - 1].carried)
  }

  // ----- the two agree -----

  predicate Agrees(t: Progress, l: Ledger) {
    && t.base == Add(Own(l.done), Carried(l.done))
    && t.cur == Add(t.base, Add(l.current.own, l.current.carried))
    && t.bucket == l.current.bucket
    && |t.healed| == |l.done| && (forall i :: 0 <= i < |l.done| ==> t.healed[i] == l.done[i].bucket)
    && (t.bucket == [] ==> l.current.own == ZERO && l.current.carried == ZERO)
    && Queues(t.queued, t.healed, l.listed)
  }

  // Queued and healed are disjoint, without duplicates, and together cover
  // the listed buckets; nothing else is queued.
  predicate Queues(queued: seq<Bytes>, healed: seq<Bytes>, listed: seq<Bytes>) {
    && NoDuplicates(queued) && NoDuplicates(healed)
    && (forall b :: b in queued ==> b !in healed && b in listed)
    && (forall b :: b in listed ==> b in queued || b in healed)
  }

  predicate Inv(s: State, k: Books) {
    && s.active == k.active
    && Agrees(s.mem, k.mem) && Agrees(s.disk, k.disk)
    && (s.active ==> s.mem.bucket != [] && s.mem.bucket !in s.mem.healed)
  }

  // Buckets have names, and a listing does not repeat one.
  predicate Proper(e: Event) {
    match e
    case Queue(buckets, _) => NoDuplicates(buckets)
    case Begin(b) => b != []
    case _ => true
  }

  lemma FinishedIsHealed(t: Progress, l: Ledger, b: Bytes)
    requires Agrees(t, l)
    ensures b in t.healed <==> Finished(l, b)
  {
    if b in t.healed {
      var i :| 0 <= i < |t.healed| && t.healed[i] == b;
      assert l.done[i].bucket == b;
    }
  }

  lemma {:induction false} UnhealedIs(buckets: seq<Bytes>, healed: seq<Bytes>)
    requires NoDuplicates(buckets)
    ensures NoDuplicates(Unhealed(buckets, healed))
    ensures forall b :: b in Unhealed(buckets, healed) <==> b in buckets && b !in healed
  {
    if buckets != [] {
      var front, last := buckets[..|buckets| - 1], buckets[|buckets| - 1];
      UnhealedIs(front, healed);
      assert buckets == front + [last];
      assert last !in front;
    }
  }

  lemma {:induction false} WithoutKeepsNoDuplicates(q: seq<Bytes>, b: Bytes)
    requires NoDuplicates(q)
    ensures NoDuplicates(Without(q, b))
  {
    if q != [] {
      var front, last := q[..|q| - 1], q[|q| - 1];
      WithoutKeepsNoDuplicates(front, b);
      WithoutAbsent(front, b);
      assert last !in front;
      assert last != b ==> last !in Without(front, b);
    }
  }

  lemma BeginKeeps(t: Progress, l: Ledger, b: Bytes)
    requires Agrees(t, l) && b != []
    ensures Agrees(BeginBucket(t, b), BeginAttempt(l, b))
  {
    hide Add, Queues;
    AddLaws(t.base, ZERO, ZERO);
    AddLaws(ZERO, ZERO, ZERO);
    AddLaws(l.current.carried, l.current.own, ZERO);
    AddLaws(l.current.own, l.current.carried, ZERO);
    AddLaws(Add(l.current.carried, l.current.own), ZERO, ZERO);
  }

  lemma VersionKeeps(t: Progress, l: Ledger, v: Counts)
    requires Agrees(t, l) && t.bucket != []
    ensures Agrees(t.(cur := Add(t.cur, v)), l.(current := l.current.(own := Add(l.current.own, v))))
  {
    hide Add, Queues;
    var o, c := l.current.own, l.current.carried;
    AddLaws(t.base, Add(o, c), v);
    AddLaws(o, c, v);
    AddLaws(c, v, ZERO);
    AddLaws(o, v, c);
  }

  lemma CloseTotals(l: Ledger)
    ensures Own(CloseAttempt(l).done) == Add(Own(l.done), l.current.own)
    ensures Carried(CloseAttempt(l).done) == Add(Carried(l.done), l.current.carried)
  {
    assert CloseAttempt(l).done[..|l.done|] == l.done;
  }

  lemma Shuffle(a: Counts, b: Counts, o: Counts, c: Counts)
    ensures Add(Add(a, b), Add(o, c)) == Add(Add(a, o), Add(b, c))
  {
    hide Add;
    AddLaws(a, b, Add(o, c));
    AddLaws(b, o, c);
    AddLaws(o, b, c);
    AddLaws(a, o, Add(b, c));
  }

  lemma DoneKeeps(t: Progress, l: Ledger)
    requires Agrees(t, l) && t.bucket !in t.healed
    ensures Agrees(CloseBucket(t), CloseAttempt(l))
  {
    hide Add, Without, Own, Carried;
    CloseTotals(l);
    Shuffle(Own(l.done), Carried(l.done), l.current.own, l.current.carried);
    AddLaws(t.cur, ZERO, ZERO);
    AddLaws(ZERO, ZERO, ZERO);
    WithoutKeepsNoDuplicates(t.queued, t.bucket);
    WithoutAbsent(t.queued, t.bucket);
  }

  lemma StepKeepsInv(s: State, k: Books, e: Event)
    requires Inv(s, k) && Proper(e)
    ensures Inv(Step(s, e), Book(k, e))
  {
    hide Agrees, NoDuplicates, Without, BeginAttempt, CloseAttempt, Finished;
    match e
    case Queue(buckets, saved) => QueueKeeps(s.mem, k.mem, buckets);
    case Begin(b) => FinishedIsHealed(s.mem, k.mem, b); BeginKeeps(s.mem, k.mem, b);
    case Version(ok, size) =>
      if s.active { VersionKeeps(s.mem, k.mem, OfVersion(ok, size)); }
    case Save =>
    case Done =>
      if s.active { DoneKeeps(s.mem, k.mem); }
    case Crash =>
    case Swap => FreshAgrees();
  }

  lemma FreshAgrees()
    ensures Agrees(FRESH, EMPTY)
  {
    AddLaws(ZERO, ZERO, ZERO);
  }

  lemma QueueKeeps(t: Progress, l: Ledger, buckets: seq<Bytes>)
    requires Agrees(t, l) && NoDuplicates(buckets)
    ensures Agrees(t.(queued := Unhealed(buckets, t.healed)), l.(listed := buckets))
  {
    hide Unhealed;
    UnhealedIs(buckets, t.healed);
  }

  // ----- whole runs -----

  function Run(s: State, es: seq<Event>): State
    decreases |es|
  {
    if es == [] then s else Run(Step(s, es[0]), es[1..])
  }

  function Keep(k: Books, es: seq<Event>): Books
    decreases |es|
  {
    if es == [] then k else Keep(Book(k, es[0]), es[1..])
  }

  predicate ProperRun(es: seq<Event>) { forall i :: 0 <= i < |es| ==> Proper(es[i]) }

  const START: State := State(FRESH, false, FRESH)
  const BLANK: Books := Books(EMPTY, false, EMPTY)

  lemma {:induction false} RunKeepsInv(s: State, k: Books, es: seq<Event>)
    requires Inv(s, k) && ProperRun(es)
    ensures Inv(Run(s, es), Keep(k, es))
    decreases |es|
  {
    hide Inv, Step, Book;
    if es != [] {
      StepKeepsInv(s, k, es[0]);
      RunKeepsInv(Step(s, es[0]), Book(k, es[0]), es[1..]);
    }
  }

  /** In every run, with crashes anywhere: the resume numbers are exactly the
      contributions of the completed attempts, the healed list is exactly the
      completed buckets, and queued and healed are disjoint and cover the
      buckets listed last. */
  lemma CountersAreCompletedAttempts(es: seq<Event>)
    requires ProperRun(es)
    ensures var (s, k) := (Run(START, es), Keep(BLANK, es));
      && s.mem.base == Add(Own(k.mem.done), Carried(k.mem.done))
      && (!s.active && (es != [] && es[|es| - 1] == Done) && Keep(BLANK, es[..|es| - 1]).active ==>
            s.mem.cur == s.mem.base)
      && (forall b :: b in s.mem.healed <==> Finished(k.mem, b))
      && Queues(s.mem.queued, s.mem.healed, k.mem.listed)
  {
    FreshAgrees();
    RunKeepsInv(START, BLANK, es);
    var s, k := Run(START, es), Keep(BLANK, es);
    forall b ensures b in s.mem.healed <==> Finished(k.mem, b) {
      FinishedIsHealed(s.mem, k.mem, b);
    }
    if es != [] {
      RunSplit(START, es);
      KeepSplit(BLANK, es);
      RunKeepsInv(START, BLANK, es[..|es| - 1]);
    }
  }

  lemma {:induction false} RunSplit(s: State, es: seq<Event>)
    requires es != []
    ensures Run(s, es) == Step(Run(s, es[..|es| - 1]), es[|es| - 1])
    decreases |es|
  {
    hide Step;
    if |es| > 1 {
      RunSplit(Step(s, es[0]), es[1..]);
      assert es[1..][..|es| - 2] == es[..|es| - 1][1..];
    }
  }

  lemma {:induction false} KeepSplit(k: Books, es: seq<Event>)
    requires es != []
    ensures Keep(k, es) == Book(Keep(k, es[..|es| - 1]), es[|es| - 1])
    decreases |es|
  {
    hide Book;
    if |es| > 1 {
      KeepSplit(Book(k, es[0]), es[1..]);
      assert es[1..][..|es| - 2] == es[..|es| - 1][1..];
    }
  }

  // ----- when abandoned attempts count -----

  // The start of a bucket that healErasureSet does not skip.
  predicate Starts(s: State, e: Event) { e.Begin? && !s.active && e.bucket !in s.mem.healed }

  /** The guard: the bucket is not the one interrupted last, so that the code
      resumes, or nothing has been counted since its last bucket was done. */
  predicate Guarded(s: State, e: Event) {
    Starts(s, e) ==> s.mem.bucket != e.bucket || s.mem.cur == s.mem.base
  }

  predicate AllGuarded(s: State, es: seq<Event>)
    decreases |es|
  {
    es == [] || (Guarded(s, es[0]) && AllGuarded(Step(s, es[0]), es[1..]))
  }

  // The counters are the completed attempts' own contributions, and what the
  // current attempt has added so far.
  predicate OnlyOwn(t: Progress, l: Ledger) { t.cur == Add(Own(l.done), l.current.own) }

  predicate AlwaysOnlyOwn(s: State, k: Books, es: seq<Event>)
    decreases |es|
  {
    OnlyOwn(s.mem, k.mem) && (es == [] || AlwaysOnlyOwn(Step(s, es[0]), Book(k, es[0]), es[1..]))
  }

  predicate NothingCarried(l: Ledger) { l.current.carried == ZERO && Carried(l.done) == ZERO }

  lemma AddCancels(a: Counts, c: Counts)
    ensures Add(a, c) == a <==> c == ZERO
  {}

  /** A start carries earlier counts over exactly when it is not guarded. */
  lemma CarriesExactly(t: Progress, l: Ledger, b: Bytes)
    requires Agrees(t, l) && b != []
    ensures BeginAttempt(l, b).current.carried == ZERO <==> t.bucket != b || t.cur == t.base
  {
    hide Add, Queues;
    AddCancels(t.base, Add(l.current.own, l.current.carried));
    AddLaws(l.current.own, l.current.carried, ZERO);
  }

  lemma OnlyOwnExactly(t: Progress, l: Ledger)
    requires Agrees(t, l) && Carried(l.done) == ZERO
    ensures OnlyOwn(t, l) <==> l.current.carried == ZERO
    ensures t.base == Own(l.done)
  {
    hide Add, Queues, Own, Carried;
    var o, c := l.current.own, l.current.carried;
    AddLaws(Own(l.done), o, c);
    AddCancels(Add(Own(l.done), o), c);
  }

  lemma CloseCarriesNothing(l: Ledger)
    requires NothingCarried(l)
    ensures NothingCarried(CloseAttempt(l))
  {
    hide Add;
    CloseTotals(l);
    AddLaws(ZERO, ZERO, ZERO);
  }

  // One event, from books that carry nothing: they go on carrying nothing,
  // or it is an unguarded start and the counters now show it.
  lemma GuardDecides(s: State, k: Books, e: Event)
    requires Inv(s, k) && Proper(e) && NothingCarried(k.mem) && NothingCarried(k.disk)
    ensures Guarded(s, e) ==> NothingCarried(Book(k, e).mem) && NothingCarried(Book(k, e).disk)
    ensures !Guarded(s, e) ==> !OnlyOwn(Step(s, e).mem, Book(k, e).mem)
  {
    hide Add, Queues, CloseAttempt, BeginAttempt, Agrees, Carried, Own, OnlyOwn, BeginBucket, CloseBucket;
    match e
    case Begin(b) =>
      FinishedIsHealed(s.mem, k.mem, b);
      if Starts(s, e) {
        CarriesExactly(s.mem, k.mem, b);
        BeginKeeps(s.mem, k.mem, b);
        BeginKeepsDone(k.mem, b);
        OnlyOwnExactly(BeginBucket(s.mem, b), BeginAttempt(k.mem, b));
      }
    case Done => CloseCarriesNothing(k.mem);
    case Swap => assert Carried(EMPTY.done) == ZERO by { NothingDone(); }
    case _ =>
  }

  lemma NothingDone()
    ensures Carried([]) == ZERO && Own([]) == ZERO
  {}

  lemma BeginKeepsDone(l: Ledger, b: Bytes)
    ensures BeginAttempt(l, b).done == l.done
  {}

  /** From books that carry nothing, the counters are the completed attempts
      and the current one alone at every point of a run exactly when every
      start in it is guarded. */
  lemma {:induction false} OwnExactlyWhenGuarded(s: State, k: Books, es: seq<Event>)
    requires Inv(s, k) && ProperRun(es) && NothingCarried(k.mem) && NothingCarried(k.disk)
    ensures AlwaysOnlyOwn(s, k, es) <==> AllGuarded(s, es)
    decreases |es|
  {
    hide Inv, Step, Book, OnlyOwn, Guarded, NothingCarried;
    NowOnlyOwn(s, k);
    if es != [] {
      GuardDecides(s, k, es[0]);
      StepKeepsInv(s, k, es[0]);
      if Guarded(s, es[0]) {
        OwnExactlyWhenGuarded(Step(s, es[0]), Book(k, es[0]), es[1..]);
      }
    }
  }

  lemma NowOnlyOwn(s: State, k: Books)
    requires Inv(s, k) && NothingCarried(k.mem)
    ensures OnlyOwn(s.mem, k.mem) && s.mem.base == Own(k.mem.done)
  {
    OnlyOwnExactly(s.mem, k.mem);
  }

  /** In every run with crashes anywhere, the counters never hold anything of
      an abandoned attempt exactly when every bucket started is either not the
      one interrupted last, or nothing was counted for it. */
  lemma AbandonedNeverCountedExactly(es: seq<Event>)
    requires ProperRun(es)
    ensures AlwaysOnlyOwn(START, BLANK, es) <==> AllGuarded(START, es)
  {
    FreshAgrees();
    NothingDone();
    OwnExactlyWhenGuarded(START, BLANK, es);
  }

  /** After a guarded run the resume numbers, which bucketDone has made the
      counters, are the contributions of the completed attempts alone. */
  lemma {:induction false} GuardedRunsCountCompletedOnly(s: State, k: Books, es: seq<Event>)
    requires Inv(s, k) && ProperRun(es) && NothingCarried(k.mem) && NothingCarried(k.disk) && AllGuarded(s, es)
    ensures Run(s, es).mem.base == Own(Keep(k, es).mem.done)
    decreases |es|
  {
    hide Inv, Step, Book, Guarded, NothingCarried;
    if es == [] {
      NowOnlyOwn(s, k);
    } else {
      GuardDecides(s, k, es[0]);
      StepKeepsInv(s, k, es[0]);
      GuardedRunsCountCompletedOnly(Step(s, es[0]), Book(k, es[0]), es[1..]);
    }
  }

  /** A restart that goes on with the interrupted bucket does not resume: an
      object healed again is counted again. */
  lemma SameBucketCountsTwice(b: Bytes)
    requires b != []
    ensures var es := [Begin(b), Version(true, 7), Save, Crash, Begin(b), Version(true, 7), Done];
      && Keep(BLANK, es).mem.done == [Attempt(b, Counts(1, 0, 7, 0), Counts(1, 0, 7, 0))]
      && Run(START, es).mem.cur == Counts(2, 0, 14, 0)
  {
    var again := [Begin(b), Version(true, 7), Done];
    var es := [Begin(b), Version(true, 7), Save, Crash] + again;
    assert es == [Begin(b), Version(true, 7), Save, Crash, Begin(b), Version(true, 7), Done];
    var t := Progress(Counts(1, 0, 7, 0), ZERO, b, [], []);
    var l := Ledger([], Attempt(b, Counts(1, 0, 7, 0), ZERO), []);
    FirstFour(START, BLANK, es, again);
    assert Run(START, es) == Run(State(t, false, t), again);
    assert Keep(BLANK, es) == Keep(Books(l, false, l), again);
    LastThree(State(t, false, t), Books(l, false, l), again);
  }

  lemma FirstFour(s: State, k: Books, es: seq<Event>, rest: seq<Event>)
    requires |es| >= 4 && es[4..] == rest
    ensures Run(s, es) == Run(Step(Step(Step(Step(s, es[0]), es[1]), es[2]), es[3]), rest)
    ensures Keep(k, es) == Keep(Book(Book(Book(Book(k, es[0]), es[1]), es[2]), es[3]), rest)
  {
    hide Step, Book;
    assert es[1..][1..][1..][1..] == rest;
    assert Run(s, es) == Run(Step(Step(s, es[0]), es[1]), es[1..][1..]);
    assert Keep(k, es) == Keep(Book(Book(k, es[0]), es[1]), es[1..][1..]);
  }

  lemma LastThree(s: State, k: Books, es: seq<Event>)
    requires |es| == 3
    ensures Run(s, es) == Step(Step(Step(s, es[0]), es[1]), es[2])
    ensures Keep(k, es) == Book(Book(Book(k, es[0]), es[1]), es[2])
  {
    hide Step, Book;
    assert Run(s, es) == Run(Step(Step(s, es[0]), es[1]), es[1..][1..]);
    assert Keep(k, es) == Keep(Book(Book(k, es[0]), es[1]), es[1..][1..]);
  }
}

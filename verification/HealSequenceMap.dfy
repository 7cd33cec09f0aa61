/** The map of heal paths to heal sequences: which paths may be healing at the
    same time. */
module HealSequenceMap {
  const BG_HEALING_TOKEN := "0000-0000-0000-0000"
  const KEEP_STATE_DURATION := 600  // seconds

  // A heal sequence object; endTime 0 is Go's zero time.
  datatype Sequence = Sequence(path: string, token: string, endTime: nat) {
    // hasEnded: the background sequence never has.
    predicate HasEnded() {
      token != BG_HEALING_TOKEN && endTime != 0
    }
  }

  // Sequence objects by identity, as goroutines hold them, and the map.
  datatype State = State(seqMap: map<string, nat>, seqs: map<nat, Sequence>) {
    predicate Valid() {
      forall p :: p in seqMap ==> seqMap[p] in seqs
    }

    predicate Live(p: string)
      requires Valid()
    {
      p in seqMap && !seqs[seqMap[p]].HasEnded()
    }
  }

  const EMPTY := State(map[], map[])

  predicate Related(a: string, b: string) { a <= b || b <= a }

  // The check of LaunchNewHealSequence under the lock.
  predicate Overlaps(s: State, hpath: string)
    requires s.Valid()
  {
    exists k :: k in s.seqMap && s.Live(k) && Related(k, hpath)
  }

  // Launch and Delete are the two sections under the map's lock; End is the
  // sequence's own goroutine setting endTime, because the traversal has
  // finished or because a stop has come in; TraverseDone is the traversal
  // returning, at its end or at the next safe point after a stop; Clean is one
  // round of the periodic clean-up.
  datatype Event =
    | Launch(hpath: string, id: nat, token: string)
    | End(id: nat, at: nat)
    | TraverseDone(id: nat)
    | DeleteStopped(path: string, id: nat)
    | Clean(now: nat)

  // What the code's own waiting guarantees before the event can happen.
  predicate Enabled(s: State, e: Event) {
    match e
    case Launch(_, id, _) => id !in s.seqs
    case End(id, at) => id in s.seqs && at != 0
    case TraverseDone(id) => id in s.seqs
    case DeleteStopped(_, id) => id in s.seqs && s.seqs[id].HasEnded()
    case Clean(_) => true
  }

  // Ended long enough ago to be dropped.
  predicate Stale(q: Sequence, now: nat) {
    q.HasEnded() && q.endTime + KEEP_STATE_DURATION < now
  }

  function Step(s: State, e: Event): State
    requires s.Valid()
  {
    match e
    case Launch(hpath, id, token) =>
      var s' := s.(seqs := s.seqs[id := Sequence(hpath, token, 0)]);
      if Overlaps(s, hpath) then s' else s'.(seqMap := s.seqMap[hpath := id])
    case End(id, at) =>
      if id in s.seqs then s.(seqs := s.seqs[id := s.seqs[id].(endTime := at)]) else s
    case TraverseDone(_) => s
    case DeleteStopped(path, _) =>
      s.(seqMap := s.seqMap - {path})
    case Clean(now) =>
      s.(seqMap := map p | p in s.seqMap && !Stale(s.seqs[s.seqMap[p]], now) :: s.seqMap[p])
  }

  // An event that cannot happen yet does not happen.
  function Next(s: State, e: Event): (s': State)
    requires s.Valid()
    ensures s'.Valid()
  {
    if Enabled(s, e) then Step(s, e) else s
  }

  function Run(s: State, es: seq<Event>): (r: State)
    requires s.Valid()
    ensures r.Valid()
    decreases |es|
  {
    if es == [] then s else Run(Next(s, es[0]), es[1..])
  }

  lemma {:induction false} RunAppend(s: State, a: seq<Event>, b: seq<Event>)
    requires s.Valid()
    ensures Run(s, a + b) == Run(Run(s, a), b)
    decreases |a|
  {
    if a == [] {
      assert a + b == b;
    } else {
      assert (a + b)[1..] == a[1..] + b;
      RunAppend(Next(s, a[0]), a[1..], b);
    }
  }

  /** A sequence runs from its launch to its end; the background one, which
      goes by a token of its own, never ends. */
  lemma EndedExactly(s: State, hpath: string, id: nat, token: string, es: seq<Event>, at: nat)
    requires s.Valid() && id !in s.seqs && at != 0
    requires forall i :: 0 <= i < |es| ==> !(es[i].End? && es[i].id == id)
    ensures var t := Run(Next(s, Launch(hpath, id, token)), es);
      && id in t.seqs && t.seqs[id].path == hpath && !t.seqs[id].HasEnded()
      && (Next(t, End(id, at)).seqs[id].HasEnded() <==> token != "0000-0000-0000-0000")
  {
    StaysStarted(Next(s, Launch(hpath, id, token)), es, id);
  }

  lemma {:induction false} StaysStarted(s: State, es: seq<Event>, id: nat)
    requires s.Valid() && id in s.seqs
    requires forall i :: 0 <= i < |es| ==> !(es[i].End? && es[i].id == id)
    ensures id in Run(s, es).seqs && Run(s, es).seqs[id] == s.seqs[id]
    decreases |es|
  {
    if es != [] {
      assert !(es[0].End? && es[0].id == id);
      StaysStarted(Next(s, es[0]), es[1..], id);
    }
  }

  ghost predicate NoOverlap(s: State)
    requires s.Valid()
  {
    forall a, b :: a in s.seqMap && b in s.seqMap && a != b && s.Live(a) && s.Live(b) ==> !Related(a, b)
  }

  lemma NextKeepsNoOverlap(s: State, e: Event)
    requires s.Valid() && NoOverlap(s)
    ensures NoOverlap(Next(s, e))
  {
    var s' := Next(s, e);
    forall a, b | a in s'.seqMap && b in s'.seqMap && a != b && s'.Live(a) && s'.Live(b)
      ensures !Related(a, b)
    {
      if Enabled(s, e) && e.Launch? && !Overlaps(s, e.hpath) {
        if a == e.hpath {
          assert b in s.seqMap && s.Live(b);
        } else if b == e.hpath {
          assert a in s.seqMap && s.Live(a);
        } else {
          assert s.Live(a) && s.Live(b);
        }
      } else {
        assert a in s.seqMap && b in s.seqMap && s.Live(a) && s.Live(b);
      }
    }
  }

  /** In every reachable state, under any interleaving of launches, stops,
      forced starts, ends and clean-ups, no two map entries with un-ended
      sequences are prefix-related. */
  lemma {:induction false} NeverOverlapping(s: State, es: seq<Event>)
    requires s.Valid() && NoOverlap(s)
    ensures NoOverlap(Run(s, es))
    decreases |es|
  {
    if es != [] {
      NextKeepsNoOverlap(s, es[0]);
      NeverOverlapping(Next(s, es[0]), es[1..]);
    }
  }

  /** ... so an object's path lies under at most one of them. */
  lemma AtMostOneCovers(s: State, a: string, b: string, objectPath: string)
    requires s.Valid() && NoOverlap(s)
    requires s.Live(a) && s.Live(b) && a <= objectPath && b <= objectPath
    ensures a == b
  {
    assert Related(a, b) by {
      if |a| <= |b| {
        assert a == objectPath[..|a|] == b[..|a|];
      } else {
        assert b == objectPath[..|b|] == a[..|b|];
      }
    }
  }

  /** A started sequence that has not ended is the map's entry for its path. */
  ghost predicate AllRegistered(s: State, started: set<nat>)
    requires s.Valid()
  {
    && (forall p :: p in s.seqMap ==> s.seqs[s.seqMap[p]].path == p)
    && forall id :: id in started && id in s.seqs && !s.seqs[id].HasEnded() ==>
         s.seqs[id].path in s.seqMap && s.seqMap[s.seqs[id].path] == id
  }

  // The goroutines that have been started: launches that were not refused.
  function Started(s: State, started: set<nat>, e: Event): set<nat>
    requires s.Valid()
  {
    if Enabled(s, e) && e.Launch? && !Overlaps(s, e.hpath) then started + {e.id} else started
  }

  // A stop whose deletion finds an un-ended sequence: another one than it
  // waited for.
  predicate Misdirected(s: State, e: Event)
    requires s.Valid()
  {
    Enabled(s, e) && e.DeleteStopped? && s.Live(e.path)
  }

  // What any run has started is known, and whatever the map holds was
  // started.
  ghost predicate Known(s: State, started: set<nat>)
    requires s.Valid()
  {
    && (forall p :: p in s.seqMap ==> s.seqMap[p] in started)
    && (forall id :: id in started ==> id in s.seqs)
  }

  lemma NextKeepsKnown(s: State, started: set<nat>, e: Event)
    requires s.Valid() && Known(s, started)
    ensures Known(Next(s, e), Started(s, started, e))
  {
  }

  /** What holds of the map's entries holds of the running goroutines too, as
      long as every started and un-ended one is registered.  The only event
      that can lose one is a stop: it deletes by path, after waiting, and
      loses a sequence exactly when the entry it finds is an un-ended one. */
  lemma OnlyAMisdirectedStopLoses(s: State, started: set<nat>, e: Event)
    requires s.Valid() && AllRegistered(s, started) && Known(s, started)
    ensures AllRegistered(Next(s, e), Started(s, started, e)) <==> !Misdirected(s, e)
  {
    var s', st' := Next(s, e), Started(s, started, e);
    if Misdirected(s, e) {
      var id := s.seqMap[e.path];
      assert id in started && id in s'.seqs && !s'.seqs[id].HasEnded();
      assert s'.seqs[id].path == e.path && e.path !in s'.seqMap;
    } else {
      forall id | id in st' && id in s'.seqs && !s'.seqs[id].HasEnded()
        ensures s'.seqs[id].path in s'.seqMap && s'.seqMap[s'.seqs[id].path] == id
      {
        assert id in s.seqs && id in started && !s.seqs[id].HasEnded() ==> s.Live(s.seqs[id].path);
      }
    }
  }

  function RunStarted(s: State, started: set<nat>, es: seq<Event>): set<nat>
    requires s.Valid()
    decreases |es|
  {
    if es == [] then started else RunStarted(Next(s, es[0]), Started(s, started, es[0]), es[1..])
  }

  // Along the whole run every started and un-ended sequence is registered.
  ghost predicate AlwaysRegistered(s: State, started: set<nat>, es: seq<Event>)
    requires s.Valid()
    decreases |es|
  {
    && AllRegistered(s, started)
    && (es == [] || AlwaysRegistered(Next(s, es[0]), Started(s, started, es[0]), es[1..]))
  }

  ghost predicate NeverMisdirected(s: State, es: seq<Event>)
    requires s.Valid()
    decreases |es|
  {
    es == [] || (!Misdirected(s, es[0]) && NeverMisdirected(Next(s, es[0]), es[1..]))
  }

  lemma {:induction false} RegisteredAlongExactly(s: State, started: set<nat>, es: seq<Event>)
    requires s.Valid() && AllRegistered(s, started) && Known(s, started)
    ensures AlwaysRegistered(s, started, es) <==> NeverMisdirected(s, es)
    decreases |es|
  {
    hide AllRegistered, Known, Misdirected, Started;
    if es != [] {
      OnlyAMisdirectedStopLoses(s, started, es[0]);
      NextKeepsKnown(s, started, es[0]);
      if !Misdirected(s, es[0]) {
        RegisteredAlongExactly(Next(s, es[0]), Started(s, started, es[0]), es[1..]);
      }
    }
  }

  /** In every run, every started and un-ended sequence stays registered
      exactly if no stop finds an un-ended sequence at its path. */
  lemma RegisteredExactly(es: seq<Event>)
    ensures AlwaysRegistered(EMPTY, {}, es) <==> NeverMisdirected(EMPTY, es)
  {
    RegisteredAlongExactly(EMPTY, {}, es);
  }

  lemma {:induction false} EndsRegistered(s: State, started: set<nat>, es: seq<Event>)
    requires s.Valid() && NoOverlap(s) && AlwaysRegistered(s, started, es)
    ensures NoOverlap(Run(s, es)) && AllRegistered(Run(s, es), RunStarted(s, started, es))
    decreases |es|
  {
    hide AllRegistered, NoOverlap, Started;
    if es != [] {
      NextKeepsNoOverlap(s, es[0]);
      EndsRegistered(Next(s, es[0]), Started(s, started, es[0]), es[1..]);
    }
  }

  /** So in such a run no two un-ended sequences, registered or not, ever have
      related paths. */
  lemma UnEndedNeverRelated(es: seq<Event>, i: nat, j: nat)
    requires NeverMisdirected(EMPTY, es)
    ensures var (s, started) := (Run(EMPTY, es), RunStarted(EMPTY, {}, es));
      i in started && j in started && i in s.seqs && j in s.seqs && i != j
        && !s.seqs[i].HasEnded() && !s.seqs[j].HasEnded()
      ==> !Related(s.seqs[i].path, s.seqs[j].path)
  {
    RegisteredExactly(es);
    EndsRegistered(EMPTY, {}, es);
    var s, started := Run(EMPTY, es), RunStarted(EMPTY, {}, es);
    if i in started && j in started && i in s.seqs && j in s.seqs && i != j
      && !s.seqs[i].HasEnded() && !s.seqs[j].HasEnded()
    {
      assert s.Live(s.seqs[i].path) && s.Live(s.seqs[j].path);
    }
  }

  // ----- traversals -----

  // The sequences whose traversal is under way: a stop ends a sequence at
  // once, its traversal only at the next safe point.
  function Traversing(s: State, going: set<nat>, e: Event): set<nat>
    requires s.Valid()
  {
    if e.TraverseDone? then going - {e.id} else Started(s, going, e)
  }

  // No two traversals under way have related paths.
  ghost predicate Apart(s: State, going: set<nat>) {
    && going <= s.seqs.Keys
    && forall i, j :: i in going && j in going && i != j ==> !Related(s.seqs[i].path, s.seqs[j].path)
  }

  ghost predicate AlwaysApart(s: State, going: set<nat>, es: seq<Event>)
    requires s.Valid()
    decreases |es|
  {
    && Apart(s, going)
    && (es == [] || AlwaysApart(Next(s, es[0]), Traversing(s, going, es[0]), es[1..]))
  }

  // Why the check under the lock does not see a sequence: it has ended, or
  // its path's entry is not its own.
  predicate Unseen(s: State, id: nat)
    requires id in s.seqs
  {
    s.seqs[id].HasEnded() || s.seqs[id].path !in s.seqMap || s.seqMap[s.seqs[id].path] != id
  }

  /** The guard that fails: a launch is let through although an unseen
      sequence is still traversing a related path. */
  ghost predicate LaunchesBeside(s: State, going: set<nat>, e: Event)
    requires s.Valid()
  {
    && Enabled(s, e) && e.Launch? && !Overlaps(s, e.hpath)
    && exists id :: id in going && id in s.seqs && Related(s.seqs[id].path, e.hpath) && Unseen(s, id)
  }

  ghost predicate NeverBeside(s: State, going: set<nat>, es: seq<Event>)
    requires s.Valid()
    decreases |es|
  {
    es == [] || (!LaunchesBeside(s, going, es[0]) && NeverBeside(Next(s, es[0]), Traversing(s, going, es[0]), es[1..]))
  }

  lemma ApartStep(s: State, going: set<nat>, e: Event)
    requires s.Valid() && Apart(s, going)
    ensures Apart(Next(s, e), Traversing(s, going, e)) <==> !LaunchesBeside(s, going, e)
  {
    var s', going' := Next(s, e), Traversing(s, going, e);
    assert forall id :: id in going ==> id in s'.seqs && s'.seqs[id].path == s.seqs[id].path;
    if Enabled(s, e) && e.Launch? && !Overlaps(s, e.hpath) {
      assert s'.seqs[e.id].path == e.hpath && e.id !in going;
      if LaunchesBeside(s, going, e) {
        var id :| id in going && id in s.seqs && Related(s.seqs[id].path, e.hpath) && Unseen(s, id);
        assert id in going' && e.id in going';
      } else {
        forall id | id in going ensures !Related(s.seqs[id].path, e.hpath) {
          if Related(s.seqs[id].path, e.hpath) {
            assert s.Live(s.seqs[id].path);
          }
        }
      }
    }
  }

  lemma {:induction false} ApartAlongExactly(s: State, going: set<nat>, es: seq<Event>)
    requires s.Valid() && Apart(s, going)
    ensures AlwaysApart(s, going, es) <==> NeverBeside(s, going, es)
    decreases |es|
  {
    hide Apart, LaunchesBeside, Traversing;
    if es != [] {
      ApartStep(s, going, es[0]);
      if !LaunchesBeside(s, going, es[0]) {
        ApartAlongExactly(Next(s, es[0]), Traversing(s, going, es[0]), es[1..]);
      }
    }
  }

  /** In every run, no two traversals on related paths are ever under way at
      once exactly if no launch is let through beside one the check does not
      see: one that has ended, or has lost its entry. */
  lemma TraversalsApartExactly(es: seq<Event>)
    ensures AlwaysApart(EMPTY, {}, es) <==> NeverBeside(EMPTY, {}, es)
  {
    ApartAlongExactly(EMPTY, {}, es);
  }

  // A launch is let through beside a traversal that was told to stop and has
  // not reached a safe point.
  ghost predicate LaunchesBesideStopped(s: State, going: set<nat>, e: Event)
    requires s.Valid()
  {
    && Enabled(s, e) && e.Launch? && !Overlaps(s, e.hpath)
    && exists id :: id in going && id in s.seqs && Related(s.seqs[id].path, e.hpath) && s.seqs[id].HasEnded()
  }

  ghost predicate NeverBesideStopped(s: State, going: set<nat>, es: seq<Event>)
    requires s.Valid()
    decreases |es|
  {
    es == [] ||
    (!LaunchesBesideStopped(s, going, es[0])
     && NeverBesideStopped(Next(s, es[0]), Traversing(s, going, es[0]), es[1..]))
  }

  lemma RegisteredAreSeen(s: State, started: set<nat>, going: set<nat>, e: Event)
    requires s.Valid() && AllRegistered(s, started) && going <= started
    ensures LaunchesBeside(s, going, e) <==> LaunchesBesideStopped(s, going, e)
  {
    assert forall id :: id in going && id in s.seqs ==> (Unseen(s, id) ==> s.seqs[id].HasEnded());
    assert forall id :: id in going && id in s.seqs && s.seqs[id].HasEnded() ==> Unseen(s, id);
  }

  lemma {:induction false} OnlyStoppedUnseen(s: State, started: set<nat>, going: set<nat>, es: seq<Event>)
    requires s.Valid() && AllRegistered(s, started) && Known(s, started) && going <= started
    requires NeverMisdirected(s, es)
    ensures NeverBeside(s, going, es) <==> NeverBesideStopped(s, going, es)
    decreases |es|
  {
    hide AllRegistered, Known, Misdirected, LaunchesBeside, LaunchesBesideStopped;
    if es != [] {
      RegisteredAreSeen(s, started, going, es[0]);
      OnlyAMisdirectedStopLoses(s, started, es[0]);
      NextKeepsKnown(s, started, es[0]);
      OnlyStoppedUnseen(Next(s, es[0]), Started(s, started, es[0]), Traversing(s, going, es[0]), es[1..]);
    }
  }

  /** If moreover no stop is misdirected, the traversals to fear are the
      stopped ones that have not reached a safe point. */
  lemma OnlyStoppedTraversalsCollide(es: seq<Event>)
    requires NeverMisdirected(EMPTY, es)
    ensures AlwaysApart(EMPTY, {}, es) <==> NeverBesideStopped(EMPTY, {}, es)
  {
    TraversalsApartExactly(es);
    OnlyStoppedUnseen(EMPTY, {}, {}, es);
  }

  // A start, a stop and a forced start, as the map sees them.
  function StopAndStart(p: string): seq<Event> {
    [Launch(p, 1, "a"), End(1, 5), DeleteStopped(p, 1), Launch(p, 2, "b")]
  }

  lemma StopAndStartStates(p: string)
    ensures var es := StopAndStart(p);
      && Next(EMPTY, es[0]) == State(map[p := 1], map[1 := Sequence(p, "a", 0)])
      && Next(Next(EMPTY, es[0]), es[1]) == State(map[p := 1], map[1 := Sequence(p, "a", 5)])
      && Next(Next(Next(EMPTY, es[0]), es[1]), es[2]) == State(map[], map[1 := Sequence(p, "a", 5)])
  {}

  /** Such a launch happens: a forced start waits for the endTime of what it
      stops, and not for its traversal. */
  lemma ForcedStartBesideTraversal(p: string)
    ensures NeverMisdirected(EMPTY, StopAndStart(p)) && !AlwaysApart(EMPTY, {}, StopAndStart(p))
  {
    hide Next;
    var es := StopAndStart(p);
    StopAndStartStates(p);
    var t1, t2, t3 := es[1..], es[2..], es[3..];
    assert t1[1..] == t2 && t2[1..] == t3 && t3[1..] == [];
    var s1, s2, s3 := Next(EMPTY, es[0]), Next(Next(EMPTY, es[0]), t1[0]), Next(Next(Next(EMPTY, es[0]), t1[0]), t2[0]);
    assert NeverMisdirected(s3, t3) && NeverMisdirected(s2, t2) && NeverMisdirected(s1, t1);
    assert Traversing(EMPTY, {}, es[0]) == {1} == Traversing(s1, {1}, t1[0]) == Traversing(s2, {1}, t2[0]);
    assert Unseen(s3, 1) && Related(s3.seqs[1].path, p);
    assert !NeverBeside(s3, {1}, t3) && !NeverBeside(s2, {1}, t2) && !NeverBeside(s1, {1}, t1);
    TraversalsApartExactly(es);
  }

  /** Two goroutines can heal the same path at once: a stop that was waiting
      while its path was launched anew removes the new entry. */
  lemma TwoGoroutinesOnOnePath(p: string)
    ensures var es := [Launch(p, 1, "a"), End(1, 5), Launch(p, 2, "b"), DeleteStopped(p, 1), Launch(p, 3, "c")];
      var s := Run(EMPTY, es);
      && 2 in s.seqs && !s.seqs[2].HasEnded() && s.seqs[2].path == p
      && 3 in s.seqs && !s.seqs[3].HasEnded() && s.seqs[3].path == p
      && s.seqMap == map[p := 3]
  {
    var s1 := Next(EMPTY, Launch(p, 1, "a"));
    assert s1 == State(map[p := 1], map[1 := Sequence(p, "a", 0)]);
    var s2 := Next(s1, End(1, 5));
    assert s2 == State(map[p := 1], map[1 := Sequence(p, "a", 5)]);
    var s3 := Next(s2, Launch(p, 2, "b"));
    assert s3 == State(map[p := 2], map[1 := Sequence(p, "a", 5), 2 := Sequence(p, "b", 0)]);
    var s4 := Next(s3, DeleteStopped(p, 1));
    assert s4 == State(map[], s3.seqs);
    var s5 := Next(s4, Launch(p, 3, "c"));
    assert s5 == State(map[p := 3], s3.seqs[3 := Sequence(p, "c", 0)]);
    var es := [Launch(p, 1, "a"), End(1, 5), Launch(p, 2, "b"), DeleteStopped(p, 1), Launch(p, 3, "c")];
    var t1, t2, t3, t4 := es[1..], es[2..], es[3..], es[4..];
    assert t1[1..] == t2 && t2[1..] == t3 && t3[1..] == t4 && t4[1..] == [];
    assert Run(s4, t4) == s5;
    assert Run(s3, t3) == s5;
    assert Run(s2, t2) == s5;
    assert Run(s1, t1) == s5;
  }

  // ----- the code over the map -----

  datatype LaunchCode = Launched | ErrHealAlreadyRunning | ErrHealOverlappingPaths | StillStopping | NotAFreshSequence

  // The sequence has ended by the end of these events.
  predicate EndedAfter(s: State, wait: seq<Event>, id: nat)
    requires s.Valid()
  {
    id in Run(s, wait).seqs && Run(s, wait).seqs[id].HasEnded()
  }

  // What a stop does to the map, among the events of its waiting.
  function StopTrace(s: State, path: string, wait: seq<Event>): seq<Event>
    requires s.Valid()
  {
    if path !in s.seqMap then []
    else if !EndedAfter(s, wait, s.seqMap[path]) then wait
    else wait + [DeleteStopped(path, s.seqMap[path])]
  }

  // The map as a launch finds it under the lock.
  function AtLock(s: State, path: string, forced: bool, wait: seq<Event>, before: seq<Event>): (t: State)
    requires s.Valid()
    ensures t.Valid()
  {
    Run(if forced then Run(s, StopTrace(s, path, wait)) else s, before)
  }

  class AllHealState {
    var seqMap: map<string, nat>
    var seqs: map<nat, Sequence>

    constructor ()
      ensures View() == EMPTY
    {
      seqMap, seqs := map[], map[];
    }

    function View(): State
      reads this
    {
      State(seqMap, seqs)
    }

    // What other goroutines do while this one holds no lock.
    method Others(env: seq<Event>)
      requires View().Valid()
      modifies this
      ensures View().Valid() && View() == Run(old(View()), env)
    {
      var s := Run(View(), env);
      seqMap, seqs := s.seqMap, s.seqs;
    }

    // The locked section of LaunchNewHealSequence: a scan of the entries in
    // some order, then the insertion.
    method CommitLaunch(hpath: string, id: nat, token: string) returns (code: LaunchCode)
      requires View().Valid() && id !in seqs
      modifies this
      ensures View() == Step(old(View()), Launch(hpath, id, token))
      ensures code == ErrHealOverlappingPaths <==>
        exists k :: k in old(seqMap) && !old(seqs)[old(seqMap)[k]].HasEnded() && (hpath <= k || k <= hpath)
      ensures code == ErrHealOverlappingPaths || code == Launched
      ensures seqMap == if code == Launched then old(seqMap)[hpath := id] else old(seqMap)
      ensures seqs == old(seqs)[id := Sequence(hpath, token, 0)]
    {
      var todo := seqMap.Keys;
      while todo != {}
        invariant todo <= seqMap.Keys
        invariant forall k :: k in seqMap && k !in todo ==> !(View().Live(k) && Related(k, hpath))
        invariant View() == old(View())
        decreases |todo|
      {
        var k :| k in todo;
        todo := todo - {k};
        if !seqs[seqMap[k]].HasEnded() && Related(hpath, k) {
          assert View().Live(k);
          seqs := seqs[id := Sequence(hpath, token, 0)];
          return ErrHealOverlappingPaths;
        }
      }
      assert forall k :: k in seqMap && !seqs[seqMap[k]].HasEnded() ==> View().Live(k);
      seqs := seqs[id := Sequence(hpath, token, 0)];
      seqMap := seqMap[hpath := id];
      return Launched;
    }

    /** stopHealSequence, once the stop has been signalled: `wait` happens until
        the sequence found has ended, then the path is deleted. */
    method StopHealSequence(path: string, wait: seq<Event>) returns (stopped: bool, ghost trace: seq<Event>)
      requires View().Valid()
      modifies this
      ensures View().Valid() && View() == Run(old(View()), trace)
      ensures trace == StopTrace(old(View()), path, wait)
      ensures !stopped <==> path in old(seqMap) && !EndedAfter(old(View()), wait, old(seqMap)[path])
    {
      ghost var before := View();
      if path !in seqMap {
        return true, [];
      }
      var he := seqMap[path];
      Others(wait);
      if he !in seqs || !seqs[he].HasEnded() {
        return false, wait;
      }
      trace := wait + [DeleteStopped(path, he)];
      RunAppend(before, wait, [DeleteStopped(path, he)]);
      assert Run(View(), [DeleteStopped(path, he)]) == Next(View(), DeleteStopped(path, he));
      seqMap := seqMap - {path};
      stopped := true;
    }

    /** LaunchNewHealSequence: a forced start first stops what is on the path
        and waits for it to end; a plain start gives up early if something is
        running there.  Other goroutines act during the wait and before the
        lock is taken, and the whole is a run of the map's events.  Each way to
        end is given exactly, the last three by the state the lock is taken
        in. */
    method LaunchNewHealSequence(hpath: string, id: nat, token: string, forceStarted: bool,
                                 wait: seq<Event>, before: seq<Event>)
      returns (code: LaunchCode, ghost trace: seq<Event>)
      requires View().Valid()
      modifies this
      ensures View().Valid() && View() == Run(old(View()), trace)
      ensures code == ErrHealAlreadyRunning <==>
        !forceStarted && hpath in old(seqMap) && !old(seqs)[old(seqMap)[hpath]].HasEnded()
      ensures code == StillStopping <==>
        forceStarted && hpath in old(seqMap) && !EndedAfter(old(View()), wait, old(seqMap)[hpath])
      ensures code != ErrHealAlreadyRunning && code != StillStopping ==>
        var s := AtLock(old(View()), hpath, forceStarted, wait, before);
        && (code == NotAFreshSequence <==> id in s.seqs)
        && (code == ErrHealOverlappingPaths <==>
              id !in s.seqs &&
              exists k :: k in s.seqMap && !s.seqs[s.seqMap[k]].HasEnded() && (hpath <= k || k <= hpath))
        && seqMap == (if code == Launched then s.seqMap[hpath := id] else s.seqMap)
        && seqs == (if code == NotAFreshSequence then s.seqs else s.seqs[id := Sequence(hpath, token, 0)])
    {
      ghost var start := View();
      trace := [];
      if forceStarted {
        var stopped;
        stopped, trace := StopHealSequence(hpath, wait);
        if !stopped {
          return StillStopping, trace;
        }
      } else if hpath in seqMap && !seqs[seqMap[hpath]].HasEnded() {
        return ErrHealAlreadyRunning, trace;
      }
      RunAppend(start, trace, before);
      trace := trace + before;
      Others(before);
      if id in seqs {
        return NotAFreshSequence, trace;
      }
      RunAppend(start, trace, [Launch(hpath, id, token)]);
      trace := trace + [Launch(hpath, id, token)];
      assert Run(View(), [Launch(hpath, id, token)]) == Next(View(), Launch(hpath, id, token));
      code := CommitLaunch(hpath, id, token);
    }

    /** A plain start with nobody interfering, of a fresh sequence on a path
        that is related to no un-ended one: it launches, and exactly its entry
        is added. */
    method LaunchUndisturbed(hpath: string, id: nat, token: string) returns (code: LaunchCode)
      requires View().Valid() && id !in seqs
      requires forall k :: k in seqMap && (hpath <= k || k <= hpath) ==> seqs[seqMap[k]].HasEnded()
      modifies this
      ensures code == Launched
      ensures seqMap == old(seqMap)[hpath := id] && seqs == old(seqs)[id := Sequence(hpath, token, 0)]
    {
      ghost var trace;
      code, trace := LaunchNewHealSequence(hpath, id, token, false, [], []);
    }

    /** One round of periodicHealSeqsClean, deleting while it walks the map. */
    method CleanOnce(now: nat)
      requires View().Valid()
      modifies this
      ensures View() == Step(old(View()), Clean(now))
      ensures forall p :: p in seqMap <==>
        p in old(seqMap) && (!seqs[old(seqMap)[p]].HasEnded() || now <= seqs[old(seqMap)[p]].endTime + 600)
      ensures seqs == old(seqs) && forall p :: p in seqMap ==> seqMap[p] == old(seqMap)[p]
    {
      var todo := seqMap.Keys;
      while todo != {}
        invariant todo <= seqMap.Keys <= old(seqMap).Keys && seqs == old(seqs)
        invariant forall k :: k in seqMap ==> seqMap[k] == old(seqMap)[k]
        invariant forall k :: k in old(seqMap) && k !in todo ==>
          (k in seqMap <==> !Stale(seqs[old(seqMap)[k]], now))
        decreases |todo|
      {
        var k :| k in todo;
        todo := todo - {k};
        if seqs[seqMap[k]].HasEnded() && seqs[seqMap[k]].endTime + KEEP_STATE_DURATION < now {
          seqMap := seqMap - {k};
        }
      }
    }
  }
}

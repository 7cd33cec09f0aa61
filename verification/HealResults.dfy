/** The bounded buffer of heal results between a heal sequence and the client
    that polls its status. */
module HealResults {
  const MAX_UNCONSUMED: nat := 1000

  // A heal result record; the rest of its content is an opaque detail.
  datatype Item = Item(resultIndex: int, detail: nat)

  // The part of a heal sequence that pushes and pops touch, and a log: the
  // batches popped so far and the details accepted so far.
  datatype State = State(items: seq<Item>, lastSent: int, popped: seq<seq<Item>>, accepted: seq<nat>)

  const FRESH := State([], 0, [], [])

  // One locked attempt to push, or one status pop.  marshals: the JSON
  // encoding of the status succeeded.
  datatype Event = Push(detail: nat) | Pop(tokenMatches: bool, marshals: bool)

  function Step(s: State, e: Event): State {
    match e
    case Push(detail) =>
      if |s.items| == MAX_UNCONSUMED then s
      else
        var index := 1 + (if |s.items| > 0 then s.items[|s.items| - 1].resultIndex else s.lastSent);
        s.(items := s.items + [Item(index, detail)], accepted := s.accepted + [detail])
    case Pop(tokenMatches, _) =>
      if !tokenMatches then s
      else
        var last := if |s.items| > 0 then s.items[|s.items| - 1].resultIndex else s.lastSent;
        s.(items := [], lastSent := last, popped := s.popped + [s.items])
  }

  function Run(s: State, es: seq<Event>): State {
    if es == [] then s else Step(Run(s, es[..|es| - 1]), es[|es| - 1])
  }

  lemma RunNone(s: State)
    ensures Run(s, []) == s
  {}

  lemma RunNext(s: State, es: seq<Event>, e: Event)
    ensures Run(s, es + [e]) == Step(Run(s, es), e)
  {
    assert (es + [e])[..|es|] == es;
  }

  lemma {:induction false} RunAppend(s: State, a: seq<Event>, b: seq<Event>)
    ensures Run(s, a + b) == Run(Run(s, a), b)
    decreases |b|
  {
    if b == [] {
      assert a + b == a;
    } else {
      assert (a + b)[..|a + b| - 1] == a + b[..|b| - 1];
      RunAppend(s, a, b[..|b| - 1]);
    }
  }

  function Flatten(batches: seq<seq<Item>>): seq<Item> {
    if batches == [] then [] else Flatten(batches[..|batches| - 1]) + batches[|batches| - 1]
  }

  // The items as the client should see them: numbered 1, 2, 3, ...
  function Numbered(details: seq<nat>): (r: seq<Item>)
    ensures |r| == |details|
  {
    seq(|details|, i requires 0 <= i < |details| => Item(i + 1, details[i]))
  }

  ghost predicate Inv(s: State) {
    && |s.items| <= MAX_UNCONSUMED
    && s.lastSent == |Flatten(s.popped)|
    && Flatten(s.popped) + s.items == Numbered(s.accepted)
  }

  lemma NumberedNext(details: seq<nat>, detail: nat)
    ensures Numbered(details + [detail]) == Numbered(details) + [Item(|details| + 1, detail)]
  {}

  lemma FlattenNext(batches: seq<seq<Item>>, last: seq<Item>)
    ensures Flatten(batches + [last]) == Flatten(batches) + last
  {
    assert (batches + [last])[..|batches|] == batches;
  }

  // The index to go on from is the number of items accepted.
  lemma LastIndex(s: State)
    requires Inv(s)
    ensures |s.items| > 0 ==> s.items[|s.items| - 1].resultIndex == |s.accepted|
    ensures |s.items| == 0 ==> s.lastSent == |s.accepted|
  {
    var all := Flatten(s.popped) + s.items;
    if |s.items| > 0 {
      assert all[|all| - 1] == s.items[|s.items| - 1];
    }
  }

  lemma PushKeepsInv(s: State, detail: nat)
    requires Inv(s)
    ensures Inv(Step(s, Push(detail)))
  {
    hide Flatten, Numbered;
    LastIndex(s);
    NumberedNext(s.accepted, detail);
    if |s.items| != MAX_UNCONSUMED {
      var item := Item(|s.accepted| + 1, detail);
      assert Flatten(s.popped) + (s.items + [item]) == (Flatten(s.popped) + s.items) + [item];
    }
  }

  lemma StepKeepsInv(s: State, e: Event)
    requires Inv(s)
    ensures Inv(Step(s, e))
  {
    hide Flatten, Numbered;
    LastIndex(s);
    match e
    case Push(detail) => PushKeepsInv(s, detail);
    case Pop(_, _) =>
      FlattenNext(s.popped, s.items);
      assert (Flatten(s.popped) + s.items) + [] == Flatten(s.popped) + s.items;
  }

  /** Over any interleaving of pushes and pops, the popped batches followed by
      the buffer are exactly the accepted items, in order and numbered from 1
      without gap or repeat; and the buffer never outgrows its bound. */
  lemma {:induction false} ResultsInOrder(es: seq<Event>)
    ensures Inv(Run(FRESH, es))
    decreases |es|
  {
    if es == [] {
      assert Flatten([]) + [] == Numbered([]);
    } else {
      ResultsInOrder(es[..|es| - 1]);
      StepKeepsInv(Run(FRESH, es[..|es| - 1]), es[|es| - 1]);
    }
  }

  // How a blocked push wakes: after a second, by a stop signal, or because
  // nobody consumed results for too long.  It waits with the lock held and
  // lets go of it only between two rounds; the client's pops come in there.
  datatype Wake = AfterSecond(pops: seq<Event>) | StopSignal | IdleTimeout

  datatype PushOutcome = Pushed | ErrHealStopSignalled | ErrHealIdleTimeout | StillBlocked

  datatype PopOutcome = Batch(items: seq<Item>) | ErrInvalidToken | ErrInternal

  predicate AllPops(es: seq<Event>) { forall k :: 0 <= k < |es| ==> es[k].Pop? }

  // One of the pops has the sequence's token.
  predicate MakesRoom(pops: seq<Event>) {
    exists k :: 0 <= k < |pops| && pops[k].Pop? && pops[k].tokenMatches
  }

  lemma MakesRoomNext(pops: seq<Event>, pop: Event)
    ensures MakesRoom(pops + [pop]) <==> MakesRoom(pops) || (pop.Pop? && pop.tokenMatches)
  {
    var all := pops + [pop];
    if MakesRoom(pops) {
      var k :| 0 <= k < |pops| && pops[k].Pop? && pops[k].tokenMatches;
      assert all[k] == pops[k];
    }
    assert all[|pops|] == pop;
  }

  // How a push that finds the buffer full ends: by the first round that makes
  // room or ends the wait, if there is one.
  function Ending(wakes: seq<Wake>): PushOutcome {
    if wakes == [] then StillBlocked
    else
      match wakes[0]
      case StopSignal => ErrHealStopSignalled
      case IdleTimeout => ErrHealIdleTimeout
      case AfterSecond(pops) => if MakesRoom(pops) then Pushed else Ending(wakes[1..])
  }

  class HealSequence {
    var items: seq<Item>
    var lastSentResultIndex: int
    ghost var popped: seq<seq<Item>>
    ghost var accepted: seq<nat>

    constructor ()
      ensures View() == FRESH
    {
      items, lastSentResultIndex, popped, accepted := [], 0, [], [];
    }

    ghost function View(): State
      reads this
    {
      State(items, lastSentResultIndex, popped, accepted)
    }

    // What the client does between two rounds of a waiting push.
    method PopsWhileWaiting(pops: seq<Event>)
      requires AllPops(pops)
      modifies this
      ensures View() == Run(old(View()), pops) && accepted == old(accepted)
      ensures items == if MakesRoom(pops) then [] else old(items)
    {
      for k := 0 to |pops|
        invariant View() == Run(old(View()), pops[..k]) && accepted == old(accepted)
        invariant items == if MakesRoom(pops[..k]) then [] else old(items)
      {
        assert pops[k].Pop?;
        assert pops[..k + 1] == pops[..k] + [pops[k]];
        MakesRoomNext(pops[..k], pops[k]);
        var _ := PopHealStatus(pops[k].tokenMatches, pops[k].marshals);
        assert pops[..k + 1][..k] == pops[..k];
      }
      assert pops[..|pops|] == pops;
    }

    // The rest of a push that has found room.
    method Append(detail: nat)
      requires |items| != MAX_UNCONSUMED
      modifies this
      ensures View() == Step(old(View()), Push(detail)) && accepted == old(accepted) + [detail]
      ensures |items| > 0 && items[|items| - 1].detail == detail
    {
      var index := 1 + lastSentResultIndex;
      if |items| > 0 {
        index := 1 + items[|items| - 1].resultIndex;
      }
      items := items + [Item(index, detail)];
      accepted := accepted + [detail];
    }

    /** pushHealResultItem: wakes say what happens at each round it has to
        wait.  The trace is what the buffer saw: attempts and pops. */
    method PushHealResultItem(detail: nat, wakes: seq<Wake>) returns (outcome: PushOutcome, ghost trace: seq<Event>)
      requires forall i :: 0 <= i < |wakes| && wakes[i].AfterSecond? ==> AllPops(wakes[i].pops)
      modifies this
      ensures View() == Run(old(View()), trace)
      ensures forall k :: 0 <= k < |trace| ==> trace[k].Pop? || trace[k] == Push(detail)
      ensures outcome == Pushed ==>
        |items| > 0 && items[|items| - 1].detail == detail && accepted == old(accepted) + [detail]
      ensures outcome != Pushed ==> accepted == old(accepted) && |items| == MAX_UNCONSUMED
      ensures outcome == Pushed <==> trace != [] && trace[|trace| - 1] == Push(detail)
      ensures outcome == if |old(items)| != MAX_UNCONSUMED then Pushed else Ending(wakes)
    {
      hide Run, Step, MakesRoom;
      trace := [];
      RunNone(View());
      var round := 0;
      while |items| == MAX_UNCONSUMED
        invariant 0 <= round <= |wakes|
        invariant View() == Run(old(View()), trace)
        invariant accepted == old(accepted)
        invariant AllPops(trace)
        invariant |old(items)| != MAX_UNCONSUMED ==> round == 0 && items == old(items)
        invariant |old(items)| == MAX_UNCONSUMED ==>
          Ending(wakes) == if |items| != MAX_UNCONSUMED then Pushed else Ending(wakes[round..])
        decreases |wakes| - round
      {
        if round == |wakes| {
          return StillBlocked, trace;
        }
        match wakes[round]
        case StopSignal => return ErrHealStopSignalled, trace;
        case IdleTimeout => return ErrHealIdleTimeout, trace;
        case AfterSecond(pops) =>
          PopsWhileWaiting(pops);
          assert wakes[round..][1..] == wakes[round + 1..];
          RunAppend(old(View()), trace, pops);
          trace := trace + pops;
          round := round + 1;
      }
      RunNext(old(View()), trace, Push(detail));
      Append(detail);
      return Pushed, trace + [Push(detail)];
    }

    /** The heal-status side of PopHealStatusJSON: a batch leaves the buffer
        even if encoding it then fails. */
    method PopHealStatus(tokenMatches: bool, marshals: bool) returns (outcome: PopOutcome)
      modifies this
      ensures View() == Step(old(View()), Pop(tokenMatches, marshals))
      ensures outcome == if !tokenMatches then ErrInvalidToken else if marshals then Batch(old(items)) else ErrInternal
      ensures items == if tokenMatches then [] else old(items)
      ensures popped == if tokenMatches then old(popped) + [old(items)] else old(popped)
      ensures accepted == old(accepted)
    {
      if !tokenMatches {
        return ErrInvalidToken;
      }
      var numItems := |items|;
      var lastResultIndex := lastSentResultIndex;
      if numItems > 0 {
        lastResultIndex := items[numItems - 1].resultIndex;
      }
      lastSentResultIndex := lastResultIndex;
      var batch := items;
      popped := popped + [items];
      items := [];
      if !marshals {
        return ErrInternal;
      }
      return Batch(batch);
    }
  }
}

/** Replication resets: when an already replicated version is replicated
    again, and how often. */
module ReplicationReset {
  import opened Base

  datatype Status = NoStatus | Pending | Completed | Failed | Replica

  const TIME_SENTINEL := 0

  // The version as the scanner sees it; resetStatus is its metadata entry.
  datatype ObjectInfo = ObjectInfo(modTime: int, status: Status, resetStatus: Option<string>)

  datatype ResetConfig = ResetConfig(resetID: string, resetBefore: int)

  datatype Decision = Replicate | Skip | Panics

  // strings.SplitN(s, ";", 2)
  function SplitN2(s: string): seq<string> {
    if s == "" then [""]
    else if s[0] == ';' then ["", s[1..]]
    else
      var rest := SplitN2(s[1..]);
      if |rest| == 0 then [s] else [[s[0]] + rest[0]] + rest[1..]
  }

  // The entry replicateObject writes for an existing-object replication.
  function WrittenStatus(time: string, resetID: string): string {
    time + ";" + resetID
  }

  /** The written entry always splits back into the time and the reset ID,
      whatever the ID contains, because HTTP times hold no semicolon. */
  lemma {:induction false} SplitWritten(time: string, resetID: string)
    requires ';' !in time
    ensures SplitN2(WrittenStatus(time, resetID)) == [time, resetID]
    decreases |time|
  {
    var s := WrittenStatus(time, resetID);
    if time == "" {
      assert s[1..] == resetID;
    } else {
      assert s[1..] == WrittenStatus(time[1..], resetID);
      SplitWritten(time[1..], resetID);
      assert time == [time[0]] + time[1..];
    }
  }

  /** replicationConfig.resync.  An entry without a semicolon would make the
      code index past the split. */
  function Resync(c: ResetConfig, oi: ObjectInfo, replicate: bool): Decision {
    if !replicate then Skip
    else
      match oi.resetStatus
      case None =>
        if c.resetID != "" && oi.modTime < c.resetBefore then Replicate
        else if oi.status != Completed then Replicate else Skip
      case Some(rs) =>
        if c.resetID == "" || c.resetBefore == TIME_SENTINEL then Skip
        else
          var splits := SplitN2(rs);
          if |splits| < 2 then Panics
          else
            var newReset := splits[1] != c.resetID;
            if !newReset && oi.status == Completed then Skip
            else if newReset && oi.modTime < c.resetBefore then Replicate
            else Skip
  }

  // ----- runs over one version -----

  // The target's copy: does getReplicationAction find nothing to replicate?
  datatype Target = InSync | OutOfSync

  // ids are the reset IDs configured so far, the last one current (the first
  // may be "", no reset).  pending are the queued existing-object tasks, by
  // the position of the ID they carry; one worker takes them in order.
  // retries are the failed ones queued once more, as heal tasks that still
  // carry the ID; several workers take them in any order.  heals counts the
  // queued tasks without an ID.  done logs every replication that a task with
  // an ID has completed; written logs the entries saved with the metadata.
  datatype World = World(
    oi: ObjectInfo, ids: seq<string>, resetBefore: int, target: Target,
    pending: seq<nat>, retries: seq<nat>, heals: nat, done: seq<nat>, written: seq<nat>)

  // One call of replicateObject, once it has the version's lock: StatObject
  // succeeds or not, then the copy does or not, then the metadata is saved or
  // not.  mrfHasRoom: a failed task finds room in the retry queue.
  datatype Attempt = Attempt(stat: bool, copies: bool, saves: bool, time: string, mrfHasRoom: bool)

  // Existing, Retry and Heal: an attempt at the head of the existing-object
  // queue, at one of the retries, at a task without an ID.  Drop: the
  // existing-object task at the head returns before it does anything.
  // TargetChanges: the target's copy is lost, replaced or repaired by others.
  datatype Event =
    | Configure(id: string, resetBefore: int)
    | Scan(replicate: bool)
    | Existing(a: Attempt)
    | Retry(k: nat, a: Attempt)
    | Heal(a: Attempt, retried: bool)
    | Drop
    | TargetChanges(target: Target)

  function Current(w: World): ResetConfig
    requires |w.ids| > 0
  {
    ResetConfig(w.ids[|w.ids| - 1], w.resetBefore)
  }

  predicate Enabled(w: World, e: Event) {
    && |w.ids| > 0
    && (e.Configure? ==> e.id !in w.ids)          // reset IDs are fresh UUIDs
    && (e.Existing? ==> w.pending != [] && ';' !in e.a.time)
    && (e.Drop? ==> w.pending != [])
    && (e.Retry? ==> e.k < |w.retries|)
    && (e.Heal? ==> w.heals > 0)
  }

  // The target already holds the version: replicateNone.
  predicate FoundInSync(w: World, a: Attempt) { a.stat && w.target == InSync }

  // The attempt replicates the version.
  predicate Replicates(w: World, a: Attempt) { !FoundInSync(w, a) && a.copies }

  // The status saved: a version found in sync is only marked completed if it
  // was waiting; an existing-object task saves nothing when it fails.
  function StatusAfter(w: World, a: Attempt, isHeal: bool): Status {
    if !a.saves then w.oi.status
    else if FoundInSync(w, a) then
      if w.oi.status == Pending || w.oi.status == Failed then Completed else w.oi.status
    else if a.copies then Completed
    else if isHeal then Failed
    else w.oi.status
  }

  // replicateObject, but for its queues.
  function Attempted(w: World, a: Attempt, isHeal: bool, id: Option<nat>): World {
    var writes := Replicates(w, a) && a.saves && !isHeal && id.Some? && id.value < |w.ids|;
    w.(
      oi := w.oi.(
        status := StatusAfter(w, a, isHeal),
        resetStatus := if writes then Some(WrittenStatus(a.time, w.ids[id.value])) else w.oi.resetStatus),
      target := if Replicates(w, a) then InSync else w.target,
      done := if Replicates(w, a) && id.Some? then w.done + [id.value] else w.done,
      written := if writes then w.written + [id.value] else w.written)
  }

  // A failed attempt that has not been retried yet is queued once more.
  predicate Requeues(w: World, a: Attempt) { !FoundInSync(w, a) && !a.copies && a.mrfHasRoom }

  function Next(w: World, e: Event): World {
    if !Enabled(w, e) then w
    else
      match e
      case Configure(id, before) => w.(ids := w.ids + [id], resetBefore := before)
      case Scan(replicate) =>
        if Resync(Current(w), w.oi, replicate) == Replicate then w.(pending := w.pending + [|w.ids| - 1])
        else if w.oi.status == Pending || w.oi.status == Failed then w.(heals := w.heals + 1)
        else w
      case Existing(a) =>
        var id := w.pending[0];
        Attempted(w, a, false, Some(id)).(
          pending := w.pending[1..],
          retries := if Requeues(w, a) then w.retries + [id] else w.retries)
      case Retry(k, a) =>
        Attempted(w, a, true, Some(w.retries[k])).(retries := w.retries[..k] + w.retries[k + 1..])
      case Heal(a, retried) =>
        Attempted(w, a, true, None).(heals := if Requeues(w, a) && !retried then w.heals else w.heals - 1)
      case Drop => w.(pending := w.pending[1..])
      case TargetChanges(t) => w.(target := t)
  }

  /** The status of a version tells the truth: it comes to be Completed only
      when the target holds the version, and Failed only by a retry or a heal
      that did not get it there; and an attempt that replicates the version
      and saves its metadata always makes it Completed. */
  lemma StatusTellsTheTruth(w: World, e: Event)
    ensures var w' := Next(w, e);
      && (w'.oi.status != w.oi.status ==>
            && (w'.oi.status == Completed || w'.oi.status == Failed)
            && (w'.oi.status == Completed ==> w'.target == InSync)
            && (w'.oi.status == Failed ==>
                  (e.Retry? || e.Heal?) && !e.a.copies && !(e.a.stat && w.target == InSync)))
      && (Enabled(w, e) && (e.Existing? || e.Retry? || e.Heal?) && e.a.saves ==>
            && (e.a.copies && !(e.a.stat && w.target == InSync) ==> w'.oi.status == Completed)
            && (e.a.stat && w.target == InSync && (w.oi.status == Pending || w.oi.status == Failed) ==>
                  w'.oi.status == Completed))
  {
    hide WrittenStatus, Resync;
  }

  function Run(w: World, es: seq<Event>): World
    decreases |es|
  {
    if es == [] then w else Run(Next(w, es[0]), es[1..])
  }

  /** A scan queues a heal of a version that is waiting or has failed, unless
      it is queued for the reset; and the heal, once it finds the target in
      sync or copies, and saves, leaves the version Completed and replicated. */
  lemma ScannedFailureHeals(w: World, replicate: bool, a: Attempt)
    requires |w.ids| > 0 && (w.oi.status == Pending || w.oi.status == Failed)
    requires Resync(Current(w), w.oi, replicate) != Replicate
    requires a.saves && (a.copies || (a.stat && w.target == InSync))
    ensures var w1 := Next(w, Scan(replicate));
      var w2 := Next(w1, Heal(a, false));
      w1.heals == w.heals + 1 && w2.oi.status == Completed && w2.target == InSync && w2.heals == w.heals
  {
    hide Resync, WrittenStatus;
  }

  // A version no existing-object replication has touched yet.
  predicate Fresh(w: World) {
    && |w.ids| == 1 && w.pending == [] && w.retries == [] && w.done == [] && w.written == []
    && w.oi.resetStatus == None
  }

  // ----- what the entry says -----

  predicate Increasing(s: seq<nat>) { forall i, j :: 0 <= i < j < |s| ==> s[i] <= s[j] }

  ghost predicate Inv(w: World) {
    && |w.ids| > 0
    && (forall i, j :: 0 <= i < j < |w.ids| ==> w.ids[i] != w.ids[j])
    && Increasing(w.written + w.pending)
    && (forall i :: 0 <= i < |w.written| ==> w.written[i] < |w.ids|)
    && (forall i :: 0 <= i < |w.pending| ==> w.pending[i] < |w.ids|)
    && EntryIsLastWritten(w)
  }

  ghost predicate EntryIsLastWritten(w: World) {
    if w.written == [] then w.oi.resetStatus == None
    else
      && w.written[|w.written| - 1] < |w.ids|
      && exists time :: ';' !in time
           && w.oi.resetStatus == Some(WrittenStatus(time, w.ids[w.written[|w.written| - 1]]))
  }

  // The entry on the version is of the current ID.
  predicate EntryIsCurrent(w: World) {
    w.written != [] && w.written[|w.written| - 1] == |w.ids| - 1
  }

  // The entry on the version tells resync to refuse it: it is of the current
  // ID, or the reset carries no date to go by.
  predicate EntryRefuses(w: World) {
    w.written != [] && (EntryIsCurrent(w) || w.resetBefore == TIME_SENTINEL)
  }

  // The current reset asks for versions as old as this one.
  predicate InReset(w: World)
    requires |w.ids| > 0
  {
    Current(w).resetID != "" && w.oi.modTime < w.resetBefore
  }

  /** What resync decides, from what has been written on the version: never
      out of range; with an entry, exactly by whether it is of another ID. */
  lemma ResyncExactly(w: World, replicate: bool)
    requires Inv(w)
    ensures Resync(Current(w), w.oi, replicate) != Panics
    ensures Resync(Current(w), w.oi, replicate) == Replicate <==>
      && replicate
      && if w.written == [] then InReset(w) || w.oi.status != Completed else InReset(w) && !EntryRefuses(w)
  {
    if w.written != [] {
      var time :| ';' !in time && w.oi.resetStatus == Some(WrittenStatus(time, w.ids[w.written[|w.written| - 1]]));
      SplitWritten(time, w.ids[w.written[|w.written| - 1]]);
    }
  }

  lemma HeadDropped(written: seq<nat>, pending: seq<nat>)
    requires pending != [] && Increasing(written + pending)
    ensures Increasing(written + pending[1..])
  {
    var a, b := written + pending, written + pending[1..];
    forall k | 0 <= k < |b|
      ensures b[k] == a[if k < |written| then k else k + 1]
    {}
  }

  lemma NextKeepsInv(w: World, e: Event)
    requires Inv(w)
    ensures Inv(Next(w, e))
  {
    if Enabled(w, e) {
      match e
      case Configure(_, _) => ConfigureKeepsEntry(w, e);
      case Scan(replicate) => ScanKeepsOrder(w, replicate);
      case Existing(a) => ExistingKeepsInv(w, a);
      case Drop => HeadDropped(w.written, w.pending);
      case _ =>
    }
  }

  lemma ConfigureKeepsEntry(w: World, e: Event)
    requires EntryIsLastWritten(w) && e.Configure? && Enabled(w, e)
    ensures EntryIsLastWritten(Next(w, e))
  {
    if w.written != [] {
      assert Next(w, e).ids[w.written[|w.written| - 1]] == w.ids[w.written[|w.written| - 1]];
    }
  }

  lemma ExistingKeepsInv(w: World, a: Attempt)
    requires Inv(w) && Enabled(w, Existing(a))
    ensures Inv(Next(w, Existing(a)))
  {
    var w', id := Next(w, Existing(a)), w.pending[0];
    if Replicates(w, a) && a.saves {
      assert w'.written + w'.pending == w.written + w.pending;
      assert w'.oi.resetStatus == Some(WrittenStatus(a.time, w'.ids[w'.written[|w'.written| - 1]]));
    } else {
      HeadDropped(w.written, w.pending);
    }
  }

  lemma ScanKeepsOrder(w: World, replicate: bool)
    requires Inv(w)
    ensures Inv(Next(w, Scan(replicate)))
  {
    var w', cur := Next(w, Scan(replicate)), |w.ids| - 1;
    if w'.pending != w.pending {
      var all := w.written + w.pending;
      assert w'.written + w'.pending == all + [cur];
      assert forall k :: 0 <= k < |all| ==>
        all[k] == (if k < |w.written| then w.written[k] else w.pending[k - |w.written|]) <= cur;
    }
  }

  lemma {:induction false} RunKeepsInv(w: World, es: seq<Event>)
    requires Inv(w)
    ensures Inv(Run(w, es))
    decreases |es|
  {
    hide Inv, Next;
    if es != [] {
      NextKeepsInv(w, es[0]);
      RunKeepsInv(Next(w, es[0]), es[1..]);
    }
  }

  // Nothing is written after an entry of the current ID but entries of it.
  lemma LastIsCurrent(w: World)
    requires Inv(w) && |w.ids| - 1 in w.written
    ensures EntryIsCurrent(w)
  {
    var k :| 0 <= k < |w.written| && w.written[k] == |w.ids| - 1;
    var all := w.written + w.pending;
    assert all[k] == w.written[k] && all[|w.written| - 1] == w.written[|w.written| - 1];
  }

  /** In every run, resync never indexes out of range, and once an
      existing-object replication under the current reset ID has completed and
      its metadata is saved, resync refuses the version for as long as that ID
      is current. */
  lemma CompletedStaysCompleted(w: World, es: seq<Event>, replicate: bool)
    requires Fresh(w)
    ensures var r := Run(w, es);
      && |r.ids| > 0
      && Resync(Current(r), r.oi, replicate) != Panics
      && (|r.ids| - 1 in r.written ==> Resync(Current(r), r.oi, replicate) == Skip)
  {
    RunKeepsInv(w, es);
    var r := Run(w, es);
    ResyncExactly(r, replicate);
    if |r.ids| - 1 in r.written {
      LastIsCurrent(r);
    }
  }

  // ----- when a reset settles a version -----

  // An existing-object task of the current ID (of any, if the reset carries no
  // date) does not find the target in sync, copies, and saves the metadata.
  predicate Settles(w: World, e: Event) {
    && Enabled(w, e) && e.Existing?
    && (w.pending[0] == |w.ids| - 1 || w.resetBefore == TIME_SENTINEL)
    && !FoundInSync(w, e.a) && e.a.copies && e.a.saves
  }

  predicate NeverSettles(w: World, es: seq<Event>)
    decreases |es|
  {
    es == [] || (!Settles(w, es[0]) && NeverSettles(Next(w, es[0]), es[1..]))
  }

  ghost predicate UnderReset(w: World) { Inv(w) && InReset(w) }

  lemma NextUnderReset(w: World, e: Event)
    requires UnderReset(w) && !e.Configure?
    ensures UnderReset(Next(w, e))
    ensures EntryRefuses(Next(w, e)) <==> EntryRefuses(w) || Settles(w, e)
  {
    NextKeepsInv(w, e);
    if Enabled(w, e) && e.Existing? {
      var all := w.written + w.pending;
      assert all[|w.written|] == w.pending[0];
      assert w.written != [] ==> all[|w.written| - 1] == w.written[|w.written| - 1];
    }
  }

  lemma {:induction false} SettledAlong(w: World, es: seq<Event>)
    requires UnderReset(w) && forall i :: 0 <= i < |es| ==> !es[i].Configure?
    ensures UnderReset(Run(w, es))
    ensures EntryRefuses(Run(w, es)) <==> EntryRefuses(w) || !NeverSettles(w, es)
    decreases |es|
  {
    hide UnderReset, EntryRefuses, Settles, Next;
    if es != [] {
      assert !es[0].Configure?;
      NextUnderReset(w, es[0]);
      SettledAlong(Next(w, es[0]), es[1..]);
    }
  }

  /** A reset stops asking for a version, over any run until the next one,
      exactly once an existing-object task of its ID has replicated it and
      saved the metadata.  An attempt that finds the target in sync, a retry
      and a heal settle nothing, however they end. */
  lemma SettledExactly(w: World, es: seq<Event>)
    requires UnderReset(w) && Resync(Current(w), w.oi, true) == Replicate
    requires forall i :: 0 <= i < |es| ==> !es[i].Configure?
    ensures var r := Run(w, es);
      |r.ids| > 0 && (Resync(Current(r), r.oi, true) == Replicate <==> NeverSettles(w, es))
  {
    ResyncExactly(w, true);
    SettledAlong(w, es);
    ResyncExactly(Run(w, es), true);
  }

  // No existing-object task fails to reach the target, and neither a reset nor
  // anybody else interferes.
  predicate StatsSucceed(e: Event) { (e.Existing? ==> e.a.stat) && !e.Configure? && !e.TargetChanges? }

  lemma {:induction false} InSyncNeverSettles(w: World, es: seq<Event>)
    requires w.target == InSync && forall i :: 0 <= i < |es| ==> StatsSucceed(es[i])
    ensures NeverSettles(w, es)
    decreases |es|
  {
    if es != [] {
      assert StatsSucceed(es[0]);
      InSyncNeverSettles(Next(w, es[0]), es[1..]);
    }
  }

  /** So a version whose target copy is in sync is queued by every later scan,
      however often it has been attempted. */
  lemma InSyncScannedForEver(w: World, es: seq<Event>)
    requires UnderReset(w) && Resync(Current(w), w.oi, true) == Replicate
    requires w.target == InSync && forall i :: 0 <= i < |es| ==> StatsSucceed(es[i])
    ensures var r := Run(w, es); Next(r, Scan(true)).pending == r.pending + [|w.ids| - 1]
  {
    hide Run, UnderReset, NeverSettles, Resync;
    forall i | 0 <= i < |es| ensures !es[i].Configure? {
      assert StatsSucceed(es[i]);
    }
    InSyncNeverSettles(w, es);
    SettledExactly(w, es);
    IdsStay(w, es);
  }

  lemma {:induction false} IdsStay(w: World, es: seq<Event>)
    requires forall i :: 0 <= i < |es| ==> !es[i].Configure?
    ensures Run(w, es).ids == w.ids
    decreases |es|
  {
    if es != [] {
      assert !es[0].Configure?;
      IdsStay(Next(w, es[0]), es[1..]);
    }
  }

  // ----- how often a version is replicated under one ID -----

  ghost predicate NoRepeats(m: multiset<nat>) { forall id :: m[id] <= 1 }

  // The IDs that completed, with those of the tasks queued and to be retried.
  ghost function Tasks(w: World): multiset<nat> {
    multiset(w.done) + multiset(w.pending) + multiset(w.retries)
  }

  // Everything but a decision to queue: attempts in any order and with any
  // outcome, tasks dropped, changes to the target.
  predicate Quiet(e: Event) { !e.Scan? && !e.Configure? }

  predicate AllQuiet(es: seq<Event>) { forall i :: 0 <= i < |es| ==> Quiet(es[i]) }

  // What is queued already may replicate the version twice under one ID.
  ghost predicate MayRepeat(w: World) {
    exists es :: AllQuiet(es) && !NoRepeats(multiset(Run(w, es).done))
  }

  lemma QuietNeverAdds(w: World, e: Event)
    requires Quiet(e)
    ensures Tasks(Next(w, e)) <= Tasks(w)
  {
    if Enabled(w, e) {
      match e
      case Existing(a) => ExistingNeverAdds(w, a);
      case Drop => assert w.pending == [w.pending[0]] + w.pending[1..];
      case Retry(k, a) => RetryNeverAdds(w, k, a);
      case _ =>
    }
  }

  lemma ExistingNeverAdds(w: World, a: Attempt)
    requires Enabled(w, Existing(a))
    ensures Tasks(Next(w, Existing(a))) <= Tasks(w)
  {
    hide FoundInSync, StatusAfter, WrittenStatus;
    assert w.pending == [w.pending[0]] + w.pending[1..];
  }

  lemma RetryNeverAdds(w: World, k: nat, a: Attempt)
    requires Enabled(w, Retry(k, a))
    ensures Tasks(Next(w, Retry(k, a))) <= Tasks(w)
  {
    hide FoundInSync, StatusAfter, WrittenStatus;
    assert w.retries == w.retries[..k] + [w.retries[k]] + w.retries[k + 1..];
  }

  lemma {:induction false} QuietRunNeverAdds(w: World, es: seq<Event>)
    requires AllQuiet(es)
    ensures Tasks(Run(w, es)) <= Tasks(w)
    decreases |es|
  {
    hide Next, Tasks;
    if es != [] {
      QuietNeverAdds(w, es[0]);
      QuietRunNeverAdds(Next(w, es[0]), es[1..]);
    }
  }

  // StatObject fails and the copy succeeds.
  const FORCED := Attempt(false, true, false, "", false)

  // Every task queued or to be retried replicates.
  function Finish(w: World): seq<Event> {
    seq(|w.pending|, _ => Existing(FORCED)) + seq(|w.retries|, _ => Retry(0, FORCED))
  }

  lemma {:induction false} FinishReplicatesAll(w: World)
    requires |w.ids| > 0
    ensures Run(w, Finish(w)).done == w.done + w.pending + w.retries
    decreases |w.pending| + |w.retries|
  {
    var es := Finish(w);
    if es == [] {
      assert w.done + w.pending + w.retries == w.done;
    } else {
      var w' := Next(w, es[0]);
      assert w'.done + w'.pending + w'.retries == w.done + w.pending + w.retries;
      assert Finish(w') == es[1..];
      FinishReplicatesAll(w');
    }
  }

  /** What is queued can replicate a version twice under one ID, by some
      outcome of its attempts and some behaviour of the target, exactly if an
      ID occurs twice among those completed, queued and to be retried. */
  lemma MayRepeatExactly(w: World)
    requires |w.ids| > 0
    ensures MayRepeat(w) <==> !NoRepeats(Tasks(w))
  {
    hide Next, Run;
    if !NoRepeats(Tasks(w)) {
      FinishReplicatesAll(w);
      assert AllQuiet(Finish(w));
      assert multiset(w.done + w.pending + w.retries) == Tasks(w);
    }
    if MayRepeat(w) {
      var es :| AllQuiet(es) && !NoRepeats(multiset(Run(w, es).done));
      QuietRunNeverAdds(w, es);
      var id :| multiset(Run(w, es).done)[id] > 1;
      assert Tasks(Run(w, es))[id] > 1;
    }
  }

  /** The guard that fails: a scan queues the version although a task of the
      current ID has completed, is queued or is to be retried. */
  ghost predicate QueuesAgain(w: World, e: Event) {
    && |w.ids| > 0 && e.Scan? && Resync(Current(w), w.oi, e.replicate) == Replicate
    && |w.ids| - 1 in Tasks(w)
  }

  lemma ScanRepeatsExactly(w: World, e: Event)
    requires |w.ids| > 0 && NoRepeats(Tasks(w))
    ensures NoRepeats(Tasks(Next(w, e))) <==> !QueuesAgain(w, e)
  {
    hide NoRepeats;
    if e.Scan? {
      if Resync(Current(w), w.oi, e.replicate) == Replicate {
        assert Tasks(Next(w, e)) == Tasks(w) + multiset{|w.ids| - 1};
        OneMore(Tasks(w), |w.ids| - 1);
      }
    } else if Quiet(e) {
      QuietNeverAdds(w, e);
      FewerNeverRepeat(Tasks(Next(w, e)), Tasks(w));
    }
  }

  lemma OneMore(m: multiset<nat>, id: nat)
    requires NoRepeats(m)
    ensures NoRepeats(m + multiset{id}) <==> id !in m
  {
    if id in m {
      assert (m + multiset{id})[id] == 2;
    }
  }

  lemma FewerNeverRepeat(m: multiset<nat>, n: multiset<nat>)
    requires m <= n && NoRepeats(n)
    ensures NoRepeats(m)
  {
    forall id ensures m[id] <= 1 {
      assert n[id] <= 1;
    }
  }

  // At no point of the run may what is queued then repeat a replication.
  ghost predicate NeverAtRisk(w: World, es: seq<Event>)
    decreases |es|
  {
    !MayRepeat(w) && (es == [] || NeverAtRisk(Next(w, es[0]), es[1..]))
  }

  ghost predicate NeverQueuesAgain(w: World, es: seq<Event>)
    decreases |es|
  {
    es == [] || (!QueuesAgain(w, es[0]) && NeverQueuesAgain(Next(w, es[0]), es[1..]))
  }

  lemma IdsNeverGo(w: World, e: Event)
    ensures |Next(w, e).ids| >= |w.ids|
  {}

  lemma {:induction false} AtRiskExactly(w: World, es: seq<Event>)
    requires |w.ids| > 0 && NoRepeats(Tasks(w))
    ensures NeverAtRisk(w, es) <==> NeverQueuesAgain(w, es)
    decreases |es|
  {
    hide MayRepeat, NoRepeats, Tasks, QueuesAgain, Next;
    MayRepeatExactly(w);
    if es != [] {
      var w' := Next(w, es[0]);
      IdsNeverGo(w, es[0]);
      ScanRepeatsExactly(w, es[0]);
      if QueuesAgain(w, es[0]) {
        MayRepeatExactly(w');
      } else {
        AtRiskExactly(w', es[1..]);
      }
    }
  }

  /** At every point of a run, nothing that is queued can come to replicate a
      version twice under one reset ID, exactly if no scan has queued it while
      a task of the then current ID had completed, was queued or was to be
      retried. */
  lemma AtMostOncePerResetExactly(w: World, es: seq<Event>)
    requires Fresh(w)
    ensures NeverAtRisk(w, es) <==> NeverQueuesAgain(w, es)
  {
    AtRiskExactly(w, es);
  }

  /** Which scans those are, by what they could look at: the entry must not be
      of the current ID, so the completed task is one that left none. */
  lemma QueuesAgainExactly(w: World, replicate: bool)
    requires Inv(w)
    ensures QueuesAgain(w, Scan(replicate)) <==>
      && replicate
      && (|w.ids| - 1 in w.done || |w.ids| - 1 in w.pending || |w.ids| - 1 in w.retries)
      && if w.written == [] then InReset(w) || w.oi.status != Completed
         else InReset(w) && w.resetBefore != TIME_SENTINEL && |w.ids| - 1 !in w.written
  {
    ResyncExactly(w, replicate);
    if |w.ids| - 1 in w.written {
      LastIsCurrent(w);
    }
  }

  lemma AfterQueueingAgain(w: World, e: Event)
    requires QueuesAgain(w, e)
    ensures MayRepeat(Next(w, e))
  {
    hide MayRepeat;
    assert Tasks(Next(w, e)) == Tasks(w) + multiset{|w.ids| - 1};
    assert Tasks(Next(w, e))[|w.ids| - 1] > 1;
    MayRepeatExactly(Next(w, e));
  }

  /** Two scans in a row are enough ... */
  lemma HurriedScansMayRepeat(w: World)
    requires Fresh(w) && InReset(w)
    ensures MayRepeat(Next(Next(w, Scan(true)), Scan(true)))
  {
    hide MayRepeat;
    AfterQueueingAgain(Next(w, Scan(true)), Scan(true));
  }

  // The state a failed task leaves, and then its retry.
  lemma AfterFailure(w: World, failing: Attempt)
    requires Fresh(w) && InReset(w) && ';' !in failing.time && Requeues(w, failing)
    ensures Next(Next(w, Scan(true)), Existing(failing)) == w.(retries := [0])
  {
    hide WrittenStatus;
    var w1 := Next(w, Scan(true));
    assert w1 == w.(pending := [0]);
  }

  lemma AfterRetry(w: World, retry: Attempt)
    requires Fresh(w) && Replicates(w, retry)
    ensures var r := Next(w.(retries := [0]), Retry(0, retry));
      r == w.(oi := w.oi.(status := r.oi.status), target := InSync, done := [0])
  {
    hide WrittenStatus;
  }

  /** ... or one after a retry, which replicates and leaves no entry. */
  lemma RetryMayRepeat(w: World, failing: Attempt, retry: Attempt)
    requires Fresh(w) && InReset(w) && ';' !in failing.time
    requires Requeues(w, failing) && Replicates(w, retry)
    ensures var r := Next(Next(Next(w, Scan(true)), Existing(failing)), Retry(0, retry));
      r.done == [0] && r.pending == [] && r.retries == [] && MayRepeat(Next(r, Scan(true)))
  {
    hide MayRepeat, Next, Requeues, Replicates;
    AfterFailure(w, failing);
    AfterRetry(w, retry);
    AfterQueueingAgain(Next(w.(retries := [0]), Retry(0, retry)), Scan(true));
  }

  // A scan decides nothing while a task for the current ID is still queued.
  predicate Unhurried(w: World, e: Event) {
    e.Scan? && |w.ids| > 0 ==> |w.ids| - 1 !in w.pending && |w.ids| - 1 !in w.retries
  }

  // The ID of the task an event attempts.
  function TaskId(w: World, e: Event): Option<nat> {
    if !Enabled(w, e) then None
    else if e.Existing? then Some(w.pending[0])
    else if e.Retry? then Some(w.retries[e.k])
    else None
  }

  // A replication for an ID that leaves an entry: an existing-object task's,
  // whose metadata is saved.  (A retry's never does.)
  predicate LeavesEntry(w: World, e: Event) {
    TaskId(w, e).Some? && Replicates(w, e.a) ==> e.Existing? && e.a.saves
  }

  ghost predicate Careful(w: World, es: seq<Event>)
    decreases |es|
  {
    es == [] || (Unhurried(w, es[0]) && LeavesEntry(w, es[0]) && Careful(Next(w, es[0]), es[1..]))
  }

  lemma CarefulStep(w: World, e: Event)
    requires Inv(w) && w.done == w.written && Unhurried(w, e) && LeavesEntry(w, e)
    ensures !QueuesAgain(w, e) && Next(w, e).done == Next(w, e).written
  {
    if e.Scan? {
      QueuesAgainExactly(w, e.replicate);
    }
  }

  lemma {:induction false} CarefulNeverQueuesAgain(w: World, es: seq<Event>)
    requires Inv(w) && w.done == w.written && Careful(w, es)
    ensures NeverQueuesAgain(w, es)
    decreases |es|
  {
    hide Inv, Next, QueuesAgain, Unhurried, LeavesEntry;
    if es != [] {
      CarefulStep(w, es[0]);
      NextKeepsInv(w, es[0]);
      CarefulNeverQueuesAgain(Next(w, es[0]), es[1..]);
    }
  }

  /** That is so, whatever the target does, if no scan decides while a task for
      the current ID is queued and every replication leaves its entry. */
  lemma AtMostOncePerReset(w: World, es: seq<Event>)
    requires Fresh(w) && Careful(w, es)
    ensures NeverAtRisk(w, es) && NoRepeats(multiset(Run(w, es).done))
  {
    assert w.written + w.pending == [];
    CarefulNeverQueuesAgain(w, es);
    AtMostOncePerResetExactly(w, es);
    SafeAtTheEnd(w, es);
  }

  // What is never at risk has not happened.
  lemma {:induction false} SafeAtTheEnd(w: World, es: seq<Event>)
    requires NeverAtRisk(w, es)
    ensures NoRepeats(multiset(Run(w, es).done))
    decreases |es|
  {
    if es == [] {
      assert AllQuiet([]) && Run(w, []) == w;
    } else {
      SafeAtTheEnd(Next(w, es[0]), es[1..]);
    }
  }
}

/** The healing tracker: its codec, its file on the healed disk, and the
    operations that move it along. */
module HealingTracker {
  import opened Base
  import opened MessagePack
  import opened MessagePackValues
  import opened MessagePackMap
  import opened MessagePackStruct

  datatype Field =
    | FID | FPoolIndex | FSetIndex | FDiskIndex | FPath | FEndpoint | FStarted | FLastUpdate
    | FObjectsHealed | FObjectsFailed | FBytesDone | FBytesFailed | FBucket | FObject
    | FResumeObjectsHealed | FResumeObjectsFailed | FResumeBytesDone | FResumeBytesFailed
    | FQueuedBuckets | FHealedBuckets

  const FIELDS: seq<Field> := [
    FID, FPoolIndex, FSetIndex, FDiskIndex, FPath, FEndpoint, FStarted, FLastUpdate,
    FObjectsHealed, FObjectsFailed, FBytesDone, FBytesFailed, FBucket, FObject,
    FResumeObjectsHealed, FResumeObjectsFailed, FResumeBytesDone, FResumeBytesFailed,
    FQueuedBuckets, FHealedBuckets]

  function Name(f: Field): string {
    match f
    case FID => "ID"
    case FPoolIndex => "PoolIndex"
    case FSetIndex => "SetIndex"
    case FDiskIndex => "DiskIndex"
    case FPath => "Path"
    case FEndpoint => "Endpoint"
    case FStarted => "Started"
    case FLastUpdate => "LastUpdate"
    case FObjectsHealed => "ObjectsHealed"
    case FObjectsFailed => "ObjectsFailed"
    case FBytesDone => "BytesDone"
    case FBytesFailed => "BytesFailed"
    case FBucket => "Bucket"
    case FObject => "Object"
    case FResumeObjectsHealed => "ResumeObjectsHealed"
    case FResumeObjectsFailed => "ResumeObjectsFailed"
    case FResumeBytesDone => "ResumeBytesDone"
    case FResumeBytesFailed => "ResumeBytesFailed"
    case FQueuedBuckets => "QueuedBuckets"
    case FHealedBuckets => "HealedBuckets"
  }

  function Parse(s: string): Option<Field> {
    match s
    case "ID" => Some(FID)
    case "PoolIndex" => Some(FPoolIndex)
    case "SetIndex" => Some(FSetIndex)
    case "DiskIndex" => Some(FDiskIndex)
    case "Path" => Some(FPath)
    case "Endpoint" => Some(FEndpoint)
    case "Started" => Some(FStarted)
    case "LastUpdate" => Some(FLastUpdate)
    case "ObjectsHealed" => Some(FObjectsHealed)
    case "ObjectsFailed" => Some(FObjectsFailed)
    case "BytesDone" => Some(FBytesDone)
    case "BytesFailed" => Some(FBytesFailed)
    case "Bucket" => Some(FBucket)
    case "Object" => Some(FObject)
    case "ResumeObjectsHealed" => Some(FResumeObjectsHealed)
    case "ResumeObjectsFailed" => Some(FResumeObjectsFailed)
    case "ResumeBytesDone" => Some(FResumeBytesDone)
    case "ResumeBytesFailed" => Some(FResumeBytesFailed)
    case "QueuedBuckets" => Some(FQueuedBuckets)
    case "HealedBuckets" => Some(FHealedBuckets)
    case _ => None
  }

  function KindOf(f: Field): Kind {
    match f
    case FID | FPath | FEndpoint | FBucket | FObject => KindStr
    case FPoolIndex | FSetIndex | FDiskIndex => KindInt
    case FStarted | FLastUpdate => KindTime
    case FQueuedBuckets | FHealedBuckets => KindStrs
    case _ => KindUint
  }

  function TrackerLayout(): Layout<Field> { Layout(Parse, Name, KindOf, FIELDS) }

  lemma NameParses(f: Field)
    ensures Parse(Name(f)) == Some(f)
  {
  }

  lemma NameShort(f: Field)
    ensures ShortAscii(Name(f))
  {
    hide ShortAscii;
    if KindOf(f) == KindUint {
      CounterNameShort(f);
    } else {
      OtherNameShort(f);
    }
  }

  lemma CounterNameShort(f: Field)
    requires KindOf(f) == KindUint
    ensures ShortAscii(Name(f))
  {
  }

  lemma OtherNameShort(f: Field)
    requires KindOf(f) != KindUint
    ensures ShortAscii(Name(f))
  {
  }

  // Where a field stands in the encoding.
  function Position(f: Field): nat {
    match f
    case FID => 0
    case FPoolIndex => 1
    case FSetIndex => 2
    case FDiskIndex => 3
    case FPath => 4
    case FEndpoint => 5
    case FStarted => 6
    case FLastUpdate => 7
    case FObjectsHealed => 8
    case FObjectsFailed => 9
    case FBytesDone => 10
    case FBytesFailed => 11
    case FBucket => 12
    case FObject => 13
    case FResumeObjectsHealed => 14
    case FResumeObjectsFailed => 15
    case FResumeBytesDone => 16
    case FResumeBytesFailed => 17
    case FQueuedBuckets => 18
    case FHealedBuckets => 19
  }

  lemma FieldAt(f: Field)
    ensures Position(f) < 20 && FIELDS[Position(f)] == f
  {
  }

  lemma LayoutSound()
    ensures Sound(TrackerLayout())
  {
    hide Parse, Name, ShortAscii;
    forall f: Field ensures ShortAscii(Name(f)) && Parse(Name(f)) == Some(f) && f in FIELDS {
      NameParses(f);
      NameShort(f);
      FieldAt(f);
    }
  }

  // The two list fields: a header, then string after string.
  method AppendStrings(b: Bytes, ss: seq<Bytes>) returns (o: Bytes)
    ensures o == b + (EncArrHead(|ss|) + EncStrs(ss))
  {
    hide EncArrHead, EncStr;
    o := b + EncArrHead(|ss|);
    for i := 0 to |ss|
      invariant o == b + (EncArrHead(|ss|) + EncStrs(ss[..i]))
    {
      assert StrParts(ss[..i + 1])[..i] == StrParts(ss[..i]);
      ghost var h, e, s := EncArrHead(|ss|), EncStrs(ss[..i]), EncStr(ss[i]);
      assert b + (h + e) + s == b + (h + (e + s));
      o := o + EncStr(ss[i]);
    }
    assert ss[..|ss|] == ss;
  }

  method UnmarshalStrings(bts: Bytes) returns (r: Option<(seq<Bytes>, Bytes)>)
    ensures r == ReadList(bts)
  {
    hide ReadStr, ReadArrHead;
    var h :- ReadArrHead(bts);
    var left := h.1;
    var ss: seq<Bytes> := [];
    assert ReadStrs(h.0, h.1).Some? ==> [] + ReadStrs(h.0, h.1).value.0 == ReadStrs(h.0, h.1).value.0;
    for i := 0 to h.0
      invariant ReadStrs(h.0, h.1) == PrependStrs(ss, ReadStrs(h.0 - i, left))
    {
      var rest := ReadStrs(h.0 - i, left);
      ReadStrsTurn(ss, h.0 - i, left);
      var s :- ReadStr(left);
      ss := ss + [s.0];
      left := s.1;
    }
    assert ss + [] == ss;
    r := Some((ss, left));
  }

  // ----- the zero tracker, and what loading makes of a file -----

  const ZERO_TIME: Time := Time(-62135596800, 0)

  function Zero(k: Kind): Value {
    match k
    case KindStr => VStr([])
    case KindInt => VInt(0)
    case KindUint => VUint(0)
    case KindBool => VBool(false)
    case KindTime => VTime(ZERO_TIME.sec, ZERO_TIME.nsec)
    case KindBin => VBin([])
    case KindStrs => VStrs([])
  }

  ghost function ZeroView(): (z: map<Field, Value>)
    ensures forall f :: f in z && z[f] == Zero(KindOf(f))
  {
    map f: Field | true :: Zero(KindOf(f))
  }

  // The identity check, and the identity the loaded tracker gets.
  ghost function Identified(z: map<Field, Value>, diskID: Bytes): Option<map<Field, Value>>
    requires FID in z
  {
    if z[FID] != VStr(diskID) && z[FID] != VStr([]) then None else Some(z[FID := VStr(diskID)])
  }

  ghost function Loaded(file: Bytes, diskID: Bytes): Option<map<Field, Value>> {
    match Decode(SchemaOf(TrackerLayout()), file)
    case None => None
    case Some((log, _)) =>
      var z := Assign(ZeroView(), log);
      if FID in z then Identified(z, diskID) else None
  }

  /** A saved tracker is loaded back as it was by the disk it was saved for,
      and under the loading disk's name if it was saved for none; any other
      disk refuses it. */
  lemma LoadSaved(z: map<Field, Value>, diskID: Bytes)
    requires Writable(TrackerLayout(), z)
    ensures var r := Loaded(Written(TrackerLayout(), z, 20), diskID);
      && FID in z
      && (r.Some? <==> z[FID] == VStr(diskID) || z[FID] == VStr([]))
      && (z[FID] == VStr(diskID) ==> r == Some(z))
      && (z[FID] == VStr([]) ==>
            && r.Some? && r.value.Keys == z.Keys && r.value[FID] == VStr(diskID)
            && forall f :: f in z && f != FID ==> r.value[f] == z[f])
  {
    LoadSavedIdentifies(z, diskID);
    hide Loaded, Written, Writable;
    assert FID in z.Keys;
    if z[FID] == VStr(diskID) {
      assert z[FID := VStr(diskID)] == z;
    }
  }

  lemma LoadSavedIdentifies(z: map<Field, Value>, diskID: Bytes)
    requires Writable(TrackerLayout(), z)
    ensures FID in z && Loaded(Written(TrackerLayout(), z, 20), diskID) == Identified(z, diskID)
  {
    hide Written, Decode, SchemaOf, Identified, Assign;
    LayoutSound();
    forall f ensures f in z.Keys && f in ZeroView().Keys {
      assert f in z && f in ZeroView();
    }
    RoundTrip(TrackerLayout(), z, ZeroView(), []);
    assert Written(TrackerLayout(), z, 20) + [] == Written(TrackerLayout(), z, 20);
  }

  // ----- queues -----

  // The list with every copy of a bucket taken out, in order.
  function Without(q: seq<Bytes>, b: Bytes): seq<Bytes> {
    if q == [] then [] else Without(q[..|q| - 1], b) + if q[|q| - 1] == b then [] else [q[|q| - 1]]
  }

  lemma {:induction false} WithoutAppend(p: seq<Bytes>, q: seq<Bytes>, b: Bytes)
    ensures Without(p + q, b) == Without(p, b) + Without(q, b)
    decreases |q|
  {
    if q == [] {
      assert p + q == p;
    } else {
      assert (p + q)[..|p + q| - 1] == p + q[..|q| - 1];
      WithoutAppend(p, q[..|q| - 1], b);
    }
  }

  lemma {:induction false} WithoutAbsent(q: seq<Bytes>, b: Bytes)
    ensures b !in Without(q, b)
    ensures b !in q ==> Without(q, b) == q
    ensures forall x :: x != b ==> (x in Without(q, b) <==> x in q)
    decreases |q|
  {
    if q != [] {
      WithoutAbsent(q[..|q| - 1], b);
      assert q == q[..|q| - 1] + [q[|q| - 1]];
    }
  }

  lemma WithoutItself(b: Bytes)
    ensures Without([b], b) == []
  {
  }

  lemma WithoutDeleted(p: seq<Bytes>, b: Bytes, r: seq<Bytes>)
    ensures Without(p + r, b) == Without(p + [b] + r, b)
  {
    hide Without;
    WithoutAppend(p, r, b);
    WithoutAppend(p + [b], r, b);
    WithoutAppend(p, [b], b);
    WithoutItself(b);
    assert Without(p, b) + [] == Without(p, b);
  }

  predicate NoDuplicates(q: seq<Bytes>) {
    forall i, j :: 0 <= i < j < |q| ==> q[i] != q[j]
  }

  // The deletion runs past the end of the shrunk queue.
  predicate Overruns(q: seq<Bytes>, b: Bytes) {
    q != [] && q[|q| - 1] == b && b in q[..|q| - 1]
  }

  // The array after append(q[:i], q[i+1:]...) on its first `live` places.
  function Shifted(a: seq<Bytes>, live: nat, i: nat): (r: seq<Bytes>)
    requires i < live <= |a|
    ensures |r| == |a| && r[..live - 1] == a[..live][..i] + a[..live][i + 1..]
  {
    a[..i] + a[i + 1..live] + a[live - 1..]
  }

  // The range loop of bucketDone over queue q, with i places visited: the
  // array now, and the length of the queue now.
  predicate Swept(q: seq<Bytes>, b: Bytes, a: seq<Bytes>, live: nat, i: nat) {
    && |a| == |q| && live <= |q| && i <= |q|
    && (forall j :: i <= j < |q| && live - 1 <= j ==> a[j] == q[|q| - 1])
    && Without(a[..live], b) == Without(q, b)
    && (live == |q| ==> a == q && b !in q[..i])
    && (live < |q| ==> b in q[..i])
    && (i == |q| ==> !Overruns(q, b))
    && (NoDuplicates(q) && live < |q| ==> b !in a[..live] && (i == |q| || q[|q| - 1] != b))
  }

  lemma SweepStarts(q: seq<Bytes>, b: Bytes)
    ensures Swept(q, b, q, |q|, 0)
  {
    assert q[..|q|] == q;
  }

  lemma SweepPasses(q: seq<Bytes>, b: Bytes, a: seq<Bytes>, live: nat, i: nat)
    requires Swept(q, b, a, live, i) && i < |q| && a[i] != b
    ensures Swept(q, b, a, live, i + 1)
  {
    hide Without;
    assert q[..i + 1] == q[..i] + [q[i]];
  }

  lemma SweepDeletes(q: seq<Bytes>, b: Bytes, a: seq<Bytes>, live: nat, i: nat)
    requires Swept(q, b, a, live, i) && i < |q| && a[i] == b && i < live
    ensures Swept(q, b, Shifted(a, live, i), live - 1, i + 1)
  {
    hide Without;
    var l := a[..live];
    assert l == l[..i] + [b] + l[i + 1..];
    WithoutDeleted(l[..i], b, l[i + 1..]);
    assert q[..i + 1] == q[..i] + [q[i]];
  }

  lemma SweepOverruns(q: seq<Bytes>, b: Bytes, a: seq<Bytes>, live: nat, i: nat)
    requires Swept(q, b, a, live, i) && i < |q| && a[i] == b && live <= i
    ensures Overruns(q, b) && !NoDuplicates(q)
  {
    hide Without;
    var j :| 0 <= j < i && q[j] == b;
    assert q[..|q| - 1][j] == b;
  }

  lemma SweepEnds(q: seq<Bytes>, b: Bytes, a: seq<Bytes>, live: nat)
    requires Swept(q, b, a, live, |q|)
    ensures !Overruns(q, b) && Without(a[..live], b) == Without(q, b)
    ensures NoDuplicates(q) ==> a[..live] == Without(q, b)
  {
    WithoutAbsent(a[..live], b);
    assert q[..|q|] == q && a[..|q|] == a;
  }

  // The buckets that are not in the healed list, in order.
  function Unhealed(buckets: seq<Bytes>, healed: seq<Bytes>): seq<Bytes> {
    if buckets == [] then []
    else
      Unhealed(buckets[..|buckets| - 1], healed)
      + if buckets[|buckets| - 1] in healed then [] else [buckets[|buckets| - 1]]
  }

  // ----- progress -----

  datatype Counts = Counts(healed: uint64, failed: uint64, bytesDone: uint64, bytesFailed: uint64)

  const ZERO: Counts := Counts(0, 0, 0, 0)

  // Go's uint64 addition wraps around.
  function Plus(a: uint64, b: uint64): uint64 { if a + b < TWO64 then a + b else a + b - TWO64 }

  function Add(a: Counts, b: Counts): Counts {
    Counts(Plus(a.healed, b.healed), Plus(a.failed, b.failed),
           Plus(a.bytesDone, b.bytesDone), Plus(a.bytesFailed, b.bytesFailed))
  }

  // What healing one version adds.
  function OfVersion(ok: bool, size: uint64): Counts {
    if ok then Counts(1, 0, size, 0) else Counts(0, 1, 0, size)
  }

  // The part of a tracker that a heal moves along.
  datatype Progress = Progress(cur: Counts, base: Counts, bucket: Bytes, queued: seq<Bytes>, healed: seq<Bytes>)

  // The head of healErasureSet's loop body: going on with another bucket
  // than the one interrupted resets the counters.
  function BeginBucket(t: Progress, b: Bytes): Progress {
    (if t.bucket != [] && t.bucket != b then t.(cur := t.base) else t).(bucket := b)
  }

  function CountVersion(t: Progress, ok: bool, size: uint64): Progress {
    t.(cur := Add(t.cur, OfVersion(ok, size)))
  }

  // bucketDone on a queue without duplicates.
  function CloseBucket(t: Progress): Progress {
    t.(base := t.cur, healed := t.healed + [t.bucket], queued := Without(t.queued, t.bucket))
  }

  class HealingTracker {
    var id: Bytes
    var poolIndex: int64
    var setIndex: int64
    var diskIndex: int64
    var path: Bytes
    var endpoint: Bytes
    var started: Time
    var lastUpdate: Time
    var objectsHealed: uint64
    var objectsFailed: uint64
    var bytesDone: uint64
    var bytesFailed: uint64
    var bucket: Bytes
    var objectName: Bytes
    var resumeObjectsHealed: uint64
    var resumeObjectsFailed: uint64
    var resumeBytesDone: uint64
    var resumeBytesFailed: uint64
    var queuedBuckets: seq<Bytes>
    var healedBuckets: seq<Bytes>

    ghost function Get(f: Field): Value
      reads this
    {
      match f
      case FID => VStr(id)
      case FPoolIndex => VInt(poolIndex)
      case FSetIndex => VInt(setIndex)
      case FDiskIndex => VInt(diskIndex)
      case FPath => VStr(path)
      case FEndpoint => VStr(endpoint)
      case FStarted => VTime(started.sec, started.nsec)
      case FLastUpdate => VTime(lastUpdate.sec, lastUpdate.nsec)
      case FObjectsHealed => VUint(objectsHealed)
      case FObjectsFailed => VUint(objectsFailed)
      case FBytesDone => VUint(bytesDone)
      case FBytesFailed => VUint(bytesFailed)
      case FBucket => VStr(bucket)
      case FObject => VStr(objectName)
      case FResumeObjectsHealed => VUint(resumeObjectsHealed)
      case FResumeObjectsFailed => VUint(resumeObjectsFailed)
      case FResumeBytesDone => VUint(resumeBytesDone)
      case FResumeBytesFailed => VUint(resumeBytesFailed)
      case FQueuedBuckets => VStrs(queuedBuckets)
      case FHealedBuckets => VStrs(healedBuckets)
    }

    // The struct's contents, field by field.
    ghost function View(): (z: map<Field, Value>)
      reads this
      ensures forall f :: f in z && z[f] == Get(f)
    {
      map f: Field | true :: Get(f)
    }

    ghost function Encoded(k: nat): Bytes
      requires k <= 20
      reads this
    {
      LayoutSound();
      Written(TrackerLayout(), View(), k)
    }

    lemma Start(b: Bytes)
      ensures b + Encoded(0) == b + EncMapHead(20)
    {
      hide Written, EncMapHead, Get;
      LayoutSound();
      WrittenNone(TrackerLayout(), View());
    }

    lemma Next(f: Field, b: Bytes)
      ensures Position(f) < 20
      ensures b + Encoded(Position(f) + 1)
           == b + Encoded(Position(f)) + EncStr(Ascii(Name(f))) + EncValue(KindOf(f), Get(f))
    {
      hide Written, EncStr, EncValue, Ascii, Get, KindOf, Name, Parse, Position;
      LayoutSound();
      FieldAt(f);
      WrittenNext(TrackerLayout(), View(), Position(f), b);
    }

    /** Appends the twenty fields in order, each behind its name.  The
        straight line of appends is cut in four. */
    method MarshalMsg(b: Bytes) returns (o: Bytes)
      ensures o == b + Encoded(20)
    {
      hide EncStr, EncStrs, EncArrHead, Encoded, Ascii;
      o := MarshalIdentity(b);
      o := MarshalProgress(b, o);
      o := MarshalResume(b, o);
      o := o + EncStr(Ascii("QueuedBuckets"));
      o := AppendStrings(o, queuedBuckets);
      Next(FQueuedBuckets, b);
      o := o + EncStr(Ascii("HealedBuckets"));
      o := AppendStrings(o, healedBuckets);
      Next(FHealedBuckets, b);
    }

    method MarshalIdentity(b: Bytes) returns (o: Bytes)
      ensures o == b + Encoded(8)
    {
      hide EncStr, EncUint, EncInt, EncTime, EncStrs, EncArrHead, EncMapHead, Encoded, Ascii;
      Start(b);
      o := b + EncMapHead(20);
      o := o + EncStr(Ascii("ID"));
      o := o + EncStr(id);
      Next(FID, b);
      o := o + EncStr(Ascii("PoolIndex"));
      o := o + EncInt(poolIndex);
      Next(FPoolIndex, b);
      o := o + EncStr(Ascii("SetIndex"));
      o := o + EncInt(setIndex);
      Next(FSetIndex, b);
      o := o + EncStr(Ascii("DiskIndex"));
      o := o + EncInt(diskIndex);
      Next(FDiskIndex, b);
      o := o + EncStr(Ascii("Path"));
      o := o + EncStr(path);
      Next(FPath, b);
      o := o + EncStr(Ascii("Endpoint"));
      o := o + EncStr(endpoint);
      Next(FEndpoint, b);
      o := o + EncStr(Ascii("Started"));
      o := o + EncTime(started.sec, started.nsec);
      Next(FStarted, b);
      o := o + EncStr(Ascii("LastUpdate"));
      o := o + EncTime(lastUpdate.sec, lastUpdate.nsec);
      Next(FLastUpdate, b);
    }

    method MarshalProgress(ghost b: Bytes, o0: Bytes) returns (o: Bytes)
      requires o0 == b + Encoded(8)
      ensures o == b + Encoded(14)
    {
      hide EncStr, EncUint, Encoded, Ascii;
      o := o0;
      o := o + EncStr(Ascii("ObjectsHealed"));
      o := o + EncUint(objectsHealed);
      Next(FObjectsHealed, b);
      o := o + EncStr(Ascii("ObjectsFailed"));
      o := o + EncUint(objectsFailed);
      Next(FObjectsFailed, b);
      o := o + EncStr(Ascii("BytesDone"));
      o := o + EncUint(bytesDone);
      Next(FBytesDone, b);
      o := o + EncStr(Ascii("BytesFailed"));
      o := o + EncUint(bytesFailed);
      Next(FBytesFailed, b);
      o := o + EncStr(Ascii("Bucket"));
      o := o + EncStr(bucket);
      Next(FBucket, b);
      o := o + EncStr(Ascii("Object"));
      o := o + EncStr(objectName);
      Next(FObject, b);
    }

    method MarshalResume(ghost b: Bytes, o0: Bytes) returns (o: Bytes)
      requires o0 == b + Encoded(14)
      ensures o == b + Encoded(18)
    {
      hide EncStr, EncUint, Encoded, Ascii;
      o := o0;
      o := o + EncStr(Ascii("ResumeObjectsHealed"));
      o := o + EncUint(resumeObjectsHealed);
      Next(FResumeObjectsHealed, b);
      o := o + EncStr(Ascii("ResumeObjectsFailed"));
      o := o + EncUint(resumeObjectsFailed);
      Next(FResumeObjectsFailed, b);
      o := o + EncStr(Ascii("ResumeBytesDone"));
      o := o + EncUint(resumeBytesDone);
      Next(FResumeBytesDone, b);
      o := o + EncStr(Ascii("ResumeBytesFailed"));
      o := o + EncUint(resumeBytesFailed);
      Next(FResumeBytesFailed, b);
    }

    // The switch of UnmarshalMsg, with the fields of a kind together.
    method UnmarshalField(f: Field, bts: Bytes) returns (r: Option<Bytes>)
      modifies this
      ensures
        match ReadValue(KindOf(f), bts)
        case None => r.None?
        case Some((v, rest)) => r == Some(rest) && forall g :: Get(g) == if g == f then v else old(Get(g))
    {
      hide ReadValue, Get;
      match f {
        case FObjectsHealed | FObjectsFailed | FBytesDone | FBytesFailed => r := UnmarshalCounter(f, bts);
        case FResumeObjectsHealed | FResumeObjectsFailed | FResumeBytesDone | FResumeBytesFailed =>
          r := UnmarshalResume(f, bts);
        case FID | FPath | FEndpoint | FBucket | FObject => r := UnmarshalText(f, bts);
        case FPoolIndex | FSetIndex | FDiskIndex | FStarted | FLastUpdate => r := UnmarshalIndexOrTime(f, bts);
        case FQueuedBuckets | FHealedBuckets => r := UnmarshalBuckets(f, bts);
      }
    }

    method UnmarshalCounter(f: Field, bts: Bytes) returns (r: Option<Bytes>)
      requires f in [FObjectsHealed, FObjectsFailed, FBytesDone, FBytesFailed]
      modifies this
      ensures
        match ReadValue(KindOf(f), bts)
        case None => r.None?
        case Some((v, rest)) => r == Some(rest) && forall g :: Get(g) == if g == f then v else old(Get(g))
    {
      hide ReadUint;
      match f {
        case FObjectsHealed => var d :- ReadUint(bts); objectsHealed, r := d.0, Some(d.1);
        case FObjectsFailed => var d :- ReadUint(bts); objectsFailed, r := d.0, Some(d.1);
        case FBytesDone => var d :- ReadUint(bts); bytesDone, r := d.0, Some(d.1);
        case FBytesFailed => var d :- ReadUint(bts); bytesFailed, r := d.0, Some(d.1);
      }
    }

    method UnmarshalResume(f: Field, bts: Bytes) returns (r: Option<Bytes>)
      requires f in [FResumeObjectsHealed, FResumeObjectsFailed, FResumeBytesDone, FResumeBytesFailed]
      modifies this
      ensures
        match ReadValue(KindOf(f), bts)
        case None => r.None?
        case Some((v, rest)) => r == Some(rest) && forall g :: Get(g) == if g == f then v else old(Get(g))
    {
      hide ReadUint;
      match f {
        case FResumeObjectsHealed => var d :- ReadUint(bts); resumeObjectsHealed, r := d.0, Some(d.1);
        case FResumeObjectsFailed => var d :- ReadUint(bts); resumeObjectsFailed, r := d.0, Some(d.1);
        case FResumeBytesDone => var d :- ReadUint(bts); resumeBytesDone, r := d.0, Some(d.1);
        case FResumeBytesFailed => var d :- ReadUint(bts); resumeBytesFailed, r := d.0, Some(d.1);
      }
    }

    method UnmarshalText(f: Field, bts: Bytes) returns (r: Option<Bytes>)
      requires KindOf(f) == KindStr
      modifies this
      ensures
        match ReadValue(KindOf(f), bts)
        case None => r.None?
        case Some((v, rest)) => r == Some(rest) && forall g :: Get(g) == if g == f then v else old(Get(g))
    {
      hide ReadStr;
      match f {
        case FID => var d :- ReadStr(bts); id, r := d.0, Some(d.1);
        case FPath => var d :- ReadStr(bts); path, r := d.0, Some(d.1);
        case FEndpoint => var d :- ReadStr(bts); endpoint, r := d.0, Some(d.1);
        case FBucket => var d :- ReadStr(bts); bucket, r := d.0, Some(d.1);
        case FObject => var d :- ReadStr(bts); objectName, r := d.0, Some(d.1);
      }
    }

    method UnmarshalIndexOrTime(f: Field, bts: Bytes) returns (r: Option<Bytes>)
      requires KindOf(f) == KindInt || KindOf(f) == KindTime
      modifies this
      ensures
        match ReadValue(KindOf(f), bts)
        case None => r.None?
        case Some((v, rest)) => r == Some(rest) && forall g :: Get(g) == if g == f then v else old(Get(g))
    {
      hide ReadInt, ReadTime;
      match f {
        case FPoolIndex => var d :- ReadInt(bts); poolIndex, r := d.0, Some(d.1);
        case FSetIndex => var d :- ReadInt(bts); setIndex, r := d.0, Some(d.1);
        case FDiskIndex => var d :- ReadInt(bts); diskIndex, r := d.0, Some(d.1);
        case FStarted => var d :- ReadTime(bts); started, r := Time(d.0, d.1), Some(d.2);
        case FLastUpdate => var d :- ReadTime(bts); lastUpdate, r := Time(d.0, d.1), Some(d.2);
      }
    }

    method UnmarshalBuckets(f: Field, bts: Bytes) returns (r: Option<Bytes>)
      requires KindOf(f) == KindStrs
      modifies this
      ensures
        match ReadValue(KindOf(f), bts)
        case None => r.None?
        case Some((v, rest)) => r == Some(rest) && forall g :: Get(g) == if g == f then v else old(Get(g))
    {
      hide ReadList;
      match f {
        case FQueuedBuckets => var l := UnmarshalStrings(bts); var d :- l; queuedBuckets, r := d.0, Some(d.1);
        case FHealedBuckets => var l := UnmarshalStrings(bts); var d :- l; healedBuckets, r := d.0, Some(d.1);
      }
    }

    // One turn of the decode loop.
    method UnmarshalEntry(bts: Bytes) returns (r: Option<Bytes>)
      modifies this
      ensures
        match ReadEntry(SchemaOf(TrackerLayout()), bts)
        case None => r.None?
        case Some((a, rest)) => r == Some(rest) && View() == Assigned(old(View()), a)
    {
      hide ReadKey, Skip, ReadValue, FromAscii, Parse, Get, KindOf;
      var k :- ReadKey(bts);
      match Parse(FromAscii(k.0)) {
        case Some(f) =>
          r := UnmarshalField(f, k.1);
        case None =>
          r := Skip(k.1);
      }
    }

    /** The decode loop carries out exactly the assignments the input asks
        for, and returns what is left of it. */
    method UnmarshalMsg(bts: Bytes) returns (o: Option<Bytes>)
      modifies this
      ensures
        match Decode(SchemaOf(TrackerLayout()), bts)
        case None => o.None?
        case Some((log, rest)) => o == Some(rest) && View() == Assign(old(View()), log)
    {
      hide ReadEntry, ReadMapHead, SchemaOf, Get;
      ghost var c, before, log := SchemaOf(TrackerLayout()), View(), [];
      var h :- ReadMapHead(bts);
      var zb, left := h.0, h.1;
      PrependPrepend(log, log, ReadEntries(c, zb, left));
      while zb > 0
        invariant ReadEntries(c, h.0, h.1) == Prepend(log, ReadEntries(c, zb, left))
        invariant View() == Assign(before, log)
      {
        ghost var e := ReadEntry(c, left);
        LoopTurn(c, log, zb, left, before);
        zb := zb - 1;
        left :- UnmarshalEntry(left);
        log := log + Logged(e.value.0);
      }
      LoopEnds(c, log, left);
      o := Some(left);
    }

    lemma Grows(f: Field)
      ensures Position(f) < 20
      ensures |Encoded(Position(f) + 1)|
           <= |Encoded(Position(f))| + 1 + |Name(f)| + MaxSize(KindOf(f), Get(f))
    {
      hide Written, EncValue, Get, KindOf, Name, Parse, Position, MaxSize;
      LayoutSound();
      FieldAt(f);
      WrittenSize(TrackerLayout(), View(), Position(f));
    }

    lemma IdentitySize()
      ensures |Encoded(8)| <= 3 + 3 + 5 + |id| + 10 + 9 + 9 + 9 + 10 + 9
        + 5 + 5 + |path| + 9 + 5 + |endpoint| + 8 + 15 + 11 + 15
    {
      hide Encoded;
      Start([]);
      Grows(FID); Grows(FPoolIndex); Grows(FSetIndex); Grows(FDiskIndex);
      Grows(FPath); Grows(FEndpoint); Grows(FStarted); Grows(FLastUpdate);
    }

    lemma ProgressSize()
      ensures |Encoded(14)| <= |Encoded(8)| + 14 + 9 + 14 + 9 + 10 + 9 + 12 + 9
        + 7 + 5 + |bucket| + 7 + 5 + |objectName|
    {
      hide Encoded;
      Grows(FObjectsHealed); Grows(FObjectsFailed); Grows(FBytesDone); Grows(FBytesFailed);
      Grows(FBucket); Grows(FObject);
    }

    lemma ResumeSize()
      ensures |Encoded(18)| <= |Encoded(14)| + 20 + 9 + 20 + 9 + 16 + 9 + 18 + 9
      ensures |Encoded(20)| <= |Encoded(18)| + 14 + 5 + StrsSize(queuedBuckets) + 14 + 5 + StrsSize(healedBuckets)
    {
      hide Encoded, StrsSize;
      Grows(FResumeObjectsHealed); Grows(FResumeObjectsFailed);
      Grows(FResumeBytesDone); Grows(FResumeBytesFailed);
      Grows(FQueuedBuckets); Grows(FHealedBuckets);
    }

    /** The encoding never exceeds Msgsize. */
    method Msgsize() returns (s: nat)
      ensures |Encoded(20)| <= s
    {
      hide Encoded;
      s := 3 + 3 + PREFIX_SIZE + |id| + 10 + INT_SIZE + 9 + INT_SIZE + 10 + INT_SIZE + 5 + PREFIX_SIZE + |path|
        + 9 + PREFIX_SIZE + |endpoint| + 8 + TIME_SIZE + 11 + TIME_SIZE + 14 + INT_SIZE + 14 + INT_SIZE
        + 10 + INT_SIZE + 12 + INT_SIZE + 7 + PREFIX_SIZE + |bucket| + 7 + PREFIX_SIZE + |objectName|
        + 20 + INT_SIZE + 20 + INT_SIZE + 16 + INT_SIZE + 18 + INT_SIZE + 14 + PREFIX_SIZE;
      ghost var fixed := s;
      for i := 0 to |queuedBuckets|
        invariant s == fixed + StrsSize(queuedBuckets[..i])
      {
        assert queuedBuckets[..i + 1][..i] == queuedBuckets[..i];
        s := s + PREFIX_SIZE + |queuedBuckets[i]|;
      }
      assert queuedBuckets[..|queuedBuckets|] == queuedBuckets;
      s := s + 14 + PREFIX_SIZE;
      for i := 0 to |healedBuckets|
        invariant s == fixed + StrsSize(queuedBuckets) + 14 + PREFIX_SIZE + StrsSize(healedBuckets[..i])
      {
        assert healedBuckets[..i + 1][..i] == healedBuckets[..i];
        s := s + PREFIX_SIZE + |healedBuckets[i]|;
      }
      assert healedBuckets[..|healedBuckets|] == healedBuckets;
      IdentitySize();
      ProgressSize();
      ResumeSize();
    }

    constructor ()
      ensures View() == ZeroView()
    {
      id := [];
      poolIndex := 0;
      setIndex := 0;
      diskIndex := 0;
      path := [];
      endpoint := [];
      started := ZERO_TIME;
      lastUpdate := ZERO_TIME;
      objectsHealed := 0;
      objectsFailed := 0;
      bytesDone := 0;
      bytesFailed := 0;
      bucket := [];
      objectName := [];
      resumeObjectsHealed := 0;
      resumeObjectsFailed := 0;
      resumeBytesDone := 0;
      resumeBytesFailed := 0;
      queuedBuckets := [];
      healedBuckets := [];
    }

    // ----- the tracker file -----

    /** save: the file holds exactly the tracker, stamped; a location that is
        still unknown is looked up first. */
    method Save(now: Time, location: Option<(int64, int64, int64)>) returns (file: Bytes)
      modifies this`poolIndex, this`setIndex, this`diskIndex, this`lastUpdate
      ensures file == Encoded(20)
      ensures lastUpdate == now
      ensures (poolIndex, setIndex, diskIndex) ==
        if location.Some? && (old(poolIndex) < 0 || old(setIndex) < 0 || old(diskIndex) < 0)
        then location.value else old((poolIndex, setIndex, diskIndex))
    {
      hide Encoded;
      if poolIndex < 0 || setIndex < 0 || diskIndex < 0 {
        if location.Some? {
          poolIndex, setIndex, diskIndex := location.value.0, location.value.1, location.value.2;
        }
      }
      lastUpdate := now;
      file := MarshalMsg([]);
      assert [] + Encoded(20) == Encoded(20);
    }

    /** loadHealingTracker on the file's content, if it could be read. */
    static method LoadHealingTracker(file: Option<Bytes>, diskID: Bytes) returns (r: Option<HealingTracker>)
      ensures r.Some? <==> file.Some? && Loaded(file.value, diskID).Some?
      ensures r.Some? ==> fresh(r.value) && r.value.View() == Loaded(file.value, diskID).value
    {
      hide Decode, SchemaOf, Assign;
      if file.None? {
        return None;
      }
      var h := new HealingTracker();
      assert h.View() == ZeroView();
      var rest := h.UnmarshalMsg(file.value);
      if rest.None? {
        return None;
      }
      ghost var z := h.View();
      h.IDView();
      if h.id != diskID && h.id != [] {
        return None;
      }
      h.SetID(diskID);
      r := Some(h);
    }

    lemma IDView()
      ensures FID in View() && View()[FID] == VStr(id)
    {
    }

    method SetID(diskID: Bytes)
      modifies this`id
      ensures View() == old(View())[FID := VStr(diskID)]
    {
      id := diskID;
    }

    // ----- progress -----

    function Counters(): Counts
      reads this
    {
      Counts(objectsHealed, objectsFailed, bytesDone, bytesFailed)
    }

    function ResumeCounters(): Counts
      reads this
    {
      Counts(resumeObjectsHealed, resumeObjectsFailed, resumeBytesDone, resumeBytesFailed)
    }

    function GetProgress(): Progress
      reads this
    {
      Progress(Counters(), ResumeCounters(), bucket, queuedBuckets, healedBuckets)
    }

    /** healErasureSet coming to a bucket that is not healed yet. */
    method StartBucket(name: Bytes) returns (forwardTo: Bytes)
      modifies this
      ensures GetProgress() == BeginBucket(old(GetProgress()), name) && objectName == []
      ensures forwardTo == if old(bucket) == name then name else []
      ensures bucket == name && queuedBuckets == old(queuedBuckets) && healedBuckets == old(healedBuckets)
      ensures ResumeCounters() == old(ResumeCounters())
      ensures Counters() == if old(bucket) == [] || old(bucket) == name then old(Counters()) else old(ResumeCounters())
    {
      forwardTo := [];
      if bucket != [] {
        if bucket == name {
          forwardTo := bucket;
        } else {
          Resume();
        }
      }
      objectName := [];
      bucket := name;
    }

    /** healErasureSet after one version: healed, or failed for another reason
        than being gone. */
    method VersionHealed(ok: bool, size: uint64)
      modifies this`objectsHealed, this`objectsFailed, this`bytesDone, this`bytesFailed
      ensures GetProgress() == CountVersion(old(GetProgress()), ok, size)
      ensures ok ==>
        && objectsHealed == (old(objectsHealed) + 1) % TWO64 && bytesDone == (old(bytesDone) + size) % TWO64
        && objectsFailed == old(objectsFailed) && bytesFailed == old(bytesFailed)
      ensures !ok ==>
        && objectsFailed == (old(objectsFailed) + 1) % TWO64 && bytesFailed == (old(bytesFailed) + size) % TWO64
        && objectsHealed == old(objectsHealed) && bytesDone == old(bytesDone)
    {
      if ok {
        objectsHealed := Plus(objectsHealed, 1);
        bytesDone := Plus(bytesDone, size);
      } else {
        objectsFailed := Plus(objectsFailed, 1);
        bytesFailed := Plus(bytesFailed, size);
      }
    }

    method IsHealed(name: Bytes) returns (r: bool)
      ensures r <==> name in healedBuckets
    {
      for i := 0 to |healedBuckets|
        invariant name !in healedBuckets[..i]
      {
        if healedBuckets[i] == name {
          return true;
        }
      }
      return false;
    }

    method Resume()
      modifies this`objectsHealed, this`objectsFailed, this`bytesDone, this`bytesFailed
      ensures Counters() == old(ResumeCounters())
      ensures objectsHealed == resumeObjectsHealed && objectsFailed == resumeObjectsFailed
      ensures bytesDone == resumeBytesDone && bytesFailed == resumeBytesFailed
    {
      objectsHealed := resumeObjectsHealed;
      objectsFailed := resumeObjectsFailed;
      bytesDone := resumeBytesDone;
      bytesFailed := resumeBytesFailed;
    }

    /** The counters become the point to resume from and the bucket is healed.
        The queue is edited in place while it is ranged over: that runs out of
        range exactly when the bucket is queued last and once more before;
        otherwise only copies of the bucket go, and all of them do if the
        queue had no duplicates. */
    method BucketDone(name: Bytes) returns (panics: bool)
      modifies this`resumeObjectsHealed, this`resumeObjectsFailed, this`resumeBytesDone, this`resumeBytesFailed,
        this`queuedBuckets, this`healedBuckets
      ensures ResumeCounters() == Counters()
      ensures resumeObjectsHealed == objectsHealed && resumeObjectsFailed == objectsFailed
      ensures resumeBytesDone == bytesDone && resumeBytesFailed == bytesFailed
      ensures healedBuckets == old(healedBuckets) + [name]
      ensures panics <==> Overruns(old(queuedBuckets), name)
      ensures !panics ==> Without(queuedBuckets, name) == Without(old(queuedBuckets), name)
      ensures NoDuplicates(old(queuedBuckets)) ==> !panics && queuedBuckets == Without(old(queuedBuckets), name)
      ensures NoDuplicates(old(queuedBuckets)) && name == bucket ==> GetProgress() == CloseBucket(old(GetProgress()))
    {
      resumeObjectsHealed := objectsHealed;
      resumeObjectsFailed := objectsFailed;
      resumeBytesDone := bytesDone;
      resumeBytesFailed := bytesFailed;
      healedBuckets := healedBuckets + [name];
      panics := DeleteInRange(name);
    }

    // The range loop of bucketDone.
    method DeleteInRange(name: Bytes) returns (panics: bool)
      modifies this`queuedBuckets
      ensures panics <==> Overruns(old(queuedBuckets), name)
      ensures !panics ==> Without(queuedBuckets, name) == Without(old(queuedBuckets), name)
      ensures NoDuplicates(old(queuedBuckets)) ==> !panics && queuedBuckets == Without(old(queuedBuckets), name)
    {
      hide Swept, Without, Overruns, NoDuplicates;
      var q, n := queuedBuckets, |queuedBuckets|;
      // The range sees the array behind the queue as it was sliced at first.
      var backing := new Bytes[n](i requires 0 <= i < |q| => q[i]);
      var live := n;
      assert backing[..] == q;
      SweepStarts(q, name);
      for i := 0 to n
        invariant 0 <= live <= n && queuedBuckets == backing[..live]
        invariant Swept(q, name, backing[..], live, i)
      {
        if backing[i] == name {
          if i + 1 > live {
            SweepOverruns(q, name, backing[..], live, i);
            return true;
          }
          SweepDeletes(q, name, backing[..], live, i);
          queuedBuckets := Shift(backing, live, i);
          live := live - 1;
        } else {
          SweepPasses(q, name, backing[..], live, i);
        }
      }
      SweepEnds(q, name, backing[..], live);
      assert backing[..][..live] == backing[..live];
      panics := false;
    }

    // append(q[:i], q[i+1:]...) on the array behind q.
    static method Shift(a: array<Bytes>, live: nat, i: nat) returns (q: seq<Bytes>)
      requires i < live <= a.Length
      modifies a
      ensures a[..] == Shifted(old(a[..]), live, i) && q == a[..live - 1]
    {
      forall j | i <= j < live - 1 {
        a[j] := a[j + 1];
      }
      q := a[..live - 1];
      assert a[..] == Shifted(old(a[..]), live, i);
    }

    /** The queue becomes the buckets still to heal, in the order given. */
    method SetQueuedBuckets(buckets: seq<Bytes>)
      modifies this`queuedBuckets
      ensures queuedBuckets == Unhealed(buckets, healedBuckets)
    {
      queuedBuckets := [];
      for i := 0 to |buckets|
        invariant queuedBuckets == Unhealed(buckets[..i], healedBuckets)
      {
        assert buckets[..i + 1][..i] == buckets[..i];
        if buckets[i] !in healedBuckets {
          queuedBuckets := queuedBuckets + [buckets[i]];
        }
      }
      assert buckets[..|buckets|] == buckets;
    }
  }
}

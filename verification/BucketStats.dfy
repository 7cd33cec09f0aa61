/** The replication counters of a bucket and their codec. */
module BucketStats {
  import opened Base
  import opened MessagePack
  import opened MessagePackValues
  import opened MessagePackMap
  import opened MessagePackStruct

  // ----- BucketReplicationStats -----

  datatype RepField = PendingSize | ReplicatedSize | ReplicaSize | FailedSize | PendingCount | FailedCount

  function RepName(f: RepField): string {
    match f
    case PendingSize => "PendingSize"
    case ReplicatedSize => "ReplicatedSize"
    case ReplicaSize => "ReplicaSize"
    case FailedSize => "FailedSize"
    case PendingCount => "PendingCount"
    case FailedCount => "FailedCount"
  }

  function RepParse(s: string): Option<RepField> {
    match s
    case "PendingSize" => Some(PendingSize)
    case "ReplicatedSize" => Some(ReplicatedSize)
    case "ReplicaSize" => Some(ReplicaSize)
    case "FailedSize" => Some(FailedSize)
    case "PendingCount" => Some(PendingCount)
    case "FailedCount" => Some(FailedCount)
    case _ => None
  }

  function RepKind(f: RepField): Kind { KindUint }

  const REP_FIELDS: seq<RepField> :=
    [PendingSize, ReplicatedSize, ReplicaSize, FailedSize, PendingCount, FailedCount]

  function RepLayout(): Layout<RepField> { Layout(RepParse, RepName, RepKind, REP_FIELDS) }

  lemma RepNameParses(f: RepField)
    ensures RepParse(RepName(f)) == Some(f)
  {
  }

  lemma RepSound()
    ensures Sound(RepLayout())
  {
    hide RepParse;
    forall f: RepField ensures ShortAscii(RepName(f)) && RepParse(RepName(f)) == Some(f) && f in REP_FIELDS {
      RepNameParses(f);
      var fs := REP_FIELDS;
      assert f in [fs[0], fs[1], fs[2], fs[3], fs[4], fs[5]];
    }
  }

  class BucketReplicationStats {
    var pendingSize: uint64
    var replicatedSize: uint64
    var replicaSize: uint64
    var failedSize: uint64
    var pendingCount: uint64
    var failedCount: uint64

    ghost function Get(f: RepField): (v: Value)
      reads this
    {
      match f
      case PendingSize => VUint(pendingSize)
      case ReplicatedSize => VUint(replicatedSize)
      case ReplicaSize => VUint(replicaSize)
      case FailedSize => VUint(failedSize)
      case PendingCount => VUint(pendingCount)
      case FailedCount => VUint(failedCount)
    }

    // The struct's contents, field by field.
    ghost function View(): (z: map<RepField, Value>)
      reads this
      ensures forall f :: f in z && z[f] == Get(f)
    {
      map f: RepField | true :: Get(f)
    }

    lemma ViewWritable()
      ensures Writable(RepLayout(), View())
    {
      RepSound();
    }

    ghost function Encoded(k: nat): Bytes
      requires k <= 6
      reads this
    {
      ViewWritable();
      Written(RepLayout(), View(), k)
    }

    lemma Next(k: nat, b: Bytes)
      requires k < 6
      ensures b + Encoded(k + 1)
           == b + Encoded(k) + EncStr(Ascii(RepName(REP_FIELDS[k]))) + EncValue(KindUint, Get(REP_FIELDS[k]))
    {
      hide Written, EncStr, EncValue, Ascii;
      ViewWritable();
      WrittenNext(RepLayout(), View(), k, b);
    }

    /** Appends the six fields in order, each behind its name. */
    method MarshalMsg(b: Bytes) returns (o: Bytes)
      ensures o == b + Encoded(6)
    {
      hide EncStr, EncUint, Encoded, Ascii;
      o := b + EncMapHead(6);
      Start(b);
      o := o + EncStr(Ascii("PendingSize"));
      o := o + EncUint(pendingSize);
      Next(0, b);
      o := o + EncStr(Ascii("ReplicatedSize"));
      o := o + EncUint(replicatedSize);
      Next(1, b);
      o := o + EncStr(Ascii("ReplicaSize"));
      o := o + EncUint(replicaSize);
      Next(2, b);
      o := o + EncStr(Ascii("FailedSize"));
      o := o + EncUint(failedSize);
      Next(3, b);
      o := o + EncStr(Ascii("PendingCount"));
      o := o + EncUint(pendingCount);
      Next(4, b);
      o := o + EncStr(Ascii("FailedCount"));
      o := o + EncUint(failedCount);
      Next(5, b);
    }

    lemma Start(b: Bytes)
      ensures b + Encoded(0) == b + EncMapHead(6)
    {
      hide Written, EncMapHead;
      ViewWritable();
      WrittenNone(RepLayout(), View());
    }

    function Msgsize(): nat {
      1 + 12 + INT_SIZE + 15 + INT_SIZE + 12 + INT_SIZE + 11 + INT_SIZE + 13 + INT_SIZE + 12 + INT_SIZE
    }

    lemma Grows(k: nat)
      requires k < 6
      ensures |Encoded(k + 1)| <= |Encoded(k)| + 1 + |RepName(REP_FIELDS[k])| + INT_SIZE
    {
      hide Written, EncValue;
      ViewWritable();
      WrittenSize(RepLayout(), View(), k);
    }

    /** The encoding never exceeds Msgsize. */
    lemma MsgsizeBounds()
      ensures |Encoded(6)| <= Msgsize()
    {
      hide Encoded;
      Start([]);
      Grows(0); Grows(1); Grows(2); Grows(3); Grows(4); Grows(5);
    }

    method UnmarshalField(f: RepField, bts: Bytes) returns (r: Option<Bytes>)
      modifies this
      ensures var d := ReadValue(KindUint, bts);
        match d
        case None => r.None?
        case Some((v, rest)) => r == Some(rest) && forall g :: Get(g) == if g == f then v else old(Get(g))
    {
      hide ReadUint;
      match f {
        case PendingSize => var d :- ReadUint(bts); pendingSize, r := d.0, Some(d.1);
        case ReplicatedSize => var d :- ReadUint(bts); replicatedSize, r := d.0, Some(d.1);
        case ReplicaSize => var d :- ReadUint(bts); replicaSize, r := d.0, Some(d.1);
        case FailedSize => var d :- ReadUint(bts); failedSize, r := d.0, Some(d.1);
        case PendingCount => var d :- ReadUint(bts); pendingCount, r := d.0, Some(d.1);
        case FailedCount => var d :- ReadUint(bts); failedCount, r := d.0, Some(d.1);
      }
    }

    // One turn of the decode loop.
    method UnmarshalEntry(bts: Bytes) returns (r: Option<Bytes>)
      modifies this
      ensures
        match ReadEntry(SchemaOf(RepLayout()), bts)
        case None => r.None?
        case Some((a, rest)) => r == Some(rest) && View() == Assigned(old(View()), a)
    {
      hide ReadKey, Skip, ReadValue, FromAscii, RepParse;
      var k :- ReadKey(bts);
      match RepParse(FromAscii(k.0)) {
        case Some(f) =>
          r := UnmarshalField(f, k.1);
        case None =>
          r := Skip(k.1);
      }
    }

    /** The decode loop carries out exactly the assignments the input asks
        for, and returns what is left of it. */
    method UnmarshalMsg(bts: Bytes) returns (o: Option<Bytes>)
      modifies this
      ensures
        match Decode(SchemaOf(RepLayout()), bts)
        case None => o.None?
        case Some((log, rest)) => o == Some(rest) && View() == Assign(old(View()), log)
    {
      hide ReadEntry, ReadMapHead, SchemaOf;
      ghost var c, before, log := SchemaOf(RepLayout()), View(), [];
      var h :- ReadMapHead(bts);
      var zb, left := h.0, h.1;
      PrependPrepend(log, log, ReadEntries(c, zb, left));
      while zb > 0
        invariant ReadEntries(c, h.0, h.1) == Prepend(log, ReadEntries(c, zb, left))
        invariant View() == Assign(before, log)
      {
        ghost var e := ReadEntry(c, left);
        LoopTurn(c, log, zb, left, before);
        zb := zb - 1;
        left :- UnmarshalEntry(left);
        log := log + Logged(e.value.0);
      }
      LoopEnds(c, log, left);
      o := Some(left);
    }
  }

  // ----- BucketStats: one field, itself such a map -----

  datatype StatsField = ReplicationStats

  const STATS_KEY: string := "ReplicationStats"

  type RepLog = seq<(RepField, Value)>

  function StatsParse(b: Bytes): Option<StatsField> {
    if FromAscii(b) == STATS_KEY then Some(ReplicationStats) else None
  }

  // The value of the nested field is the assignments its map makes.
  function StatsSchema(): Schema<StatsField, RepLog> {
    Schema(StatsParse, (f, b) => Decode(SchemaOf(RepLayout()), b))
  }

  // Decoding goes into the nested struct as it stands, map after map.
  function Nested(log: seq<(StatsField, RepLog)>): RepLog {
    if log == [] then [] else Nested(log[..|log| - 1]) + log[|log| - 1].1
  }

  class BucketStats {
    const replicationStats: BucketReplicationStats

    constructor (stats: BucketReplicationStats)
      ensures replicationStats == stats
    {
      replicationStats := stats;
    }

    method MarshalMsg(b: Bytes) returns (o: Bytes)
      ensures o == b + EncMapHead(1) + EncStr(Ascii(STATS_KEY)) + replicationStats.Encoded(6)
    {
      o := b + EncMapHead(1);
      o := o + EncStr(Ascii("ReplicationStats"));
      o := replicationStats.MarshalMsg(o);
    }

    function Msgsize(): nat { 1 + 17 + replicationStats.Msgsize() }

    lemma MsgsizeBounds()
      ensures |EncMapHead(1) + EncStr(Ascii(STATS_KEY)) + replicationStats.Encoded(6)| <= Msgsize()
    {
      replicationStats.MsgsizeBounds();
    }

    method UnmarshalEntry(bts: Bytes) returns (r: Option<Bytes>)
      modifies replicationStats
      ensures
        match ReadEntry(StatsSchema(), bts)
        case None => r.None?
        case Some((a, rest)) =>
          r == Some(rest) && replicationStats.View() == Assign(old(replicationStats.View()), Nested(Logged(a)))
    {
      hide ReadKey, Skip, Decode, FromAscii;
      var k :- ReadKey(bts);
      NestedOne(StatsParse(k.0), Decode(SchemaOf(RepLayout()), k.1));
      match StatsParse(k.0) {
        case Some(ReplicationStats) =>
          r := replicationStats.UnmarshalMsg(k.1);
        case None =>
          r := Skip(k.1);
      }
    }

    method UnmarshalMsg(bts: Bytes) returns (o: Option<Bytes>)
      modifies replicationStats
      ensures
        match Decode(StatsSchema(), bts)
        case None => o.None?
        case Some((log, rest)) =>
          o == Some(rest) && replicationStats.View() == Assign(old(replicationStats.View()), Nested(log))
    {
      hide ReadEntry, ReadMapHead, StatsSchema, ReadEntries, Prepend, Nested, Assign;
      ghost var c, before, log := StatsSchema(), replicationStats.View(), [];
      var h :- ReadMapHead(bts);
      var zb, left := h.0, h.1;
      PrependPrepend(log, log, ReadEntries(c, zb, left));
      NothingNested(before);
      while zb > 0
        invariant ReadEntries(c, h.0, h.1) == Prepend(log, ReadEntries(c, zb, left))
        invariant replicationStats.View() == Assign(before, Nested(log))
      {
        ghost var e := ReadEntry(c, left);
        LoopTurn(c, log, zb, left, map[]);
        zb := zb - 1;
        left :- UnmarshalEntry(left);
        NestedAppend(log, Logged(e.value.0));
        AssignAppend(before, Nested(log), Nested(Logged(e.value.0)));
        log := log + Logged(e.value.0);
      }
      LoopEnds(c, log, left);
      o := Some(left);
    }
  }

  lemma NothingNested(before: map<RepField, Value>)
    ensures Assign(before, Nested([])) == before
  {
  }

  lemma NestedOne(f: Option<StatsField>, d: Option<(RepLog, Bytes)>)
    ensures f.Some? && d.Some? ==> Nested(Logged(Some((f.value, d.value.0)))) == d.value.0
  {
    if f.Some? && d.Some? {
      assert [] + d.value.0 == d.value.0;
    }
  }

  lemma NestedAppend(l: seq<(StatsField, RepLog)>, m: seq<(StatsField, RepLog)>)
    requires |m| <= 1
    ensures Nested(l + m) == Nested(l) + Nested(m)
  {
    if m == [] {
      assert l + m == l;
      assert Nested(l) + [] == Nested(l);
    } else {
      assert (l + m)[..|l|] == l;
      assert Nested(m) == [] + m[0].1 == m[0].1;
    }
  }

  /** The nested map in any order with unknown keys, between any unknown keys
      of the outer map: the counters become z's, whatever they were. */
  lemma StatsAnyOrder(
      pre: seq<Entry<StatsField, RepLog>>, es: seq<Entry<RepField, Value>>, post: seq<Entry<StatsField, RepLog>>,
      z: map<RepField, Value>, before: map<RepField, Value>, more: Bytes)
    requires GoodEntries(StatsSchema(), pre) && GoodEntries(StatsSchema(), post)
    requires forall i :: 0 <= i < |pre| ==> pre[i].Unknown?
    requires forall i :: 0 <= i < |post| ==> post[i].Unknown?
    requires |pre| + 1 + |post| < TWO32
    requires GoodEntries(SchemaOf(RepLayout()), es) && |es| < TWO32 && Carries(es, z)
    requires before.Keys == z.Keys && forall f :: f in z ==> Mentions(es, f)
    ensures var d := Decode(StatsSchema(), EncMap(pre + [NestedEntry(es)] + post) + more);
      d.Some? && d.value.1 == more && Assign(before, Nested(d.value.0)) == z
  {
    hide Decode, EncMap, GoodEntry, Assign;
    var e := NestedEntry(es);
    NestedEntryGood(es);
    DecodeAnyOrder(StatsSchema(), pre + [e] + post, more);
    LogAround(pre, e, post);
    NestedOne(Some(ReplicationStats), Some((Log(es), more)));
    AssignsAll(es, z, before);
  }

  /** What BucketStats.MarshalMsg appends decodes to the same counters. */
  lemma StatsRoundTrip(z: map<RepField, Value>, before: map<RepField, Value>, more: Bytes)
    requires Writable(RepLayout(), z) && before.Keys == z.Keys
    ensures var d :=
        Decode(StatsSchema(), EncMapHead(1) + EncStr(Ascii(STATS_KEY)) + Written(RepLayout(), z, 6) + more);
      d.Some? && d.value.1 == more && Assign(before, Nested(d.value.0)) == z
  {
    hide Decode, SchemaOf, GoodEntry, Written, OwnEntries, EncStr, Assign, EncMapHead;
    OwnEntriesGood(RepLayout(), z);
    var es := OwnEntries(RepLayout(), z);
    var none: seq<Entry<StatsField, RepLog>> := [];
    assert GoodEntries(StatsSchema(), none);
    StatsAnyOrder(none, es, none, z, before, more);
    var e := NestedEntry(es);
    assert [] + [e] + [] == [e];
    var n, raw := EncStr(e.key), e.raw;
    assert Parts([e]) == [n + raw];
    assert Concat([n + raw]) == [] + (n + raw) == n + raw;
    assert EncMapHead(1) + (n + raw) == EncMapHead(1) + n + raw;
  }

  function NestedEntry(es: seq<Entry<RepField, Value>>): Entry<StatsField, RepLog> {
    Known(Ascii(STATS_KEY), EncMap(es), ReplicationStats, Log(es))
  }

  lemma NestedEntryGood(es: seq<Entry<RepField, Value>>)
    requires GoodEntries(SchemaOf(RepLayout()), es) && |es| < TWO32
    ensures GoodEntry(StatsSchema(), NestedEntry(es))
  {
    hide Decode, EncMap, GoodEntries, FromAscii;
    AsciiRoundTrip(STATS_KEY);
    forall more ensures Decode(SchemaOf(RepLayout()), EncMap(es) + more) == Some((Log(es), more)) {
      DecodeAnyOrder(SchemaOf(RepLayout()), es, more);
    }
  }

  lemma {:induction false} LogAround(
      pre: seq<Entry<StatsField, RepLog>>, e: Entry<StatsField, RepLog>, post: seq<Entry<StatsField, RepLog>>)
    requires forall i :: 0 <= i < |pre| ==> pre[i].Unknown?
    requires forall i :: 0 <= i < |post| ==> post[i].Unknown?
    ensures Log(pre + [e] + post) == Logged(Effect(e))
    decreases |pre| + |post|
  {
    var all := pre + [e] + post;
    if pre == [] {
      assert all[0] == e && all[1..] == post;
      LogOfUnknown(post);
    } else {
      assert all[1..] == pre[1..] + [e] + post;
      LogAround(pre[1..], e, post);
    }
  }

  lemma {:induction false} LogOfUnknown(es: seq<Entry<StatsField, RepLog>>)
    requires forall i :: 0 <= i < |es| ==> es[i].Unknown?
    ensures Log(es) == []
  {
    if es != [] {
      LogOfUnknown(es[1..]);
    }
  }
}

/** Structs as MessagePack maps: the decode loop of the generated UnmarshalMsg,
    which takes the fields in any order and skips the keys it does not know. */
module MessagePackMap {
  import opened Base
  import opened MessagePack
  import MessagePackGrammar
  import opened MessagePackValues

  /** How a struct is read: which field a key names, and how a field's value
      is taken off the input. */
  datatype Schema<!F, !V> = Schema(
    parse: Bytes -> Option<F>,
    read: (F, Bytes) -> Option<(V, Bytes)>)

  // ----- decoding -----

  // ReadMapKeyZC: a key is a string or a byte string.
  function ReadKey(b: Bytes): Option<(Bytes, Bytes)> {
    match ReadToken(b)
    case Some((Str(n), rest)) => if |rest| < n then None else Some((rest[..n], rest[n..]))
    case Some((Bin(n), rest)) => if |rest| < n then None else Some((rest[..n], rest[n..]))
    case _ => None
  }

  // ReadMapHeaderBytes
  function ReadMapHead(b: Bytes): Option<(nat, Bytes)> {
    match ReadToken(b)
    case Some((Map(n), rest)) => Some((n, rest))
    case _ => None
  }

  /** One turn of the loop: the field assigned, if the key names one. */
  function ReadEntry<F, V>(c: Schema<F, V>, b: Bytes): Option<(Option<(F, V)>, Bytes)> {
    match ReadKey(b)
    case None => None
    case Some((key, rest)) =>
      match c.parse(key)
      case None => (match Skip(rest) case None => None case Some(rest') => Some((None, rest')))
      case Some(f) =>
        match c.read(f, rest)
        case None => None
        case Some((v, rest')) => Some((Some((f, v)), rest'))
  }

  // What one turn of the loop adds to the log, and does to the struct.
  function Logged<F, V>(a: Option<(F, V)>): seq<(F, V)> { if a.None? then [] else [a.value] }

  function Assigned<F, V>(z: map<F, V>, a: Option<(F, V)>): map<F, V> {
    if a.None? then z else z[a.value.0 := a.value.1]
  }

  /** The whole loop: the assignments made, in order, and what is left. */
  function ReadEntries<F, V>(c: Schema<F, V>, n: nat, b: Bytes): Option<(seq<(F, V)>, Bytes)> {
    if n == 0 then Some(([], b))
    else
      match ReadEntry(c, b)
      case None => None
      case Some((a, rest)) => Prepend(Logged(a), ReadEntries(c, n - 1, rest))
  }

  function Prepend<F, V>(l: seq<(F, V)>, r: Option<(seq<(F, V)>, Bytes)>): Option<(seq<(F, V)>, Bytes)> {
    if r.None? then None else Some((l + r.value.0, r.value.1))
  }

  function Decode<F, V>(c: Schema<F, V>, b: Bytes): Option<(seq<(F, V)>, Bytes)> {
    match ReadMapHead(b)
    case None => None
    case Some((n, rest)) => ReadEntries(c, n, rest)
  }

  // Assignments to the fields of a struct, the last one to a field winning.
  function Assign<F, V>(z: map<F, V>, log: seq<(F, V)>): map<F, V> {
    if log == [] then z else Assign(z, log[..|log| - 1])[log[|log| - 1].0 := log[|log| - 1].1]
  }

  lemma {:induction false} AssignAppend<F, V>(z: map<F, V>, l: seq<(F, V)>, m: seq<(F, V)>)
    ensures Assign(z, l + m) == Assign(Assign(z, l), m)
    decreases |m|
  {
    if m == [] {
      assert l + m == l;
    } else {
      assert (l + m)[..|l + m| - 1] == l + m[..|m| - 1];
      AssignAppend(z, l, m[..|m| - 1]);
    }
  }

  // ----- the loop, turn by turn -----

  /** A turn of the loop takes one entry off the input and puts its
      assignment at the end of the log. */
  lemma LoopTurn<F, V>(c: Schema<F, V>, log: seq<(F, V)>, n: nat, b: Bytes, before: map<F, V>)
    requires n > 0
    ensures
      match ReadEntry(c, b)
      case None => Prepend(log, ReadEntries(c, n, b)).None?
      case Some((a, rest)) =>
        && Prepend(log, ReadEntries(c, n, b)) == Prepend(log + Logged(a), ReadEntries(c, n - 1, rest))
        && Assign(before, log + Logged(a)) == Assigned(Assign(before, log), a)
  {
    hide ReadEntry;
    if ReadEntry(c, b).Some? {
      var (a, rest) := ReadEntry(c, b).value;
      PrependPrepend(log, Logged(a), ReadEntries(c, n - 1, rest));
      AssignAppend(before, log, Logged(a));
    }
  }

  lemma LoopEnds<F, V>(c: Schema<F, V>, log: seq<(F, V)>, b: Bytes)
    ensures Prepend(log, ReadEntries(c, 0, b)) == Some((log, b))
  {
    assert log + [] == log;
  }

  lemma PrependPrepend<F, V>(l: seq<(F, V)>, m: seq<(F, V)>, r: Option<(seq<(F, V)>, Bytes)>)
    ensures Prepend(l, Prepend(m, r)) == Prepend(l + m, r)
    ensures Prepend([], r) == r
  {
    if r.Some? {
      assert [] + r.value.0 == r.value.0;
      assert l + (m + r.value.0) == l + m + r.value.0;
    }
  }

  // ----- encoding -----

  /** A map entry as some writer may have put it: one of our fields, its value
      in any encoding that is read as that value, or a key this version of the
      struct does not have, with any value. */
  datatype Entry<+F, +V> =
    | Known(key: Bytes, raw: Bytes, field: F, val: V)
    | Unknown(key: Bytes, raw: Bytes)

  // The bytes are read as the value, whatever follows them.
  ghost predicate ReadsAs<F, V>(c: Schema<F, V>, raw: Bytes, f: F, v: V) {
    forall more: Bytes :: c.read(f, raw + more) == Some((v, more))
  }

  ghost predicate GoodEntry<F, V>(c: Schema<F, V>, e: Entry<F, V>) {
    && |e.key| < TWO32
    && match e
       case Known(key, raw, f, v) => c.parse(key) == Some(f) && ReadsAs(c, raw, f, v)
       case Unknown(key, raw) => c.parse(key).None? && MessagePackGrammar.IsValue(raw)
  }

  ghost predicate GoodEntries<F, V>(c: Schema<F, V>, es: seq<Entry<F, V>>) {
    forall i :: 0 <= i < |es| ==> GoodEntry(c, es[i])
  }

  function EncEntry<F, V>(e: Entry<F, V>): Bytes { EncStr(e.key) + e.raw }

  function Parts<F, V>(es: seq<Entry<F, V>>): seq<Bytes> {
    seq(|es|, i requires 0 <= i < |es| => EncEntry(es[i]))
  }

  function EncEntries<F, V>(es: seq<Entry<F, V>>): Bytes { Concat(Parts(es)) }

  function EncMap<F, V>(es: seq<Entry<F, V>>): Bytes { EncMapHead(|es|) + EncEntries(es) }

  // What an entry assigns, and what a list of them does in order.
  function Effect<F, V>(e: Entry<F, V>): Option<(F, V)> {
    if e.Known? then Some((e.field, e.val)) else None
  }

  function Log<F, V>(es: seq<Entry<F, V>>): seq<(F, V)> {
    if es == [] then [] else Logged(Effect(es[0])) + Log(es[1..])
  }

  // ----- any order, any unknown keys -----

  lemma ReadEncKey(key: Bytes, more: Bytes)
    requires |key| < TWO32
    ensures ReadKey(EncStr(key) + more) == Some((key, more))
  {
    assert EncStr(key) + more == EncStrHead(|key|) + (key + more);
    ReadStrToken(|key|, key + more);
  }

  lemma ReadEncMapHead(n: nat, more: Bytes)
    requires n < TWO32
    ensures ReadMapHead(EncMapHead(n) + more) == Some((n, more))
  {
    ReadMapToken(n, more);
  }

  lemma ReadEncEntry<F, V>(c: Schema<F, V>, e: Entry<F, V>, more: Bytes)
    requires GoodEntry(c, e)
    ensures ReadEntry(c, EncEntry(e) + more) == Some((Effect(e), more))
  {
    hide ReadKey, Skip, EncStr;
    assert (EncStr(e.key) + e.raw) + more == EncStr(e.key) + (e.raw + more);
    ReadEncKey(e.key, e.raw + more);
    if e.Unknown? {
      MessagePackGrammar.SkipExactly(e.raw, more);
    }
  }

  lemma {:induction false} ReadEncEntries<F, V>(c: Schema<F, V>, es: seq<Entry<F, V>>, more: Bytes)
    requires GoodEntries(c, es)
    ensures ReadEntries(c, |es|, EncEntries(es) + more) == Some((Log(es), more))
    decreases |es|
  {
    hide ReadEntry, EncEntry, GoodEntry;
    if es == [] {
      assert EncEntries(es) + more == more;
    } else {
      ConcatSplit(Parts(es), more);
      assert Parts(es)[1..] == Parts(es[1..]);
      ReadEncEntry(c, es[0], EncEntries(es[1..]) + more);
      ReadEncEntries(c, es[1..], more);
    }
  }

  /** A map in any order, with unknown keys and repeats anywhere, decodes to
      exactly the assignments of its known entries; the bytes after it are
      returned untouched. */
  lemma DecodeAnyOrder<F, V>(c: Schema<F, V>, es: seq<Entry<F, V>>, more: Bytes)
    requires GoodEntries(c, es) && |es| < TWO32
    ensures Decode(c, EncMap(es) + more) == Some((Log(es), more))
  {
    hide ReadMapHead, EncMapHead, EncEntries, ReadEntries, GoodEntries;
    var h, e := EncMapHead(|es|), EncEntries(es);
    assert (h + e) + more == h + (e + more);
    ReadEncMapHead(|es|, e + more);
    ReadEncEntries(c, es, more);
  }

  // ----- what the assignments amount to -----

  // The known entries carry z's values.
  ghost predicate Carries<F, V>(es: seq<Entry<F, V>>, z: map<F, V>) {
    forall i :: 0 <= i < |es| && es[i].Known? ==> es[i].field in z && z[es[i].field] == es[i].val
  }

  ghost predicate Mentions<F, V>(es: seq<Entry<F, V>>, f: F) {
    exists i :: 0 <= i < |es| && es[i].Known? && es[i].field == f
  }

  // The same of a log.
  ghost predicate LogCarries<F, V>(log: seq<(F, V)>, z: map<F, V>) {
    forall j :: 0 <= j < |log| ==> log[j].0 in z && z[log[j].0] == log[j].1
  }

  ghost predicate LogMentions<F, V>(log: seq<(F, V)>, f: F) {
    exists j :: 0 <= j < |log| && log[j].0 == f
  }

  lemma {:induction false} LogOf<F, V>(es: seq<Entry<F, V>>, z: map<F, V>)
    requires Carries(es, z)
    ensures LogCarries(Log(es), z)
    ensures forall f :: Mentions(es, f) <==> LogMentions(Log(es), f)
    decreases |es|
  {
    if es != [] {
      var h, rest := Logged(Effect(es[0])), es[1..];
      LogOf(rest, z);
      assert Log(es) == h + Log(rest);
      forall f ensures Mentions(es, f) <==> LogMentions(Log(es), f) {
        MentionsSplit(es, f);
        LogMentionsAppend(h, Log(rest), f);
      }
    }
  }

  lemma MentionsSplit<F, V>(es: seq<Entry<F, V>>, f: F)
    requires es != []
    ensures Mentions(es, f) <==> LogMentions(Logged(Effect(es[0])), f) || Mentions(es[1..], f)
  {
    var h := Logged(Effect(es[0]));
    if Mentions(es, f) {
      var i :| 0 <= i < |es| && es[i].Known? && es[i].field == f;
      if i == 0 {
        assert h[0].0 == f;
      } else {
        assert es[1..][i - 1].field == f;
      }
    }
    if Mentions(es[1..], f) {
      var i :| 0 <= i < |es[1..]| && es[1..][i].Known? && es[1..][i].field == f;
      assert es[i + 1].field == f;
    }
  }

  lemma LogMentionsAppend<F, V>(l: seq<(F, V)>, m: seq<(F, V)>, f: F)
    ensures LogMentions(l + m, f) <==> LogMentions(l, f) || LogMentions(m, f)
  {
    if LogMentions(l, f) {
      var j :| 0 <= j < |l| && l[j].0 == f;
      assert (l + m)[j].0 == f;
    }
    if LogMentions(m, f) {
      var j :| 0 <= j < |m| && m[j].0 == f;
      assert (l + m)[|l| + j].0 == f;
    }
  }

  // A field assigned from z holds z's value; another keeps its own.
  lemma {:induction false} AssignLookup<F, V>(log: seq<(F, V)>, z: map<F, V>, before: map<F, V>, f: F)
    requires LogCarries(log, z)
    ensures f in Assign(before, log) <==> LogMentions(log, f) || f in before
    ensures LogMentions(log, f) ==> f in z && Assign(before, log)[f] == z[f]
    ensures !LogMentions(log, f) && f in before ==> Assign(before, log)[f] == before[f]
    decreases |log|
  {
    if log != [] {
      var front, last := log[..|log| - 1], log[|log| - 1];
      AssignLookup(front, z, before, f);
      assert log == front + [last];
      LogMentionsAppend(front, [last], f);
      assert [last][0] == last;
    }
  }

  /** Whatever the struct held before, after the assignments of a list that
      carries z's values, the fields it mentions are z's and the others are
      untouched. */
  lemma AssignsMentioned<F, V>(es: seq<Entry<F, V>>, z: map<F, V>, before: map<F, V>, f: F)
    requires Carries(es, z) && f in before
    ensures f in Assign(before, Log(es))
    ensures Mentions(es, f) ==> f in z && Assign(before, Log(es))[f] == z[f]
    ensures !Mentions(es, f) ==> Assign(before, Log(es))[f] == before[f]
  {
    LogOf(es, z);
    AssignLookup(Log(es), z, before, f);
  }

  lemma AssignsAll<F, V>(es: seq<Entry<F, V>>, z: map<F, V>, before: map<F, V>)
    requires Carries(es, z) && before.Keys == z.Keys
    requires forall f :: f in z ==> Mentions(es, f)
    ensures Assign(before, Log(es)) == z
  {
    var m := Assign(before, Log(es));
    forall f | f in before ensures f in m && m[f] == z[f] {
      assert f in z.Keys;
      AssignsMentioned(es, z, before, f);
    }
    forall f | f in m ensures f in before {
      LogOf(es, z);
      AssignLookup(Log(es), z, before, f);
      assert f in z ==> f in before.Keys;
    }
    assert m.Keys == z.Keys;
  }

  /** Entries in any order, with unknown keys in between and with repeats: if
      the known ones carry z's values and mention all its fields, the target
      becomes z, whatever it held, and the rest of the input comes back. */
  lemma AnyOrder<F, V>(c: Schema<F, V>, es: seq<Entry<F, V>>, z: map<F, V>, before: map<F, V>, more: Bytes)
    requires GoodEntries(c, es) && |es| < TWO32 && Carries(es, z) && before.Keys == z.Keys
    requires forall f :: f in z ==> Mentions(es, f)
    ensures var d := Decode(c, EncMap(es) + more);
      d.Some? && d.value.1 == more && Assign(before, d.value.0) == z
  {
    hide Decode, EncMap;
    DecodeAnyOrder(c, es, more);
    AssignsAll(es, z, before);
  }
}

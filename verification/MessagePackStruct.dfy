/** What the generated codecs of all structs share: string keys, field kinds,
    and the whole-struct results stated once for every layout. */
module MessagePackStruct {
  import opened Base
  import opened MessagePack
  import opened MessagePackValues
  import opened MessagePackMap

  // time.Time as the codecs keep it.
  datatype Time = Time(sec: int64, nsec: uint32)

  // Field names are ASCII; the wire carries their bytes.
  function Ascii(s: string): Bytes {
    seq(|s|, i requires 0 <= i < |s| => (s[i] as int % 256) as byte)
  }

  function FromAscii(b: Bytes): string {
    seq(|b|, i requires 0 <= i < |b| => b[i] as int as char)
  }

  lemma AsciiRoundTrip(s: string)
    requires forall i :: 0 <= i < |s| ==> s[i] < 128 as char
    ensures FromAscii(Ascii(s)) == s
  {
  }

  /** A struct: the names and kinds of its fields, in the order written. */
  datatype Layout<!F> = Layout(
    parse: string -> Option<F>,
    name: F -> string,
    kind: F -> Kind,
    fields: seq<F>)

  function SchemaOf<F(!new)>(l: Layout<F>): Schema<F, Value> {
    Schema(b => l.parse(FromAscii(b)), (f, b) => ReadValue(l.kind(f), b))
  }

  predicate ShortAscii(s: string) { |s| < 32 && forall i :: 0 <= i < |s| ==> s[i] < 128 as char }

  /** Every name is short ASCII and parsed back to its own field, and every
      field is written. */
  ghost predicate Sound<F(!new)>(l: Layout<F>) {
    && |l.fields| < TWO32
    && forall f :: ShortAscii(l.name(f)) && l.parse(l.name(f)) == Some(f) && f in l.fields
  }

  // A struct's contents: a value for every field.
  ghost predicate Complete<F(!new)>(l: Layout<F>, z: map<F, Value>) {
    Sound(l) && forall f :: f in z
  }

  // Contents whose lengths fit the format's 32 bits.
  ghost predicate Writable<F(!new)>(l: Layout<F>, z: map<F, Value>) {
    Complete(l, z) && forall f :: f in z && Fits(l.kind(f), z[f])
  }

  // The field's own entry.
  function OwnEntry<F(!new)>(l: Layout<F>, f: F, v: Value): Entry<F, Value> {
    Known(Ascii(l.name(f)), EncValue(l.kind(f), v), f, v)
  }

  lemma OwnEntryGood<F(!new)>(l: Layout<F>, f: F, v: Value)
    requires Sound(l) && Fits(l.kind(f), v)
    ensures GoodEntry(SchemaOf(l), OwnEntry(l, f, v))
  {
    hide EncValue, ReadValue, FromAscii;
    assert ShortAscii(l.name(f));
    AsciiRoundTrip(l.name(f));
    forall more ensures ReadValue(l.kind(f), EncValue(l.kind(f), v) + more) == Some((v, more)) {
      ReadEncValue(l.kind(f), v, more);
    }
  }

  ghost function OwnEntries<F(!new)>(l: Layout<F>, z: map<F, Value>): seq<Entry<F, Value>>
    requires Complete(l, z)
  {
    seq(|l.fields|, i requires 0 <= i < |l.fields| => OwnEntry(l, l.fields[i], z[l.fields[i]]))
  }

  // What MarshalMsg has appended after k fields.
  ghost function Written<F(!new)>(l: Layout<F>, z: map<F, Value>, k: nat): Bytes
    requires Complete(l, z) && k <= |l.fields|
  {
    EncMapHead(|l.fields|) + EncEntries(OwnEntries(l, z)[..k])
  }

  lemma WrittenNone<F(!new)>(l: Layout<F>, z: map<F, Value>)
    requires Complete(l, z)
    ensures Written(l, z, 0) == EncMapHead(|l.fields|)
  {
    hide EncMapHead;
  }

  /** Appending a name and its value is one more field written. */
  lemma WrittenNext<F(!new)>(l: Layout<F>, z: map<F, Value>, k: nat, b: Bytes)
    requires Complete(l, z) && k < |l.fields|
    ensures b + Written(l, z, k + 1)
         == b + Written(l, z, k) + EncStr(Ascii(l.name(l.fields[k]))) + EncValue(l.kind(l.fields[k]), z[l.fields[k]])
  {
    hide EncValue, EncStr, Ascii, EncMapHead, EncEntries;
    var es, h := OwnEntries(l, z), EncMapHead(|l.fields|);
    EncEntriesNext(es, k);
    var e, n, v := EncEntries(es[..k]), EncStr(es[k].key), es[k].raw;
    assert b + (h + (e + (n + v))) == b + (h + e) + n + v;
  }

  lemma EncEntriesNext<F, V>(es: seq<Entry<F, V>>, k: nat)
    requires k < |es|
    ensures EncEntries(es[..k + 1]) == EncEntries(es[..k]) + (EncStr(es[k].key) + es[k].raw)
  {
    hide EncStr;
    assert Parts(es[..k + 1])[..k] == Parts(es[..k]);
  }

  /** How much one more field adds at most. */
  lemma WrittenSize<F(!new)>(l: Layout<F>, z: map<F, Value>, k: nat)
    requires Complete(l, z) && k < |l.fields|
    ensures |Written(l, z, k + 1)|
         <= |Written(l, z, k)| + 1 + |l.name(l.fields[k])| + MaxSize(l.kind(l.fields[k]), z[l.fields[k]])
  {
    hide EncValue, Written, EncMapHead;
    WrittenNext(l, z, k, []);
    assert ShortAscii(l.name(l.fields[k]));
    ValueWithinSize(l.kind(l.fields[k]), z[l.fields[k]]);
    assert [] + Written(l, z, k) == Written(l, z, k);
    assert [] + Written(l, z, k + 1) == Written(l, z, k + 1);
  }

  lemma OwnEntriesGood<F(!new)>(l: Layout<F>, z: map<F, Value>)
    requires Writable(l, z)
    ensures |OwnEntries(l, z)| == |l.fields|
    ensures GoodEntries(SchemaOf(l), OwnEntries(l, z)) && Carries(OwnEntries(l, z), z)
    ensures forall f :: f in z ==> Mentions(OwnEntries(l, z), f)
    ensures Written(l, z, |l.fields|) == EncMap(OwnEntries(l, z))
  {
    hide EncMapHead, EncEntries, SchemaOf, GoodEntry, EncValue;
    var es := OwnEntries(l, z);
    assert es[..|l.fields|] == es;
    forall i | 0 <= i < |es| ensures GoodEntry(SchemaOf(l), es[i]) {
      OwnEntryGood(l, l.fields[i], z[l.fields[i]]);
    }
    forall f | f in z ensures Mentions(es, f) {
      assert f in l.fields;
      var i :| 0 <= i < |l.fields| && l.fields[i] == f;
      assert es[i].field == f;
    }
  }

  /** UnmarshalMsg(MarshalMsg(z) ++ more) yields z and more, over any old
      contents of the target. */
  lemma RoundTrip<F(!new)>(l: Layout<F>, z: map<F, Value>, before: map<F, Value>, more: Bytes)
    requires Writable(l, z) && before.Keys == z.Keys
    ensures var d := Decode(SchemaOf(l), Written(l, z, |l.fields|) + more);
      d.Some? && d.value.1 == more && Assign(before, d.value.0) == z
  {
    hide Decode, EncMap, SchemaOf, GoodEntries, Written, OwnEntries;
    OwnEntriesGood(l, z);
    AnyOrder(SchemaOf(l), OwnEntries(l, z), z, before, more);
  }

  // ----- what is read for a field fits it -----

  ghost predicate Fitting<F(!new)>(l: Layout<F>, log: seq<(F, Value)>) {
    forall j :: 0 <= j < |log| ==> Fits(l.kind(log[j].0), log[j].1)
  }

  lemma ReadEntryFits<F(!new)>(l: Layout<F>, b: Bytes)
    ensures ReadEntry(SchemaOf(l), b).Some? ==> Fitting(l, Logged(ReadEntry(SchemaOf(l), b).value.0))
  {
    hide ReadKey, Skip, FromAscii, ReadValue, Fits;
    if ReadEntry(SchemaOf(l), b).Some? {
      var (key, rest) := ReadKey(b).value;
      var f := l.parse(FromAscii(key));
      if f.Some? {
        ReadValueFits(l.kind(f.value), rest);
      }
    }
  }

  // The same, without assuming that the input can be read.
  lemma {:induction false} ReadEntriesFit<F(!new)>(l: Layout<F>, n: nat, b: Bytes)
    ensures ReadEntries(SchemaOf(l), n, b).Some? ==> Fitting(l, ReadEntries(SchemaOf(l), n, b).value.0)
  {
    hide ReadEntry, SchemaOf, Fits;
    if n > 0 && ReadEntry(SchemaOf(l), b).Some? {
      ReadEntryFits(l, b);
      ReadEntriesFit(l, n - 1, ReadEntry(SchemaOf(l), b).value.1);
    }
  }

  lemma DecodeFits<F(!new)>(l: Layout<F>, b: Bytes)
    ensures Decode(SchemaOf(l), b).Some? ==> Fitting(l, Decode(SchemaOf(l), b).value.0)
  {
    hide ReadMapHead, ReadEntries, SchemaOf, Fits;
    if ReadMapHead(b).Some? {
      ReadEntriesFit(l, ReadMapHead(b).value.0, ReadMapHead(b).value.1);
    }
  }

  lemma {:induction false} AssignFits<F(!new)>(l: Layout<F>, before: map<F, Value>, log: seq<(F, Value)>)
    requires Fitting(l, log) && forall f :: f in before ==> Fits(l.kind(f), before[f])
    ensures forall f :: f in Assign(before, log) ==> Fits(l.kind(f), Assign(before, log)[f])
    decreases |log|
  {
    hide Fits;
    if log != [] {
      AssignFits(l, before, log[..|log| - 1]);
    }
  }

  // Decoding z's encoding, with `more` behind it, over `before`.
  ghost predicate ReadsBack<F(!new)>(l: Layout<F>, z: map<F, Value>, before: map<F, Value>, more: Bytes)
    requires Complete(l, z)
  {
    var d := Decode(SchemaOf(l), Written(l, z, |l.fields|) + more);
    d.Some? && d.value.1 == more && Assign(before, d.value.0) == z
  }

  /** The round trip holds exactly for contents whose lengths fit the format:
      longer ones are written under a length cut to 32 bits. */
  lemma RoundTripExactly<F(!new)>(l: Layout<F>, z: map<F, Value>, before: map<F, Value>, more: Bytes)
    requires Complete(l, z) && Writable(l, before)
    ensures ReadsBack(l, z, before, more) <==> Writable(l, z)
  {
    hide Decode, SchemaOf, Written, Assign, Fits;
    forall f ensures f in before.Keys && f in z.Keys {
      assert f in before && f in z;
    }
    if Writable(l, z) {
      RoundTrip(l, z, before, more);
    }
    if ReadsBack(l, z, before, more) {
      var b := Written(l, z, |l.fields|) + more;
      DecodeFits(l, b);
      AssignFits(l, before, Decode(SchemaOf(l), b).value.0);
    }
  }
}

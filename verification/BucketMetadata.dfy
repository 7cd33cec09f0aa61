/** Bucket metadata: the stored record, its codec, its framed file, and the
    checks every save makes. */
module BucketMetadata {
  import opened Base
  import opened MessagePack
  import opened MessagePackValues
  import opened MessagePackMap
  import opened MessagePackStruct

  /** The stored fields.  The parsed forms kept beside them in memory are not
      part of this model. */
  datatype Raw = Raw(
    name: Bytes,
    created: Time,
    lockEnabled: bool,
    policy: Bytes,
    notification: Bytes,
    lifecycle: Bytes,
    objectLock: Bytes,
    versioning: Bytes,
    encryption: Bytes,
    tagging: Bytes,
    quota: Bytes,
    replication: Bytes,
    targets: Bytes,
    targetsMeta: Bytes)

  datatype Field =
    | FName | FCreated | FLockEnabled | FPolicyConfigJSON | FNotificationConfigXML | FLifecycleConfigXML
    | FObjectLockConfigXML | FVersioningConfigXML | FEncryptionConfigXML | FTaggingConfigXML
    | FQuotaConfigJSON | FReplicationConfigXML | FBucketTargetsConfigJSON | FBucketTargetsConfigMetaJSON

  const FIELDS: seq<Field> := [
    FName, FCreated, FLockEnabled, FPolicyConfigJSON, FNotificationConfigXML, FLifecycleConfigXML,
    FObjectLockConfigXML, FVersioningConfigXML, FEncryptionConfigXML, FTaggingConfigXML,
    FQuotaConfigJSON, FReplicationConfigXML, FBucketTargetsConfigJSON, FBucketTargetsConfigMetaJSON]

  function Name(f: Field): string {
    match f
    case FName => "Name"
    case FCreated => "Created"
    case FLockEnabled => "LockEnabled"
    case FPolicyConfigJSON => "PolicyConfigJSON"
    case FNotificationConfigXML => "NotificationConfigXML"
    case FLifecycleConfigXML => "LifecycleConfigXML"
    case FObjectLockConfigXML => "ObjectLockConfigXML"
    case FVersioningConfigXML => "VersioningConfigXML"
    case FEncryptionConfigXML => "EncryptionConfigXML"
    case FTaggingConfigXML => "TaggingConfigXML"
    case FQuotaConfigJSON => "QuotaConfigJSON"
    case FReplicationConfigXML => "ReplicationConfigXML"
    case FBucketTargetsConfigJSON => "BucketTargetsConfigJSON"
    case FBucketTargetsConfigMetaJSON => "BucketTargetsConfigMetaJSON"
  }

  function Parse(s: string): Option<Field> {
    match s
    case "Name" => Some(FName)
    case "Created" => Some(FCreated)
    case "LockEnabled" => Some(FLockEnabled)
    case "PolicyConfigJSON" => Some(FPolicyConfigJSON)
    case "NotificationConfigXML" => Some(FNotificationConfigXML)
    case "LifecycleConfigXML" => Some(FLifecycleConfigXML)
    case "ObjectLockConfigXML" => Some(FObjectLockConfigXML)
    case "VersioningConfigXML" => Some(FVersioningConfigXML)
    case "EncryptionConfigXML" => Some(FEncryptionConfigXML)
    case "TaggingConfigXML" => Some(FTaggingConfigXML)
    case "QuotaConfigJSON" => Some(FQuotaConfigJSON)
    case "ReplicationConfigXML" => Some(FReplicationConfigXML)
    case "BucketTargetsConfigJSON" => Some(FBucketTargetsConfigJSON)
    case "BucketTargetsConfigMetaJSON" => Some(FBucketTargetsConfigMetaJSON)
    case _ => None
  }

  function KindOf(f: Field): Kind {
    match f
    case FName => KindStr
    case FCreated => KindTime
    case FLockEnabled => KindBool
    case _ => KindBin
  }

  function MetadataLayout(): Layout<Field> { Layout(Parse, Name, KindOf, FIELDS) }

  // Where a field stands in the encoding.
  function Position(f: Field): nat {
    match f
    case FName => 0
    case FCreated => 1
    case FLockEnabled => 2
    case FPolicyConfigJSON => 3
    case FNotificationConfigXML => 4
    case FLifecycleConfigXML => 5
    case FObjectLockConfigXML => 6
    case FVersioningConfigXML => 7
    case FEncryptionConfigXML => 8
    case FTaggingConfigXML => 9
    case FQuotaConfigJSON => 10
    case FReplicationConfigXML => 11
    case FBucketTargetsConfigJSON => 12
    case FBucketTargetsConfigMetaJSON => 13
  }

  lemma NameParses(f: Field)
    ensures Parse(Name(f)) == Some(f)
  {
  }

  lemma NameShort(f: Field)
    ensures ShortAscii(Name(f))
  {
    hide ShortAscii;
    var p := Position(f);
    if p < 4 {
      FirstNameShort(f);
    } else if p < 7 {
      SecondNameShort(f);
    } else if p < 10 {
      ThirdNameShort(f);
    } else if p < 12 {
      FourthNameShort(f);
    } else {
      FifthNameShort(f);
    }
  }

  lemma FirstNameShort(f: Field)
    requires Position(f) < 4
    ensures ShortAscii(Name(f))
  {
  }

  lemma SecondNameShort(f: Field)
    requires 4 <= Position(f) < 7
    ensures ShortAscii(Name(f))
  {
  }

  lemma ThirdNameShort(f: Field)
    requires 7 <= Position(f) < 10
    ensures ShortAscii(Name(f))
  {
  }

  lemma FourthNameShort(f: Field)
    requires 10 <= Position(f) < 12
    ensures ShortAscii(Name(f))
  {
  }

  lemma FifthNameShort(f: Field)
    requires 12 <= Position(f)
    ensures ShortAscii(Name(f))
  {
  }

  lemma FieldAt(f: Field)
    ensures Position(f) < 14 && FIELDS[Position(f)] == f
  {
  }

  lemma LayoutSound()
    ensures Sound(MetadataLayout())
  {
    hide Parse, Name, ShortAscii, Position;
    forall f: Field ensures ShortAscii(Name(f)) && Parse(Name(f)) == Some(f) && f in FIELDS {
      NameParses(f);
      NameShort(f);
      FieldAt(f);
    }
  }

  // ----- the record, field by field -----

  function FieldOf(r: Raw, f: Field): Value {
    match f
    case FName => VStr(r.name)
    case FCreated => VTime(r.created.sec, r.created.nsec)
    case FLockEnabled => VBool(r.lockEnabled)
    case FPolicyConfigJSON => VBin(r.policy)
    case FNotificationConfigXML => VBin(r.notification)
    case FLifecycleConfigXML => VBin(r.lifecycle)
    case FObjectLockConfigXML => VBin(r.objectLock)
    case FVersioningConfigXML => VBin(r.versioning)
    case FEncryptionConfigXML => VBin(r.encryption)
    case FTaggingConfigXML => VBin(r.tagging)
    case FQuotaConfigJSON => VBin(r.quota)
    case FReplicationConfigXML => VBin(r.replication)
    case FBucketTargetsConfigJSON => VBin(r.targets)
    case FBucketTargetsConfigMetaJSON => VBin(r.targetsMeta)
  }

  function SetField(r: Raw, f: Field, v: Value): Raw {
    match f
    case FName => if v.VStr? then r.(name := v.s) else r
    case FCreated => if v.VTime? then r.(created := Time(v.sec, v.nsec)) else r
    case FLockEnabled => if v.VBool? then r.(lockEnabled := v.b) else r
    case FPolicyConfigJSON => if v.VBin? then r.(policy := v.bin) else r
    case FNotificationConfigXML => if v.VBin? then r.(notification := v.bin) else r
    case FLifecycleConfigXML => if v.VBin? then r.(lifecycle := v.bin) else r
    case FObjectLockConfigXML => if v.VBin? then r.(objectLock := v.bin) else r
    case FVersioningConfigXML => if v.VBin? then r.(versioning := v.bin) else r
    case FEncryptionConfigXML => if v.VBin? then r.(encryption := v.bin) else r
    case FTaggingConfigXML => if v.VBin? then r.(tagging := v.bin) else r
    case FQuotaConfigJSON => if v.VBin? then r.(quota := v.bin) else r
    case FReplicationConfigXML => if v.VBin? then r.(replication := v.bin) else r
    case FBucketTargetsConfigJSON => if v.VBin? then r.(targets := v.bin) else r
    case FBucketTargetsConfigMetaJSON => if v.VBin? then r.(targetsMeta := v.bin) else r
  }

  ghost function View(r: Raw): (z: map<Field, Value>)
    ensures forall f :: f in z && z[f] == FieldOf(r, f)
  {
    map f: Field | true :: FieldOf(r, f)
  }

  function SetFields(r: Raw, log: seq<(Field, Value)>): Raw {
    if log == [] then r else SetField(SetFields(r, log[..|log| - 1]), log[|log| - 1].0, log[|log| - 1].1)
  }

  lemma FieldOfSet(r: Raw, f: Field, v: Value, g: Field)
    requires Fits(KindOf(f), v)
    ensures FieldOf(SetField(r, f, v), g) == if g == f then v else FieldOf(r, g)
  {
  }

  lemma {:induction false} ViewOfSetFields(r: Raw, log: seq<(Field, Value)>)
    requires Fitting(MetadataLayout(), log)
    ensures View(SetFields(r, log)) == Assign(View(r), log)
  {
    hide FieldOf, SetField, KindOf, Fits;
    if log != [] {
      var front := log[..|log| - 1];
      var (f, v) := log[|log| - 1];
      assert Fits(MetadataLayout().kind(f), v);
      ViewOfSetFields(r, front);
      forall g ensures FieldOf(SetField(SetFields(r, front), f, v), g) == Assign(View(r), front)[f := v][g] {
        FieldOfSet(SetFields(r, front), f, v, g);
        assert View(SetFields(r, front))[g] == FieldOf(SetFields(r, front), g);
      }
    }
  }

  lemma SameField(r: Raw, q: Raw, f: Field)
    requires View(r) == View(q)
    ensures FieldOf(r, f) == FieldOf(q, f)
  {
    hide FieldOf;
    assert View(r)[f] == FieldOf(r, f) && View(q)[f] == FieldOf(q, f);
  }

  lemma SameEarlyFields(r: Raw, q: Raw)
    requires View(r) == View(q)
    ensures r.name == q.name
    ensures r.created == q.created
    ensures r.lockEnabled == q.lockEnabled
    ensures r.policy == q.policy
    ensures r.notification == q.notification
    ensures r.lifecycle == q.lifecycle
    ensures r.objectLock == q.objectLock
  {
    hide View;
    SameField(r, q, FName);
    SameField(r, q, FCreated);
    SameField(r, q, FLockEnabled);
    SameField(r, q, FPolicyConfigJSON);
    SameField(r, q, FNotificationConfigXML);
    SameField(r, q, FLifecycleConfigXML);
    SameField(r, q, FObjectLockConfigXML);
  }

  lemma SameLateFields(r: Raw, q: Raw)
    requires View(r) == View(q)
    ensures r.versioning == q.versioning
    ensures r.encryption == q.encryption
    ensures r.tagging == q.tagging
    ensures r.quota == q.quota
    ensures r.replication == q.replication
    ensures r.targets == q.targets
    ensures r.targetsMeta == q.targetsMeta
  {
    hide View;
    SameField(r, q, FVersioningConfigXML);
    SameField(r, q, FEncryptionConfigXML);
    SameField(r, q, FTaggingConfigXML);
    SameField(r, q, FQuotaConfigJSON);
    SameField(r, q, FReplicationConfigXML);
    SameField(r, q, FBucketTargetsConfigJSON);
    SameField(r, q, FBucketTargetsConfigMetaJSON);
  }

  lemma ViewInjective(r: Raw, q: Raw)
    requires View(r) == View(q)
    ensures r == q
  {
    hide View, FieldOf;
    SameEarlyFields(r, q);
    SameLateFields(r, q);
  }

  // Every field is short enough for the format's 32-bit lengths.
  predicate Short(r: Raw) {
    && |r.name| < TWO32 && |r.policy| < TWO32 && |r.notification| < TWO32 && |r.lifecycle| < TWO32
    && |r.objectLock| < TWO32 && |r.versioning| < TWO32 && |r.encryption| < TWO32 && |r.tagging| < TWO32
    && |r.quota| < TWO32 && |r.replication| < TWO32 && |r.targets| < TWO32 && |r.targetsMeta| < TWO32
  }

  lemma ViewComplete(r: Raw)
    ensures Complete(MetadataLayout(), View(r))
  {
    hide FieldOf;
    LayoutSound();
  }

  lemma ShortWritable(r: Raw)
    ensures Writable(MetadataLayout(), View(r)) <==> Short(r)
  {
    hide Sound;
    LayoutSound();
    if Short(r) {
      forall f ensures Fits(KindOf(f), FieldOf(r, f)) {
      }
    }
    if Writable(MetadataLayout(), View(r)) {
      WritableIsShort(r);
    }
  }

  // What MarshalMsg has appended after k fields.
  ghost function Encoded(r: Raw, k: nat): Bytes
    requires k <= 14
  {
    ViewComplete(r);
    Written(MetadataLayout(), View(r), k)
  }

  lemma Start(r: Raw, b: Bytes)
    ensures b + Encoded(r, 0) == b + EncMapHead(14)
  {
    hide Written, EncMapHead, FieldOf;
    ViewComplete(r);
    WrittenNone(MetadataLayout(), View(r));
  }

  lemma Next(r: Raw, f: Field, b: Bytes)
    ensures Position(f) < 14
    ensures b + Encoded(r, Position(f) + 1)
         == b + Encoded(r, Position(f)) + EncStr(Ascii(Name(f))) + EncValue(KindOf(f), FieldOf(r, f))
  {
    hide Written, EncStr, EncValue, Ascii, FieldOf, KindOf, Name, Parse, Position;
    ViewComplete(r);
    FieldAt(f);
    WrittenNext(MetadataLayout(), View(r), Position(f), b);
  }

  lemma Grows(r: Raw, f: Field)
    ensures Position(f) < 14
    ensures |Encoded(r, Position(f) + 1)|
         <= |Encoded(r, Position(f))| + 1 + |Name(f)| + MaxSize(KindOf(f), FieldOf(r, f))
  {
    hide Written, EncValue, FieldOf, KindOf, Name, Parse, Position, MaxSize;
    ViewComplete(r);
    FieldAt(f);
    WrittenSize(MetadataLayout(), View(r), Position(f));
  }

  lemma WritableIsShort(r: Raw)
    requires Writable(MetadataLayout(), View(r))
    ensures Short(r)
  {
    FitsAt(r, FName); FitsAt(r, FPolicyConfigJSON); FitsAt(r, FNotificationConfigXML); FitsAt(r, FLifecycleConfigXML);
    FitsAt(r, FObjectLockConfigXML); FitsAt(r, FVersioningConfigXML); FitsAt(r, FEncryptionConfigXML);
    FitsAt(r, FTaggingConfigXML); FitsAt(r, FQuotaConfigJSON); FitsAt(r, FReplicationConfigXML);
    FitsAt(r, FBucketTargetsConfigJSON); FitsAt(r, FBucketTargetsConfigMetaJSON);
  }

  lemma FitsAt(r: Raw, f: Field)
    requires Writable(MetadataLayout(), View(r))
    ensures Fits(KindOf(f), FieldOf(r, f))
  {
    hide FieldOf, KindOf, Fits;
    assert View(r)[f] == FieldOf(r, f);
  }

  // Decoding r's encoding, with `more` behind it, over `before`.
  ghost predicate RecordReadsBack(r: Raw, before: Raw, more: Bytes) {
    var d := Decode(SchemaOf(MetadataLayout()), Encoded(r, 14) + more);
    d.Some? && d.value.1 == more && SetFields(before, d.value.0) == r
  }

  /** Decoding an encoded record gives it back, over any record whose lengths
      fit the format, exactly when its own do. */
  lemma MetadataRoundTripExactly(r: Raw, before: Raw, more: Bytes)
    requires Short(before)
    ensures RecordReadsBack(r, before, more) <==> Short(r)
  {
    hide Decode, SchemaOf, Written, Fitting, Assign, SetFields, FieldOf, Short;
    ViewComplete(r);
    ShortWritable(r);
    ShortWritable(before);
    RoundTripExactly(MetadataLayout(), View(r), View(before), more);
    SetFieldsIsAssign(before, Encoded(r, 14) + more, r);
  }

  // Any old record will do for reading back a record that fits.
  lemma MetadataRoundTrip(r: Raw, before: Raw, more: Bytes)
    requires Short(r)
    ensures RecordReadsBack(r, before, more)
  {
    hide Decode, SchemaOf, Written, Fitting, Assign, SetFields, FieldOf, Short;
    ViewComplete(r);
    ShortWritable(r);
    SameKeys(r, before);
    RoundTrip(MetadataLayout(), View(r), View(before), more);
    SetFieldsIsAssign(before, Encoded(r, 14) + more, r);
  }

  lemma SetFieldsIsAssign(before: Raw, b: Bytes, r: Raw)
    ensures var d := Decode(SchemaOf(MetadataLayout()), b);
      d.Some? ==> (Assign(View(before), d.value.0) == View(r) <==> SetFields(before, d.value.0) == r)
  {
    hide Decode, SchemaOf, Assign, SetFields, FieldOf, Fits;
    var d := Decode(SchemaOf(MetadataLayout()), b);
    DecodeFits(MetadataLayout(), b);
    if d.Some? {
      ViewOfSetFields(before, d.value.0);
      if Assign(View(before), d.value.0) == View(r) {
        ViewInjective(SetFields(before, d.value.0), r);
      }
    }
  }

  lemma SameKeys(r: Raw, q: Raw)
    ensures View(r).Keys == View(q).Keys
  {
    forall f ensures f in View(r).Keys && f in View(q).Keys {
      assert f in View(r) && f in View(q);
    }
  }

  // ----- the checks every save makes -----

  // The configurations a caller can set.
  datatype Config =
    | Policy | Notification | Lifecycle | Encryption | Tagging
    | ObjectLock | Versioning | Quota | Replication | Targets

  /** The parsers, as deterministic yes-or-no: of (kind, bucket, data), and of
      (bucket, targets, encryption metadata). */
  datatype Parsers = Parsers(
    valid: (Config, Bytes, Bytes) -> bool,
    validTargets: (Bytes, Bytes, Bytes) -> bool)

  function EnabledLock(): Bytes {
    Ascii("<ObjectLockConfiguration xmlns=\"http://s3.amazonaws.com/doc/2006-03-01/\">"
      + "<ObjectLockEnabled>Enabled</ObjectLockEnabled></ObjectLockConfiguration>")
  }

  function EnabledVersioning(): Bytes {
    Ascii("<VersioningConfiguration xmlns=\"http://s3.amazonaws.com/doc/2006-03-01/\">"
      + "<Status>Enabled</Status></VersioningConfiguration>")
  }

  function ConfigOf(r: Raw, c: Config): Bytes {
    match c
    case Policy => r.policy
    case Notification => r.notification
    case Lifecycle => r.lifecycle
    case Encryption => r.encryption
    case Tagging => r.tagging
    case Quota => r.quota
    case ObjectLock => r.objectLock
    case Versioning => r.versioning
    case Replication => r.replication
    case Targets => r.targets
  }

  // Every configuration that is set parses.
  ghost predicate AllParse(p: Parsers, r: Raw) {
    forall c: Config :: ConfigOf(r, c) != [] ==>
      if c == Targets then p.validTargets(r.name, r.targets, r.targetsMeta) else p.valid(c, r.name, ConfigOf(r, c))
  }

  predicate Accepts(p: Parsers, c: Config, r: Raw, data: Bytes) { data == [] || p.valid(c, r.name, data) }

  // What is parsed before the object lock's default is looked at, and after.
  predicate EarlyParse(p: Parsers, r: Raw) {
    && Accepts(p, Policy, r, r.policy)
    && Accepts(p, Notification, r, r.notification)
    && Accepts(p, Lifecycle, r, r.lifecycle)
    && Accepts(p, Encryption, r, r.encryption)
    && Accepts(p, Tagging, r, r.tagging)
  }

  predicate LateParse(p: Parsers, r: Raw) {
    && Accepts(p, ObjectLock, r, r.objectLock)
    && Accepts(p, Versioning, r, r.versioning)
    && Accepts(p, Quota, r, r.quota)
    && Accepts(p, Replication, r, r.replication)
    && (r.targets == [] || p.validTargets(r.name, r.targets, r.targetsMeta))
  }

  // Object locking by default needs versioning.
  function Forced(r: Raw): Raw {
    if r.objectLock == EnabledLock() then r.(versioning := EnabledVersioning()) else r
  }

  predicate VersionedIfLocked(r: Raw) { r.objectLock == EnabledLock() ==> r.versioning == EnabledVersioning() }

  // parseAllConfigs: the record afterwards, and whether all of it parsed.
  function Parsed(p: Parsers, r: Raw): (Raw, bool) {
    if !EarlyParse(p, r) then (r, false) else (Forced(r), LateParse(p, Forced(r)))
  }

  /** A record that parsed parses again, to itself. */
  lemma ParsedTwice(p: Parsers, r: Raw)
    requires Parsed(p, r).1
    ensures VersionedIfLocked(Parsed(p, r).0)
    ensures Parsed(p, Parsed(p, r).0) == Parsed(p, r)
  {
    hide EnabledLock, EnabledVersioning;
  }

  // Whether all of it parses, and what that leaves.
  lemma ParsesExactly(p: Parsers, r: Raw)
    ensures Parsed(p, r).1 <==> AllParse(p, Forced(r))
    ensures Parsed(p, r).1 ==> Parsed(p, r).0 == Forced(r)
    ensures Parsed(p, r).0 == r || Parsed(p, r).0 == Forced(r)
  {
    hide EnabledLock, EnabledVersioning;
    var q := Forced(r);
    if AllParse(p, q) {
      assert ConfigOf(q, Policy) == q.policy && ConfigOf(q, Notification) == q.notification;
      assert ConfigOf(q, Lifecycle) == q.lifecycle && ConfigOf(q, Encryption) == q.encryption;
      assert ConfigOf(q, Tagging) == q.tagging && ConfigOf(q, ObjectLock) == q.objectLock;
      assert ConfigOf(q, Versioning) == q.versioning && ConfigOf(q, Quota) == q.quota;
      assert ConfigOf(q, Replication) == q.replication && ConfigOf(q, Targets) == q.targets;
    }
  }

  // ----- the file -----

  // What the object layer answers for a file.
  datatype Content = Missing | Unreadable | Data(bytes: Bytes)

  // Format and version, little-endian.
  const HEADER: Bytes := [1, 0, 1, 0]

  ghost function FileOf(r: Raw): Bytes { HEADER + Encoded(r, 14) }

  datatype LoadError =
    | EmptyName | ConfigNotFound | ReadFailed | NoData | UnknownFormat(f: nat) | UnknownVersion(v: nat) | BadBody

  function LE16(lo: byte, hi: byte): nat { lo as int + 256 * hi as int }

  function CheckHeader(data: Bytes): Option<LoadError> {
    if |data| <= 4 then Some(NoData)
    else if LE16(data[0], data[1]) != 1 then Some(UnknownFormat(LE16(data[0], data[1])))
    else if LE16(data[2], data[3]) != 1 then Some(UnknownVersion(LE16(data[2], data[3])))
    else None
  }

  // Load into the record r: the record read, under the name asked for.
  function LoadFile(r: Raw, file: Content, name: Bytes): Result<Raw, LoadError> {
    if name == [] then Err(EmptyName)
    else
      match file
      case Unreadable => Err(ReadFailed)
      case Missing => Err(ConfigNotFound)
      case Data(data) =>
        if data == [] then Err(ConfigNotFound)
        else if CheckHeader(data).Some? then Err(CheckHeader(data).value)
        else
          match Decode(SchemaOf(MetadataLayout()), data[4..])
          case None => Err(BadBody)
          case Some((log, _)) => Ok(SetFields(r, log).(name := name))
  }

  /** What was saved is what is loaded, into any record that fits, exactly if
      it fits the format itself. */
  lemma LoadSavedExactly(r: Raw, into: Raw)
    requires 0 < |r.name| < TWO32 && Short(into)
    ensures LoadFile(into, Data(FileOf(r)), r.name) == Ok(r) <==> Short(r)
  {
    hide Decode, SchemaOf, SetFields, Short, Encoded;
    LoadSavedReads(r, into);
    if Short(r) {
      MetadataRoundTrip(r, into, []);
    } else {
      LoadedFits(into, FileOf(r), r.name);
    }
  }

  // A load into a record that fits gives one that fits.
  lemma LoadedFits(into: Raw, data: Bytes, name: Bytes)
    requires Short(into) && |name| < TWO32
    ensures LoadFile(into, Data(data), name).Ok? ==> Short(LoadFile(into, Data(data), name).value)
  {
    hide Decode, SchemaOf, SetFields, Short, Fitting;
    if |data| > 4 {
      DecodeFits(MetadataLayout(), data[4..]);
      var d := Decode(SchemaOf(MetadataLayout()), data[4..]);
      if d.Some? {
        SetFieldsFits(into, d.value.0);
        ShortRenamed(SetFields(into, d.value.0), name);
      }
    }
  }

  lemma ShortRenamed(r: Raw, name: Bytes)
    requires Short(r) && |name| < TWO32
    ensures Short(r.(name := name))
  {}

  lemma {:induction false} SetFieldsFits(r: Raw, log: seq<(Field, Value)>)
    requires Short(r) && Fitting(MetadataLayout(), log)
    ensures Short(SetFields(r, log))
    decreases |log|
  {
    hide Short, SetField, Fits;
    if log != [] {
      var front := log[..|log| - 1];
      SetFieldsFits(r, front);
      SetFieldFits(SetFields(r, front), log[|log| - 1].0, log[|log| - 1].1);
    }
  }

  lemma SetFieldFits(r: Raw, f: Field, v: Value)
    requires Short(r) && Fits(KindOf(f), v)
    ensures Short(SetField(r, f, v))
  {}

  lemma LoadSavedReads(r: Raw, into: Raw)
    requires r.name != []
    ensures var d := Decode(SchemaOf(MetadataLayout()), Encoded(r, 14) + []);
      LoadFile(into, Data(FileOf(r)), r.name)
        == if d.None? then Err(BadBody) else Ok(SetFields(into, d.value.0).(name := r.name))
  {
    hide Decode, SchemaOf, SetFields, Encoded;
    var e := Encoded(r, 14);
    EncodedNotEmpty(r);
    assert FileOf(r)[4..] == e && e + [] == e;
  }

  lemma EncodedNotEmpty(r: Raw)
    ensures Encoded(r, 14) != []
  {
    ViewComplete(r);
    hide EncEntries;
    assert |EncMapHead(14)| > 0;
  }

  // Save, over the file there was: the record, the file, and success.
  ghost function SaveStep(p: Parsers, r: Raw, file: Content, io: bool): (Raw, Content, bool) {
    var (q, ok) := Parsed(p, r);
    if ok && io then (q, Data(FileOf(q)), true) else (q, file, false)
  }

  method AppendBytes(b: Bytes, v: Bytes) returns (o: Bytes)
    ensures o == b + (EncBinHead(|v|) + v)
  {
    hide EncBinHead;
    o := b + EncBinHead(|v|);
    o := o + v;
    assert o == b + (EncBinHead(|v|) + v);
  }

  class BucketMetadata {
    var name: Bytes
    var created: Time
    var lockEnabled: bool
    var policy: Bytes
    var notification: Bytes
    var lifecycle: Bytes
    var objectLock: Bytes
    var versioning: Bytes
    var encryption: Bytes
    var tagging: Bytes
    var quota: Bytes
    var replication: Bytes
    var targets: Bytes
    var targetsMeta: Bytes

    function GetRaw(): Raw
      reads this
    {
      Raw(name, created, lockEnabled, policy, notification, lifecycle, objectLock, versioning,
          encryption, tagging, quota, replication, targets, targetsMeta)
    }

    /** newBucketMetadata. */
    constructor (name: Bytes, now: Time)
      ensures GetRaw() == Raw(name, now, false, [], [], [], [], [], [], [], [], [], [], [])
    {
      this.name, created, lockEnabled := name, now, false;
      policy, notification, lifecycle, objectLock, versioning := [], [], [], [], [];
      encryption, tagging, quota, replication, targets, targetsMeta := [], [], [], [], [], [];
    }

    /** Appends the fourteen fields in order, each behind its name.  The
        straight line of appends is cut in three. */
    method MarshalMsg(b: Bytes) returns (o: Bytes)
      ensures o == b + Encoded(GetRaw(), 14)
    {
      hide EncStr, EncTime, EncBinHead, EncMapHead, Encoded, Ascii;
      ghost var r := GetRaw();
      Start(r, b);
      o := b + EncMapHead(14);
      o := o + EncStr(Ascii("Name"));
      o := o + EncStr(name);
      Next(r, FName, b);
      o := o + EncStr(Ascii("Created"));
      o := o + EncTime(created.sec, created.nsec);
      Next(r, FCreated, b);
      o := o + EncStr(Ascii("LockEnabled"));
      o := o + [if lockEnabled then 0xc3 else 0xc2];
      Next(r, FLockEnabled, b);
      o := o + EncStr(Ascii("PolicyConfigJSON"));
      o := AppendBytes(o, policy);
      Next(r, FPolicyConfigJSON, b);
      o := o + EncStr(Ascii("NotificationConfigXML"));
      o := AppendBytes(o, notification);
      Next(r, FNotificationConfigXML, b);
      o := MarshalMiddle(b, o);
      o := MarshalRest(b, o);
    }

    method MarshalMiddle(ghost b: Bytes, o0: Bytes) returns (o: Bytes)
      requires o0 == b + Encoded(GetRaw(), 5)
      ensures o == b + Encoded(GetRaw(), 10)
    {
      hide EncStr, EncBinHead, Encoded, Ascii;
      ghost var r := GetRaw();
      o := o0;
      o := o + EncStr(Ascii("LifecycleConfigXML"));
      o := AppendBytes(o, lifecycle);
      Next(r, FLifecycleConfigXML, b);
      o := o + EncStr(Ascii("ObjectLockConfigXML"));
      o := AppendBytes(o, objectLock);
      Next(r, FObjectLockConfigXML, b);
      o := o + EncStr(Ascii("VersioningConfigXML"));
      o := AppendBytes(o, versioning);
      Next(r, FVersioningConfigXML, b);
      o := o + EncStr(Ascii("EncryptionConfigXML"));
      o := AppendBytes(o, encryption);
      Next(r, FEncryptionConfigXML, b);
      o := o + EncStr(Ascii("TaggingConfigXML"));
      o := AppendBytes(o, tagging);
      Next(r, FTaggingConfigXML, b);
    }

    method MarshalRest(ghost b: Bytes, o0: Bytes) returns (o: Bytes)
      requires o0 == b + Encoded(GetRaw(), 10)
      ensures o == b + Encoded(GetRaw(), 14)
    {
      hide EncStr, EncBinHead, Encoded, Ascii;
      ghost var r := GetRaw();
      o := o0;
      o := o + EncStr(Ascii("QuotaConfigJSON"));
      o := AppendBytes(o, quota);
      Next(r, FQuotaConfigJSON, b);
      o := o + EncStr(Ascii("ReplicationConfigXML"));
      o := AppendBytes(o, replication);
      Next(r, FReplicationConfigXML, b);
      o := o + EncStr(Ascii("BucketTargetsConfigJSON"));
      o := AppendBytes(o, targets);
      Next(r, FBucketTargetsConfigJSON, b);
      o := o + EncStr(Ascii("BucketTargetsConfigMetaJSON"));
      o := AppendBytes(o, targetsMeta);
      Next(r, FBucketTargetsConfigMetaJSON, b);
    }

    function Msgsize(): nat
      reads this
    {
      1 + 5 + PREFIX_SIZE + |name| + 8 + TIME_SIZE + 12 + 1 + 17 + PREFIX_SIZE + |policy|
      + 22 + PREFIX_SIZE + |notification| + 19 + PREFIX_SIZE + |lifecycle|
      + 20 + PREFIX_SIZE + |objectLock| + 20 + PREFIX_SIZE + |versioning|
      + 20 + PREFIX_SIZE + |encryption| + 17 + PREFIX_SIZE + |tagging|
      + 16 + PREFIX_SIZE + |quota| + 21 + PREFIX_SIZE + |replication|
      + 24 + PREFIX_SIZE + |targets| + 28 + PREFIX_SIZE + |targetsMeta|
    }

    lemma EarlySize()
      ensures |Encoded(GetRaw(), 7)| <= 1 + 5 + 5 + |name| + 8 + 15 + 12 + 1 + 17 + 5 + |policy|
        + 22 + 5 + |notification| + 19 + 5 + |lifecycle| + 20 + 5 + |objectLock|
    {
      hide Encoded;
      var r := GetRaw();
      Start(r, []);
      Grows(r, FName);
      Grows(r, FCreated);
      Grows(r, FLockEnabled);
      Grows(r, FPolicyConfigJSON);
      Grows(r, FNotificationConfigXML);
      Grows(r, FLifecycleConfigXML);
      Grows(r, FObjectLockConfigXML);
    }

    lemma MiddleSize()
      ensures |Encoded(GetRaw(), 11)| <= |Encoded(GetRaw(), 7)| + 20 + 5 + |versioning| + 20 + 5 + |encryption|
        + 17 + 5 + |tagging| + 16 + 5 + |quota|
    {
      hide Encoded;
      var r := GetRaw();
      Grows(r, FVersioningConfigXML);
      Grows(r, FEncryptionConfigXML);
      Grows(r, FTaggingConfigXML);
      Grows(r, FQuotaConfigJSON);
    }

    lemma LateSize()
      ensures |Encoded(GetRaw(), 14)| <= |Encoded(GetRaw(), 11)|
        + 21 + 5 + |replication| + 24 + 5 + |targets| + 28 + 5 + |targetsMeta|
    {
      hide Encoded;
      var r := GetRaw();
      Grows(r, FReplicationConfigXML);
      Grows(r, FBucketTargetsConfigJSON);
      Grows(r, FBucketTargetsConfigMetaJSON);
    }

    /** The encoding never exceeds Msgsize. */
    lemma MsgsizeBounds()
      ensures |Encoded(GetRaw(), 14)| <= Msgsize()
    {
      hide Encoded;
      EarlySize();
      MiddleSize();
      LateSize();
    }

    // The switch of UnmarshalMsg, cut in three.
    method UnmarshalField(f: Field, bts: Bytes) returns (o: Option<Bytes>)
      modifies this
      ensures
        match ReadValue(KindOf(f), bts)
        case None => o.None?
        case Some((v, rest)) => o == Some(rest) && GetRaw() == SetField(old(GetRaw()), f, v)
    {
      hide ReadValue, SetField;
      if Position(f) < 5 {
        o := UnmarshalFirst(f, bts);
      } else if Position(f) < 10 {
        o := UnmarshalSecond(f, bts);
      } else {
        o := UnmarshalThird(f, bts);
      }
    }

    method UnmarshalFirst(f: Field, bts: Bytes) returns (o: Option<Bytes>)
      requires Position(f) < 5
      modifies this
      ensures
        match ReadValue(KindOf(f), bts)
        case None => o.None?
        case Some((v, rest)) => o == Some(rest) && GetRaw() == SetField(old(GetRaw()), f, v)
    {
      hide ReadStr, ReadBin, ReadBool, ReadTime;
      match f {
        case FName => var d :- ReadStr(bts); name, o := d.0, Some(d.1);
        case FCreated => var d :- ReadTime(bts); created, o := Time(d.0, d.1), Some(d.2);
        case FLockEnabled => var d :- ReadBool(bts); lockEnabled, o := d.0, Some(d.1);
        case FPolicyConfigJSON => var d :- ReadBin(bts); policy, o := d.0, Some(d.1);
        case FNotificationConfigXML => var d :- ReadBin(bts); notification, o := d.0, Some(d.1);
      }
    }

    method UnmarshalSecond(f: Field, bts: Bytes) returns (o: Option<Bytes>)
      requires 5 <= Position(f) < 10
      modifies this
      ensures
        match ReadValue(KindOf(f), bts)
        case None => o.None?
        case Some((v, rest)) => o == Some(rest) && GetRaw() == SetField(old(GetRaw()), f, v)
    {
      hide ReadStr, ReadBin, ReadBool, ReadTime;
      match f {
        case FLifecycleConfigXML => var d :- ReadBin(bts); lifecycle, o := d.0, Some(d.1);
        case FObjectLockConfigXML => var d :- ReadBin(bts); objectLock, o := d.0, Some(d.1);
        case FVersioningConfigXML => var d :- ReadBin(bts); versioning, o := d.0, Some(d.1);
        case FEncryptionConfigXML => var d :- ReadBin(bts); encryption, o := d.0, Some(d.1);
        case FTaggingConfigXML => var d :- ReadBin(bts); tagging, o := d.0, Some(d.1);
      }
    }

    method UnmarshalThird(f: Field, bts: Bytes) returns (o: Option<Bytes>)
      requires 10 <= Position(f)
      modifies this
      ensures
        match ReadValue(KindOf(f), bts)
        case None => o.None?
        case Some((v, rest)) => o == Some(rest) && GetRaw() == SetField(old(GetRaw()), f, v)
    {
      hide ReadStr, ReadBin, ReadBool, ReadTime;
      match f {
        case FQuotaConfigJSON => var d :- ReadBin(bts); quota, o := d.0, Some(d.1);
        case FReplicationConfigXML => var d :- ReadBin(bts); replication, o := d.0, Some(d.1);
        case FBucketTargetsConfigJSON => var d :- ReadBin(bts); targets, o := d.0, Some(d.1);
        case FBucketTargetsConfigMetaJSON => var d :- ReadBin(bts); targetsMeta, o := d.0, Some(d.1);
      }
    }

    // One turn of the decode loop.
    method UnmarshalEntry(bts: Bytes) returns (o: Option<Bytes>)
      modifies this
      ensures
        match ReadEntry(SchemaOf(MetadataLayout()), bts)
        case None => o.None?
        case Some((a, rest)) => o == Some(rest) && GetRaw() == SetFields(old(GetRaw()), Logged(a))
    {
      hide ReadKey, Skip, ReadValue, FromAscii, Parse, SetField, KindOf;
      var k :- ReadKey(bts);
      match Parse(FromAscii(k.0)) {
        case Some(f) =>
          o := UnmarshalField(f, k.1);
        case None =>
          o := Skip(k.1);
      }
    }

    /** The decode loop carries out exactly the assignments the input asks
        for, and returns what is left of it. */
    method UnmarshalMsg(bts: Bytes) returns (o: Option<Bytes>)
      modifies this
      ensures
        match Decode(SchemaOf(MetadataLayout()), bts)
        case None => o.None?
        case Some((log, rest)) => o == Some(rest) && GetRaw() == SetFields(old(GetRaw()), log)
    {
      hide ReadEntry, ReadMapHead, SchemaOf, ReadEntries, Prepend, SetFields;
      ghost var c, before, log := SchemaOf(MetadataLayout()), GetRaw(), [];
      var h :- ReadMapHead(bts);
      var zb, left := h.0, h.1;
      PrependPrepend(log, log, ReadEntries(c, zb, left));
      NothingSet(before);
      while zb > 0
        invariant ReadEntries(c, h.0, h.1) == Prepend(log, ReadEntries(c, zb, left))
        invariant GetRaw() == SetFields(before, log)
      {
        ghost var e := ReadEntry(c, left);
        LoopTurn(c, log, zb, left, map[]);
        zb := zb - 1;
        left :- UnmarshalEntry(left);
        SetFieldsAppend(before, log, Logged(e.value.0));
        log := log + Logged(e.value.0);
      }
      LoopEnds(c, log, left);
      o := Some(left);
    }

    // ----- checks and file -----

    method Parses(p: Parsers, c: Config, data: Bytes) returns (ok: bool)
      ensures ok <==> Accepts(p, c, GetRaw(), data)
    {
      ok := |data| == 0 || p.valid(c, name, data);
    }

    method ParseAllConfigs(p: Parsers) returns (ok: bool)
      modifies this`versioning
      ensures (GetRaw(), ok) == Parsed(p, old(GetRaw()))
      ensures ok <==> AllParse(p, Forced(old(GetRaw())))
      ensures ok ==> GetRaw() == Forced(old(GetRaw()))
    {
      hide EnabledLock, EnabledVersioning, AllParse;
      ParsesExactly(p, GetRaw());
      ok := Parses(p, Policy, policy);
      if !ok { return; }
      ok := Parses(p, Notification, notification);
      if !ok { return; }
      ok := Parses(p, Lifecycle, lifecycle);
      if !ok { return; }
      ok := Parses(p, Encryption, encryption);
      if !ok { return; }
      ok := Parses(p, Tagging, tagging);
      if !ok { return; }
      if objectLock == EnabledLock() {
        versioning := EnabledVersioning();
      }
      ok := Parses(p, ObjectLock, objectLock);
      if !ok { return; }
      ok := Parses(p, Versioning, versioning);
      if !ok { return; }
      ok := Parses(p, Quota, quota);
      if !ok { return; }
      ok := Parses(p, Replication, replication);
      if !ok { return; }
      ok := |targets| == 0 || p.validTargets(name, targets, targetsMeta);
    }

    /** Load reports why there is no record, or holds exactly the one stored,
        under the name asked for. */
    method Load(file: Content, name: Bytes) returns (e: Option<LoadError>)
      modifies this
      ensures
        match LoadFile(old(GetRaw()), file, name)
        case Ok(r) => e.None? && GetRaw() == r
        case Err(x) => e == Some(x) && this.name == (if x == BadBody then name else old(this.name))
      ensures e.Some? && e.value != BadBody ==> GetRaw() == old(GetRaw())
      ensures e == Some(EmptyName) <==> name == []
      ensures name != [] ==>
        && (e == Some(ReadFailed) <==> file == Unreadable)
        && (e == Some(ConfigNotFound) <==> file == Missing || file == Data([]))
        && (e.None? || e == Some(BadBody) <==> file.Data? && |file.bytes| > 4 && file.bytes[..4] == [1, 0, 1, 0])
    {
      hide Decode, SchemaOf, SetFields;
      if |name| == 0 {
        return Some(EmptyName);
      }
      match file {
        case Unreadable => return Some(ReadFailed);
        case Missing => return Some(ConfigNotFound);
        case Data(data) =>
          if |data| == 0 {
            return Some(ConfigNotFound);
          }
          if CheckHeader(data).Some? {
            return Some(CheckHeader(data).value);
          }
          var rest := UnmarshalMsg(data[4..]);
          this.name := name;
          return if rest.None? then Some(BadBody) else None;
      }
    }

    /** Save checks the record and, if all of it parses and the write goes
        through, leaves exactly its file. */
    method Save(p: Parsers, file: Content, io: bool) returns (ok: bool, after: Content)
      modifies this`versioning
      ensures (GetRaw(), after, ok) == SaveStep(p, old(GetRaw()), file, io)
      ensures ok <==> io && AllParse(p, Forced(old(GetRaw())))
      ensures ok ==> GetRaw() == Forced(old(GetRaw())) && after == Data([1, 0, 1, 0] + Encoded(GetRaw(), 14))
      ensures !ok ==> after == file
    {
      hide EnabledLock, EnabledVersioning, Encoded, Parsed;
      ok := ParseAllConfigs(p);
      if !ok {
        return false, file;
      }
      var data := [1, 0, 1, 0];
      data := MarshalMsg(data);
      if !io {
        return false, file;
      }
      return true, Data(data);
    }
  }

  lemma NothingSet(r: Raw)
    ensures SetFields(r, []) == r
  {
  }

  lemma SetFieldsAppend(r: Raw, l: seq<(Field, Value)>, m: seq<(Field, Value)>)
    requires |m| <= 1
    ensures SetFields(r, l + m) == SetFields(SetFields(r, l), m)
  {
    hide SetField;
    if m == [] {
      assert l + m == l;
    } else {
      assert (l + m)[..|l|] == l;
      assert m[..0] == [];
    }
  }
}

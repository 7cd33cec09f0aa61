/** The in-memory bucket metadata over the object layer: what a cached record
    says is what a fresh load would say.  Loads converts legacy files, by
    BucketMigration; the whole runs start where none are left. */
module BucketMetadataSys {
  import opened Base
  import MessagePack
  import MessagePackMap
  import MessagePackValues
  import opened MessagePackStruct
  import opened BucketMetadata
  import opened BucketMigration

  // What does not change while the server runs.
  datatype Env = Env(p: Parsers, kms: bool, erasure: bool)

  // Short enough for the format's 32-bit lengths.
  predicate Fit(b: Bytes) { |b| < MessagePack.TWO32 }

  /** What the outside contributes to one call: the clock, an encryption of
      the targets (with its metadata), and whether the write goes through. */
  datatype Luck = Luck(now: Time, enc: Option<(Bytes, Bytes)>, io: bool) {
    predicate Valid() {
      enc.Some? ==> enc.value.1 != [] && Fit(enc.value.0) && Fit(enc.value.1)
    }
  }

  function Fresh(name: Bytes, now: Time): Raw { Raw(name, now, false, [], [], [], [], [], [], [], [], [], [], []) }

  // The same stored fields, whenever the record was made.
  predicate Same(a: Raw, b: Raw) { a.(created := b.created) == b }

  // ----- loading one bucket -----

  // convertLegacyConfigs without legacy files.
  ghost function ConvertStep(p: Parsers, r: Raw, file: Content, io: bool): (Raw, Content, bool) {
    if r.lockEnabled then
      SaveStep(p, r.(lockEnabled := false, objectLock := EnabledLock(), versioning := EnabledVersioning()), file, io)
    else (Parsed(p, r).0, file, Parsed(p, r).1)
  }

  predicate NeedsNoMigration(env: Env, r: Raw) { r.targets == [] || !env.kms || r.targetsMeta != [] }

  // migrateTargetConfig
  ghost function MigrateStep(env: Env, r: Raw, file: Content, luck: Luck): (Raw, Content, bool) {
    if NeedsNoMigration(env, r) then (r, file, true)
    else
      match luck.enc
      case None => (r, file, false)
      case Some((c, m)) => SaveStep(env.p, r.(targets := c, targetsMeta := m), file, luck.io)
  }

  ghost function AfterLoad(env: Env, r: Raw, file: Content, luck: Luck): (Raw, Content, bool) {
    var (q, f, ok) := ConvertStep(env.p, r, file, luck.io);
    if ok then MigrateStep(env, q, f, luck) else (q, f, false)
  }

  // loadBucketMetadata: the record, the file afterwards, and success.
  ghost function LoadStep(env: Env, name: Bytes, file: Content, luck: Luck): (Raw, Content, bool) {
    match LoadFile(Fresh(name, luck.now), file, name)
    case Ok(r) => AfterLoad(env, r, file, luck)
    case Err(ConfigNotFound) => AfterLoad(env, Fresh(name, luck.now), file, luck)
    case Err(_) => (Fresh(name, luck.now).(name := name), file, false)
  }

  method MigrateTargetConfig(b: BucketMetadata, env: Env, file: Content, luck: Luck) returns (ok: bool, after: Content)
    modifies b
    ensures (b.GetRaw(), after, ok) == MigrateStep(env, old(b.GetRaw()), file, luck)
  {
    hide SaveStep, AllParse, Forced, Encoded;
    if |b.targets| == 0 || !env.kms || |b.targetsMeta| != 0 {
      return true, file;
    }
    if luck.enc.None? {
      return false, file;
    }
    b.targets := luck.enc.value.0;
    b.targetsMeta := luck.enc.value.1;
    ok, after := b.Save(env.p, file, luck.io);
  }

  // What convertLegacyConfigs may make of a record: whichever order the map
  // of files is walked in.
  ghost predicate Converts(
      p: Parsers, r: Raw, file: Content, legacy: Legacy, io: bool, out: (Raw, Content, bool))
  {
    var configs := Collected(r.lockEnabled, legacy);
    if !Readable(legacy) then out == (r.(lockEnabled := false), file, false)
    else if configs == map[] then out == (Parsed(p, r).0, file, Parsed(p, r).1)
    else exists order :: Iterates(order, configs) && out == ConvertedIn(p, r, file, legacy, io, order)
  }

  ghost function ConvertedIn(
      p: Parsers, r: Raw, file: Content, legacy: Legacy, io: bool, order: seq<LegacyFile>): (Raw, Content, bool)
    requires Iterates(order, Collected(r.lockEnabled, legacy))
  {
    SaveStep(p, ApplyAll(r.(lockEnabled := false), Collected(r.lockEnabled, legacy), order), file, io)
  }

  // What loadBucketMetadata may answer, with legacy files around.
  ghost predicate Loads(
      env: Env, name: Bytes, file: Content, legacy: Legacy, luck: Luck, out: (Raw, Content, bool))
  {
    match LoadFile(Fresh(name, luck.now), file, name)
    case Ok(r) => LoadsFrom(env, r, file, legacy, luck, out)
    case Err(ConfigNotFound) => LoadsFrom(env, Fresh(name, luck.now), file, legacy, luck, out)
    case Err(_) => out.1 == file && !out.2
  }

  ghost predicate LoadsFrom(
      env: Env, r: Raw, file: Content, legacy: Legacy, luck: Luck, out: (Raw, Content, bool))
  {
    exists c :: Converts(env.p, r, file, legacy, luck.io, c) && out == Continued(env, c, luck)
  }

  ghost function Continued(env: Env, c: (Raw, Content, bool), luck: Luck): (Raw, Content, bool) {
    if c.2 then MigrateStep(env, c.0, c.1, luck) else c
  }

  /** loadBucketMetadata, with whatever legacy files there are; `stuck` are
      the ones whose deletion fails. */
  method LoadBucketMetadata(env: Env, name: Bytes, store: BucketStore, luck: Luck, stuck: set<LegacyFile>)
    returns (b: BucketMetadata, ok: bool)
    modifies store
    ensures fresh(b)
    ensures Loads(env, name, old(store.file), old(store.legacy), luck, (b.GetRaw(), store.file, ok))
    ensures Subset(store.legacy, old(store.legacy))
  {
    hide LoadFile, Converts, MigrateStep;
    b := new BucketMetadata(name, luck.now);
    var e := b.Load(store.file, name);
    if e.Some? && e.value != ConfigNotFound {
      return b, false;
    }
    ghost var r, file, legacy := b.GetRaw(), store.file, store.legacy;
    ok := Convert(b, store, env.p, luck.io, stuck);
    ghost var c := (b.GetRaw(), store.file, ok);
    if ok {
      ok, store.file := MigrateTargetConfig(b, env, store.file, luck);
    }
    assert Converts(env.p, r, file, legacy, luck.io, c) && (b.GetRaw(), store.file, ok) == Continued(env, c, luck);
  }

  method Convert(b: BucketMetadata, store: BucketStore, p: Parsers, io: bool, stuck: set<LegacyFile>)
    returns (ok: bool)
    modifies b, store
    ensures Converts(p, old(b.GetRaw()), old(store.file), old(store.legacy), io, (b.GetRaw(), store.file, ok))
    ensures Subset(store.legacy, old(store.legacy))
  {
    hide SaveStep, Parsed, EnabledLock, EnabledVersioning, ApplyAll, Collected, Readable, Iterates;
    ghost var r, file, legacy := b.GetRaw(), store.file, store.legacy;
    ghost var order;
    ok, order := ConvertLegacyConfigs(b, store, p, io, stuck);
    if Readable(legacy) && Collected(r.lockEnabled, legacy) != map[] {
      assert (b.GetRaw(), store.file, ok) == ConvertedIn(p, r, file, legacy, io, order);
    }
  }

  lemma NoLegacyConversion(r: Raw, order: seq<LegacyFile>)
    requires r.lockEnabled && Iterates(order, Collected(true, map[]))
    ensures ApplyAll(r.(lockEnabled := false), Collected(true, map[]), order)
         == r.(lockEnabled := false, objectLock := EnabledLock(), versioning := EnabledVersioning())
  {
    hide EnabledLock, EnabledVersioning, LegacyLockEnabled, Final;
    var c := Collected(true, map[]);
    assert c == map[ObjectLockFile := EnabledLock()];
    IterationIsFinal(r.(lockEnabled := false), c, order);
    OneFile(r.(lockEnabled := false), c);
  }

  lemma OneFile(r: Raw, c: Configs)
    requires c == map[ObjectLockFile := EnabledLock()]
    ensures Final(r, c, c.Keys) == r.(objectLock := EnabledLock(), versioning := EnabledVersioning())
  {
    hide EnabledLock, EnabledVersioning, LegacyLockEnabled;
  }

  lemma ConvertsWithoutLegacy(p: Parsers, r: Raw, file: Content, io: bool, out: (Raw, Content, bool))
    requires Converts(p, r, file, map[], io, out)
    ensures out == ConvertStep(p, r, file, io)
  {
    hide SaveStep, Parsed, EnabledLock, EnabledVersioning, ApplyAll, Collected, Readable, Iterates;
    NothingCollected();
    if r.lockEnabled {
      var order :| Iterates(order, Collected(true, map[])) && out == ConvertedIn(p, r, file, map[], io, order);
      NoLegacyConversion(r, order);
    }
  }

  /** Without legacy files there is one answer. */
  lemma LoadsWithoutLegacy(env: Env, name: Bytes, file: Content, luck: Luck, out: (Raw, Content, bool))
    requires Loads(env, name, file, map[], luck, out)
    ensures out.1 == LoadStep(env, name, file, luck).1 && out.2 == LoadStep(env, name, file, luck).2
    ensures out.2 ==> out == LoadStep(env, name, file, luck)
  {
    hide LoadFile, ConvertStep, MigrateStep, Converts;
    match LoadFile(Fresh(name, luck.now), file, name)
    case Ok(r) => LoadsFromWithoutLegacy(env, r, file, luck, out);
    case Err(ConfigNotFound) => LoadsFromWithoutLegacy(env, Fresh(name, luck.now), file, luck, out);
    case Err(_) =>
  }

  lemma LoadsFromWithoutLegacy(env: Env, r: Raw, file: Content, luck: Luck, out: (Raw, Content, bool))
    requires LoadsFrom(env, r, file, map[], luck, out)
    ensures out == AfterLoad(env, r, file, luck)
  {
    hide ConvertStep, MigrateStep, Converts;
    var c :| Converts(env.p, r, file, map[], luck.io, c) && out == Continued(env, c, luck);
    ConvertsWithoutLegacy(env.p, r, file, luck.io, c);
  }

  lemma NothingCollected()
    ensures Readable(map[])
    ensures Collected(false, map[]) == map[] && Collected(true, map[]) != map[]
  {
    hide EnabledLock;
    assert ObjectLockFile in Collected(true, map[]);
  }

  // ----- loading twice -----

  lemma {:induction false} SetFieldsSame(a: Raw, b: Raw, log: seq<(Field, MessagePackValues.Value)>)
    requires Same(a, b)
    ensures Same(SetFields(a, log), SetFields(b, log))
    decreases |log|
  {
    hide SetField, Same;
    if log != [] {
      SetFieldsSame(a, b, log[..|log| - 1]);
      SetFieldSame(SetFields(a, log[..|log| - 1]), SetFields(b, log[..|log| - 1]), log[|log| - 1].0, log[|log| - 1].1);
    }
  }

  lemma SetFieldSame(a: Raw, b: Raw, f: Field, v: MessagePackValues.Value)
    requires Same(a, b)
    ensures Same(SetField(a, f, v), SetField(b, f, v))
  {
  }

  lemma LoadFileSame(name: Bytes, file: Content, t1: Time, t2: Time)
    ensures
      match (LoadFile(Fresh(name, t1), file, name), LoadFile(Fresh(name, t2), file, name))
      case (Ok(a), Ok(b)) => Same(a, b) && a.name == name
      case (Err(x), Err(y)) => x == y
      case _ => false
  {
    hide MessagePackMap.Decode, SetFields;
    if file.Data? && |file.bytes| > 4 {
      var d := MessagePackMap.Decode(SchemaOf(MetadataLayout()), file.bytes[4..]);
      if d.Some? {
        SetFieldsSame(Fresh(name, t1), Fresh(name, t2), d.value.0);
      }
    }
  }

  lemma ParsedSame(p: Parsers, a: Raw, b: Raw)
    requires Same(a, b)
    ensures Same(Parsed(p, a).0, Parsed(p, b).0) && Parsed(p, a).1 == Parsed(p, b).1
  {
    hide EnabledLock, EnabledVersioning;
  }

  /** The file stands for the record: any load reads it, changes nothing, and
      gives the same fields. */
  ghost predicate Settled(env: Env, name: Bytes, file: Content, r: Raw) {
    forall luck :: SettledFor(env, name, file, r, luck)
  }

  ghost predicate SettledFor(env: Env, name: Bytes, file: Content, r: Raw, luck: Luck) {
    var (q, after, ok) := LoadStep(env, name, file, luck);
    ok && after == file && Same(q, r)
  }

  // A record in its final form, as every successful load or save leaves it.
  predicate Finished(env: Env, name: Bytes, r: Raw) {
    && name != [] && r.name == name && !r.lockEnabled
    && Parsed(env.p, r) == (r, true) && NeedsNoMigration(env, r)
  }

  lemma SavedSettles(env: Env, r: Raw)
    requires Finished(env, r.name, r) && Short(r)
    ensures Settled(env, r.name, Data(FileOf(r)), r)
  {
    hide LoadFile, Parsed, Short, Encoded, EnabledLock, EnabledVersioning;
    ShortName(r);
    forall luck ensures SettledFor(env, r.name, Data(FileOf(r)), r, luck) {
      FreshIsShort(r.name, luck.now);
      LoadSavedExactly(r, Fresh(r.name, luck.now));
    }
  }

  lemma ShortName(r: Raw)
    requires Short(r)
    ensures Fit(r.name)
  {}

  lemma FreshIsShort(name: Bytes, now: Time)
    requires Fit(name)
    ensures Short(Fresh(name, now))
  {}

  lemma EnabledIsShort()
    ensures Fit(EnabledLock()) && Fit(EnabledVersioning())
  {}

  lemma ForcedIsShort(r: Raw)
    requires Short(r)
    ensures Short(Forced(r))
    ensures Short(r.(lockEnabled := false, objectLock := EnabledLock(), versioning := EnabledVersioning()))
  {
    EnabledIsShort();
    hide EnabledLock, EnabledVersioning;
  }

  lemma SaveStepSaves(p: Parsers, r: Raw, file: Content, io: bool)
    ensures var (q, after, ok) := SaveStep(p, r, file, io);
      if ok then
        && after == Data(FileOf(q)) && Parsed(p, q) == (q, true)
        && VersionedIfLocked(q) && q == Forced(r)
      else after == file
  {
    hide EnabledLock, EnabledVersioning, Encoded, EarlyParse, LateParse;
    if Parsed(p, r).1 {
      ParsedTwice(p, r);
    }
  }

  lemma ForcedKeeps(r: Raw)
    ensures Forced(r).name == r.name && Forced(r).lockEnabled == r.lockEnabled
    ensures Forced(r).targets == r.targets && Forced(r).targetsMeta == r.targetsMeta
  {
    hide EnabledLock, EnabledVersioning;
  }

  // Conversion either leaves the file and parses, or saves.
  lemma ConvertSettles(env: Env, r: Raw, file: Content, io: bool)
    requires ConvertStep(env.p, r, file, io).2 && Short(r)
    ensures var (q, f, ok) := ConvertStep(env.p, r, file, io);
      && !q.lockEnabled && q.name == r.name && Short(q)
      && Parsed(env.p, q) == (q, true) && VersionedIfLocked(q)
      && (if r.lockEnabled then f == Data(FileOf(q)) else f == file && (q, true) == Parsed(env.p, r))
  {
    hide EnabledLock, EnabledVersioning, Short, Encoded, SaveStep, EarlyParse, LateParse, Forced;
    if r.lockEnabled {
      var r1 := r.(lockEnabled := false, objectLock := EnabledLock(), versioning := EnabledVersioning());
      SaveStepSaves(env.p, r1, file, io);
      ForcedKeeps(r1);
      ForcedIsShort(r);
      ForcedIsShort(r1);
    } else {
      ParsedTwice(env.p, r);
      ForcedKeeps(r);
      ForcedIsShort(r);
    }
  }

  lemma MigrateSettles(env: Env, r: Raw, file: Content, luck: Luck)
    requires luck.Valid() && MigrateStep(env, r, file, luck).2 && Short(r)
    requires !r.lockEnabled && Parsed(env.p, r) == (r, true) && VersionedIfLocked(r)
    ensures var (q, f, ok) := MigrateStep(env, r, file, luck);
      && !q.lockEnabled && q.name == r.name && NeedsNoMigration(env, q) && Short(q)
      && Parsed(env.p, q) == (q, true) && VersionedIfLocked(q)
      && (if NeedsNoMigration(env, r) then q == r && f == file else f == Data(FileOf(q)))
  {
    hide EnabledLock, EnabledVersioning, Short, Encoded, SaveStep, Parsed, VersionedIfLocked, Forced;
    if !NeedsNoMigration(env, r) {
      var r1 := r.(targets := luck.enc.value.0, targetsMeta := luck.enc.value.1);
      SaveStepSaves(env.p, r1, file, luck.io);
      ForcedKeeps(r1);
      WithTargetsIsShort(r, luck.enc.value.0, luck.enc.value.1);
      ForcedIsShort(r1);
    }
  }

  lemma WithTargetsIsShort(r: Raw, targets: Bytes, meta: Bytes)
    requires Short(r) && Fit(targets) && Fit(meta)
    ensures Short(r.(targets := targets, targetsMeta := meta))
  {}

  // The record a load starts from, whichever way the file is found.
  ghost predicate ReadAs(name: Bytes, file: Content, luck: Luck, r: Raw) {
    match LoadFile(Fresh(name, luck.now), file, name)
    case Ok(q) => r == q
    case Err(ConfigNotFound) => r == Fresh(name, luck.now)
    case Err(_) => false
  }

  lemma LoadStarts(env: Env, name: Bytes, file: Content, luck: Luck) returns (r: Raw)
    requires LoadStep(env, name, file, luck).2
    ensures ReadAs(name, file, luck, r) && r.name == name && name != []
    ensures LoadStep(env, name, file, luck) == AfterLoad(env, r, file, luck)
  {
    hide AfterLoad;
    LoadFileSame(name, file, luck.now, luck.now);
    match LoadFile(Fresh(name, luck.now), file, name)
    case Ok(q) => r := q; NamedOnly(name, file, luck);
    case Err(_) => r := Fresh(name, luck.now); NamedOnly(name, file, luck);
  }

  lemma NamedOnly(name: Bytes, file: Content, luck: Luck)
    ensures name == [] ==> LoadFile(Fresh(name, luck.now), file, name) == Err(EmptyName)
  {
    hide MessagePackMap.Decode;
  }

  ghost predicate LoadsAlike(env: Env, name: Bytes, file: Content, luck: Luck, r: Raw, r2: Raw) {
    Same(r, r2) && LoadStep(env, name, file, luck) == AfterLoad(env, r2, file, luck)
  }

  lemma LoadRepeats(env: Env, name: Bytes, file: Content, luck: Luck, again: Luck, r: Raw)
    requires ReadAs(name, file, luck, r)
    ensures exists r2 :: ReadAs(name, file, again, r2) && LoadsAlike(env, name, file, again, r, r2)
  {
    hide AfterLoad, LoadFile;
    LoadFileSame(name, file, luck.now, again.now);
    var l := LoadFile(Fresh(name, again.now), file, name);
    var r2 := if l.Ok? then l.value else Fresh(name, again.now);
    assert ReadAs(name, file, again, r2) && LoadsAlike(env, name, file, again, r, r2);
  }

  /** A load that succeeds leaves a file that stands for the record it
      returned, with versioning on wherever object locking is by default. */
  lemma LoadSettles(env: Env, name: Bytes, file: Content, luck: Luck)
    requires luck.Valid() && LoadStep(env, name, file, luck).2 && Fit(name)
    ensures var (r, after, ok) := LoadStep(env, name, file, luck);
      Settled(env, name, after, r) && Finished(env, name, r) && VersionedIfLocked(r) && Short(r)
  {
    hide LoadStep, ReadAs, ConvertStep, MigrateStep, NeedsNoMigration, Parsed, VersionedIfLocked, Short, Encoded,
      Settled;
    var r := LoadStarts(env, name, file, luck);
    ReadIsShort(name, file, luck, r);
    var (q, f, _) := ConvertStep(env.p, r, file, luck.io);
    var (z, after, _) := MigrateStep(env, q, f, luck);
    ConvertSettles(env, r, file, luck.io);
    MigrateSettles(env, q, f, luck);
    if r.lockEnabled || !NeedsNoMigration(env, q) {
      SavedSettles(env, z);
    } else {
      QuietLoadSettles(env, name, file, luck, r);
    }
  }

  lemma ReadIsShort(name: Bytes, file: Content, luck: Luck, r: Raw)
    requires ReadAs(name, file, luck, r) && Fit(name)
    ensures Short(r)
  {
    hide Short;
    FreshIsShort(name, luck.now);
    if file.Data? {
      LoadedFits(Fresh(name, luck.now), file.bytes, name);
    }
    EmptyReadsNothing(name, file, luck);
  }

  lemma EmptyReadsNothing(name: Bytes, file: Content, luck: Luck)
    ensures !file.Data? ==> LoadFile(Fresh(name, luck.now), file, name).Err?
  {
    hide MessagePackMap.Decode;
  }

  // A load that saved nothing finds the same again.
  lemma QuietLoadSettles(env: Env, name: Bytes, file: Content, luck: Luck, r: Raw)
    requires ReadAs(name, file, luck, r) && !r.lockEnabled && Parsed(env.p, r).1
    requires NeedsNoMigration(env, Parsed(env.p, r).0)
    ensures Settled(env, name, file, Parsed(env.p, r).0)
  {
    hide LoadStep, ReadAs, Parsed;
    forall again ensures SettledFor(env, name, file, Parsed(env.p, r).0, again) {
      LoadRepeats(env, name, file, luck, again, r);
      var r2 :| ReadAs(name, file, again, r2) && LoadsAlike(env, name, file, again, r, r2);
      ParsedSame(env.p, r, r2);
    }
  }

  // ----- the first load, with legacy files -----

  predicate LegacyFits(legacy: Legacy) { forall f :: f in legacy && legacy[f].Data? ==> Fit(legacy[f].bytes) }

  predicate Unlocked(q: Raw, name: Bytes) { !q.lockEnabled && q.name == name && Short(q) }

  lemma ApplyOneKeeps(r: Raw, f: LegacyFile, data: Bytes)
    requires !r.lockEnabled && Short(r) && Fit(data)
    ensures Unlocked(ApplyOne(r, f, data), r.name)
  {
    EnabledIsShort();
    hide EnabledLock, EnabledVersioning, LegacyLockEnabled;
  }

  lemma {:induction false} ApplyAllKeeps(r: Raw, c: Configs, order: seq<LegacyFile>)
    requires !r.lockEnabled && Short(r) && forall i :: 0 <= i < |order| ==> order[i] in c && Fit(c[order[i]])
    ensures Unlocked(ApplyAll(r, c, order), r.name)
    decreases |order|
  {
    hide ApplyOne, Short;
    if order != [] {
      ApplyAllKeeps(r, c, order[..|order| - 1]);
      ApplyOneKeeps(ApplyAll(r, c, order[..|order| - 1]), order[|order| - 1], c[order[|order| - 1]]);
    }
  }

  lemma CollectedFits(lockEnabled: bool, legacy: Legacy)
    requires LegacyFits(legacy)
    ensures forall f :: f in Collected(lockEnabled, legacy) ==> Fit(Collected(lockEnabled, legacy)[f])
  {
    EnabledIsShort();
    hide EnabledLock;
  }

  // A conversion that saves.
  lemma ConvertedInSettles(
      p: Parsers, r: Raw, file: Content, legacy: Legacy, io: bool, order: seq<LegacyFile>)
    requires Short(r) && LegacyFits(legacy) && Iterates(order, Collected(r.lockEnabled, legacy))
    requires ConvertedIn(p, r, file, legacy, io, order).2
    ensures var (q, f, ok) := ConvertedIn(p, r, file, legacy, io, order);
      && !q.lockEnabled && q.name == r.name && Short(q) && f == Data(FileOf(q))
      && Parsed(p, q) == (q, true) && VersionedIfLocked(q)
  {
    hide Collected, SaveStep, Short, Parsed, VersionedIfLocked, Encoded, ApplyAll, Forced, EnabledLock,
      EnabledVersioning, LegacyLockEnabled;
    CollectedFits(r.lockEnabled, legacy);
    UnflaggedIsShort(r);
    var a := ApplyAll(r.(lockEnabled := false), Collected(r.lockEnabled, legacy), order);
    ApplyAllKeeps(r.(lockEnabled := false), Collected(r.lockEnabled, legacy), order);
    SaveStepSaves(p, a, file, io);
    ForcedKeeps(a);
    ForcedIsShort(a);
  }

  lemma UnflaggedIsShort(r: Raw)
    requires Short(r)
    ensures Short(r.(lockEnabled := false))
  {}

  /** The first load of a bucket with legacy files, if it succeeds, settles it
      as any other load does: the file stands for the record. */
  lemma LegacyLoadSettles(
      env: Env, name: Bytes, file: Content, legacy: Legacy, luck: Luck, out: (Raw, Content, bool))
    requires Loads(env, name, file, legacy, luck, out) && out.2
    requires luck.Valid() && Fit(name) && LegacyFits(legacy)
    ensures Settled(env, name, out.1, out.0) && Finished(env, name, out.0) && VersionedIfLocked(out.0)
  {
    hide Settled, Collected, Parsed, VersionedIfLocked, MigrateStep, ConvertStep, NeedsNoMigration, Short, ConvertedIn,
      LoadFile, LoadStep, Encoded, Readable, Iterates;
    var r := ReadForLoad(env, name, file, legacy, luck, out);
    ReadIsShort(name, file, luck, r);
    var c :| Converts(env.p, r, file, legacy, luck.io, c) && out == Continued(env, c, luck);
    if Collected(r.lockEnabled, legacy) == map[] {
      NoFlagWithoutConfigs(r.lockEnabled, legacy);
      QuietConversion(env, r, file, luck, c);
      LoadIsAfterLoad(env, name, file, luck, r);
      LoadSettles(env, name, file, luck);
    } else {
      var order :| Iterates(order, Collected(r.lockEnabled, legacy))
        && c == ConvertedIn(env.p, r, file, legacy, luck.io, order);
      ConvertedInSettles(env.p, r, file, legacy, luck.io, order);
      MigrateSettles(env, c.0, c.1, luck);
      SavedSettles(env, out.0);
    }
  }

  lemma QuietConversion(env: Env, r: Raw, file: Content, luck: Luck, c: (Raw, Content, bool))
    requires !r.lockEnabled && c == (Parsed(env.p, r).0, file, Parsed(env.p, r).1)
    ensures c == ConvertStep(env.p, r, file, luck.io)
    ensures Continued(env, c, luck) == AfterLoad(env, r, file, luck)
  {
    hide Parsed, MigrateStep;
  }

  lemma ReadForLoad(env: Env, name: Bytes, file: Content, legacy: Legacy, luck: Luck, out: (Raw, Content, bool))
    returns (r: Raw)
    requires Loads(env, name, file, legacy, luck, out) && out.2
    ensures ReadAs(name, file, luck, r) && r.name == name && name != []
    ensures LoadsFrom(env, r, file, legacy, luck, out)
  {
    hide LoadsFrom;
    LoadFileSame(name, file, luck.now, luck.now);
    NamedOnly(name, file, luck);
    match LoadFile(Fresh(name, luck.now), file, name)
    case Ok(q) => r := q;
    case Err(_) => r := Fresh(name, luck.now);
  }

  lemma LoadIsAfterLoad(env: Env, name: Bytes, file: Content, luck: Luck, r: Raw)
    requires ReadAs(name, file, luck, r)
    ensures LoadStep(env, name, file, luck) == AfterLoad(env, r, file, luck)
  {
    hide AfterLoad, LoadFile;
  }

  // ----- the system -----

  // .minio.sys, which has no metadata of its own.
  function MetaBucket(): Bytes { Ascii(".minio.sys") }

  datatype SysState = SysState(cache: map<Bytes, Raw>, files: map<Bytes, Content>)

  function FileAt(s: SysState, b: Bytes): Content { if b in s.files then s.files[b] else Missing }

  ghost function GetStep(env: Env, s: SysState, b: Bytes, luck: Luck): (SysState, Option<Raw>) {
    if b == MetaBucket() then (s, None)
    else if b in s.cache then (s, Some(s.cache[b]))
    else Loading(env, s, b, luck)
  }

  // Load a bucket and keep what was loaded.
  ghost function Loading(env: Env, s: SysState, b: Bytes, luck: Luck): (SysState, Option<Raw>) {
    var (r, f, ok) := LoadStep(env, b, FileAt(s, b), luck);
    if ok then (SysState(s.cache[b := r], s.files[b := f]), Some(r)) else (s.(files := s.files[b := f]), None)
  }

  // Loading buckets one after the other.
  ghost function LoadAll(env: Env, s: SysState, buckets: seq<Bytes>, lucks: seq<Luck>): SysState
    requires |buckets| == |lucks|
  {
    if buckets == [] then s
    else
      var n := |buckets| - 1;
      Loading(env, LoadAll(env, s, buckets[..n], lucks[..n]), buckets[n], lucks[n]).0
  }

  function SetConfig(r: Raw, c: Config, data: Bytes, targetsMeta: Bytes): Raw {
    match c
    case Policy => r.(policy := data)
    case Notification => r.(notification := data)
    case Lifecycle => r.(lifecycle := data)
    case Encryption => r.(encryption := data)
    case Tagging => r.(tagging := data)
    case Quota => r.(quota := data)
    case ObjectLock => r.(objectLock := data)
    case Versioning => r.(versioning := data)
    case Replication => r.(replication := data)
    case Targets => r.(targets := data, targetsMeta := targetsMeta)
  }

  // The bytes Update stores for a configuration, and the targets' metadata.
  function Stored(env: Env, c: Config, data: Bytes, enc: Option<(Bytes, Bytes)>): Option<(Bytes, Bytes)> {
    if c != Targets || !env.kms then Some((data, [])) else enc
  }

  predicate ErasureOnly(c: Config) { c == ObjectLock || c == Versioning || c == Replication }

  // Update on the loaded record: None for a refusal.
  function Edited(env: Env, r: Raw, c: Option<Config>, data: Bytes, enc: Option<(Bytes, Bytes)>): Option<Raw> {
    if c.None? || (ErasureOnly(c.value) && !env.erasure) then None
    else
      match Stored(env, c.value, data, enc)
      case None => None
      case Some((bytes, meta)) => Some(SetConfig(r, c.value, bytes, meta))
  }

  // The state after an update, and the record kept if it succeeded.
  ghost function UpdateStep(env: Env, s: SysState, b: Bytes, c: Option<Config>, data: Bytes, load: Luck, save: Luck)
    : (SysState, Option<Raw>)
  {
    if b == MetaBucket() then (s, None)
    else
      var (r, f, ok) := LoadStep(env, b, FileAt(s, b), load);
      if ok then StoreEdit(env, s.(files := s.files[b := f]), b, Edited(env, r, c, data, save.enc), save.io)
      else (s.(files := s.files[b := f]), None)
  }

  ghost function StoreEdit(env: Env, s: SysState, b: Bytes, edited: Option<Raw>, io: bool): (SysState, Option<Raw>) {
    match edited
    case None => (s, None)
    case Some(q) =>
      var (z, f, saved) := SaveStep(env.p, q, FileAt(s, b), io);
      if saved then (SysState(s.cache[b := z], s.files[b := f]), Some(z))
      else (s.(files := s.files[b := f]), None)
  }

  // A new bucket, with or without object locking.
  ghost function MakeStep(env: Env, s: SysState, b: Bytes, lock: bool, luck: Luck): SysState {
    var r := Fresh(b, luck.now);
    var q := if lock then r.(versioning := EnabledVersioning(), objectLock := EnabledLock()) else r;
    var (z, f, saved) := SaveStep(env.p, q, FileAt(s, b), luck.io);
    SysState(if saved && b != MetaBucket() then s.cache[b := z] else s.cache, s.files[b := f])
  }

  datatype Event =
    | Get(bucket: Bytes, luck: Luck)
    | Reload(bucket: Bytes, luck: Luck)
    | LoadBuckets(buckets: seq<Bytes>, lucks: seq<Luck>)
    | Update(bucket: Bytes, config: Option<Config>, data: Bytes, load: Luck, save: Luck)
    | MakeBucket(bucket: Bytes, lock: bool, luck: Luck)
    | DeleteBucket(bucket: Bytes)
    | Remove(bucket: Bytes)
    | Reset

  ghost function Step(env: Env, s: SysState, e: Event): SysState {
    match e
    case Get(b, luck) => GetStep(env, s, b, luck).0
    case Reload(b, luck) => if b == MetaBucket() then s else Loading(env, s, b, luck).0
    case LoadBuckets(bs, ls) => if |bs| == |ls| && MetaBucket() !in bs then LoadAll(env, s, bs, ls) else s
    case Update(b, c, data, load, save) => UpdateStep(env, s, b, c, data, load, save).0
    case MakeBucket(b, lock, luck) => if b == [] then s else MakeStep(env, s, b, lock, luck)
    case DeleteBucket(b) => SysState(s.cache - {b}, s.files - {b})
    case Remove(b) => s.(cache := s.cache - {b})
    case Reset => s.(cache := map[])
  }

  // What is stored is short enough for the file format; an encryption has
  // metadata.
  predicate Proper(e: Event) {
    match e
    case Get(b, luck) => luck.Valid() && Fit(b)
    case Reload(b, luck) => luck.Valid() && Fit(b)
    case LoadBuckets(bs, ls) =>
      (forall i :: 0 <= i < |bs| ==> Fit(bs[i])) && (forall i :: 0 <= i < |ls| ==> ls[i].Valid())
    case Update(b, _, data, load, save) => load.Valid() && save.Valid() && Fit(b) && Fit(data)
    case MakeBucket(b, _, _) => Fit(b)
    case _ => true
  }

  // ----- coherence -----

  ghost predicate CoherentAt(env: Env, s: SysState, b: Bytes) {
    b in s.cache ==>
      Settled(env, b, FileAt(s, b), s.cache[b]) && VersionedIfLocked(s.cache[b])
  }

  ghost predicate Coherent(env: Env, s: SysState) { forall b :: CoherentAt(env, s, b) }

  // A step on one bucket leaves the others alone.
  lemma OthersUntouched(env: Env, s: SysState, b: Bytes, t: SysState)
    requires Coherent(env, s) && CoherentAt(env, t, b)
    requires forall x :: x != b ==> FileAt(t, x) == FileAt(s, x)
    requires forall x :: x != b && x in t.cache ==> x in s.cache && s.cache[x] == t.cache[x]
    ensures Coherent(env, t)
  {
    hide Settled, VersionedIfLocked, FileAt;
    forall x ensures CoherentAt(env, t, x) {
      assert CoherentAt(env, s, x);
    }
  }

  lemma LoadingKeeps(env: Env, s: SysState, b: Bytes, luck: Luck)
    requires Coherent(env, s) && luck.Valid() && Fit(b)
    ensures Coherent(env, Loading(env, s, b, luck).0)
  {
    hide LoadStep, Settled, VersionedIfLocked, Finished;
    var (r, f, ok) := LoadStep(env, b, FileAt(s, b), luck);
    if ok {
      LoadSettles(env, b, FileAt(s, b), luck);
    } else if b in s.cache {
      CachedLoads(env, s, b, luck);
    }
    OthersUntouched(env, s, b, Loading(env, s, b, luck).0);
  }

  // A cached bucket loads, and its file stays.
  lemma CachedLoads(env: Env, s: SysState, b: Bytes, luck: Luck)
    requires Coherent(env, s) && b in s.cache
    ensures SettledFor(env, b, FileAt(s, b), s.cache[b], luck)
  {
    hide LoadStep, VersionedIfLocked;
    assert CoherentAt(env, s, b);
  }

  // Every bucket of the list as if it had been loaded alone, and the rest as
  // they were.
  ghost predicate LoadedAlone(env: Env, s: SysState, buckets: seq<Bytes>, lucks: seq<Luck>, t: SysState)
    requires |buckets| == |lucks|
  {
    && (forall i :: 0 <= i < |buckets| ==> AloneAt(env, s, buckets[i], lucks[i], t))
    && (forall b :: b !in buckets ==> SameAt(s, t, b))
  }

  ghost predicate AloneAt(env: Env, s: SysState, b: Bytes, luck: Luck, t: SysState) {
    SameAt(Loading(env, s, b, luck).0, t, b)
  }

  // The two states agree on a bucket.
  predicate SameAt(s: SysState, t: SysState, b: Bytes) {
    && (b in s.files <==> b in t.files) && (b in s.files ==> s.files[b] == t.files[b])
    && (b in s.cache <==> b in t.cache) && (b in s.cache ==> s.cache[b] == t.cache[b])
  }

  predicate Distinct(buckets: seq<Bytes>) {
    forall i, j :: 0 <= i < j < |buckets| ==> buckets[i] != buckets[j]
  }

  lemma LoadingElsewhere(env: Env, s: SysState, b: Bytes, luck: Luck, x: Bytes)
    requires x != b
    ensures SameAt(s, Loading(env, s, b, luck).0, x)
  {
    hide LoadStep;
  }

  lemma LoadingFrom(env: Env, s: SysState, s2: SysState, b: Bytes, luck: Luck)
    requires SameAt(s, s2, b)
    ensures SameAt(Loading(env, s, b, luck).0, Loading(env, s2, b, luck).0, b)
  {
    hide LoadStep;
  }

  lemma {:induction false} LoadAllLoadsAlone(env: Env, s: SysState, buckets: seq<Bytes>, lucks: seq<Luck>)
    requires |buckets| == |lucks| && Distinct(buckets)
    ensures LoadedAlone(env, s, buckets, lucks, LoadAll(env, s, buckets, lucks))
    decreases |buckets|
  {
    hide Loading;
    if buckets != [] {
      var n := |buckets| - 1;
      var front, t := buckets[..n], LoadAll(env, s, buckets[..n], lucks[..n]);
      LoadAllLoadsAlone(env, s, front, lucks[..n]);
      var t' := Loading(env, t, buckets[n], lucks[n]).0;
      assert buckets[n] !in front;
      LoadingFrom(env, s, t, buckets[n], lucks[n]);
      forall i | 0 <= i < |buckets| ensures AloneAt(env, s, buckets[i], lucks[i], t') {
        if i < n {
          assert AloneAt(env, s, front[i], lucks[..n][i], t);
          LoadingElsewhere(env, t, buckets[n], lucks[n], buckets[i]);
        }
      }
      forall b | b !in buckets ensures SameAt(s, t', b) {
        assert b !in front && b != buckets[n];
        LoadingElsewhere(env, t, buckets[n], lucks[n], b);
      }
    }
  }

  // The list in another order.
  predicate Reorders(order: seq<nat>, n: nat) {
    && |order| == n
    && (forall i :: 0 <= i < n ==> order[i] < n)
    && (forall i, j :: 0 <= i < j < n ==> order[i] != order[j])
    && (forall k: nat :: k < n ==> k in order)
  }

  function InOrder<T>(xs: seq<T>, order: seq<nat>): seq<T>
    requires forall i :: 0 <= i < |order| ==> order[i] < |xs|
  {
    seq(|order|, i requires 0 <= i < |order| => xs[order[i]])
  }

  /** Loading a list of different buckets ends in the same state whatever
      order the loads take effect in. */
  lemma OrderOfLoadsIrrelevant(
      env: Env, s: SysState, buckets: seq<Bytes>, lucks: seq<Luck>, order: seq<nat>)
    requires |buckets| == |lucks| && Distinct(buckets) && Reorders(order, |buckets|)
    ensures LoadAll(env, s, InOrder(buckets, order), InOrder(lucks, order)) == LoadAll(env, s, buckets, lucks)
  {
    hide LoadAll, Loading, LoadedAlone;
    var bs, ls := InOrder(buckets, order), InOrder(lucks, order);
    var t, t2 := LoadAll(env, s, buckets, lucks), LoadAll(env, s, bs, ls);
    assert Distinct(bs);
    LoadAllLoadsAlone(env, s, buckets, lucks);
    LoadAllLoadsAlone(env, s, bs, ls);
    forall b
      ensures (b in t.files <==> b in t2.files) && (b in t.files ==> t.files[b] == t2.files[b])
      ensures (b in t.cache <==> b in t2.cache) && (b in t.cache ==> t.cache[b] == t2.cache[b])
    {
      AgreeAt(env, s, buckets, lucks, order, t, t2, b);
    }
    assert t.files == t2.files;
    assert t.cache == t2.cache;
  }

  lemma AgreeAt(env: Env, s: SysState, buckets: seq<Bytes>, lucks: seq<Luck>, order: seq<nat>,
                t: SysState, t2: SysState, b: Bytes)
    requires |buckets| == |lucks| && Reorders(order, |buckets|)
    requires LoadedAlone(env, s, buckets, lucks, t)
    requires LoadedAlone(env, s, InOrder(buckets, order), InOrder(lucks, order), t2)
    ensures SameAt(t, t2, b)
  {
    hide Loading;
    var bs := InOrder(buckets, order);
    if b in buckets {
      var k: nat :| k < |buckets| && buckets[k] == b;
      assert k in order;
      var i :| 0 <= i < |order| && order[i] == k;
      assert AloneAt(env, s, bs[i], InOrder(lucks, order)[i], t2);
      assert AloneAt(env, s, buckets[k], lucks[k], t);
    } else {
      assert forall i :: 0 <= i < |bs| ==> bs[i] in buckets;
      assert SameAt(s, t, b) && SameAt(s, t2, b);
    }
  }

  lemma {:induction false} LoadAllKeeps(env: Env, s: SysState, buckets: seq<Bytes>, lucks: seq<Luck>)
    requires |buckets| == |lucks| && Coherent(env, s)
    requires forall i :: 0 <= i < |lucks| ==> lucks[i].Valid() && Fit(buckets[i])
    ensures Coherent(env, LoadAll(env, s, buckets, lucks))
    decreases |buckets|
  {
    hide Loading, Coherent;
    if buckets != [] {
      var n := |buckets| - 1;
      LoadAllKeeps(env, s, buckets[..n], lucks[..n]);
      LoadingKeeps(env, LoadAll(env, s, buckets[..n], lucks[..n]), buckets[n], lucks[n]);
    }
  }

  lemma {:induction false} LoadAllCaches(env: Env, s: SysState, buckets: seq<Bytes>, lucks: seq<Luck>, b: Bytes)
    requires |buckets| == |lucks| && b !in buckets && b !in s.cache
    ensures b !in LoadAll(env, s, buckets, lucks).cache
    decreases |buckets|
  {
    hide LoadStep;
    if buckets != [] {
      var n := |buckets| - 1;
      LoadAllCaches(env, s, buckets[..n], lucks[..n], b);
    }
  }

  lemma EditedKeeps(env: Env, b: Bytes, r: Raw, c: Option<Config>, data: Bytes, enc: Option<(Bytes, Bytes)>)
    requires r.name == b && !r.lockEnabled && NeedsNoMigration(env, r) && Short(r) && Fit(data)
    requires enc.Some? ==> enc.value.1 != [] && Fit(enc.value.0) && Fit(enc.value.1)
    requires Edited(env, r, c, data, enc).Some?
    ensures var q := Edited(env, r, c, data, enc).value;
      q.name == b && !q.lockEnabled && NeedsNoMigration(env, q) && Short(q)
  {
  }

  // A record that is saved and kept.
  lemma SavedAndKept(env: Env, r: Raw, file: Content, io: bool)
    requires r.name != [] && !r.lockEnabled && NeedsNoMigration(env, r) && Short(r)
    requires SaveStep(env.p, r, file, io).2
    ensures var (z, f, ok) := SaveStep(env.p, r, file, io);
      Settled(env, r.name, f, z) && VersionedIfLocked(z) && z == Forced(r)
  {
    hide SaveStep, Settled, VersionedIfLocked, Short, Encoded, Forced, Parsed;
    SaveStepSaves(env.p, r, file, io);
    ForcedKeeps(r);
    ForcedIsShort(r);
    SavedSettles(env, SaveStep(env.p, r, file, io).0);
  }

  lemma StoreEditKeeps(env: Env, s: SysState, b: Bytes, edited: Option<Raw>, io: bool)
    requires Coherent(env, s)
    requires edited.Some? ==>
      && edited.value.name == b && b != [] && !edited.value.lockEnabled
      && NeedsNoMigration(env, edited.value) && Short(edited.value)
    ensures Coherent(env, StoreEdit(env, s, b, edited, io).0)
  {
    hide Settled, VersionedIfLocked, SaveStep, NeedsNoMigration, Forced, Short;
    if edited.Some? {
      SaveStepSaves(env.p, edited.value, FileAt(s, b), io);
      if SaveStep(env.p, edited.value, FileAt(s, b), io).2 {
        SavedAndKept(env, edited.value, FileAt(s, b), io);
      }
      assert CoherentAt(env, s, b);
      OthersUntouched(env, s, b, StoreEdit(env, s, b, edited, io).0);
    }
  }

  // The first half of an update: a load that is not kept.
  lemma LoadedStaysCoherent(env: Env, s: SysState, b: Bytes, load: Luck)
    requires Coherent(env, s)
    ensures Coherent(env, s.(files := s.files[b := LoadStep(env, b, FileAt(s, b), load).1]))
  {
    hide LoadStep, Settled, VersionedIfLocked;
    if b in s.cache {
      CachedLoads(env, s, b, load);
    }
    assert CoherentAt(env, s, b);
    OthersUntouched(env, s, b, s.(files := s.files[b := LoadStep(env, b, FileAt(s, b), load).1]));
  }

  lemma UpdateKeeps(env: Env, s: SysState, b: Bytes, c: Option<Config>, data: Bytes, load: Luck, save: Luck)
    requires Coherent(env, s) && load.Valid() && save.Valid() && Fit(b) && Fit(data)
    ensures Coherent(env, UpdateStep(env, s, b, c, data, load, save).0)
  {
    hide LoadStep, Short, Coherent, StoreEdit, Edited, NeedsNoMigration, Parsed, MetaBucket, Settled, VersionedIfLocked;
    if b != MetaBucket() {
      var (r, f, ok) := LoadStep(env, b, FileAt(s, b), load);
      LoadedStaysCoherent(env, s, b, load);
      if ok {
        LoadSettles(env, b, FileAt(s, b), load);
        var e := Edited(env, r, c, data, save.enc);
        if e.Some? {
          EditedKeeps(env, b, r, c, data, save.enc);
        }
        StoreEditKeeps(env, s.(files := s.files[b := f]), b, e, save.io);
      }
    }
  }

  lemma MakeKeeps(env: Env, s: SysState, b: Bytes, lock: bool, luck: Luck)
    requires Coherent(env, s) && b != [] && Fit(b)
    requires b !in s.cache || b != MetaBucket()
    ensures Coherent(env, MakeStep(env, s, b, lock, luck))
  {
    hide Settled, VersionedIfLocked, SaveStep, MetaBucket, EnabledLock, EnabledVersioning, Forced;
    var r := Fresh(b, luck.now);
    var q := if lock then r.(versioning := EnabledVersioning(), objectLock := EnabledLock()) else r;
    FreshIsShort(b, luck.now);
    ForcedIsShort(r);
    SaveStepSaves(env.p, q, FileAt(s, b), luck.io);
    if SaveStep(env.p, q, FileAt(s, b), luck.io).2 {
      SavedAndKept(env, q, FileAt(s, b), luck.io);
    }
    assert CoherentAt(env, s, b);
    OthersUntouched(env, s, b, MakeStep(env, s, b, lock, luck));
  }

  lemma ForgettingKeeps(env: Env, s: SysState, t: SysState, b: Bytes)
    requires Coherent(env, s) && t.cache.Keys <= s.cache.Keys && b !in t.cache
    requires forall x :: x in t.cache ==> t.cache[x] == s.cache[x]
    requires t.files == s.files || t.files == s.files - {b}
    ensures Coherent(env, t)
  {
    hide Settled, VersionedIfLocked;
    forall x ensures CoherentAt(env, t, x) {
      assert CoherentAt(env, s, x);
    }
  }

  predicate NoMeta(s: SysState) { MetaBucket() !in s.cache }

  lemma StepKeepsCoherent(env: Env, s: SysState, e: Event)
    requires Coherent(env, s) && NoMeta(s) && Proper(e)
    ensures Coherent(env, Step(env, s, e)) && NoMeta(Step(env, s, e))
  {
    hide Coherent, Loading, LoadAll, UpdateStep, MakeStep, MetaBucket;
    CacheGrowsOnly(env, s, e);
    match e
    case Get(b, luck) => LoadingKeeps(env, s, b, luck);
    case Reload(b, luck) => LoadingKeeps(env, s, b, luck);
    case LoadBuckets(bs, ls) =>
      if |bs| == |ls| && MetaBucket() !in bs { LoadAllKeeps(env, s, bs, ls); }
    case Update(b, c, data, load, save) => UpdateKeeps(env, s, b, c, data, load, save);
    case MakeBucket(b, lock, luck) =>
      if b != [] { MakeKeeps(env, s, b, lock, luck); }
    case DeleteBucket(b) => ForgettingKeeps(env, s, Step(env, s, e), b);
    case Remove(b) => ForgettingKeeps(env, s, Step(env, s, e), b);
    case Reset => ForgettingKeeps(env, s, Step(env, s, e), []);
  }

  lemma CacheGrowsOnly(env: Env, s: SysState, e: Event)
    requires NoMeta(s)
    ensures NoMeta(Step(env, s, e))
  {
    hide LoadStep, LoadAll, SaveStep, Edited, MetaBucket, EnabledLock, EnabledVersioning;
    if e.LoadBuckets? && |e.buckets| == |e.lucks| && MetaBucket() !in e.buckets {
      LoadAllCaches(env, s, e.buckets, e.lucks, MetaBucket());
    }
  }

  ghost function Run(env: Env, s: SysState, es: seq<Event>): SysState
    decreases |es|
  {
    if es == [] then s else Run(env, Step(env, s, es[0]), es[1..])
  }

  lemma {:induction false} RunKeepsCoherent(env: Env, s: SysState, es: seq<Event>)
    requires Coherent(env, s) && NoMeta(s) && forall i :: 0 <= i < |es| ==> Proper(es[i])
    ensures Coherent(env, Run(env, s, es)) && NoMeta(Run(env, s, es))
    decreases |es|
  {
    hide Coherent, NoMeta, Step;
    if es != [] {
      StepKeepsCoherent(env, s, es[0]);
      RunKeepsCoherent(env, Step(env, s, es[0]), es[1..]);
    }
  }

  // The answer has the fields a fresh load gives, which changes no file;
  // versioning is on if locked by default; and asking again changes nothing.
  ghost predicate AnswersLikeFreshLoad(env: Env, s: SysState, b: Bytes, r: Raw, again: Luck) {
    && SettledFor(env, b, FileAt(s, b), r, again)
    && VersionedIfLocked(r)
    && GetStep(env, s, b, again) == (s, Some(r))
  }

  /** After any history, over any files whatsoever: what GetConfig answers for
      a bucket has the stored fields that a fresh load gives then, whatever
      the circumstances of that load; it has versioning on if object locking
      is on by default; and loading changes no file. */
  lemma GetConfigIsFreshLoad(
      env: Env, files: map<Bytes, Content>, es: seq<Event>, b: Bytes, luck: Luck, again: Luck)
    requires luck.Valid() && Fit(b) && forall i :: 0 <= i < |es| ==> Proper(es[i])
    ensures var (s, r) := GetStep(env, Run(env, SysState(map[], files), es), b, luck);
      r.Some? ==> AnswersLikeFreshLoad(env, s, b, r.value, again)
  {
    hide LoadStep, Settled, SettledFor, VersionedIfLocked, MetaBucket;
    var s0 := SysState(map[], files);
    assert Coherent(env, s0);
    RunKeepsCoherent(env, s0, es);
    var s1 := Run(env, s0, es);
    LoadingKeeps(env, s1, b, luck);
    var (s, r) := GetStep(env, s1, b, luck);
    if r.Some? {
      assert CoherentAt(env, s, b);
      SettledMeans(env, b, FileAt(s, b), r.value, again);
    }
  }

  lemma SettledMeans(env: Env, name: Bytes, file: Content, r: Raw, luck: Luck)
    requires Settled(env, name, file, r)
    ensures SettledFor(env, name, file, r, luck)
  {
    hide SettledFor;
  }

  // ----- when a call succeeds -----

  // The record a load ends with, before its targets are encrypted.
  function Converted(r: Raw): Raw {
    Forced(if r.lockEnabled
           then r.(lockEnabled := false, objectLock := EnabledLock(), versioning := EnabledVersioning()) else r)
  }

  function Encrypted(r: Raw, enc: (Bytes, Bytes)): Raw { Forced(r.(targets := enc.0, targetsMeta := enc.1)) }

  /** A load succeeds exactly if the file reads as a record or there is none,
      every configuration set in it parses, and what has to be saved can be:
      an old lock flag turned into a configuration, and plain targets
      encrypted, which have to parse once more.  It answers that record. */
  lemma LoadsExactly(env: Env, name: Bytes, file: Content, luck: Luck, r: Raw)
    requires ReadAs(name, file, luck, r)
    ensures var q := Converted(r);
      var encrypts := q.targets != [] && env.kms && q.targetsMeta == [];
      var (z, _, ok) := LoadStep(env, name, file, luck);
      && (ok <==>
            && AllParse(env.p, q) && (r.lockEnabled ==> luck.io)
            && (encrypts ==> luck.enc.Some? && luck.io && AllParse(env.p, Encrypted(q, luck.enc.value))))
      && (ok ==> z == if encrypts then Encrypted(q, luck.enc.value) else q)
  {
    hide EnabledLock, EnabledVersioning, Encoded, Parsed, AllParse, LoadFile, Forced;
    var r1 := if r.lockEnabled
      then r.(lockEnabled := false, objectLock := EnabledLock(), versioning := EnabledVersioning()) else r;
    ParsesExactly(env.p, r1);
    if luck.enc.Some? {
      ParsesExactly(env.p, Converted(r).(targets := luck.enc.value.0, targetsMeta := luck.enc.value.1));
    }
  }

  // Without a record to start from there is nothing to load.
  lemma UnreadableNeverLoads(env: Env, name: Bytes, file: Content, luck: Luck)
    ensures LoadStep(env, name, file, luck).2 ==> exists r :: ReadAs(name, file, luck, r)
  {
    if LoadStep(env, name, file, luck).2 {
      var r := LoadStarts(env, name, file, luck);
    }
  }

  // What an update of a loaded record needs to succeed: a known configuration,
  // one for erasure only there, an encryption of targets under a KMS, a record
  // that parses, and a write that goes through.
  ghost predicate UpdateAllowed(env: Env, r: Raw, c: Option<Config>, data: Bytes, save: Luck) {
    && c.Some?
    && (c.value == ObjectLock || c.value == Versioning || c.value == Replication ==> env.erasure)
    && (c.value == Targets && env.kms ==> save.enc.Some?)
    && save.io
    && var (bytes, meta) := if c.value == Targets && env.kms then save.enc.value else (data, []);
       AllParse(env.p, Forced(SetConfig(r, c.value, bytes, meta)))
  }

  /** An update succeeds exactly if the bucket is not the system's, its
      metadata loads, and the update is allowed. */
  lemma UpdateSucceedsExactly(
      env: Env, s: SysState, b: Bytes, c: Option<Config>, data: Bytes, load: Luck, save: Luck)
    ensures var (r, _, ok) := LoadStep(env, b, FileAt(s, b), load);
      UpdateStep(env, s, b, c, data, load, save).1.Some? <==>
        b != MetaBucket() && ok && UpdateAllowed(env, r, c, data, save)
  {
    hide LoadStep, EnabledLock, EnabledVersioning, Encoded, Parsed, AllParse, Forced, MetaBucket, SetConfig;
    var (r, _, ok) := LoadStep(env, b, FileAt(s, b), load);
    var e := Edited(env, r, c, data, save.enc);
    if e.Some? {
      ParsesExactly(env.p, e.value);
    }
  }

  // ----- what was saved last is what is answered -----

  // The bucket's file is z's, and z is what is cached, if anything is.
  ghost predicate Stands(env: Env, s: SysState, b: Bytes, z: Raw) {
    && FileAt(s, b) == Data(FileOf(z)) && Finished(env, b, z) && Short(z)
    && (b in s.cache ==> s.cache[b] == z)
  }

  // Any load of such a file gives z and leaves the file alone.
  lemma StoredLoads(env: Env, b: Bytes, z: Raw, luck: Luck)
    requires Finished(env, b, z) && Short(z)
    ensures LoadStep(env, b, Data(FileOf(z)), luck) == (z, Data(FileOf(z)), true)
  {
    hide LoadFile, Parsed, Short, Encoded, EnabledLock, EnabledVersioning;
    ShortName(z);
    FreshIsShort(b, luck.now);
    LoadSavedExactly(z, Fresh(b, luck.now));
  }

  // A record that has been saved, as SavedAndKept has it.
  lemma SavedStands(env: Env, r: Raw, file: Content, io: bool)
    requires r.name != [] && !r.lockEnabled && NeedsNoMigration(env, r) && Short(r)
    requires SaveStep(env.p, r, file, io).2
    ensures var (z, f, _) := SaveStep(env.p, r, file, io);
      f == Data(FileOf(z)) && Finished(env, r.name, z) && Short(z)
  {
    hide SaveStep, Short, Encoded, Forced, Parsed;
    SaveStepSaves(env.p, r, file, io);
    ForcedKeeps(r);
    ForcedIsShort(r);
  }

  // The event stores nothing for the bucket: it is another bucket's, or a
  // load, or takes things out of the cache, or is an update that fails.
  ghost predicate StoresNothing(env: Env, s: SysState, e: Event, b: Bytes) {
    match e
    case Update(x, c, data, load, save) => x == b ==> UpdateStep(env, s, x, c, data, load, save).1.None?
    case MakeBucket(x, _, _) => x != b
    case DeleteBucket(x) => x != b
    case _ => true
  }

  ghost predicate NothingStored(env: Env, s: SysState, es: seq<Event>, b: Bytes)
    decreases |es|
  {
    es == [] || (StoresNothing(env, s, es[0], b) && NothingStored(env, Step(env, s, es[0]), es[1..], b))
  }

  lemma LoadingStands(env: Env, s: SysState, x: Bytes, luck: Luck, b: Bytes, z: Raw)
    requires Stands(env, s, b, z)
    ensures Stands(env, Loading(env, s, x, luck).0, b, z)
    ensures x == b ==> Loading(env, s, x, luck).1 == Some(z)
  {
    hide LoadStep, Finished, Short, Encoded;
    StoredLoads(env, b, z, luck);
  }

  lemma {:induction false} LoadAllStands(
      env: Env, s: SysState, bs: seq<Bytes>, ls: seq<Luck>, b: Bytes, z: Raw)
    requires |bs| == |ls| && Stands(env, s, b, z)
    ensures Stands(env, LoadAll(env, s, bs, ls), b, z)
    decreases |bs|
  {
    hide Loading, Stands;
    if bs != [] {
      var n := |bs| - 1;
      LoadAllStands(env, s, bs[..n], ls[..n], b, z);
      LoadingStands(env, LoadAll(env, s, bs[..n], ls[..n]), bs[n], ls[n], b, z);
    }
  }

  lemma UpdateStands(env: Env, s: SysState, x: Bytes, c: Option<Config>, data: Bytes, load: Luck, save: Luck,
                     b: Bytes, z: Raw)
    requires Stands(env, s, b, z)
    requires x == b ==> UpdateStep(env, s, x, c, data, load, save).1.None?
    ensures Stands(env, UpdateStep(env, s, x, c, data, load, save).0, b, z)
  {
    hide LoadStep, Finished, Short, SaveStep, Edited, MetaBucket, Encoded;
    StoredLoads(env, b, z, load);
    if x == b && x != MetaBucket() {
      var e := Edited(env, LoadStep(env, b, FileAt(s, b), load).0, c, data, save.enc);
      if e.Some? {
        SaveStepSaves(env.p, e.value, FileAt(s, b), save.io);
      }
    }
  }

  lemma StepStands(env: Env, s: SysState, e: Event, b: Bytes, z: Raw)
    requires Stands(env, s, b, z) && StoresNothing(env, s, e, b)
    ensures Stands(env, Step(env, s, e), b, z)
  {
    hide Loading, LoadAll, UpdateStep, MetaBucket, Finished, Short, Encoded, SaveStep, EnabledLock, EnabledVersioning;
    match e
    case Get(x, luck) => LoadingStands(env, s, x, luck, b, z);
    case Reload(x, luck) => LoadingStands(env, s, x, luck, b, z);
    case LoadBuckets(bs, ls) => if |bs| == |ls| { LoadAllStands(env, s, bs, ls, b, z); }
    case Update(x, c, data, load, save) => UpdateStands(env, s, x, c, data, load, save, b, z);
    case _ =>
  }

  lemma {:induction false} RunStands(env: Env, s: SysState, es: seq<Event>, b: Bytes, z: Raw)
    requires Stands(env, s, b, z) && NothingStored(env, s, es, b)
    ensures Stands(env, Run(env, s, es), b, z)
    decreases |es|
  {
    hide Stands, StoresNothing, Step;
    if es != [] {
      StepStands(env, s, es[0], b, z);
      RunStands(env, Step(env, s, es[0]), es[1..], b, z);
    }
  }

  // The event stores z for the bucket: an update or a creation that succeeds.
  ghost predicate Stores(env: Env, s: SysState, e: Event, b: Bytes, z: Raw) {
    match e
    case Update(x, c, data, load, save) => x == b && UpdateStep(env, s, x, c, data, load, save).1 == Some(z)
    case MakeBucket(x, lock, luck) => x == b && b != [] && b != MetaBucket() && MadeAs(env, b, lock, luck, z)
    case _ => false
  }

  // A bucket is made: its record parses and is written.
  ghost predicate MadeAs(env: Env, b: Bytes, lock: bool, luck: Luck, z: Raw) {
    && z == NewRecord(b, lock, luck.now) && luck.io && AllParse(env.p, z)
  }

  function NewRecord(b: Bytes, lock: bool, now: Time): Raw {
    if lock then Fresh(b, now).(versioning := EnabledVersioning(), objectLock := EnabledLock()) else Fresh(b, now)
  }

  lemma NewRecordIsForced(b: Bytes, lock: bool, now: Time)
    requires EnabledLock() != []
    ensures Forced(NewRecord(b, lock, now)) == NewRecord(b, lock, now)
  {
    hide EnabledLock, EnabledVersioning;
  }

  lemma LockIsNotEmpty()
    ensures EnabledLock() != []
  {}

  lemma MadeStands(env: Env, s: SysState, b: Bytes, lock: bool, luck: Luck, z: Raw)
    requires b != [] && b != MetaBucket() && Fit(b) && MadeAs(env, b, lock, luck, z)
    ensures Stands(env, MakeStep(env, s, b, lock, luck), b, z)
  {
    hide MetaBucket, EnabledLock, EnabledVersioning, Forced, Parsed, AllParse, Encoded, Short, Finished;
    LockIsNotEmpty();
    NewRecordIsForced(b, lock, luck.now);
    FreshIsShort(b, luck.now);
    ForcedIsShort(Fresh(b, luck.now));
    ParsesExactly(env.p, z);
    SavedStands(env, z, FileAt(s, b), luck.io);
  }

  lemma UpdatedStands(env: Env, s: SysState, b: Bytes, c: Option<Config>, data: Bytes, load: Luck, save: Luck, z: Raw)
    requires UpdateStep(env, s, b, c, data, load, save).1 == Some(z)
    requires load.Valid() && save.Valid() && Fit(b) && Fit(data)
    ensures Stands(env, UpdateStep(env, s, b, c, data, load, save).0, b, z)
  {
    hide LoadStep, Settled, VersionedIfLocked, MetaBucket, Forced, Parsed, Short, SaveStep, Edited, NeedsNoMigration,
      Encoded;
    var (r, f, ok) := LoadStep(env, b, FileAt(s, b), load);
    LoadSettles(env, b, FileAt(s, b), load);
    EditedKeeps(env, b, r, c, data, save.enc);
    SavedStands(env, Edited(env, r, c, data, save.enc).value, f, save.io);
  }

  /** Once a record is stored for a bucket, by an update or its creation, then
      whatever is loaded, forgotten or reset, done to other buckets, or fails,
      GetConfig answers that record. */
  lemma LastStoredIsAnswered(env: Env, s: SysState, e: Event, b: Bytes, z: Raw, es: seq<Event>, luck: Luck)
    requires Stores(env, s, e, b, z) && Proper(e) && NothingStored(env, Step(env, s, e), es, b)
    ensures var t := Run(env, Step(env, s, e), es);
      && b != MetaBucket()
      && (b in t.cache ==> t.cache[b] == z)
      && LoadStep(env, b, FileAt(t, b), luck) == (z, FileAt(t, b), true)
      && GetStep(env, t, b, luck).1 == Some(z)
  {
    hide LoadStep, Finished, Short, Encoded, MetaBucket, UpdateStep, MakeStep, MadeAs, Loading;
    match e {
      case Update(_, c, data, load, save) =>
        UpdatedStands(env, s, b, c, data, load, save, z);
        UpdatedIsNotMeta(env, s, b, c, data, load, save);
      case MakeBucket(_, lock, l) => MadeStands(env, s, b, lock, l, z);
    }
    RunStands(env, Step(env, s, e), es, b, z);
    var t := Run(env, Step(env, s, e), es);
    LoadingStands(env, t, b, luck, b, z);
    StoredLoads(env, b, z, luck);
  }

  lemma UpdatedIsNotMeta(env: Env, s: SysState, b: Bytes, c: Option<Config>, data: Bytes, load: Luck, save: Luck)
    ensures b == MetaBucket() ==> UpdateStep(env, s, b, c, data, load, save).1.None?
  {
    hide MetaBucket;
  }

  /** Loading a list of different buckets keeps exactly those whose load
      succeeds, each with the record its own load gives. */
  lemma LoadAllExactly(env: Env, s: SysState, buckets: seq<Bytes>, lucks: seq<Luck>, i: nat)
    requires |buckets| == |lucks| && Distinct(buckets) && i < |buckets|
    ensures var t := LoadAll(env, s, buckets, lucks);
      var (r, f, ok) := LoadStep(env, buckets[i], FileAt(s, buckets[i]), lucks[i]);
      && FileAt(t, buckets[i]) == f
      && (buckets[i] in t.cache <==> ok || buckets[i] in s.cache)
      && (ok ==> t.cache[buckets[i]] == r)
  {
    hide LoadStep, LoadAll;
    LoadAllLoadsAlone(env, s, buckets, lucks);
    assert AloneAt(env, s, buckets[i], lucks[i], LoadAll(env, s, buckets, lucks));
  }

  // z is r with one configuration stored anew.
  predicate OnlyChanged(env: Env, r: Raw, z: Raw, c: Config, data: Bytes, enc: Option<(Bytes, Bytes)>) {
    && Stored(env, c, data, enc).Some?
    && z.name == r.name && z.created == r.created && z.lockEnabled == r.lockEnabled
    && z.targetsMeta == (if c == Targets then Stored(env, c, data, enc).value.1 else r.targetsMeta)
    && forall k ::
         ConfigOf(z, k) ==
           if k == Versioning && z.objectLock == EnabledLock() then EnabledVersioning()
           else if k == c then Stored(env, c, data, enc).value.0
           else ConfigOf(r, k)
  }

  /** A successful update stores the data given and leaves every other
      configuration as a load has it, except that object locking by default
      brings versioning with it. */
  lemma UpdateChangesOnly(
      env: Env, s: SysState, b: Bytes, c: Option<Config>, data: Bytes, load: Luck, save: Luck, z: Raw)
    requires UpdateStep(env, s, b, c, data, load, save).1 == Some(z)
    ensures c.Some? && OnlyChanged(env, LoadStep(env, b, FileAt(s, b), load).0, z, c.value, data, save.enc)
  {
    hide LoadStep, SaveStep, EnabledLock, EnabledVersioning, MetaBucket, Parsed, OnlyChanged;
    var (r, f, ok) := LoadStep(env, b, FileAt(s, b), load);
    var q := Edited(env, r, c, data, save.enc).value;
    SaveStepSaves(env.p, q, f, save.io);
    ForcedEditOnlyChanges(env, r, c.value, data, save.enc);
  }

  lemma ForcedEditOnlyChanges(env: Env, r: Raw, c: Config, data: Bytes, enc: Option<(Bytes, Bytes)>)
    requires Stored(env, c, data, enc).Some?
    ensures var (bytes, meta) := Stored(env, c, data, enc).value;
      OnlyChanged(env, r, Forced(SetConfig(r, c, bytes, meta)), c, data, enc)
  {
    hide EnabledLock, EnabledVersioning;
  }

  // ----- the class -----

  class ObjectLayer {
    var files: map<Bytes, Content>

    constructor (files: map<Bytes, Content>)
      ensures this.files == files
    {
      this.files := files;
    }
  }

  // The assignments of Update's switch.
  method ApplyConfig(meta: BucketMetadata, c: Config, data: Bytes, targetsMeta: Bytes)
    modifies meta
    ensures meta.GetRaw() == SetConfig(old(meta.GetRaw()), c, data, targetsMeta)
  {
    match c {
      case Policy => meta.policy := data;
      case Notification => meta.notification := data;
      case Lifecycle => meta.lifecycle := data;
      case Encryption => meta.encryption := data;
      case Tagging => meta.tagging := data;
      case Quota => meta.quota := data;
      case ObjectLock => meta.objectLock := data;
      case Versioning => meta.versioning := data;
      case Replication => meta.replication := data;
      case Targets => meta.targets := data; meta.targetsMeta := targetsMeta;
    }
  }

  lemma {:induction false} LoadAllAppend(
      env: Env, s: SysState, b1: seq<Bytes>, l1: seq<Luck>, b2: seq<Bytes>, l2: seq<Luck>)
    requires |b1| == |l1| && |b2| == |l2|
    ensures LoadAll(env, s, b1 + b2, l1 + l2) == LoadAll(env, LoadAll(env, s, b1, l1), b2, l2)
    decreases |b2|
  {
    hide Loading;
    if b2 == [] {
      assert b1 + b2 == b1 && l1 + l2 == l1;
    } else {
      var n := |b2| - 1;
      assert (b1 + b2)[..|b1| + n] == b1 + b2[..n] && (l1 + l2)[..|b1| + n] == l1 + l2[..n];
      LoadAllAppend(env, s, b1, l1, b2[..n], l2[..n]);
    }
  }

  class BucketMetadataSys {
    const env: Env
    const api: ObjectLayer
    var metadataMap: map<Bytes, Raw>

    constructor (env: Env, api: ObjectLayer)
      ensures this.env == env && this.api == api
      ensures State() == SysState(map[], api.files)
    {
      this.env, this.api, metadataMap := env, api, map[];
    }

    function State(): SysState
      reads this, api
    {
      SysState(metadataMap, api.files)
    }

    method Remove(bucket: Bytes)
      modifies this
      ensures State() == old(State()).(cache := old(State()).cache - {bucket})
    {
      metadataMap := metadataMap - {bucket};
    }

    method Reset()
      modifies this
      ensures State() == old(State()).(cache := map[])
    {
      metadataMap := map[];
    }

    method Set(bucket: Bytes, meta: Raw)
      modifies this
      ensures State() ==
        if bucket == MetaBucket() then old(State())
        else old(State()).(cache := old(State()).cache[bucket := meta])
    {
      if bucket != MetaBucket() {
        metadataMap := metadataMap[bucket := meta];
      }
    }

    // loadBucketMetadata on the object layer, its file written back.
    method LoadFrom(bucket: Bytes, luck: Luck) returns (meta: BucketMetadata, ok: bool)
      modifies api
      ensures fresh(meta) && metadataMap == old(metadataMap)
      ensures api.files == old(api.files)[bucket := LoadStep(env, bucket, FileAt(old(State()), bucket), luck).1]
      ensures ok == LoadStep(env, bucket, FileAt(old(State()), bucket), luck).2
      ensures ok ==> meta.GetRaw() == LoadStep(env, bucket, FileAt(old(State()), bucket), luck).0
    {
      hide LoadStep, Loads;
      var file := if bucket in api.files then api.files[bucket] else Missing;
      var store := new BucketStore(file, map[]);
      meta, ok := LoadBucketMetadata(env, bucket, store, luck, {});
      LoadsWithoutLegacy(env, bucket, file, luck, (meta.GetRaw(), store.file, ok));
      api.files := api.files[bucket := store.file];
    }

    method GetConfig(bucket: Bytes, luck: Luck) returns (r: Option<Raw>)
      modifies this, api
      ensures (State(), r) == GetStep(env, old(State()), bucket, luck)
      ensures bucket == MetaBucket() ==> r == None && State() == old(State())
      ensures bucket != MetaBucket() && bucket in old(metadataMap) ==>
        r == Some(old(metadataMap)[bucket]) && State() == old(State())
      ensures bucket != MetaBucket() && bucket !in old(metadataMap) ==>
        var (z, f, ok) := LoadStep(env, bucket, FileAt(old(State()), bucket), luck);
        && r == (if ok then Some(z) else None)
        && metadataMap == (if ok then old(metadataMap)[bucket := z] else old(metadataMap))
        && api.files == old(api.files)[bucket := f]
    {
      hide LoadStep, MetaBucket;
      if bucket == MetaBucket() {
        return None;
      }
      if bucket in metadataMap {
        return Some(metadataMap[bucket]);
      }
      var meta, ok := LoadFrom(bucket, luck);
      if !ok {
        return None;
      }
      metadataMap := metadataMap[bucket := meta.GetRaw()];
      return Some(meta.GetRaw());
    }

    method Update(bucket: Bytes, config: Option<Config>, data: Bytes, load: Luck, save: Luck) returns (ok: bool)
      modifies this, api
      ensures State() == UpdateStep(env, old(State()), bucket, config, data, load, save).0
      ensures ok <==> UpdateStep(env, old(State()), bucket, config, data, load, save).1.Some?
      ensures var (r, _, loaded) := LoadStep(env, bucket, FileAt(old(State()), bucket), load);
        ok <==> bucket != MetaBucket() && loaded && UpdateAllowed(env, r, config, data, save)
    {
      hide LoadStep, SaveStep, MetaBucket, SetConfig, AllParse, Forced, Encoded, UpdateAllowed, Edited, StoreEdit;
      UpdateSucceedsExactly(env, State(), bucket, config, data, load, save);
      if bucket == MetaBucket() {
        return false;
      }
      var meta;
      meta, ok := LoadFrom(bucket, load);
      if !ok {
        return;
      }
      ok := Store(bucket, meta, config, data, save);
    }

    // The rest of Update, on the loaded record.
    method Store(bucket: Bytes, meta: BucketMetadata, config: Option<Config>, data: Bytes, save: Luck)
      returns (ok: bool)
      requires bucket != MetaBucket() && bucket in api.files
      modifies this, api, meta
      ensures var (s, z) :=
          StoreEdit(env, old(State()), bucket, Edited(env, old(meta.GetRaw()), config, data, save.enc), save.io);
        State() == s && (ok <==> z.Some?)
    {
      hide SaveStep, MetaBucket, SetConfig, AllParse, Forced, Encoded;
      if config.None? {
        return false;
      }
      var c := config.value;
      if ErasureOnly(c) && !env.erasure {
        return false;
      }
      var bytes, targetsMeta := data, [];
      if c == Targets && env.kms {
        if save.enc.None? {
          return false;
        }
        bytes, targetsMeta := save.enc.value.0, save.enc.value.1;
      }
      ApplyConfig(meta, c, bytes, targetsMeta);
      var file;
      ok, file := meta.Save(env.p, api.files[bucket], save.io);
      api.files := api.files[bucket := file];
      if !ok {
        return;
      }
      Set(bucket, meta.GetRaw());
    }

    /** Each bucket of the batch is loaded by a goroutine of its own, so the
        loads take effect in some order; for different buckets it does not
        matter which. */
    method ConcurrentLoad(buckets: seq<Bytes>, lucks: seq<Luck>) returns (ghost order: seq<nat>)
      requires |buckets| == |lucks|
      modifies this, api
      ensures Reorders(order, |buckets|)
      ensures State() == LoadAll(env, old(State()), InOrder(buckets, order), InOrder(lucks, order))
      ensures Distinct(buckets) ==> State() == LoadAll(env, old(State()), buckets, lucks)
    {
      hide LoadStep, LoadAll;
      order := [];
      var todo := Indices(|buckets|);
      ghost var s := State();
      LoadNone(env, s);
      assert InOrder(buckets, order) == [] && InOrder(lucks, order) == [];
      while todo != {}
        invariant todo <= Indices(|buckets|)
        invariant forall i: nat :: i < |buckets| ==> (i in todo <==> i !in order)
        invariant forall i :: 0 <= i < |order| ==> order[i] < |buckets|
        invariant forall i, j :: 0 <= i < j < |order| ==> order[i] != order[j]
        invariant |order| + |todo| == |Indices(|buckets|)|
        invariant State() == LoadAll(env, s, InOrder(buckets, order), InOrder(lucks, order))
      {
        var i :| i in todo;
        todo := todo - {i};
        LoadOne(buckets[i], lucks[i]);
        LoadAllNext(env, s, buckets, lucks, order, i);
        order := order + [i];
      }
      if Distinct(buckets) {
        OrderOfLoadsIrrelevant(env, s, buckets, lucks, order);
      }
    }

    method LoadOne(bucket: Bytes, luck: Luck)
      modifies this, api
      ensures State() == Loading(env, old(State()), bucket, luck).0
    {
      hide LoadStep;
      var meta, ok := LoadFrom(bucket, luck);
      if ok {
        metadataMap := metadataMap[bucket := meta.GetRaw()];
      }
    }

    /** load goes through all the buckets, a hundred at a time. */
    method Load(buckets: seq<Bytes>, lucks: seq<Luck>)
      requires |buckets| == |lucks|
      modifies this, api
      ensures Distinct(buckets) ==> State() == LoadAll(env, old(State()), buckets, lucks)
    {
      hide Loading, LoadAll;
      var count := 100;
      var rest, left := buckets, lucks;
      ghost var k := 0;
      ghost var s := State();
      LoadNone(env, s);
      while |rest| >= count
        invariant 0 <= k <= |buckets| && rest == buckets[k..] && left == lucks[k..]
        invariant Distinct(buckets) ==> State() == LoadAll(env, s, buckets[..k], lucks[..k])
        decreases |rest|
      {
        ghost var _ := ConcurrentLoad(rest[..count], left[..count]);
        LoadAllAppend(env, s, buckets[..k], lucks[..k], rest[..count], left[..count]);
        assert buckets[..k] + rest[..count] == buckets[..k + count];
        assert lucks[..k] + left[..count] == lucks[..k + count];
        rest, left := rest[count..], left[count..];
        k := k + count;
      }
      ghost var _ := ConcurrentLoad(rest, left);
      LoadAllAppend(env, s, buckets[..k], lucks[..k], rest, left);
      assert buckets[..k] + rest == buckets && lucks[..k] + left == lucks;
    }
  }

  lemma LoadAllNext(env: Env, s: SysState, buckets: seq<Bytes>, lucks: seq<Luck>, order: seq<nat>, i: nat)
    requires |buckets| == |lucks| && i < |buckets| && forall j :: 0 <= j < |order| ==> order[j] < |buckets|
    ensures LoadAll(env, s, InOrder(buckets, order + [i]), InOrder(lucks, order + [i]))
      == Loading(env, LoadAll(env, s, InOrder(buckets, order), InOrder(lucks, order)), buckets[i], lucks[i]).0
  {
    hide Loading;
    assert InOrder(buckets, order + [i])[..|order|] == InOrder(buckets, order);
    assert InOrder(lucks, order + [i])[..|order|] == InOrder(lucks, order);
  }

  function Indices(n: nat): (r: set<nat>)
    ensures |r| == n
    ensures forall i: nat :: i in r <==> i < n
  {
    if n == 0 then {} else Indices(n - 1) + {n - 1}
  }

  lemma LoadNone(env: Env, s: SysState)
    ensures LoadAll(env, s, [], []) == s
  {
  }
}

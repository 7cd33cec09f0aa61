/** Moving a bucket's legacy configuration files into its metadata file, with
    crashes, leftovers and the map's iteration order. */
module BucketMigration {
  import opened Base
  import opened MessagePackStruct
  import opened BucketMetadata

  datatype LegacyFile =
    | LockEnabledFile | PolicyFile | NotificationFile | LifecycleFile | QuotaFile | SSEFile
    | TaggingFile | ReplicationFile | TargetsFile | ObjectLockFile

  const LEGACY_FILES: seq<LegacyFile> := [
    LockEnabledFile, PolicyFile, NotificationFile, LifecycleFile, QuotaFile, SSEFile,
    TaggingFile, ReplicationFile, TargetsFile, ObjectLockFile]

  function LegacyLockEnabled(): Bytes { Ascii("{\"x-amz-bucket-object-lock-enabled\":true}") }

  type Legacy = map<LegacyFile, Content>
  type Configs = map<LegacyFile, Bytes>

  // readConfig: an empty file counts as none.
  function ReadConfig(legacy: Legacy, f: LegacyFile): Content {
    if f !in legacy || legacy[f] == Data([]) then Missing else legacy[f]
  }

  predicate Readable(legacy: Legacy) { forall f :: f in legacy ==> legacy[f] != Unreadable }

  function Stored(legacy: Legacy): Configs {
    map f | f in legacy && ReadConfig(legacy, f).Data? :: ReadConfig(legacy, f).bytes
  }

  function FromFlag(lockEnabled: bool): Configs {
    if lockEnabled then map[ObjectLockFile := EnabledLock()] else map[]
  }

  // The configs map: the old flag stands for a lock file, unless there is one.
  function Collected(lockEnabled: bool, legacy: Legacy): Configs {
    FromFlag(lockEnabled) + Stored(legacy)
  }

  // The switch on one file.
  function ApplyOne(r: Raw, f: LegacyFile, data: Bytes): Raw {
    match f
    case LockEnabledFile =>
      if data == LegacyLockEnabled()
      then r.(objectLock := EnabledLock(), versioning := EnabledVersioning(), lockEnabled := false)
      else r
    case PolicyFile => r.(policy := data)
    case NotificationFile => r.(notification := data)
    case LifecycleFile => r.(lifecycle := data)
    case SSEFile => r.(encryption := data)
    case TaggingFile => r.(tagging := data)
    case ObjectLockFile => r.(objectLock := data, versioning := EnabledVersioning())
    case QuotaFile => r.(quota := data)
    case ReplicationFile => r.(replication := data)
    case TargetsFile => r.(targets := data)
  }

  // One iteration over the map, in some order.
  function ApplyAll(r: Raw, configs: Configs, order: seq<LegacyFile>): Raw
    requires forall i :: 0 <= i < |order| ==> order[i] in configs
  {
    if order == [] then r
    else
      var f := order[|order| - 1];
      ApplyOne(ApplyAll(r, configs, order[..|order| - 1]), f, configs[f])
  }

  // An order in which the map may be iterated over: each key once.
  predicate Iterates(order: seq<LegacyFile>, configs: Configs) {
    && (forall i :: 0 <= i < |order| ==> order[i] in configs)
    && (forall i, j :: 0 <= i < j < |order| ==> order[i] != order[j])
    && (forall f :: f in configs ==> f in order)
  }

  /** The two lock files disagree. */
  predicate Conflict(configs: Configs) {
    && LockEnabledFile in configs && configs[LockEnabledFile] == LegacyLockEnabled()
    && ObjectLockFile in configs && configs[ObjectLockFile] != EnabledLock()
  }

  // ----- the method -----

  class BucketStore {
    var file: Content
    var legacy: Legacy

    constructor (file: Content, legacy: Legacy)
      ensures this.file == file && this.legacy == legacy
    {
      this.file, this.legacy := file, legacy;
    }
  }

  method ApplyLegacy(b: BucketMetadata, f: LegacyFile, data: Bytes)
    modifies b
    ensures b.GetRaw() == ApplyOne(old(b.GetRaw()), f, data)
  {
    hide EnabledLock, EnabledVersioning, LegacyLockEnabled;
    match f {
      case LockEnabledFile =>
        if data == LegacyLockEnabled() {
          b.objectLock := EnabledLock();
          b.versioning := EnabledVersioning();
          b.lockEnabled := false;
        }
      case PolicyFile => b.policy := data;
      case NotificationFile => b.notification := data;
      case LifecycleFile => b.lifecycle := data;
      case SSEFile => b.encryption := data;
      case TaggingFile => b.tagging := data;
      case ObjectLockFile =>
        b.objectLock := data;
        b.versioning := EnabledVersioning();
      case QuotaFile => b.quota := data;
      case ReplicationFile => b.replication := data;
      case TargetsFile => b.targets := data;
    }
  }

  // One file's place in the map once it has been looked at, or not yet.
  predicate LookedUp(c: Configs, c0: Configs, legacy: Legacy, seen: bool, f: LegacyFile) {
    if seen && ReadConfig(legacy, f).Data? then f in c && c[f] == ReadConfig(legacy, f).bytes
    else (f in c <==> f in c0) && (f in c ==> c[f] == c0[f])
  }

  // The collecting loop.
  method Collect(lockEnabled: bool, legacy: Legacy) returns (configs: Option<Configs>)
    ensures configs.Some? <==> Readable(legacy)
    ensures configs.Some? ==> configs.value == Collected(lockEnabled, legacy)
  {
    hide ReadConfig, FromFlag, LookedUp;
    var c := FromFlag(lockEnabled);
    ghost var c0 := c;
    var files := LEGACY_FILES;
    NothingLookedUp(c, legacy);
    for i := 0 to |files|
      invariant forall f :: LookedUp(c, c0, legacy, f in files[..i], f)
      invariant forall f :: f in files[..i] ==> ReadConfig(legacy, f) != Unreadable
    {
      var f := files[i];
      assert files[..i + 1] == files[..i] + [f];
      LookedUpNext(c, c0, legacy, files[..i], f);
      match ReadConfig(legacy, f) {
        case Missing =>
        case Unreadable =>
          UnreadableShows(legacy, f);
          return None;
        case Data(data) => c := c[f := data];
      }
    }
    AllListed();
    forall f ensures LookedUp(c, c0, legacy, true, f) && f in files[..|files|] {
      assert f in files && files[..|files|] == files;
      assert LookedUp(c, c0, legacy, f in files[..|files|], f);
    }
    AllLookedUp(c, lockEnabled, legacy);
    return Some(c);
  }

  lemma NothingLookedUp(c: Configs, legacy: Legacy)
    ensures forall f :: LookedUp(c, c, legacy, false, f)
  {
  }

  lemma LookedUpNext(c: Configs, c0: Configs, legacy: Legacy, seen: seq<LegacyFile>, f: LegacyFile)
    requires forall g :: LookedUp(c, c0, legacy, g in seen, g)
    ensures
      var next := if ReadConfig(legacy, f).Data? then c[f := ReadConfig(legacy, f).bytes] else c;
      forall g :: LookedUp(next, c0, legacy, g in seen + [f], g)
  {
    hide ReadConfig;
    var next := if ReadConfig(legacy, f).Data? then c[f := ReadConfig(legacy, f).bytes] else c;
    forall g ensures LookedUp(next, c0, legacy, g in seen + [f], g) {
      assert LookedUp(c, c0, legacy, g in seen, g);
    }
  }

  lemma UnreadableShows(legacy: Legacy, f: LegacyFile)
    ensures ReadConfig(legacy, f) == Unreadable <==> f in legacy && legacy[f] == Unreadable
  {
  }

  lemma AllLookedUp(c: Configs, lockEnabled: bool, legacy: Legacy)
    requires forall f :: LookedUp(c, FromFlag(lockEnabled), legacy, true, f)
    requires forall f :: ReadConfig(legacy, f) != Unreadable
    ensures Readable(legacy) && c == Collected(lockEnabled, legacy)
  {
    hide EnabledLock;
    forall f ensures f in c <==> f in Collected(lockEnabled, legacy) {
      assert LookedUp(c, FromFlag(lockEnabled), legacy, true, f);
    }
    forall f | f in c ensures c[f] == Collected(lockEnabled, legacy)[f] {
      assert LookedUp(c, FromFlag(lockEnabled), legacy, true, f);
    }
    forall f | f in legacy ensures legacy[f] != Unreadable {
      UnreadableShows(legacy, f);
    }
  }

  function Place(f: LegacyFile): nat {
    match f
    case LockEnabledFile => 0
    case PolicyFile => 1
    case NotificationFile => 2
    case LifecycleFile => 3
    case QuotaFile => 4
    case SSEFile => 5
    case TaggingFile => 6
    case ReplicationFile => 7
    case TargetsFile => 8
    case ObjectLockFile => 9
  }

  lemma AllListed()
    ensures LEGACY_FILES[..|LEGACY_FILES|] == LEGACY_FILES
    ensures forall f: LegacyFile :: f in LEGACY_FILES
  {
    forall f: LegacyFile ensures f in LEGACY_FILES {
      assert LEGACY_FILES[Place(f)] == f;
    }
  }

  // The applying loop; nobody chooses its order.
  method ApplyConfigs(b: BucketMetadata, configs: Configs) returns (ghost order: seq<LegacyFile>)
    modifies b
    ensures Iterates(order, configs)
    ensures b.GetRaw() == ApplyAll(old(b.GetRaw()), configs, order)
  {
    hide ApplyOne;
    order := [];
    ghost var r := b.GetRaw();
    var todo := configs.Keys;
    while todo != {}
      invariant todo <= configs.Keys
      invariant forall f :: f in configs ==> (f in todo <==> f !in order)
      invariant forall i :: 0 <= i < |order| ==> order[i] in configs
      invariant forall i, j :: 0 <= i < j < |order| ==> order[i] != order[j]
      invariant b.GetRaw() == ApplyAll(r, configs, order)
    {
      var f :| f in todo;
      ApplyLegacy(b, f, configs[f]);
      todo := todo - {f};
      ghost var next := order + [f];
      assert next[..|order|] == order;
      order := next;
    }
  }

  /** convertLegacyConfigs.  The map is iterated over in an order nobody
      chooses; `stuck` are the files whose deletion fails. */
  method ConvertLegacyConfigs(b: BucketMetadata, store: BucketStore, p: Parsers, io: bool, stuck: set<LegacyFile>)
    returns (ok: bool, ghost order: seq<LegacyFile>)
    modifies b, store
    ensures var r, legacy := old(b.GetRaw()), old(store.legacy);
      var configs := Collected(r.lockEnabled, legacy);
      if !Readable(legacy) then
        && !ok && b.GetRaw() == r.(lockEnabled := false)
        && store.file == old(store.file) && store.legacy == legacy
      else if configs == map[] then
        (b.GetRaw(), ok) == Parsed(p, r) && store.file == old(store.file) && store.legacy == legacy
      else
        && Iterates(order, configs)
        && (b.GetRaw(), store.file, ok)
             == SaveStep(p, ApplyAll(r.(lockEnabled := false), configs, order), old(store.file), io)
        && store.legacy == if ok then legacy - (configs.Keys - stuck) else legacy
  {
    hide EnabledLock, Parsed, SaveStep, ApplyAll, Collected, Readable, Iterates;
    order := [];
    ghost var flag := b.lockEnabled;
    var collected := Collect(b.lockEnabled, store.legacy);
    b.lockEnabled := false;
    if collected.None? {
      return false, [];
    }
    var configs := collected.value;
    if configs == map[] {
      NoFlagWithoutConfigs(flag, store.legacy);
      ok := b.ParseAllConfigs(p);
      return;
    }
    order := ApplyConfigs(b, configs);
    var file;
    ok, file := b.Save(p, store.file, io);
    store.file := file;
    if ok {
      store.legacy := store.legacy - (configs.Keys - stuck);
    }
  }

  lemma NoFlagWithoutConfigs(lockEnabled: bool, legacy: Legacy)
    requires Collected(lockEnabled, legacy) == map[]
    ensures !lockEnabled
  {
    hide EnabledLock;
    assert lockEnabled ==> ObjectLockFile in Collected(lockEnabled, legacy);
  }

  // ----- the order of iteration -----

  function Pick(c: Configs, done: set<LegacyFile>, f: LegacyFile, prior: Bytes): Bytes {
    if f in done && f in c then c[f] else prior
  }

  predicate OldFlag(c: Configs, done: set<LegacyFile>) {
    LockEnabledFile in done && LockEnabledFile in c && c[LockEnabledFile] == LegacyLockEnabled()
  }

  // The record with the files of `done` taken over, whichever came first.
  function Final(r: Raw, c: Configs, done: set<LegacyFile>): Raw {
    Raw(r.name, r.created, r.lockEnabled,
        Pick(c, done, PolicyFile, r.policy),
        Pick(c, done, NotificationFile, r.notification),
        Pick(c, done, LifecycleFile, r.lifecycle),
        Pick(c, done, ObjectLockFile, if OldFlag(c, done) then EnabledLock() else r.objectLock),
        if ObjectLockFile in done || OldFlag(c, done) then EnabledVersioning() else r.versioning,
        Pick(c, done, SSEFile, r.encryption),
        Pick(c, done, TaggingFile, r.tagging),
        Pick(c, done, QuotaFile, r.quota),
        Pick(c, done, ReplicationFile, r.replication),
        Pick(c, done, TargetsFile, r.targets),
        r.targetsMeta)
  }

  lemma FinalNext(r: Raw, c: Configs, done: set<LegacyFile>, f: LegacyFile)
    requires done <= c.Keys && f in c && f !in done && !r.lockEnabled && !Conflict(c)
    ensures ApplyOne(Final(r, c, done), f, c[f]) == Final(r, c, done + {f})
  {
    hide EnabledLock, EnabledVersioning, LegacyLockEnabled;
  }

  lemma {:induction false} ApplyAllIsFinal(r: Raw, c: Configs, order: seq<LegacyFile>)
    requires !r.lockEnabled && !Conflict(c)
    requires forall i :: 0 <= i < |order| ==> order[i] in c
    requires forall i, j :: 0 <= i < j < |order| ==> order[i] != order[j]
    ensures (set f | f in order) <= c.Keys
    ensures ApplyAll(r, c, order) == Final(r, c, set f | f in order)
    decreases |order|
  {
    hide ApplyOne, Final, Conflict;
    if order == [] {
      assert (set f | f in order) == {};
      NothingDone(r, c);
    } else {
      var front, f := order[..|order| - 1], order[|order| - 1];
      ApplyAllIsFinal(r, c, front);
      assert order == front + [f];
      assert f !in front;
      var done := set g | g in front;
      FinalNext(r, c, done, f);
      assert (set g | g in order) == done + {f};
    }
  }

  lemma NothingDone(r: Raw, c: Configs)
    ensures Final(r, c, {}) == r
  {
    hide EnabledLock, EnabledVersioning, LegacyLockEnabled;
  }

  /** The order of iteration never shows, exactly when the two lock files do
      not disagree. */
  lemma OrderIrrelevantExactly(r: Raw, c: Configs)
    requires !r.lockEnabled
    ensures !Conflict(c) <==>
      forall o1, o2 :: Iterates(o1, c) && Iterates(o2, c) ==> ApplyAll(r, c, o1) == ApplyAll(r, c, o2)
  {
    hide ApplyAll, EnabledLock, EnabledVersioning, LegacyLockEnabled;
    if !Conflict(c) {
      forall o1, o2 | Iterates(o1, c) && Iterates(o2, c) ensures ApplyAll(r, c, o1) == ApplyAll(r, c, o2) {
        IterationIsFinal(r, c, o1);
        IterationIsFinal(r, c, o2);
      }
    } else {
      var o1 := OrderEndingWith(c, ObjectLockFile);
      var o2 := OrderEndingWith(c, LockEnabledFile);
      LastLockFileWins(r, c, o1, o2);
    }
  }

  lemma IterationIsFinal(r: Raw, c: Configs, order: seq<LegacyFile>)
    requires !r.lockEnabled && !Conflict(c) && Iterates(order, c)
    ensures ApplyAll(r, c, order) == Final(r, c, c.Keys)
  {
    hide Final, ApplyAll, Conflict;
    ApplyAllIsFinal(r, c, order);
    assert (set f | f in order) == c.Keys;
  }

  lemma LastLockFileWins(r: Raw, c: Configs, o1: seq<LegacyFile>, o2: seq<LegacyFile>)
    requires Conflict(c) && Iterates(o1, c) && Iterates(o2, c)
    requires o1 != [] && o1[|o1| - 1] == ObjectLockFile
    requires o2 != [] && o2[|o2| - 1] == LockEnabledFile
    ensures ApplyAll(r, c, o1).objectLock != ApplyAll(r, c, o2).objectLock
  {
    hide EnabledLock, EnabledVersioning, LegacyLockEnabled;
  }

  lemma OrderEndingWith(c: Configs, last: LegacyFile) returns (o: seq<LegacyFile>)
    requires last in c
    ensures Iterates(o, c) && o != [] && o[|o| - 1] == last
  {
    var front := SomeOrder(c.Keys - {last});
    o := front + [last];
    assert last !in front;
    forall i | 0 <= i < |o| ensures o[i] in c {
      assert i < |front| ==> o[i] in front;
    }
    forall f | f in c ensures f in o {
      assert f == last || f in front;
    }
  }

  lemma SomeOrder(s: set<LegacyFile>) returns (o: seq<LegacyFile>)
    ensures forall f :: f in s <==> f in o
    ensures forall i, j :: 0 <= i < j < |o| ==> o[i] != o[j]
    decreases |s|
  {
    if s == {} {
      o := [];
    } else {
      var f :| f in s;
      o := SomeOrder(s - {f});
      o := o + [f];
    }
  }

  // ----- crashes -----

  // What a completed conversion has saved.
  function SavedRecord(r: Raw, legacy: Legacy): Raw {
    Forced(Final(r.(lockEnabled := false), Collected(r.lockEnabled, legacy), Collected(r.lockEnabled, legacy).Keys))
  }

  predicate Subset(left: Legacy, legacy: Legacy) {
    forall f :: f in left ==> f in legacy && left[f] == legacy[f]
  }

  lemma CollectedSubset(lockEnabled: bool, left: Legacy, legacy: Legacy)
    requires Subset(left, legacy)
    ensures forall f :: f in Collected(false, left) ==>
      f in Collected(lockEnabled, legacy) && Collected(lockEnabled, legacy)[f] == Collected(false, left)[f]
  {
    hide EnabledLock;
  }

  /** After the save, however many of the legacy files are left: converting
      the saved record again changes none of its fields, saves the same file,
      and meets no conflict. */
  lemma RerunReproduces(
      p: Parsers, r: Raw, legacy: Legacy, left: Legacy, order: seq<LegacyFile>, file: Content, io: bool)
    requires !Conflict(Collected(r.lockEnabled, legacy)) && Subset(left, legacy)
    requires Parsed(p, SavedRecord(r, legacy)) == (SavedRecord(r, legacy), true)
    requires Iterates(order, Collected(false, left))
    ensures var saved := SavedRecord(r, legacy);
      && !saved.lockEnabled && !Conflict(Collected(false, left))
      && ApplyAll(saved, Collected(false, left), order) == saved
      && SaveStep(p, ApplyAll(saved, Collected(false, left), order), file, io)
           == (saved, if io then Data(FileOf(saved)) else file, io)
  {
    hide Parsed, Encoded, ApplyAll, Final, Collected, EnabledLock, EnabledVersioning, LegacyLockEnabled, Iterates;
    var saved, c, c2 := SavedRecord(r, legacy), Collected(r.lockEnabled, legacy), Collected(false, left);
    CollectedSubset(r.lockEnabled, left, legacy);
    FinalKeepsFlag(r.(lockEnabled := false), c, c.Keys);
    IterationIsFinal(saved, c2, order);
    FinalAbsorbs(r.(lockEnabled := false), c, c2);
  }

  lemma FinalKeepsFlag(r: Raw, c: Configs, done: set<LegacyFile>)
    ensures Final(r, c, done).lockEnabled == r.lockEnabled
  {
    hide EnabledLock, EnabledVersioning, LegacyLockEnabled, Pick;
  }

  lemma FinalAbsorbs(r: Raw, c: Configs, c2: Configs)
    requires !Conflict(c)
    requires forall f :: f in c2 ==> f in c && c[f] == c2[f]
    ensures Final(Forced(Final(r, c, c.Keys)), c2, c2.Keys) == Forced(Final(r, c, c.Keys))
  {
    hide EnabledLock, EnabledVersioning, LegacyLockEnabled;
  }

  /** Before the save nothing is lost either: a conversion that fails leaves
      the store as it was, and one that succeeds saves the same record in
      whatever order it goes. */
  lemma ConversionSaves(p: Parsers, r: Raw, legacy: Legacy, order: seq<LegacyFile>, file: Content, io: bool)
    requires !Conflict(Collected(r.lockEnabled, legacy)) && Iterates(order, Collected(r.lockEnabled, legacy))
    ensures var (q, after, ok) :=
        SaveStep(p, ApplyAll(r.(lockEnabled := false), Collected(r.lockEnabled, legacy), order), file, io);
      && (!ok ==> after == file)
      && (ok ==> q == SavedRecord(r, legacy) && after == Data(FileOf(q)) && Parsed(p, q) == (q, true))
  {
    hide ApplyAll, Final, Collected, EnabledLock, EnabledVersioning, EarlyParse, LateParse, Encoded, Iterates, Conflict;
    IterationIsFinal(r.(lockEnabled := false), Collected(r.lockEnabled, legacy), order);
    var f := Final(r.(lockEnabled := false), Collected(r.lockEnabled, legacy), Collected(r.lockEnabled, legacy).Keys);
    if Parsed(p, f).1 {
      ParsedTwice(p, f);
    }
  }

  // The configuration a legacy file is for.
  function ConfigFor(r: Raw, f: LegacyFile): Bytes {
    match f
    case LockEnabledFile | ObjectLockFile => r.objectLock
    case PolicyFile => r.policy
    case NotificationFile => r.notification
    case LifecycleFile => r.lifecycle
    case SSEFile => r.encryption
    case TaggingFile => r.tagging
    case QuotaFile => r.quota
    case ReplicationFile => r.replication
    case TargetsFile => r.targets
  }

  // What a legacy file holds, if anything.
  predicate Holding(legacy: Legacy, f: LegacyFile) { f in legacy && legacy[f].Data? && legacy[f].bytes != [] }

  // Object locking was switched on by the flag in the record or by its file.
  predicate Flagged(r: Raw, legacy: Legacy) {
    r.lockEnabled || (LockEnabledFile in legacy && legacy[LockEnabledFile] == Data(LegacyLockEnabled()))
  }

  // The flag has become the lock by default, and the lock brings versioning.
  predicate LockTakenOver(r: Raw, legacy: Legacy, q: Raw) {
    && (!Holding(legacy, ObjectLockFile) ==> q.objectLock == if Flagged(r, legacy) then EnabledLock() else r.objectLock)
    && (Holding(legacy, ObjectLockFile) || Flagged(r, legacy) ==> q.versioning == EnabledVersioning())
    && VersionedIfLocked(q)
  }

  /** What a completed conversion has made of the record: every legacy file
      with anything in it is its configuration now, every other configuration
      is as it was, and the old lock flag, in the record or in its file, has
      become the lock by default, with versioning. */
  lemma TakesOverExactly(r: Raw, legacy: Legacy, f: LegacyFile)
    requires !Conflict(Collected(r.lockEnabled, legacy))
    ensures var q := SavedRecord(r, legacy);
      && (f != LockEnabledFile && Holding(legacy, f) ==> ConfigFor(q, f) == legacy[f].bytes)
      && (f != LockEnabledFile && f != ObjectLockFile && !Holding(legacy, f) ==> ConfigFor(q, f) == ConfigFor(r, f))
      && LockTakenOver(r, legacy, q)
      && !q.lockEnabled && q.name == r.name && q.created == r.created && q.targetsMeta == r.targetsMeta
  {
    hide EnabledLock, EnabledVersioning, LegacyLockEnabled, Conflict, LockTakenOver;
    LockTakesOver(r, legacy);
  }

  lemma LockTakesOver(r: Raw, legacy: Legacy)
    requires !Conflict(Collected(r.lockEnabled, legacy))
    ensures LockTakenOver(r, legacy, SavedRecord(r, legacy))
  {
    FlagIsNotEmpty();
    hide EnabledLock, EnabledVersioning, LegacyLockEnabled;
  }

  lemma FlagIsNotEmpty()
    ensures LegacyLockEnabled() != []
  {}

  // ----- deletions that fail -----

  // The record holds already what the file would put into it.
  predicate Holds(r: Raw, f: LegacyFile, data: Bytes) {
    match f
    case LockEnabledFile =>
      data == LegacyLockEnabled() ==> r.objectLock == EnabledLock() && r.versioning == EnabledVersioning()
    case PolicyFile => r.policy == data
    case NotificationFile => r.notification == data
    case LifecycleFile => r.lifecycle == data
    case SSEFile => r.encryption == data
    case TaggingFile => r.tagging == data
    case ObjectLockFile => r.objectLock == data && r.versioning == EnabledVersioning()
    case QuotaFile => r.quota == data
    case ReplicationFile => r.replication == data
    case TargetsFile => r.targets == data
  }

  /** Legacy files whose deletion failed (which is only logged), at a later
      load of a record: in whatever order they are applied, together they leave
      it alone exactly when it holds the content of each. */
  lemma LeftoverHarmlessExactly(r: Raw, c: Configs, order: seq<LegacyFile>)
    requires !r.lockEnabled && !Conflict(c) && Iterates(order, c)
    ensures ApplyAll(r, c, order) == r <==> forall f :: f in c ==> Holds(r, f, c[f])
  {
    hide EnabledLock, EnabledVersioning, LegacyLockEnabled;
    IterationIsFinal(r, c, order);
  }

  lemma LeftoverAlone(r: Raw, f: LegacyFile, stale: Bytes, order: seq<LegacyFile>)
    requires stale != [] && Iterates(order, Collected(false, map[f := Data(stale)]))
    ensures ApplyAll(r, Collected(false, map[f := Data(stale)]), order) == ApplyOne(r, f, stale)
  {
    hide EnabledLock, EnabledVersioning, LegacyLockEnabled, ApplyOne;
    var c := Collected(false, map[f := Data(stale)]);
    assert c == map[f := stale];
    OnlyOrder(order, c, f);
    assert order[..0] == [];
  }

  // The record after an update of the configuration the file was for.
  function Updated(r: Raw, f: LegacyFile, newer: Bytes): Raw {
    ApplyOne(r, if f == LockEnabledFile then ObjectLockFile else f, newer)
  }

  /** A single leftover file undoes every later update of its configuration,
      and leaves the record alone exactly when the update stored again what the
      file says; the old lock flag when it is not the one the code knows, too. */
  lemma LeftoverRevertsExactly(r: Raw, f: LegacyFile, stale: Bytes, newer: Bytes, order: seq<LegacyFile>)
    requires !r.lockEnabled && stale != []
    requires Iterates(order, Collected(false, map[f := Data(stale)]))
    ensures var u := Updated(r, f, newer);
      var after := ApplyAll(u, Collected(false, map[f := Data(stale)]), order);
      && (f != LockEnabledFile ==> after == Updated(r, f, stale) && (after == u <==> newer == stale))
      && (f == LockEnabledFile && stale == LegacyLockEnabled() ==>
            after == Updated(r, f, EnabledLock()) && (after == u <==> newer == EnabledLock()))
      && (f == LockEnabledFile && stale != LegacyLockEnabled() ==> after == u)
  {
    hide EnabledLock, EnabledVersioning, LegacyLockEnabled, Collected, Iterates, ApplyAll;
    LeftoverAlone(Updated(r, f, newer), f, stale, order);
  }

  lemma OnlyOrder(order: seq<LegacyFile>, c: Configs, f: LegacyFile)
    requires Iterates(order, c) && c.Keys == {f}
    ensures order == [f]
  {
    assert f in c && f in order;
    if |order| > 1 {
      OnlyKeyAt(order, c, f, 0);
      OnlyKeyAt(order, c, f, 1);
    } else {
      OnlyKeyAt(order, c, f, 0);
    }
  }

  lemma OnlyKeyAt(order: seq<LegacyFile>, c: Configs, f: LegacyFile, i: nat)
    requires Iterates(order, c) && c.Keys == {f} && i < |order|
    ensures order[i] == f
  {
    assert order[i] in c.Keys;
  }

  /** The targets file, beside a record that parses and whose targets have
      been encrypted since: its plain text ends up beside the encryption
      metadata, and the bucket can be converted and saved again exactly if the
      parser takes that pair. */
  lemma LeftoverTargetsExactly(p: Parsers, r: Raw, plain: Bytes, order: seq<LegacyFile>, file: Content)
    requires !r.lockEnabled && Parsed(p, r) == (r, true) && plain != []
    requires Iterates(order, Collected(false, map[TargetsFile := Data(plain)]))
    ensures SaveStep(p, ApplyAll(r, Collected(false, map[TargetsFile := Data(plain)]), order), file, true).2
      <==> p.validTargets(r.name, plain, r.targetsMeta)
  {
    hide EnabledLock, EnabledVersioning, LegacyLockEnabled, Encoded, ApplyAll, Collected, Iterates;
    LeftoverAlone(r, TargetsFile, plain, order);
  }
}

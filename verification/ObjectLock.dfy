/** Object lock: the four guards over one object version, and what they keep
    over whole runs. */
module ObjectLock {
  import opened Base

  // RetMode; anything that does not parse is no mode.
  datatype Mode = NoMode | Governance | Compliance

  datatype Retention = Retention(mode: Mode, until: int)

  // ObjectLegalHold.Status
  datatype Hold = NoHold | HoldOn | HoldOff

  // The lock part of a version's metadata.
  datatype Meta = Meta(ret: Retention, hold: Hold)

  const NO_RETENTION := Retention(NoMode, 0)

  datatype Code = ErrNone | ErrObjectLocked | ErrAccessDenied | ErrInvalidLockConfiguration | ErrOther(id: nat)

  // UTCNowNTP: the time, or nothing when the NTP server does not answer.
  type Clock = Option<int>

  /** enforceRetentionForDeletion: is the version locked against lifecycle
      expiry and quota enforcement? */
  predicate EnforceRetentionForDeletion(meta: Meta, clock: Clock) {
    if meta.hold == HoldOn then true
    else if meta.ret.mode != NoMode then clock.None? || meta.ret.until > clock.value
    else false
  }

  // What GetObjectInfo reported instead of the version.
  datatype LookupError = MethodNotAllowed(isDeleteMarker: bool) | NotFound | Failed(id: nat)

  /** enforceRetentionBypassForDelete */
  function EnforceRetentionBypassForDelete(optsErr: Option<nat>, lookup: Result<Meta, LookupError>,
                                           bypassSet: bool, bypassPerm: Code, getConfigPerm: Code, clock: Clock): Code
  {
    if optsErr.Some? then ErrOther(optsErr.value)
    else
      match lookup
      case Err(MethodNotAllowed(marker)) => if marker then ErrNone else ErrOther(405)
      case Err(NotFound) => ErrNone
      case Err(Failed(id)) => ErrOther(id)
      case Ok(meta) =>
        if meta.hold == HoldOn then ErrObjectLocked
        else
          match meta.ret.mode
          case Compliance =>
            if clock.None? || !(meta.ret.until < clock.value) then ErrObjectLocked else ErrNone
          case Governance =>
            if !bypassSet then
              if clock.None? || !(meta.ret.until < clock.value) then ErrObjectLocked else ErrNone
            else if bypassPerm != ErrNone && getConfigPerm != ErrNone then ErrAccessDenied
            else ErrNone
          case NoMode => ErrNone
  }

  /** enforceRetentionBypassForPut; perm is isPutRetentionAllowed, asked with
      the bypass flag the code passes. */
  function EnforceRetentionBypassForPut(optsErr: Option<nat>, lookup: Result<Meta, nat>, bypassSet: bool,
                                        req: Retention, perm: bool -> Code, clock: Clock): Code
  {
    if optsErr.Some? then ErrOther(optsErr.value)
    else if lookup.Err? then ErrOther(lookup.error)
    else if clock.None? then ErrObjectLocked
    else
      var ret := lookup.value.ret;
      if ret.mode == NoMode || ret.until < clock.value then perm(bypassSet)
      else if ret.mode == Governance then
        if !bypassSet && (req.mode != Governance || req.until < ret.until) then ErrObjectLocked
        else perm(bypassSet)
      else
        if req.mode != Compliance || req.until < ret.until then ErrObjectLocked
        else perm(false)
  }

  // What checkPutObjectLockAllowed looks at in a request: the headers as
  // parsed, and whether the request names a version or is a replica's.
  datatype PutRequest = PutRequest(
    retentionHeaders: Option<Result<Retention, nat>>,
    holdHeader: Option<Result<Hold, nat>>,
    versioned: bool,
    replica: bool)

  // The bucket's lock configuration.
  datatype BucketLock = BucketLock(enabled: bool, mode: Mode, validity: int)

  // The outcome: the metadata to store and whether to go ahead.
  datatype PutVerdict = PutVerdict(meta: Meta, code: Code)

  const BLANK := Meta(NO_RETENTION, NoHold)

  // The check of the version about to be replaced: a refusal, or the
  // metadata the new version starts from.
  function ExistingVersion(rq: PutRequest, lookup: Result<Meta, nat>, clock: Clock): PutVerdict {
    if !rq.versioned || rq.replica || lookup.Err? then PutVerdict(BLANK, ErrNone)
    else if clock.None? then PutVerdict(BLANK, ErrObjectLocked)
    else
      var m := lookup.value;
      if m.ret.mode == Compliance && m.ret.until > clock.value then PutVerdict(BLANK, ErrObjectLocked)
      else PutVerdict(m, if m.hold == HoldOn then ErrObjectLocked else ErrNone)
  }

  // What the request's headers and the bucket's default make of it.
  function RequestedLock(rq: PutRequest, cfg: BucketLock, start: Meta, retentionPerm: Code, clock: Clock): PutVerdict {
    var hold :=
      if rq.holdHeader.None? then start.hold
      else if rq.holdHeader.value.Ok? then rq.holdHeader.value.value else NoHold;
    if rq.holdHeader.Some? && rq.holdHeader.value.Err? then
      PutVerdict(Meta(start.ret, NoHold), ErrNone)  // the error reported is another, unset, variable
    else if rq.retentionHeaders.Some? then
      var ownHold := if rq.holdHeader.Some? then hold else NoHold;
      match rq.retentionHeaders.value
      case Err(id) => PutVerdict(Meta(start.ret, ownHold), ErrOther(id))
      case Ok(ret) =>
        if retentionPerm != ErrNone then PutVerdict(Meta(start.ret, ownHold), retentionPerm)
        else PutVerdict(Meta(ret, ownHold), ErrNone)
    else if rq.replica then PutVerdict(Meta(NO_RETENTION, hold), ErrNone)
    else if cfg.validity > 0 then
      if retentionPerm != ErrNone then PutVerdict(Meta(start.ret, hold), retentionPerm)
      else if clock.None? then PutVerdict(Meta(start.ret, hold), ErrObjectLocked)
      else if rq.holdHeader.None? then
        PutVerdict(Meta(Retention(cfg.mode, clock.value + cfg.validity), hold), ErrNone)
      else PutVerdict(Meta(NO_RETENTION, hold), ErrNone)
    else PutVerdict(Meta(start.ret, hold), ErrNone)
  }

  /** What checkPutObjectLockAllowed decides.  clock1 and clock2 are its two
      readings of the time. */
  function PutDecision(rq: PutRequest, cfg: Option<BucketLock>, optsErr: Option<nat>, lookup: Result<Meta, nat>,
                       retentionPerm: Code, clock1: Clock, clock2: Clock): PutVerdict
  {
    if cfg.None? then PutVerdict(BLANK, ErrInvalidLockConfiguration)
    else if !cfg.value.enabled then
      var asks := rq.holdHeader.Some? || rq.retentionHeaders.Some?;
      PutVerdict(BLANK, if asks then ErrInvalidLockConfiguration else ErrNone)
    else if optsErr.Some? then PutVerdict(BLANK, ErrOther(optsErr.value))
    else
      var existing := ExistingVersion(rq, lookup, clock1);
      if existing.code != ErrNone then existing
      else RequestedLock(rq, cfg.value, existing.meta, retentionPerm, clock2)
  }

  // The version named is looked at: the request names one, is not a
  // replica's, and the lookup succeeds.
  predicate LooksAtVersion(rq: PutRequest, lookup: Result<Meta, nat>) {
    rq.versioned && !rq.replica && lookup.Ok?
  }

  predicate Malformed(rq: PutRequest) { rq.holdHeader.Some? && rq.holdHeader.value.Err? }

  // The version, if it is looked at, may be replaced: the time is known, it is
  // not on hold, and not in Compliance mode past this time.
  predicate MayReplace(rq: PutRequest, lookup: Result<Meta, nat>, clock: Clock) {
    LooksAtVersion(rq, lookup) ==>
      && clock.Some? && lookup.value.hold != HoldOn
      && !(lookup.value.ret.mode == Compliance && lookup.value.ret.until > clock.value)
  }

  // What the request asks for may be had, or it asks for nothing: a malformed
  // hold header ends the matter; retention headers must parse and be allowed;
  // a default must be allowed too, and needs the time.
  predicate MayHave(rq: PutRequest, cfg: BucketLock, perm: Code, clock: Clock) {
    || Malformed(rq)
    || (rq.retentionHeaders.Some? && rq.retentionHeaders.value.Ok? && perm == ErrNone)
    || (rq.retentionHeaders.None? && (rq.replica || cfg.validity <= 0 || (perm == ErrNone && clock.Some?)))
  }

  // When a request goes through, and with which retention and hold, over all
  // inputs.  In a bucket without object locking that is exactly without lock
  // headers, and nothing is stored; in one with it, when the version may be
  // replaced and what is asked for may be had.
  predicate GoesThroughExactly(rq: PutRequest, cfg: Option<BucketLock>, optsErr: Option<nat>,
                               lookup: Result<Meta, nat>, perm: Code, clock1: Clock, clock2: Clock,
                               ret: Retention, hold: Hold, code: Code)
  {
    if cfg.None? then code == ErrInvalidLockConfiguration
    else if !cfg.value.enabled then
      && ret == NO_RETENTION && hold == NoHold
      && code == if rq.retentionHeaders.None? && rq.holdHeader.None? then ErrNone else ErrInvalidLockConfiguration
    else
      && (code == ErrNone <==>
            optsErr.None? && MayReplace(rq, lookup, clock1) && MayHave(rq, cfg.value, perm, clock2))
      && (optsErr.None? && !MayReplace(rq, lookup, clock1) ==> code == ErrObjectLocked)
      && (code == ErrNone ==> StoresExactly(rq, cfg.value, lookup, clock2, ret, hold))
  }

  // What is stored by a request that goes through: where nothing replaces it,
  // the lock of the version looked at.
  predicate StoresExactly(rq: PutRequest, cfg: BucketLock, lookup: Result<Meta, nat>, clock: Clock,
                          ret: Retention, hold: Hold)
  {
    var taken := if LooksAtVersion(rq, lookup) then lookup.value else Meta(NO_RETENTION, NoHold);
    if Malformed(rq) then ret == taken.ret && hold == NoHold
    else
      && (rq.holdHeader.Some? ==> hold == rq.holdHeader.value.value)
      && (rq.holdHeader.None? ==> hold == if rq.retentionHeaders.Some? then NoHold else taken.hold)
      && (rq.retentionHeaders.Some? ==> rq.retentionHeaders.value == Ok(ret))
      && (rq.retentionHeaders.None? && rq.replica ==> ret == NO_RETENTION)
      && (rq.retentionHeaders.None? && !rq.replica && cfg.validity <= 0 ==> ret == taken.ret)
      && (rq.retentionHeaders.None? && !rq.replica && cfg.validity > 0 && rq.holdHeader.Some? ==> ret == NO_RETENTION)
      && (rq.retentionHeaders.None? && !rq.replica && cfg.validity > 0 && rq.holdHeader.None? ==>
            clock.Some? && ret == Retention(cfg.mode, clock.value + cfg.validity))
  }

  lemma DecisionGoesThroughExactly(rq: PutRequest, cfg: Option<BucketLock>, optsErr: Option<nat>,
                                   lookup: Result<Meta, nat>, perm: Code, clock1: Clock, clock2: Clock)
    ensures var v := PutDecision(rq, cfg, optsErr, lookup, perm, clock1, clock2);
      GoesThroughExactly(rq, cfg, optsErr, lookup, perm, clock1, clock2, v.meta.ret, v.meta.hold, v.code)
  {}

  // Uploads that have nothing to do with locking.
  lemma OrdinaryUploads(rq: PutRequest, cfg: Option<BucketLock>, optsErr: Option<nat>,
                        lookup: Result<Meta, nat>, perm: Code, clock1: Clock, clock2: Clock)
    requires cfg.Some?
    ensures var v := PutDecision(rq, cfg, optsErr, lookup, perm, clock1, clock2);
      !cfg.value.enabled ==>
        (v.code == ErrNone <==> rq.retentionHeaders.None? && rq.holdHeader.None?) && v.meta == BLANK
    ensures (cfg.value.enabled && cfg.value.validity <= 0 && optsErr.None? && !rq.versioned
        && rq.retentionHeaders.None? && rq.holdHeader.None?) ==>
      PutDecision(rq, cfg, optsErr, lookup, perm, clock1, clock2) == PutVerdict(BLANK, ErrNone)
  {}

  /** checkPutObjectLockAllowed, step by step. */
  method CheckPutObjectLockAllowed(rq: PutRequest, cfg: Option<BucketLock>, optsErr: Option<nat>,
                                   lookup: Result<Meta, nat>, retentionPerm: Code, clock1: Clock, clock2: Clock)
    returns (ret: Retention, hold: Hold, code: Code)
    ensures PutVerdict(Meta(ret, hold), code) == PutDecision(rq, cfg, optsErr, lookup, retentionPerm, clock1, clock2)
    ensures GoesThroughExactly(rq, cfg, optsErr, lookup, retentionPerm, clock1, clock2, ret, hold, code)
    ensures cfg.Some? && !cfg.value.enabled ==>
      && (code == ErrNone <==> rq.retentionHeaders.None? && rq.holdHeader.None?)
      && ret == Retention(NoMode, 0) && hold == NoHold
    ensures (cfg.Some? && cfg.value.enabled && cfg.value.validity <= 0 && optsErr.None? && !rq.versioned
        && rq.retentionHeaders.None? && rq.holdHeader.None?) ==>
      code == ErrNone && ret == Retention(NoMode, 0) && hold == NoHold
  {
    hide GoesThroughExactly;
    DecisionGoesThroughExactly(rq, cfg, optsErr, lookup, retentionPerm, clock1, clock2);
    if cfg.Some? {
      OrdinaryUploads(rq, cfg, optsErr, lookup, retentionPerm, clock1, clock2);
    }
    ret, hold := NO_RETENTION, NoHold;
    var retentionRequested, legalHoldRequested := rq.retentionHeaders.Some?, rq.holdHeader.Some?;
    if cfg.None? {
      return ret, hold, ErrInvalidLockConfiguration;
    }
    if !cfg.value.enabled {
      if legalHoldRequested || retentionRequested {
        return ret, hold, ErrInvalidLockConfiguration;
      }
      return ret, hold, ErrNone;
    }
    if optsErr.Some? {
      return ret, hold, ErrOther(optsErr.value);
    }
    if rq.versioned && !rq.replica {
      if lookup.Ok? {
        if clock1.None? {
          return ret, hold, ErrObjectLocked;
        }
        var r := lookup.value.ret;
        if r.mode == Compliance && r.until > clock1.value {
          return ret, hold, ErrObjectLocked;
        }
        ret := r;
        hold := lookup.value.hold;
        if hold == HoldOn {
          return ret, hold, ErrObjectLocked;
        }
      }
    }
    if legalHoldRequested {
      if rq.holdHeader.value.Err? {
        return ret, NoHold, ErrNone;
      }
      hold := rq.holdHeader.value.value;
    }
    if retentionRequested {
      hold := if legalHoldRequested then rq.holdHeader.value.value else NoHold;
      match rq.retentionHeaders.value
      case Err(id) => return ret, hold, ErrOther(id);
      case Ok(requested) =>
        if retentionPerm != ErrNone {
          return ret, hold, retentionPerm;
        }
        return requested, hold, ErrNone;
    }
    if rq.replica {
      return NO_RETENTION, hold, ErrNone;
    }
    if !retentionRequested && cfg.value.validity > 0 {
      if retentionPerm != ErrNone {
        return ret, hold, retentionPerm;
      }
      if clock2.None? {
        return ret, hold, ErrObjectLocked;
      }
      if !legalHoldRequested && cfg.value.enabled {
        return Retention(cfg.value.mode, clock2.value + cfg.value.validity), hold, ErrNone;
      }
      return NO_RETENTION, hold, ErrNone;
    }
    return ret, hold, ErrNone;
  }

  // ----- how the guards relate -----

  /** A delete without bypass that gets through would also have got through
      the lifecycle guard; the two disagree at exactly one instant, the
      retain-until date itself. */
  lemma DeleteStricterThanLifecycle(meta: Meta, t: int, p1: Code, p2: Code)
    ensures var code := EnforceRetentionBypassForDelete(None, Ok(meta), false, p1, p2, Some(t));
      var locked := EnforceRetentionForDeletion(meta, Some(t));
      && (locked ==> code == ErrObjectLocked)
      && (code != ErrNone && !locked <==>
            meta.hold != HoldOn && meta.ret.mode != NoMode && meta.ret.until == t)
  {}

  /** Without a trusted time nothing under retention is given up, except to a
      Governance bypass. */
  lemma NoClockNoChange(meta: Meta, bypassSet: bool, p1: Code, p2: Code, req: Retention, perm: bool -> Code)
    requires meta.ret.mode != NoMode
    ensures EnforceRetentionForDeletion(meta, None)
    ensures EnforceRetentionBypassForPut(None, Ok(meta), bypassSet, req, perm, None) == ErrObjectLocked
    ensures EnforceRetentionBypassForDelete(None, Ok(meta), bypassSet, p1, p2, None) == ErrNone
      ==> meta.ret.mode == Governance && bypassSet
  {}

  /** When the version cannot be looked at, a delete goes through exactly if it
      is not there or is a delete marker, and a change of retention never. */
  lemma UnseenVersionExactly(optsErr: Option<nat>, error: LookupError, errorId: nat, bypassSet: bool,
                             p1: Code, p2: Code, req: Retention, perm: bool -> Code, clock: Clock)
    ensures EnforceRetentionBypassForDelete(optsErr, Err(error), bypassSet, p1, p2, clock) == ErrNone
      <==> optsErr.None? && error in {NotFound, MethodNotAllowed(true)}
    ensures EnforceRetentionBypassForPut(optsErr, Err(errorId), bypassSet, req, perm, clock) != ErrNone
  {}

  // The decision on the request's own headers and the bucket's default, as
  // for a version that does not exist.
  function OnItsOwn(rq: PutRequest, cfg: BucketLock, retentionPerm: Code, clock: Clock): PutVerdict {
    RequestedLock(rq, cfg, BLANK, retentionPerm, clock)
  }

  /** An overwrite in a lock-enabled bucket, whatever its headers, the bucket's
      default and the clock: if the old version is under Compliance retention
      that is not known to be over, the guard lets it through exactly when it
      does not look at that version and the request is granted on its own. */
  lemma ComplianceOverwriteExactly(rq: PutRequest, cfg: BucketLock, lookup: Result<Meta, nat>, stored: Meta,
                                   perm: Code, clock1: Clock, clock2: Clock)
    requires cfg.enabled && (lookup.Ok? ==> lookup.value == stored)
    requires stored.ret.mode == Compliance && (clock1.Some? ==> stored.ret.until > clock1.value)
    ensures PutDecision(rq, Some(cfg), None, lookup, perm, clock1, clock2).code == ErrNone
      <==> !LooksAtVersion(rq, lookup) && OnItsOwn(rq, cfg, perm, clock2).code == ErrNone
    ensures LooksAtVersion(rq, lookup) ==>
      PutDecision(rq, Some(cfg), None, lookup, perm, clock1, clock2).code == ErrObjectLocked
  {}

  // When the version is not looked at, nothing it holds makes a difference.
  lemma UnseenVersionIrrelevant(rq: PutRequest, cfg: BucketLock, lookup: Result<Meta, nat>,
                                perm: Code, clock1: Clock, clock2: Clock)
    requires !LooksAtVersion(rq, lookup)
    ensures PutDecision(rq, Some(cfg), None, lookup, perm, clock1, clock2)
         == PutDecision(rq, Some(cfg), None, Err(0), perm, clock1, clock2)
  {}

  /** Governance retention never stops an overwrite: the decision on a version
      under it, expired or not, is the one on a version under none.  (The
      guard's documentation says it must have expired.) */
  lemma GovernanceNeverConsulted(rq: PutRequest, cfg: Option<BucketLock>, optsErr: Option<nat>, until: int, hold: Hold,
                                 perm: Code, clock1: Clock, clock2: Clock)
    ensures PutDecision(rq, cfg, optsErr, Ok(Meta(Retention(Governance, until), hold)), perm, clock1, clock2).code
         == PutDecision(rq, cfg, optsErr, Ok(Meta(NO_RETENTION, hold)), perm, clock1, clock2).code
  {}

  /** A request for retention by someone who may not set it is let through
      exactly when its legal-hold header is malformed (and the old version
      does not refuse): the error is answered with no error, before the
      permission is looked at. */
  lemma DeniedRetentionExactly(rq: PutRequest, cfg: BucketLock, lookup: Result<Meta, nat>,
                               perm: Code, clock1: Clock, clock2: Clock)
    requires cfg.enabled && rq.retentionHeaders.Some? && perm != ErrNone
    ensures PutDecision(rq, Some(cfg), None, lookup, perm, clock1, clock2).code == ErrNone
      <==> Malformed(rq) && ExistingVersion(rq, lookup, clock1).code == ErrNone
  {}

  // Whatever retention such a request asks for, or the bucket has for a
  // default, it gets the old version's.
  lemma MalformedHoldGetsNothing(rq: PutRequest, cfg: BucketLock, lookup: Result<Meta, nat>,
                                 perm: Code, clock1: Clock, clock2: Clock)
    requires cfg.enabled && Malformed(rq) && ExistingVersion(rq, lookup, clock1).code == ErrNone
    ensures PutDecision(rq, Some(cfg), None, lookup, perm, clock1, clock2)
         == PutVerdict(Meta(ExistingVersion(rq, lookup, clock1).meta.ret, NoHold), ErrNone)
  {}

  /** The bucket's default retention goes to the requests that carry no lock
      header at all; for one that carries any, well-formed or not, it makes no
      difference what the default is. */
  lemma DefaultNeedsNoHeader(rq: PutRequest, cfg: BucketLock, lookup: Result<Meta, nat>, perm: Code, clock1: Clock,
                             t: int, mode: Mode, validity: int)
    requires cfg.enabled && cfg.validity > 0 && validity > 0 && !rq.replica
    requires ExistingVersion(rq, lookup, clock1).code == ErrNone
    ensures rq.retentionHeaders.None? && rq.holdHeader.None? && perm == ErrNone ==>
      PutDecision(rq, Some(cfg), None, lookup, perm, clock1, Some(t)).meta.ret == Retention(cfg.mode, t + cfg.validity)
    ensures rq.retentionHeaders.Some? || rq.holdHeader.Some? ==>
      PutDecision(rq, Some(cfg), None, lookup, perm, clock1, Some(t))
        == PutDecision(rq, Some(cfg.(mode := mode, validity := validity)), None, lookup, perm, clock1, Some(t))
  {}

  // ----- whole runs -----

  datatype Version = Gone | Present(meta: Meta)

  datatype World = World(version: Version, now: int)

  // ntp: did the clock answer.  lookupFailed: the version could not be read.
  datatype Event =
    | Tick(d: nat)
    | PutRetention(req: Retention, putBypass: bool, perm: bool -> Code, ntp: bool)
    | PutLegalHold(hold: Hold)
    | DeleteVersion(delBypass: bool, bypassPerm: Code, getConfigPerm: Code, ntp: bool)
    | Lifecycle(ntp: bool)
    | Overwrite(rq: PutRequest, cfg: BucketLock, retentionPerm: Code, lookupFailed: bool, ntp: bool)

  function ClockOf(w: World, ntp: bool): Clock { if ntp then Some(w.now) else None }

  // What PutObjectRetentionHandler stores.
  function Stored(req: Retention): Retention { if req.mode != NoMode then req else NO_RETENTION }

  function Step(w: World, e: Event): World {
    match e
    case Tick(d) => w.(now := w.now + d)
    case PutLegalHold(hold) =>
      if w.version.Gone? then w else w.(version := Present(w.version.meta.(hold := hold)))
    case PutRetention(req, bypass, perm, ntp) =>
      if w.version.Gone? then w
      else
        var code := EnforceRetentionBypassForPut(None, Ok(w.version.meta), bypass, req, perm, ClockOf(w, ntp));
        if code != ErrNone then w else w.(version := Present(w.version.meta.(ret := Stored(req))))
    case DeleteVersion(bypass, p1, p2, ntp) =>
      if w.version.Gone? then w
      else
        var code := EnforceRetentionBypassForDelete(None, Ok(w.version.meta), bypass, p1, p2, ClockOf(w, ntp));
        if code != ErrNone then w else w.(version := Gone)
    case Lifecycle(ntp) =>
      if w.version.Gone? || EnforceRetentionForDeletion(w.version.meta, ClockOf(w, ntp)) then w
      else w.(version := Gone)
    case Overwrite(rq, cfg, perm, lookupFailed, ntp) =>
      // Lock-enabled buckets stay lock-enabled and are versioned: a request
      // that names no version makes a new one and leaves this one alone.
      if !cfg.enabled || !rq.versioned then w
      else
        var lookup := if w.version.Gone? || lookupFailed then Err(404) else Ok(w.version.meta);
        var v := PutDecision(rq, Some(cfg), None, lookup, perm, ClockOf(w, ntp), ClockOf(w, ntp));
        if v.code != ErrNone then w else w.(version := Present(v.meta))
  }

  function Run(w: World, es: seq<Event>): World
    decreases |es|
  {
    if es == [] then w else Run(Step(w, es[0]), es[1..])
  }

  /** What can be done with a version, over all events: it goes exactly if it
      is not on hold and a delete finds its retention over, or bypasses its
      Governance retention by someone who may, or the lifecycle finds its
      retention over. */
  lemma GoneExactly(w: World, e: Event)
    requires w.version.Present?
    ensures var m := w.version.meta;
      Step(w, e).version.Gone? <==>
        && m.hold != HoldOn
        && match e
           case DeleteVersion(bypass, p1, p2, ntp) =>
             || m.ret.mode == NoMode
             || (m.ret.mode == Governance && bypass && (p1 == ErrNone || p2 == ErrNone))
             || (!(m.ret.mode == Governance && bypass) && ntp && m.ret.until < w.now)
           case Lifecycle(ntp) => m.ret.mode == NoMode || (ntp && m.ret.until <= w.now)
           case _ => false
  {}

  /** A change of retention takes effect exactly if the time is known and the
      old retention is over, or kept in mode and not shortened, or is
      Governance's and bypassed, and whoever asks may set it: with the bypass
      permission only where the bypass is what it takes. */
  lemma RetentionSetExactly(w: World, req: Retention, bypass: bool, perm: bool -> Code, ntp: bool)
    requires w.version.Present?
    ensures var m := w.version.meta;
      var over := m.ret.mode == NoMode || m.ret.until < w.now;
      var kept := req.mode == m.ret.mode && req.until >= m.ret.until;
      Step(w, PutRetention(req, bypass, perm, ntp)) ==
        if ntp && (over || kept || (m.ret.mode == Governance && bypass))
          && perm(bypass && (over || m.ret.mode == Governance)) == ErrNone
        then w.(version := Present(Meta(if req.mode == NoMode then NO_RETENTION else req, m.hold)))
        else w
  {}

  // Overwrites of this version that are not a replica's and whose lookup
  // of it succeeds.
  predicate Ordinary(e: Event) {
    e.Overwrite? && e.rq.versioned ==> !e.rq.replica && !e.lookupFailed
  }

  predicate NoBypass(e: Event) {
    && (e.PutRetention? ==> !e.putBypass)
    && (e.DeleteVersion? ==> !e.delBypass)
    && !e.Overwrite?
  }

  // Locked in this mode until at least d.
  predicate Locked(w: World, mode: Mode, d: int) {
    w.version.Present? && w.version.meta.ret.mode == mode && w.version.meta.ret.until >= d
  }

  predicate Keeps(r: Retention, mode: Mode, d: int) { r.mode == mode && r.until >= d }

  // The overwrite of a lock-enabled bucket's version is let through, as far as
  // the request and the bucket's default go, and leaves it without retention
  // in this mode until d: judged by the request's headers, who asks, the
  // default and the clock.  lookedAt: the old version was looked at, so its
  // retention is taken over where nothing replaces it.
  predicate TakesAway(e: Event, lookedAt: bool, mode: Mode, d: int, now: int)
    requires e.Overwrite?
  {
    && e.cfg.enabled && e.rq.versioned
    && (|| (Malformed(e.rq) && !lookedAt)
        || (!Malformed(e.rq) && AsksForLess(e.rq.retentionHeaders, e.retentionPerm, mode, d))
        || (!Malformed(e.rq) && e.rq.retentionHeaders.None?
            && (e.rq.replica || (e.cfg.validity <= 0 && !lookedAt)))
        || (!Malformed(e.rq) && e.rq.retentionHeaders.None? && !e.rq.replica && e.cfg.validity > 0
            && e.retentionPerm == ErrNone && e.ntp
            && !(e.rq.holdHeader.None? && Keeps(Retention(e.cfg.mode, now + e.cfg.validity), mode, d))))
  }

  // Retention headers that parse, by someone who may set retention, for less.
  predicate AsksForLess(headers: Option<Result<Retention, nat>>, perm: Code, mode: Mode, d: int) {
    headers.Some? && headers.value.Ok? && perm == ErrNone && !Keeps(headers.value.value, mode, d)
  }

  /** Before d, a version in Compliance mode until d loses its retention to
      exactly one kind of event: an overwrite that names it but comes from a
      replica or fails to look it up, and whose headers, or the bucket's
      default in their absence, take the retention away. */
  lemma ComplianceLostExactly(w: World, e: Event, d: int)
    requires Locked(w, Compliance, d) && w.now < d
    ensures !Locked(Step(w, e), Compliance, d)
      <==> (&& e.Overwrite?
            && (e.rq.replica || e.lookupFailed)
            && TakesAway(e, false, Compliance, d, w.now))
  {}

  // A delete or a retention change under a granted bypass.
  predicate Bypasses(w: World, e: Event, d: int)
    requires w.version.Present?
  {
    match e
    case DeleteVersion(bypass, p1, p2, ntp) =>
      w.version.meta.hold != HoldOn && bypass && (p1 == ErrNone || p2 == ErrNone)
    case PutRetention(req, bypass, perm, ntp) =>
      ntp && bypass && perm(true) == ErrNone && !Keeps(Stored(req), Governance, d)
    case _ => false
  }

  /** Before d, a version in Governance mode until d loses its retention
      exactly to a granted bypass, or to an overwrite that names it and whose
      headers or the bucket's default take it away: the old retention counts
      only by being taken over. */
  lemma GovernanceLostExactly(w: World, e: Event, d: int)
    requires Locked(w, Governance, d) && w.now < d
    ensures !Locked(Step(w, e), Governance, d)
      <==> (|| Bypasses(w, e, d)
            || (&& e.Overwrite? && (e.rq.replica || e.lookupFailed)
                && TakesAway(e, false, Governance, d, w.now))
            || (&& e.Overwrite? && !e.rq.replica && !e.lookupFailed && e.ntp && w.version.meta.hold != HoldOn
                && TakesAway(e, true, Governance, d, w.now)))
  {}

  lemma {:induction false} TimeNeverGoesBack(w: World, es: seq<Event>)
    ensures w.now <= Run(w, es).now
    decreases |es|
  {
    if es != [] {
      TimeNeverGoesBack(Step(w, es[0]), es[1..]);
    }
  }

  /** Compliance: whatever anyone does, with or without bypass headers and
      permissions, a version in Compliance mode until d is still there, still
      in Compliance mode, and retained until at least d, at every time before
      d. */
  lemma {:induction false} ComplianceSafe(w: World, es: seq<Event>, d: int)
    requires Locked(w, Compliance, d)
    requires forall i :: 0 <= i < |es| ==> Ordinary(es[i])
    ensures Run(w, es).now < d ==> Locked(Run(w, es), Compliance, d)
    decreases |es|
  {
    if es != [] {
      var w' := Step(w, es[0]);
      TimeNeverGoesBack(w', es[1..]);
      if w'.now < d {
        assert Ordinary(es[0]);
        ComplianceSafe(w', es[1..], d);
      }
    }
  }

  /** Governance: the same over runs of retention puts, deletes and lifecycle
      steps that carry no bypass header. */
  lemma {:induction false} GovernanceSafe(w: World, es: seq<Event>, d: int)
    requires Locked(w, Governance, d)
    requires forall i :: 0 <= i < |es| ==> NoBypass(es[i])
    ensures Run(w, es).now < d ==> Locked(Run(w, es), Governance, d)
    decreases |es|
  {
    if es != [] {
      var w' := Step(w, es[0]);
      TimeNeverGoesBack(w', es[1..]);
      if w'.now < d {
        assert NoBypass(es[0]);
        GovernanceSafe(w', es[1..], d);
      }
    }
  }

  /** Legal hold: until someone changes the hold, a held version stays, at any
      time and against any bypass. */
  lemma {:induction false} LegalHoldSafe(w: World, es: seq<Event>)
    requires w.version.Present? && w.version.meta.hold == HoldOn
    requires forall i :: 0 <= i < |es| ==> Ordinary(es[i]) && !es[i].PutLegalHold?
    ensures Run(w, es).version.Present? && Run(w, es).version.meta.hold == HoldOn
    decreases |es|
  {
    if es != [] {
      assert Ordinary(es[0]) && !es[0].PutLegalHold?;
      LegalHoldSafe(Step(w, es[0]), es[1..]);
    }
  }
}

/** What the registry's answers mean over its whole history: unlocks, unmounts, and when an image counts as already locked. */
module LockedImage {
  import opened Prelude
  import W = WriterSession
  import opened WriterRegistry

  /** The answer of a stop that ended clean. */
  const CLEAN := W.UnmountResult(true, true, true, true)

  // ---- Registrations ----

  /** A valid profile is registered unless its volume is already, and then everything registered before stays as it was. */
  lemma RegisterIsExact(r: Registry, p: W.Profile)
    ensures var t := Next(r, Register(p));
      && (forall v :: v in t.images <==> v in r.images || (v == p.volumeId && p.valid))
      && (forall v :: v in r.images ==> t.images[v] == r.images[v])
      && (p.valid && p.volumeId !in r.images ==> t.images[p.volumeId] == Registration(p, p.writable))
      && t == r.(images := t.images)
  {
  }

  /** A registration is taken away unless a session of its volume is reserved; nothing else changes. */
  lemma DeregisterIsExact(r: Registry, volume: string)
    ensures var t := Next(r, Deregister(volume));
      && (forall v :: v in t.images <==>
           v in r.images && (v != volume || exists m :: m in r.sessions && r.sessions[m].profile.volumeId == volume))
      && (forall v :: v in t.images ==> t.images[v] == r.images[v])
      && t == r.(images := t.images)
  {
    assert HasWriter(r, volume) <==> exists m :: m in r.sessions && r.sessions[m].profile.volumeId == volume;
  }

  // ---- Unlocks ----

  /** An unlock that goes ahead: for the registered, valid, writable profile, its host there, its lease kept, and no writer reserved. */
  ghost predicate GoesAhead(r: Registry, p: W.Profile, v: UnlockView) {
    && p.writable && p.valid && v.hostPresent && v.leaseUnchanged
    && p.volumeId in r.images && r.images[p.volumeId].profile == p
    && forall m :: m in r.sessions ==> r.sessions[m].profile.volumeId != p.volumeId
  }

  /**
   * In every reachable registry an unlock answers yes if and only if it goes ahead, starts and becomes ready;
   * then the volume's one writer is the new session, and nothing else changed but a clean retirement forgotten.
   */
  lemma UnlockIsExact(es: seq<Event>, p: W.Profile, v: UnlockView)
    requires AllowedRun(EMPTY, es) && Allowed(Run(EMPTY, es), Unlock(p, v))
    ensures var r := Run(EMPTY, es); var (t, mounted) := UnlockStep(r, p, v);
      && (mounted <==> GoesAhead(r, p, v) && v.started && v.ready)
      && (!GoesAhead(r, p, v) ==> t == r)
      && (GoesAhead(r, p, v) && !v.started ==> t == r.(clean := t.clean))
      && (mounted ==>
           && t.sessions.Keys == r.sessions.Keys + {v.mountPoint} && t.sessions[v.mountPoint].profile == p
           && (forall m :: m in r.sessions ==> t.sessions[m] == r.sessions[m])
           && t.images == r.images && t.retired == r.retired && p.volumeId !in t.clean)
  {
    RegistryOverRuns(EMPTY, es);
    var r := Run(EMPTY, es);
    if p.volumeId in r.images {
      assert RegistrationSound(r.images[p.volumeId], p.volumeId);
    }
    AdmitAllKeeps(W.Fresh(v.mountPoint, p, v.hostPid), v.statuses);
  }

  /** In any registry, reachable or not, both answers rest on a valid, writable, leased registration and no reserved writer. */
  lemma AnswersNeed(r: Registry, p: W.Profile, v: UnlockView, look: LockView)
    requires UnlockStep(r, p, v).1 || AlreadyLocked(r, p, look)
    ensures p.writable && p.valid && p.volumeId in r.images && r.images[p.volumeId] == Registration(p, true)
    ensures forall m :: m in r.sessions ==> r.sessions[m].profile.volumeId != p.volumeId
    ensures AlreadyLocked(r, p, look) ==>
      && p.volumeId in r.clean && r.clean[p.volumeId].profile == p && look.currentIdentity == Some(r.clean[p.volumeId].closedIdentity)
      && r.clean[p.volumeId].session.released && r.clean[p.volumeId].session.terminalResult == Some(CLEAN)
  {
  }

  // ---- Unmounts ----

  /** This event started a session under a directory. */
  ghost predicate Starts(r: Registry, e: Event, m: string) {
    e.Unlock? && e.view.mountPoint == m && e.view.started && GoesAhead(r, e.request, e.view)
  }

  ghost predicate StartedIn(es: seq<Event>, m: string) {
    exists k :: 0 <= k < |es| && Starts(Run(EMPTY, es[..k]), es[k], m)
  }

  lemma StepStarts(r: Registry, e: Event, m: string)
    requires RegistrySound(r) && Allowed(r, e)
    ensures m in Next(r, e).sessions || m in Next(r, e).retired <==> m in r.sessions || m in r.retired || Starts(r, e, m)
  {
    match e
    case Unlock(p, v) => UnlockStarts(r, p, v, m);
    case Unmount(mount, v, pin) =>
    case _ =>
  }

  lemma UnlockStarts(r: Registry, p: W.Profile, v: UnlockView, m: string)
    requires RegistrySound(r) && Allowed(r, Unlock(p, v))
    ensures var t := UnlockStep(r, p, v).0;
      m in t.sessions || m in t.retired <==> m in r.sessions || m in r.retired || Starts(r, Unlock(p, v), m)
  {
    if p.volumeId in r.images {
      assert RegistrationSound(r.images[p.volumeId], p.volumeId);
    }
  }

  lemma StartedLonger(es: seq<Event>, e: Event, m: string)
    ensures StartedIn(es + [e], m) <==> StartedIn(es, m) || Starts(Run(EMPTY, es), e, m)
  {
    var all := es + [e];
    assert all[|es|] == e && all[..|es|] == es;
    if StartedIn(es, m) {
      var k :| 0 <= k < |es| && Starts(Run(EMPTY, es[..k]), es[k], m);
      assert all[k] == es[k] && all[..k] == es[..k];
    }
    if StartedIn(all, m) {
      var k :| 0 <= k < |all| && Starts(Run(EMPTY, all[..k]), all[k], m);
      assert k < |es| ==> all[k] == es[k] && all[..k] == es[..k];
    }
  }

  /** A directory is reserved or retired, never both, exactly if some unlock of the run started a session under it. */
  lemma {:induction false} KnownMounts(es: seq<Event>, m: string)
    requires AllowedRun(EMPTY, es)
    ensures m in Run(EMPTY, es).sessions || m in Run(EMPTY, es).retired <==> StartedIn(es, m)
    ensures !(m in Run(EMPTY, es).sessions && m in Run(EMPTY, es).retired)
    decreases |es|
  {
    RegistryOverRuns(EMPTY, es);
    if es != [] {
      var n := |es| - 1;
      assert es == es[..n] + [es[n]];
      RunSnoc(EMPTY, es[..n], es[n]);
      KnownMounts(es[..n], m);
      RegistryOverRuns(EMPTY, es[..n]);
      StepStarts(Run(EMPTY, es[..n]), es[n], m);
      StartedLonger(es[..n], es[n], m);
    }
  }

  /** An unmount of a directory under which the run started no session reports nothing released or removed, and changes nothing. */
  lemma UnknownMountAnswers(es: seq<Event>, m: string, v: W.StopView, pin: PinView)
    requires AllowedRun(EMPTY, es) && !StartedIn(es, m)
    ensures UnmountStep(Run(EMPTY, es), m, v, pin) == (Run(EMPTY, es), W.UnmountResult(false, false, false, false))
  {
    KnownMounts(es, m);
  }

  lemma StepKeepsRetired(r: Registry, e: Event, m: string)
    requires Allowed(r, e) && m in r.retired && m !in r.sessions
    ensures var t := Next(r, e); m in t.retired && m !in t.sessions && t.retired[m] == r.retired[m]
  {
    match e
    case Unlock(p, v) => UnlockKeepsRetired(r, p, v, m);
    case _ =>
  }

  lemma StopKeepsRetired(r: Registry, mount: string, v: W.StopView, pin: PinView, m: string)
    requires mount in r.sessions && m != mount && m in r.retired && m !in r.sessions
    ensures var t := StopWriter(r, mount, v, pin).0; m in t.retired && m !in t.sessions && t.retired[m] == r.retired[m]
  {
  }

  lemma UnlockKeepsRetired(r: Registry, p: W.Profile, v: UnlockView, m: string)
    requires FreshMount(r, v.mountPoint) && m in r.retired && m !in r.sessions
    ensures var t := UnlockStep(r, p, v).0; m in t.retired && m !in t.sessions && t.retired[m] == r.retired[m]
  {
    StopKeepsRetired(Opened(r, p, v), v.mountPoint, v.stop, v.pin, m);
  }

  lemma {:induction false} RetiredOverRuns(r: Registry, es: seq<Event>, m: string)
    requires AllowedRun(r, es) && m in r.retired && m !in r.sessions
    ensures var t := Run(r, es); m in t.retired && m !in t.sessions && t.retired[m] == r.retired[m]
    decreases |es|
  {
    if es != [] {
      StepKeepsRetired(r, es[0], m);
      RetiredOverRuns(Next(r, es[0]), es[1..], m);
    }
  }

  /** Once an unmount has answered released and removed, every later one of that directory gives the same answer and changes nothing. */
  lemma UnmountAnswerIsKept(es: seq<Event>, m: string, v: W.StopView, pin: PinView, later: seq<Event>, w: W.StopView, other: PinView)
    requires AllowedRun(EMPTY, es) && StartedIn(es, m)
    requires AllowedRun(UnmountStep(Run(EMPTY, es), m, v, pin).0, later)
    requires var a := UnmountStep(Run(EMPTY, es), m, v, pin).1; a.ownershipReleased && a.mountRemoved
    ensures var (t, answer) := UnmountStep(Run(EMPTY, es), m, v, pin);
      UnmountStep(Run(t, later), m, w, other) == (Run(t, later), answer)
  {
    KnownMounts(es, m);
    RetiredOverRuns(UnmountStep(Run(EMPTY, es), m, v, pin).0, later, m);
  }

  // ---- The already-locked answer ----

  /** This event ended a session of the volume with a clean, final answer, and the image could be pinned again afterwards. */
  ghost predicate StopsClean(r: Registry, e: Event, volume: string) {
    match e
    case Unmount(m, _, pin) =>
      m in r.sessions && r.sessions[m].profile.volumeId == volume && pin.pinned
      && m in Next(r, e).retired && Next(r, e).retired[m] == CLEAN
    case Unlock(p, v) =>
      p.volumeId == volume && v.pin.pinned && Starts(r, e, v.mountPoint)
      && v.mountPoint in Next(r, e).retired && Next(r, e).retired[v.mountPoint] == CLEAN
    case _ => false
  }

  /** The identity the image had when that event pinned it. */
  ghost function PinnedBy(e: Event): string {
    match e
    case Unmount(_, _, pin) => pin.closedIdentity
    case Unlock(_, v) => v.pin.closedIdentity
    case _ => ""
  }

  /** The event is an unlock of the volume that goes ahead. */
  ghost predicate Reopens(r: Registry, e: Event, volume: string) {
    e.Unlock? && e.request.volumeId == volume && GoesAhead(r, e.request, e.view)
  }

  /** Event k stopped the volume clean, and no later unlock of it went ahead. */
  ghost predicate CleanSince(es: seq<Event>, k: int, volume: string) {
    && 0 <= k < |es| && StopsClean(Run(EMPTY, es[..k]), es[k], volume)
    && forall j :: k < j < |es| ==> !Reopens(Run(EMPTY, es[..j]), es[j], volume)
  }

  /** What event k registered for the volume. */
  ghost predicate RegisteredAfter(es: seq<Event>, k: int, volume: string, p: W.Profile)
    requires 0 <= k < |es|
  {
    var t := Run(EMPTY, es[..k + 1]);
    volume in t.images && t.images[volume].profile == p
  }

  /** The clean entry of a volume is what event k left. */
  ghost predicate EntryOf(r: Registry, es: seq<Event>, k: int, volume: string)
    requires 0 <= k < |es|
  {
    volume in r.clean && r.clean[volume].closedIdentity == PinnedBy(es[k]) && RegisteredAfter(es, k, volume, r.clean[volume].profile)
  }

  /** What one event does to the clean entry of a volume. */
  ghost predicate CleanStep(r: Registry, e: Event, t: Registry, volume: string) {
    && (StopsClean(r, e, volume) ==>
         && volume in t.clean && t.clean[volume].closedIdentity == PinnedBy(e)
         && volume in t.images && t.images[volume].profile == t.clean[volume].profile)
    && (Reopens(r, e, volume) && !StopsClean(r, e, volume) ==> volume !in t.clean)
    && (!Reopens(r, e, volume) && !StopsClean(r, e, volume) ==>
         (volume in t.clean <==> volume in r.clean) && (volume in r.clean ==> t.clean[volume] == r.clean[volume]))
  }

  lemma StopWriterClean(r: Registry, m: string, v: W.StopView, pin: PinView, volume: string)
    requires m in r.sessions && W.Sound(r.sessions[m]) && !r.sessions[m].released && m !in r.retired
    requires r.sessions[m].profile.volumeId in r.images
    ensures var t := StopWriter(r, m, v, pin).0;
      if pin.pinned && m in t.retired && t.retired[m] == CLEAN && r.sessions[m].profile.volumeId == volume then
        && volume in t.clean && t.clean[volume].closedIdentity == pin.closedIdentity
        && volume in t.images && t.images[volume].profile == t.clean[volume].profile
      else (volume in t.clean <==> volume in r.clean) && (volume in r.clean ==> t.clean[volume] == r.clean[volume])
  {
    StopAnswers(r.sessions[m], v);
  }

  lemma UnmountIsCleanStep(r: Registry, m: string, v: W.StopView, pin: PinView, volume: string)
    requires RegistrySound(r)
    ensures CleanStep(r, Unmount(m, v, pin), Next(r, Unmount(m, v, pin)), volume)
  {
    if m in r.sessions {
      assert WriterSound(r, m);
      StopWriterClean(r, m, v, pin, volume);
    }
  }

  /** The registry with the session of an unlock that goes ahead. */
  ghost function Opened(r: Registry, p: W.Profile, v: UnlockView): Registry {
    r.(clean := r.clean - {p.volumeId}, latest := r.latest[p.volumeId := v.mountPoint],
       sessions := r.sessions[v.mountPoint := AdmitAll(W.Fresh(v.mountPoint, p, v.hostPid), v.statuses)])
  }

  lemma UnlockCases(r: Registry, p: W.Profile, v: UnlockView)
    requires RegistrySound(r)
    ensures UnlockStep(r, p, v).0 ==
      if !GoesAhead(r, p, v) then r
      else if !v.started then r.(clean := r.clean - {p.volumeId})
      else if v.ready then Opened(r, p, v)
      else StopWriter(Opened(r, p, v), v.mountPoint, v.stop, v.pin).0
  {
    if p.volumeId in r.images {
      assert RegistrationSound(r.images[p.volumeId], p.volumeId);
    }
  }

  lemma FailedStartIsCleanStep(r: Registry, p: W.Profile, v: UnlockView, volume: string)
    requires RegistrySound(r) && Allowed(r, Unlock(p, v)) && GoesAhead(r, p, v) && v.started && !v.ready
    ensures CleanStep(r, Unlock(p, v), StopWriter(Opened(r, p, v), v.mountPoint, v.stop, v.pin).0, volume)
  {
    UnlockCases(r, p, v);
    AdmitAllKeeps(W.Fresh(v.mountPoint, p, v.hostPid), v.statuses);
    StopWriterClean(Opened(r, p, v), v.mountPoint, v.stop, v.pin, volume);
  }

  lemma UnlockIsCleanStep(r: Registry, p: W.Profile, v: UnlockView, volume: string)
    requires RegistrySound(r) && Allowed(r, Unlock(p, v))
    ensures CleanStep(r, Unlock(p, v), Next(r, Unlock(p, v)), volume)
  {
    UnlockCases(r, p, v);
    if GoesAhead(r, p, v) && v.started && !v.ready {
      FailedStartIsCleanStep(r, p, v, volume);
    }
  }

  lemma EventIsCleanStep(r: Registry, e: Event, volume: string)
    requires RegistrySound(r) && Allowed(r, e)
    ensures CleanStep(r, e, Next(r, e), volume)
  {
    match e
    case Unlock(p, v) => UnlockIsCleanStep(r, p, v, volume);
    case Unmount(m, v, pin) => UnmountIsCleanStep(r, m, v, pin, volume);
    case _ =>
  }

  lemma CleanSinceLonger(es: seq<Event>, e: Event, k: int, volume: string)
    requires 0 <= k < |es|
    ensures CleanSince(es + [e], k, volume) <==> CleanSince(es, k, volume) && !Reopens(Run(EMPTY, es), e, volume)
    ensures forall p :: RegisteredAfter(es + [e], k, volume, p) <==> RegisteredAfter(es, k, volume, p)
    ensures (es + [e])[k] == es[k]
  {
    var all := es + [e];
    assert all[..k] == es[..k] && all[..k + 1] == es[..k + 1];
    assert all[|es|] == e && all[..|es|] == es;
    forall j | k < j < |es| ensures all[j] == es[j] && all[..j] == es[..j] {
    }
  }

  lemma CleanSinceNow(es: seq<Event>, e: Event, volume: string)
    ensures CleanSince(es + [e], |es|, volume) <==> StopsClean(Run(EMPTY, es), e, volume)
    ensures forall p :: RegisteredAfter(es + [e], |es|, volume, p) <==>
      volume in Next(Run(EMPTY, es), e).images && Next(Run(EMPTY, es), e).images[volume].profile == p
  {
    var all := es + [e];
    assert all[..|es|] == es && all[..|es| + 1] == all && all[|es|] == e;
    RunSnoc(EMPTY, es, e);
  }

  /** A volume with a clean entry has no writer, so no event but an unlock of it can stop it. */
  lemma NoStopWhileClean(r: Registry, e: Event, volume: string)
    requires RegistrySound(r) && volume in r.clean
    ensures StopsClean(r, e, volume) ==> Reopens(r, e, volume)
  {
    forall m | m in r.sessions ensures r.sessions[m].profile.volumeId != volume {
      assert WriterSound(r, m);
    }
  }

  lemma EntryLonger(es: seq<Event>, e: Event, k: int, volume: string)
    requires 0 <= k < |es| && EntryOf(Run(EMPTY, es), es, k, volume) && RegistrySound(Run(EMPTY, es))
    requires CleanStep(Run(EMPTY, es), e, Run(EMPTY, es + [e]), volume) && !Reopens(Run(EMPTY, es), e, volume)
    ensures EntryOf(Run(EMPTY, es + [e]), es + [e], k, volume)
  {
    NoStopWhileClean(Run(EMPTY, es), e, volume);
    CleanSinceLonger(es, e, k, volume);
  }

  lemma EntryNow(es: seq<Event>, e: Event, volume: string)
    requires CleanStep(Run(EMPTY, es), e, Run(EMPTY, es + [e]), volume) && StopsClean(Run(EMPTY, es), e, volume)
    ensures EntryOf(Run(EMPTY, es + [e]), es + [e], |es|, volume)
  {
    CleanSinceNow(es, e, volume);
    RunSnoc(EMPTY, es, e);
    assert (es + [e])[|es|] == e;
  }

  /** After a clean stop the registry keeps its entry as long as no unlock of the volume goes ahead. */
  lemma {:induction false} CleanStopIsKept(es: seq<Event>, k: int, volume: string)
    requires AllowedRun(EMPTY, es) && CleanSince(es, k, volume)
    ensures EntryOf(Run(EMPTY, es), es, k, volume)
    decreases |es|
  {
    var n := |es| - 1;
    var before, e := es[..n], es[n];
    assert es == before + [e];
    RunSnoc(EMPTY, before, e);
    RegistryOverRuns(EMPTY, before);
    EventIsCleanStep(Run(EMPTY, before), e, volume);
    if k == n {
      CleanSinceNow(before, e, volume);
      EntryNow(before, e, volume);
    } else {
      CleanSinceLonger(before, e, k, volume);
      CleanStopIsKept(before, k, volume);
      EntryLonger(before, e, k, volume);
    }
  }

  /** A clean entry goes back to the clean stop that left it. */
  lemma {:induction false} CleanEntryHasStop(es: seq<Event>, volume: string) returns (k: int)
    requires AllowedRun(EMPTY, es) && volume in Run(EMPTY, es).clean
    ensures CleanSince(es, k, volume)
    decreases |es|
  {
    var n := |es| - 1;
    var before, e := es[..n], es[n];
    assert es == before + [e];
    RunSnoc(EMPTY, before, e);
    RegistryOverRuns(EMPTY, before);
    EventIsCleanStep(Run(EMPTY, before), e, volume);
    if StopsClean(Run(EMPTY, before), e, volume) {
      CleanSinceNow(before, e, volume);
      k := n;
    } else {
      k := CleanEntryHasStop(before, volume);
      CleanSinceLonger(before, e, k, volume);
    }
  }

  /** Event k's clean stop registered p and pinned the identity that is seen now. */
  ghost predicate LockedSince(es: seq<Event>, k: int, p: W.Profile, identity: Option<string>) {
    CleanSince(es, k, p.volumeId) && RegisteredAfter(es, k, p.volumeId, p) && identity == Some(PinnedBy(es[k]))
  }

  lemma LockedHasStop(es: seq<Event>, p: W.Profile, v: LockView) returns (k: int)
    requires AllowedRun(EMPTY, es) && AlreadyLocked(Run(EMPTY, es), p, v)
    ensures LockedSince(es, k, p, v.currentIdentity)
  {
    k := CleanEntryHasStop(es, p.volumeId);
    CleanStopIsKept(es, k, p.volumeId);
  }

  lemma StopGivesLocked(es: seq<Event>, p: W.Profile, v: LockView, k: int)
    requires AllowedRun(EMPTY, es) && LockedSince(es, k, p, v.currentIdentity)
    requires !v.mounted && v.directoryAbsent && v.processAbsent
    requires var r := Run(EMPTY, es); p.volumeId in r.images && r.images[p.volumeId].profile == p
    ensures AlreadyLocked(Run(EMPTY, es), p, v)
  {
    CleanStopIsKept(es, k, p.volumeId);
    RegistryOverRuns(EMPTY, es);
    var r := Run(EMPTY, es);
    assert RetirementSound(r, p.volumeId) && RegistrationSound(r.images[p.volumeId], p.volumeId);
    forall m | m in r.sessions ensures r.sessions[m].profile.volumeId != p.volumeId {
      assert WriterSound(r, m);
    }
  }

  /**
   * In every reachable registry an image counts as already locked if and only if the volume is not mounted,
   * directory and process are absent, p is the registered profile, and an earlier event ended a session of
   * the volume clean, registered p and pinned the identity that the image has now, with no later unlock of
   * the volume that went ahead.
   */
  lemma AlreadyLockedIsExact(es: seq<Event>, p: W.Profile, v: LockView)
    requires AllowedRun(EMPTY, es)
    ensures AlreadyLocked(Run(EMPTY, es), p, v) <==>
      && !v.mounted && v.directoryAbsent && v.processAbsent
      && p.volumeId in Run(EMPTY, es).images && Run(EMPTY, es).images[p.volumeId].profile == p
      && exists k :: LockedSince(es, k, p, v.currentIdentity)
  {
    if AlreadyLocked(Run(EMPTY, es), p, v) {
      var k := LockedHasStop(es, p, v);
    }
    if k :| LockedSince(es, k, p, v.currentIdentity) {
      var r := Run(EMPTY, es);
      if !v.mounted && v.directoryAbsent && v.processAbsent && p.volumeId in r.images && r.images[p.volumeId].profile == p {
        StopGivesLocked(es, p, v, k);
      }
    }
  }

  /** There is one such stop: after a clean stop only an unlock that goes ahead can lead to another. */
  lemma LastCleanStopIsUnique(es: seq<Event>, j: int, k: int, volume: string)
    requires AllowedRun(EMPTY, es) && CleanSince(es, j, volume) && CleanSince(es, k, volume)
    ensures j == k
  {
    if j < k { NoCleanStopBetween(es, j, k, volume); }
    if k < j { NoCleanStopBetween(es, k, j, volume); }
  }

  lemma {:induction false} PrefixAllowed(r: Registry, es: seq<Event>, k: nat)
    requires AllowedRun(r, es) && k <= |es|
    ensures AllowedRun(r, es[..k]) && (k < |es| ==> Allowed(Run(r, es[..k]), es[k]))
    decreases |es|
  {
    if k != 0 {
      PrefixAllowed(Next(r, es[0]), es[1..], k - 1);
      assert es[..k][1..] == es[1..][..k - 1];
    }
  }

  lemma NoCleanStopBetween(es: seq<Event>, j: int, k: int, volume: string)
    requires AllowedRun(EMPTY, es) && CleanSince(es, j, volume) && j < k < |es|
    ensures !StopsClean(Run(EMPTY, es[..k]), es[k], volume)
  {
    var before := es[..k];
    PrefixAllowed(EMPTY, es, k);
    forall i | j < i < k ensures before[i] == es[i] && before[..i] == es[..i] {
    }
    assert before[j] == es[j] && before[..j] == es[..j];
    CleanStopIsKept(before, j, volume);
    RegistryOverRuns(EMPTY, before);
    NoStopWhileClean(Run(EMPTY, before), es[k], volume);
  }
}

/** The registry of encrypted image writers: one writer per volume, staged removal, and the already-locked answer. */
module WriterRegistry {
  import opened Prelude
  import opened WriterSession

  datatype Registration = Registration(profile: Profile, writeLease: bool)

  datatype CleanRetired = CleanRetired(profile: Profile, session: Session, closedIdentity: string)

  /** The registry's dictionaries. `latest` is history: the last session ever started for a volume. */
  datatype Registry = Registry(
    images: map<string, Registration>,
    sessions: map<string, Session>,
    retired: map<string, UnmountResult>,
    clean: map<string, CleanRetired>,
    latest: map<string, string>)

  const EMPTY := Registry(map[], map[], map[], map[], map[])

  predicate HasWriter(r: Registry, volume: string) {
    exists m :: m in r.sessions && r.sessions[m].profile.volumeId == volume
  }

  // ---- What each gate body does ----

  /** What an unlock meets after its checks: the lease, the launch, the statuses read while waiting, the outcome. */
  datatype UnlockView = UnlockView(
    hostPresent: bool, leaseUnchanged: bool, mountPoint: string, hostPid: int, started: bool,
    statuses: seq<Status>, ready: bool, stop: StopView, pin: PinView)

  /** What re-pinning the image after a clean stop meets. */
  datatype PinView = PinView(pinned: bool, closedIdentity: string)

  predicate UnlockAllowed(r: Registry, p: Profile) {
    && p.writable && p.valid && p.volumeId in r.images && r.images[p.volumeId].profile == p
    && r.images[p.volumeId].writeLease && !HasWriter(r, p.volumeId)
  }

  function AdmitAll(s: Session, statuses: seq<Status>): Session
    decreases |statuses|
  {
    if statuses == [] then s else AdmitAll(AdmitStep(s, statuses[0], false), statuses[1..])
  }

  /** A clean stop moves the registration to the session's last checkpoint and remembers the retirement. */
  function Reregister(r: Registry, s: Session, pin: PinView): Registry {
    var volume := s.profile.volumeId;
    if volume in r.images && pin.pinned then
      var next := r.images[volume].profile.(checkpointXid := CheckpointXid(s));
      r.(images := r.images[volume := Registration(next, true)],
         clean := r.clean[volume := CleanRetired(next, s, pin.closedIdentity)])
    else r
  }

  /** StopEncryptedWriteSession: the session leaves the map only with a proof of release and removal. */
  function StopWriter(r: Registry, mount: string, v: StopView, pin: PinView): (Registry, UnmountResult)
    requires mount in r.sessions
  {
    var (s, result) := StopStep(r.sessions[mount], v);
    if result.ownershipReleased && result.mountRemoved then
      var gone := r.(sessions := r.sessions - {mount}, retired := r.retired[mount := result]);
      (if result.success && result.durabilityCleared then Reregister(gone, s, pin) else gone, result)
    else (r.(sessions := r.sessions[mount := s]), result)
  }

  function UnlockStep(r: Registry, p: Profile, v: UnlockView): (Registry, bool) {
    if !UnlockAllowed(r, p) || !v.hostPresent || !v.leaseUnchanged then (r, false)
    else
      var cleared := r.(clean := r.clean - {p.volumeId});
      if !v.started then (cleared, false)
      else
        var s := AdmitAll(Fresh(v.mountPoint, p, v.hostPid), v.statuses);
        var added := cleared.(sessions := cleared.sessions[v.mountPoint := s], latest := cleared.latest[p.volumeId := v.mountPoint]);
        if v.ready then (added, true) else (StopWriter(added, v.mountPoint, v.stop, v.pin).0, false)
  }

  function UnmountStep(r: Registry, mount: string, v: StopView, pin: PinView): (Registry, UnmountResult) {
    if mount in r.sessions then StopWriter(r, mount, v, pin)
    else (r, if mount in r.retired then r.retired[mount] else STILL_RESERVED)
  }

  /** Registering a new image; a volume already registered is refused. */
  function RegisterStep(r: Registry, p: Profile): Registry {
    if p.valid && p.volumeId !in r.images then r.(images := r.images[p.volumeId := Registration(p, p.writable)]) else r
  }

  /** Taking an idle registration away; refused while a writer is reserved for the volume. */
  function DeregisterStep(r: Registry, volume: string): Registry {
    if HasWriter(r, volume) then r else r.(images := r.images - {volume})
  }

  function AdmitTo(r: Registry, mount: string, status: Status): Registry {
    if mount in r.sessions then r.(sessions := r.sessions[mount := AdmitStep(r.sessions[mount], status, false)]) else r
  }

  /** What the locked-image query meets outside the registry. */
  datatype LockView = LockView(mounted: bool, directoryAbsent: bool, processAbsent: bool, currentIdentity: Option<string>)

  /** The retired owner counts as absent only if its session ended clean and is released. */
  predicate RetiredOwnerAbsent(s: Session, v: LockView) {
    && s.released && s.terminalResult == Some(UnmountResult(true, true, true, true))
    && v.directoryAbsent && v.processAbsent
  }

  predicate AlreadyLocked(r: Registry, p: Profile, v: LockView) {
    && p.writable && p.valid
    && p.volumeId in r.images && r.images[p.volumeId].profile == p && r.images[p.volumeId].writeLease
    && !HasWriter(r, p.volumeId) && !v.mounted
    && p.volumeId in r.clean && r.clean[p.volumeId].profile == p
    && RetiredOwnerAbsent(r.clean[p.volumeId].session, v)
    && v.currentIdentity == Some(r.clean[p.volumeId].closedIdentity)
  }

  // ---- The class ----

  class EncryptedWriters {
    var encryptedImages: map<string, Registration>
    var writeSessions: map<string, Session>
    var writeRetired: map<string, UnmountResult>
    var cleanRetirements: map<string, CleanRetired>
    ghost var latest: map<string, string>

    ghost function State(): Registry
      reads this
    {
      Registry(encryptedImages, writeSessions, writeRetired, cleanRetirements, latest)
    }

    constructor ()
      ensures State() == EMPTY
    {
      encryptedImages, writeSessions, writeRetired, cleanRetirements, latest := map[], map[], map[], map[], map[];
    }

    predicate WriterReserved(volume: string)
      reads this
      ensures WriterReserved(volume) <==> HasWriter(State(), volume)
    {
      exists m :: m in writeSessions && writeSessions[m].profile.volumeId == volume
    }

    method Register(p: Profile)
      modifies this
      ensures State() == RegisterStep(old(State()), p)
    {
      if p.valid && p.volumeId !in encryptedImages {
        encryptedImages := encryptedImages[p.volumeId := Registration(p, p.writable)];
      }
    }

    method Deregister(volume: string)
      modifies this
      ensures State() == DeregisterStep(old(State()), volume)
    {
      if !WriterReserved(volume) {
        encryptedImages := encryptedImages - {volume};
      }
    }

    method StopEncryptedWriteSession(mount: string, v: StopView, pin: PinView) returns (result: UnmountResult)
      requires mount in writeSessions
      modifies this
      ensures (State(), result) == StopWriter(old(State()), mount, v, pin)
    {
      var stopped := StopStep(writeSessions[mount], v);
      var s := stopped.0;
      result := stopped.1;
      if !result.ownershipReleased || !result.mountRemoved {
        writeSessions := writeSessions[mount := s];
        return;
      }
      writeSessions := writeSessions - {mount};
      writeRetired := writeRetired[mount := result];
      var volume := s.profile.volumeId;
      if result.success && result.durabilityCleared && volume in encryptedImages && pin.pinned {
        var next := encryptedImages[volume].profile.(checkpointXid := CheckpointXid(s));
        encryptedImages := encryptedImages[volume := Registration(next, true)];
        cleanRetirements := cleanRetirements[volume := CleanRetired(next, s, pin.closedIdentity)];
      }
    }

    method UnlockWritable(p: Profile, v: UnlockView) returns (mounted: bool)
      modifies this
      ensures (State(), mounted) == UnlockStep(old(State()), p, v)
    {
      if !p.writable || !p.valid || p.volumeId !in encryptedImages || encryptedImages[p.volumeId].profile != p ||
         !encryptedImages[p.volumeId].writeLease || WriterReserved(p.volumeId) {
        return false;
      }
      if !v.hostPresent || !v.leaseUnchanged { return false; }
      cleanRetirements := cleanRetirements - {p.volumeId};
      if !v.started { return false; }
      var s := AdmitAll(Fresh(v.mountPoint, p, v.hostPid), v.statuses);
      writeSessions := writeSessions[v.mountPoint := s];
      latest := latest[p.volumeId := v.mountPoint];
      if v.ready { return true; }
      var _ := StopEncryptedWriteSession(v.mountPoint, v.stop, v.pin);
      mounted := false;
    }

    method Unmount(mount: string, v: StopView, pin: PinView) returns (result: UnmountResult)
      modifies this
      ensures (State(), result) == UnmountStep(old(State()), mount, v, pin)
    {
      if mount in writeSessions {
        result := StopEncryptedWriteSession(mount, v, pin);
      } else {
        result := if mount in writeRetired then writeRetired[mount] else STILL_RESERVED;
      }
    }

    method ObserveLockedImage(p: Profile, v: LockView) returns (locked: bool)
      ensures locked <==> AlreadyLocked(State(), p, v)
    {
      if !p.writable || !p.valid || p.volumeId !in encryptedImages || encryptedImages[p.volumeId].profile != p ||
         !encryptedImages[p.volumeId].writeLease || WriterReserved(p.volumeId) || v.mounted ||
         p.volumeId !in cleanRetirements || cleanRetirements[p.volumeId].profile != p {
        return false;
      }
      var retired := cleanRetirements[p.volumeId];
      locked := RetiredOwnerAbsent(retired.session, v) && v.currentIdentity == Some(retired.closedIdentity);
    }
  }

  // ---- Runs ----

  datatype Event =
    | Register(profile: Profile)
    | Deregister(volume: string)
    | Unlock(request: Profile, view: UnlockView)
    | Status(mount: string, status: Status)
    | Unmount(mount: string, stop: StopView, pin: PinView)

  function Next(r: Registry, e: Event): Registry {
    match e
    case Register(p) => RegisterStep(r, p)
    case Deregister(v) => DeregisterStep(r, v)
    case Unlock(p, v) => UnlockStep(r, p, v).0
    case Status(m, s) => AdmitTo(r, m, s)
    case Unmount(m, v, pin) => UnmountStep(r, m, v, pin).0
  }

  /** Session directories are named by fresh identifiers. */
  ghost predicate FreshMount(r: Registry, mount: string) {
    mount !in r.sessions && mount !in r.retired && mount !in r.latest.Values
  }

  ghost predicate Allowed(r: Registry, e: Event) {
    e.Unlock? ==> FreshMount(r, e.view.mountPoint)
  }

  ghost predicate AllowedRun(r: Registry, es: seq<Event>)
    decreases |es|
  {
    es == [] || (Allowed(r, es[0]) && AllowedRun(Next(r, es[0]), es[1..]))
  }

  function Run(r: Registry, es: seq<Event>): Registry
    decreases |es|
  {
    if es == [] then r else Run(Next(r, es[0]), es[1..])
  }

  /** One reserved writer: under its own directory, sound, not released, the volume's latest, started from its registration. */
  ghost predicate WriterSound(r: Registry, m: string)
    requires m in r.sessions
  {
    var s := r.sessions[m];
    && s.mountPoint == m && Sound(s) && !s.released
    && s.profile.volumeId in r.latest && r.latest[s.profile.volumeId] == m
    && s.profile.volumeId in r.images && r.images[s.profile.volumeId].profile == s.profile
    && s.profile.volumeId !in r.clean && s.profile.writable
  }

  /** One remembered clean retirement: of the volume's latest session, which ended clean and released. */
  ghost predicate RetirementSound(r: Registry, volume: string)
    requires volume in r.clean
  {
    var c := r.clean[volume];
    && volume in r.latest && r.latest[volume] == c.session.mountPoint
    && c.session.profile.volumeId == volume && Sound(c.session) && c.session.released
    && c.session.terminalResult == Some(UnmountResult(true, true, true, true))
    && c.profile.volumeId == volume && c.profile.checkpointXid == CheckpointXid(c.session)
    && c.profile.writable && c.profile.valid
  }

  /** A registered profile is valid, under its own volume, and leased for writing just when it is writable. */
  ghost predicate RegistrationSound(g: Registration, volume: string) {
    g.profile.volumeId == volume && g.profile.valid && g.writeLease == g.profile.writable
  }

  ghost predicate RegistrySound(r: Registry) {
    && (forall m :: m in r.sessions ==> WriterSound(r, m))
    && (forall v :: v in r.clean ==> RetirementSound(r, v))
    && (forall v :: v in r.images ==> RegistrationSound(r.images[v], v))
    && (forall m :: m in r.retired ==> m !in r.sessions && r.retired[m].ownershipReleased && r.retired[m].mountRemoved)
  }

  /** What one step may do to what was there. */
  ghost predicate StepFrame(r: Registry, t: Registry) {
    && (forall m :: m in r.sessions && m !in t.sessions ==> m in t.retired)
    && (forall v :: v in r.images && v in t.images ==>
         r.images[v].profile.checkpointXid <= t.images[v].profile.checkpointXid)
  }

  lemma {:induction false} AdmitAllKeeps(s: Session, statuses: seq<Status>)
    requires Sound(s) && !s.released
    ensures Sound(AdmitAll(s, statuses)) && Onward(s, AdmitAll(s, statuses)) && !AdmitAll(s, statuses).released
    decreases |statuses|
  {
    if statuses != [] {
      AdmissionIsMonotone(s, statuses[0], false);
      AdmitAllKeeps(AdmitStep(s, statuses[0], false), statuses[1..]);
    }
  }

  /** A stop that proves release ends the session; any other answer leaves it reserved. */
  lemma StopAnswers(s: Session, v: StopView)
    requires Sound(s) && !s.released
    ensures var (t, result) := StopStep(s, v);
      && Sound(t) && Onward(s, t)
      && (result.ownershipReleased && result.mountRemoved ==>
           t.released && t.terminalResult == Some(result) && result.success == result.durabilityCleared)
      && (!(result.ownershipReleased && result.mountRemoved) ==> !t.released)
  {
    StopKeeps(s, v);
    RetireKeeps(s, v);
  }

  lemma StopWriterKeeps(r: Registry, mount: string, v: StopView, pin: PinView)
    requires RegistrySound(r) && mount in r.sessions
    ensures var t := StopWriter(r, mount, v, pin).0; RegistrySound(t) && StepFrame(r, t)
  {
    var s := r.sessions[mount];
    assert WriterSound(r, mount);
    StopAnswers(s, v);
    var t := StopWriter(r, mount, v, pin).0;
    forall m | m in t.sessions ensures WriterSound(t, m) {
      assert WriterSound(r, m);
    }
    StopKeepsRetirements(r, mount, v, pin);
  }

  lemma StopKeepsRetirements(r: Registry, mount: string, v: StopView, pin: PinView)
    requires RegistrySound(r) && mount in r.sessions
    ensures var t := StopWriter(r, mount, v, pin).0; forall volume :: volume in t.clean ==> RetirementSound(t, volume)
  {
    assert WriterSound(r, mount);
    StopAnswers(r.sessions[mount], v);
    var t := StopWriter(r, mount, v, pin).0;
    forall volume | volume in t.clean ensures RetirementSound(t, volume) {
      if volume in r.clean { assert RetirementSound(r, volume); }
    }
  }

  lemma UnlockKeeps(r: Registry, p: Profile, v: UnlockView)
    requires RegistrySound(r) && FreshMount(r, v.mountPoint)
    ensures var t := UnlockStep(r, p, v).0; RegistrySound(t) && StepFrame(r, t)
  {
    if UnlockAllowed(r, p) && v.hostPresent && v.leaseUnchanged {
      var cleared := r.(clean := r.clean - {p.volumeId});
      ClearKeeps(r, p.volumeId);
      if v.started {
        var s := AdmitAll(Fresh(v.mountPoint, p, v.hostPid), v.statuses);
        AdmitAllKeeps(Fresh(v.mountPoint, p, v.hostPid), v.statuses);
        var added := cleared.(sessions := cleared.sessions[v.mountPoint := s], latest := cleared.latest[p.volumeId := v.mountPoint]);
        AddKeeps(cleared, s);
        if !v.ready {
          StopWriterKeeps(added, v.mountPoint, v.stop, v.pin);
        }
      }
    }
  }

  lemma ClearKeeps(r: Registry, volume: string)
    requires RegistrySound(r)
    ensures RegistrySound(r.(clean := r.clean - {volume}))
  {
    var t := r.(clean := r.clean - {volume});
    forall m | m in t.sessions ensures WriterSound(t, m) {
      assert WriterSound(r, m);
    }
    forall v | v in t.clean ensures RetirementSound(t, v) {
      assert RetirementSound(r, v);
    }
  }

  lemma AddKeeps(r: Registry, s: Session)
    requires RegistrySound(r) && Sound(s) && !s.released && s.mountPoint !in r.sessions
    requires !HasWriter(r, s.profile.volumeId) && s.profile.volumeId !in r.clean && s.profile.writable && s.mountPoint !in r.retired
    requires s.profile.volumeId in r.images && r.images[s.profile.volumeId].profile == s.profile
    ensures var t := r.(sessions := r.sessions[s.mountPoint := s], latest := r.latest[s.profile.volumeId := s.mountPoint]);
      RegistrySound(t) && StepFrame(r, t)
  {
    var t := r.(sessions := r.sessions[s.mountPoint := s], latest := r.latest[s.profile.volumeId := s.mountPoint]);
    forall m | m in t.sessions ensures WriterSound(t, m) {
      if m != s.mountPoint { assert WriterSound(r, m); }
    }
    forall v | v in t.clean ensures RetirementSound(t, v) {
      assert RetirementSound(r, v);
    }
  }

  lemma RegisterKeeps(r: Registry, p: Profile)
    requires RegistrySound(r)
    ensures RegistrySound(RegisterStep(r, p)) && StepFrame(r, RegisterStep(r, p))
  {
    forall m | m in r.sessions ensures r.sessions[m].profile.volumeId in r.images {
      assert WriterSound(r, m);
    }
    ImagesKeep(r, RegisterStep(r, p));
  }

  lemma DeregisterKeeps(r: Registry, volume: string)
    requires RegistrySound(r)
    ensures RegistrySound(DeregisterStep(r, volume)) && StepFrame(r, DeregisterStep(r, volume))
  {
    var t := DeregisterStep(r, volume);
    forall m | m in r.sessions ensures r.sessions[m].profile.volumeId in t.images {
      assert WriterSound(r, m);
    }
    ImagesKeep(r, t);
  }

  /** A step that only touches registrations no writer is reserved for. */
  lemma ImagesKeep(r: Registry, t: Registry)
    requires RegistrySound(r) && t == r.(images := t.images)
    requires forall v :: v in t.images ==> RegistrationSound(t.images[v], v)
    requires forall v :: v in r.images && v in t.images ==> t.images[v] == r.images[v]
    requires forall m :: m in r.sessions ==> r.sessions[m].profile.volumeId in t.images
    ensures RegistrySound(t) && StepFrame(r, t)
  {
    forall m | m in t.sessions ensures WriterSound(t, m) {
      assert WriterSound(r, m);
    }
    forall v | v in t.clean ensures RetirementSound(t, v) {
      assert RetirementSound(r, v);
    }
  }

  lemma StatusKeeps(r: Registry, mount: string, status: Status)
    requires RegistrySound(r)
    ensures RegistrySound(AdmitTo(r, mount, status)) && StepFrame(r, AdmitTo(r, mount, status))
  {
    var t := AdmitTo(r, mount, status);
    forall m | m in t.sessions ensures WriterSound(t, m) {
      assert WriterSound(r, m);
      if m == mount { AdmissionIsMonotone(r.sessions[m], status, false); }
    }
    forall v | v in t.clean ensures RetirementSound(t, v) {
      assert RetirementSound(r, v);
    }
  }

  /** Every step keeps the registry sound, removes a session only with a kept proof, and lowers no checkpoint. */
  lemma StepKeeps(r: Registry, e: Event)
    requires RegistrySound(r) && Allowed(r, e)
    ensures RegistrySound(Next(r, e)) && StepFrame(r, Next(r, e))
  {
    match e
    case Register(p) => RegisterKeeps(r, p);
    case Deregister(volume) => DeregisterKeeps(r, volume);
    case Unlock(p, v) => UnlockKeeps(r, p, v);
    case Status(m, status) => StatusKeeps(r, m, status);
    case Unmount(m, v, pin) => if m in r.sessions { StopWriterKeeps(r, m, v, pin); }
  }

  lemma {:induction false} RegistryOverRuns(r: Registry, es: seq<Event>)
    requires RegistrySound(r) && AllowedRun(r, es)
    ensures RegistrySound(Run(r, es))
    decreases |es|
  {
    if es != [] {
      StepKeeps(r, es[0]);
      RegistryOverRuns(Next(r, es[0]), es[1..]);
    }
  }

  /** In every reachable registry a volume has at most one reserved writer. */
  lemma OneWriterPerVolume(es: seq<Event>, m: string, n: string)
    requires AllowedRun(EMPTY, es)
    requires m in Run(EMPTY, es).sessions && n in Run(EMPTY, es).sessions
    requires Run(EMPTY, es).sessions[m].profile.volumeId == Run(EMPTY, es).sessions[n].profile.volumeId
    ensures m == n
  {
    RegistryOverRuns(EMPTY, es);
    var r := Run(EMPTY, es);
    assert WriterSound(r, m) && WriterSound(r, n);
  }

  // ---- What removal from the map rests on ----

  /** The stop call that an event makes for a mount, if it makes one. */
  function StopOf(e: Event, m: string): Option<StopView> {
    match e
    case Unmount(mount, v, _) => if mount == m then Some(v) else None
    case Unlock(_, v) => if v.mountPoint == m then Some(v.stop) else None
    case _ => None
  }

  /** This event stopped m with its owner and directory seen gone and the record written; a clean proof saw exit code 0. */
  ghost predicate ProofTaken(e: Event, m: string, clean: bool) {
    && StopOf(e, m).Some? && var v := StopOf(e, m).value;
      v.hostGone && v.jobEmpty && v.mountAbsentFirst && v.recordWritten && (clean ==> v.exitCode == Some(0) && v.terminal.Some? && v.leaseUnchanged)
  }

  /** This event stopped m with its guardian released and its directory still gone. */
  ghost predicate ReleaseSeen(e: Event, m: string) {
    && StopOf(e, m).Some? && var v := StopOf(e, m).value;
      v.guardianReleased && v.mountAbsentLast
  }

  lemma {:induction false} AdmitAllTakesNoProof(s: Session, statuses: seq<Status>)
    ensures AdmitAll(s, statuses).retirementProof == s.retirementProof && AdmitAll(s, statuses).record == s.record
    decreases |statuses|
  {
    if statuses != [] {
      AdmitAllTakesNoProof(AdmitStep(s, statuses[0], false), statuses[1..]);
    }
  }

  /** A session's proof, if it has one, was there before or comes from this step. */
  ghost predicate ProofFrom(before: Option<UnmountResult>, after: Option<UnmountResult>, e: Event, m: string) {
    after.Some? ==> before == after || ProofTaken(e, m, after.value.success)
  }

  /** Where the proofs of a step come from, and what a removal needs beside one. */
  ghost predicate StepTraced(r: Registry, e: Event, t: Registry) {
    && (forall m :: m in t.sessions ==>
         ProofFrom(if m in r.sessions then r.sessions[m].retirementProof else None, t.sessions[m].retirementProof, e, m))
    && (forall m :: m in t.retired ==>
         || (m in r.retired && r.retired[m] == t.retired[m])
         || (ReleaseSeen(e, m) &&
              ProofFrom(if m in r.sessions then r.sessions[m].retirementProof else None, Some(t.retired[m]), e, m)))
  }

  lemma StopTraced(r: Registry, mount: string, v: StopView, pin: PinView, e: Event)
    requires mount in r.sessions && !r.sessions[mount].released && StopOf(e, mount) == Some(v)
    ensures StepTraced(r, e, StopWriter(r, mount, v, pin).0)
  {
  }

  lemma StepIsTraced(r: Registry, e: Event)
    requires RegistrySound(r) && Allowed(r, e)
    ensures StepTraced(r, e, Next(r, e))
  {
    match e
    case Register(p) =>
    case Deregister(volume) =>
    case Unlock(p, v) => UnlockTraced(r, p, v);
    case Status(m, status) =>
    case Unmount(m, v, pin) =>
      if m in r.sessions {
        assert WriterSound(r, m);
        StopTraced(r, m, v, pin, e);
      }
  }

  lemma UnlockTraced(r: Registry, p: Profile, v: UnlockView)
    requires RegistrySound(r) && FreshMount(r, v.mountPoint)
    ensures StepTraced(r, Unlock(p, v), UnlockStep(r, p, v).0)
  {
    if UnlockAllowed(r, p) && v.hostPresent && v.leaseUnchanged && v.started {
      var s := AdmitAll(Fresh(v.mountPoint, p, v.hostPid), v.statuses);
      AdmitAllTakesNoProof(Fresh(v.mountPoint, p, v.hostPid), v.statuses);
      AdmitAllKeeps(Fresh(v.mountPoint, p, v.hostPid), v.statuses);
      var cleared := r.(clean := r.clean - {p.volumeId});
      var added := cleared.(sessions := cleared.sessions[v.mountPoint := s], latest := cleared.latest[p.volumeId := v.mountPoint]);
      if !v.ready {
        StopTraced(added, v.mountPoint, v.stop, v.pin, Unlock(p, v));
      }
    }
  }

  /** Some event of the run took this proof of m. */
  ghost predicate TakenIn(es: seq<Event>, m: string, proof: UnmountResult) {
    exists k :: 0 <= k < |es| && ProofTaken(es[k], m, proof.success)
  }

  /** Some event of the run released m, at or after one that took its proof. */
  ghost predicate ReleasedIn(es: seq<Event>, m: string, proof: UnmountResult) {
    exists k :: 0 <= k < |es| && ReleaseSeen(es[k], m) && TakenIn(es[..k + 1], m, proof)
  }

  ghost predicate Traced(r: Registry, es: seq<Event>) {
    && (forall m :: m in r.sessions && r.sessions[m].retirementProof.Some? ==> TakenIn(es, m, r.sessions[m].retirementProof.value))
    && (forall m :: m in r.retired ==> ReleasedIn(es, m, r.retired[m]))
  }

  lemma {:induction false} RunSnoc(r: Registry, es: seq<Event>, e: Event)
    ensures Run(r, es + [e]) == Next(Run(r, es), e)
    ensures AllowedRun(r, es + [e]) <==> AllowedRun(r, es) && Allowed(Run(r, es), e)
    decreases |es|
  {
    if es == [] {
      assert [] + [e] == [e] && [e][1..] == [];
    } else {
      assert (es + [e])[1..] == es[1..] + [e];
      RunSnoc(Next(r, es[0]), es[1..], e);
    }
  }

  lemma TakenLonger(es: seq<Event>, e: Event, m: string, proof: UnmountResult)
    ensures TakenIn(es, m, proof) || ProofTaken(e, m, proof.success) ==> TakenIn(es + [e], m, proof)
  {
    if ProofTaken(e, m, proof.success) {
      assert (es + [e])[|es|] == e;
    }
    if TakenIn(es, m, proof) {
      var k :| 0 <= k < |es| && ProofTaken(es[k], m, proof.success);
      assert (es + [e])[k] == es[k];
    }
  }

  lemma ReleasedLonger(es: seq<Event>, e: Event, m: string, proof: UnmountResult)
    ensures ReleasedIn(es, m, proof) || (ReleaseSeen(e, m) && TakenIn(es + [e], m, proof)) ==> ReleasedIn(es + [e], m, proof)
  {
    var all := es + [e];
    if ReleaseSeen(e, m) && TakenIn(all, m, proof) {
      assert all[|es|] == e && all[..|es| + 1] == all;
    }
    if ReleasedIn(es, m, proof) {
      var k :| 0 <= k < |es| && ReleaseSeen(es[k], m) && TakenIn(es[..k + 1], m, proof);
      assert all[k] == es[k] && all[..k + 1] == es[..k + 1];
    }
  }

  lemma StepKeepsTrace(r: Registry, es: seq<Event>, e: Event)
    requires Traced(r, es) && StepTraced(r, e, Next(r, e))
    ensures Traced(Next(r, e), es + [e])
  {
    var t := Next(r, e);
    forall m | m in t.sessions && t.sessions[m].retirementProof.Some?
      ensures TakenIn(es + [e], m, t.sessions[m].retirementProof.value)
    {
      TakenLonger(es, e, m, t.sessions[m].retirementProof.value);
    }
    forall m | m in t.retired ensures ReleasedIn(es + [e], m, t.retired[m]) {
      TakenLonger(es, e, m, t.retired[m]);
      ReleasedLonger(es, e, m, t.retired[m]);
    }
  }

  /** In every reachable registry each proof and each kept answer goes back to what stops of that session saw. */
  lemma {:induction false} TracedOverRuns(es: seq<Event>)
    requires AllowedRun(EMPTY, es)
    ensures Traced(Run(EMPTY, es), es)
    decreases |es|
  {
    if es != [] {
      var n := |es| - 1;
      assert es == es[..n] + [es[n]];
      RunSnoc(EMPTY, es[..n], es[n]);
      TracedOverRuns(es[..n]);
      RegistryOverRuns(EMPTY, es[..n]);
      StepIsTraced(Run(EMPTY, es[..n]), es[n]);
      StepKeepsTrace(Run(EMPTY, es[..n]), es[..n], es[n]);
    }
  }

  /**
   * A reserved session leaves the map only in an unmount that sees its guardian released and its directory
   * absent, after a stop in the same run saw the owner gone, its job empty and the directory absent, and
   * wrote the retirement record. The kept answer is that stop's.
   */
  lemma RemovalNeedsProof(es: seq<Event>, e: Event, m: string)
    requires AllowedRun(EMPTY, es) && Allowed(Run(EMPTY, es), e)
    requires m in Run(EMPTY, es).sessions && m !in Next(Run(EMPTY, es), e).sessions
    ensures e.Unmount? && e.mount == m && e.stop.guardianReleased && e.stop.mountAbsentLast
    ensures m in Next(Run(EMPTY, es), e).retired && TakenIn(es + [e], m, Next(Run(EMPTY, es), e).retired[m])
  {
    var r := Run(EMPTY, es);
    RegistryOverRuns(EMPTY, es);
    assert WriterSound(r, m);
    StepKeeps(r, e);
    RemovedByUnmount(r, e, m);
    TracedOverRuns(es);
    StepIsTraced(r, e);
    TakenLonger(es, e, m, Next(r, e).retired[m]);
  }

  lemma RemovedByUnmount(r: Registry, e: Event, m: string)
    requires Allowed(r, e) && m in r.sessions && !r.sessions[m].released && m !in Next(r, e).sessions
    ensures e.Unmount? && e.mount == m && e.stop.guardianReleased && e.stop.mountAbsentLast
    ensures m in Next(r, e).retired && (r.sessions[m].retirementProof == Some(Next(r, e).retired[m]) || ProofTaken(e, m, Next(r, e).retired[m].success))
  {
  }

  /** So does every session that is remembered as retired, also one whose start failed and that was never reserved in between. */
  lemma RetirementNeedsProof(es: seq<Event>, m: string)
    requires AllowedRun(EMPTY, es) && m in Run(EMPTY, es).retired
    ensures ReleasedIn(es, m, Run(EMPTY, es).retired[m])
  {
    TracedOverRuns(es);
  }

  /**
   * The already-locked answer means that the volume's latest session ended with nothing accepted on its way:
   * the observation on record had accepted = durable = cleaned and nothing dirty, and the registered profile,
   * which no writer holds, is at or past its checkpoint.
   */
  lemma AlreadyLockedMeansClean(es: seq<Event>, p: Profile, v: LockView)
    requires AllowedRun(EMPTY, es) && AlreadyLocked(Run(EMPTY, es), p, v)
    ensures var r := Run(EMPTY, es); var s := r.clean[p.volumeId].session;
      && p.volumeId in r.latest && r.latest[p.volumeId] == s.mountPoint
      && s.record.Some? && Settled(s.record.value) && AtOrAbove(s.record, s.last)
      && s.record.value.checkpoint <= CheckpointXid(s) == p.checkpointXid
  {
    RegistryOverRuns(EMPTY, es);
    assert RetirementSound(Run(EMPTY, es), p.volumeId);
  }

  // ---- Status documents after the end ----

  /** A status read after a clean proof is not that of a mounted host: whoever would write one is gone. */
  ghost predicate Silent(r: Registry, e: Event) {
    e.Status? && e.mount in r.sessions && r.sessions[e.mount].record.Some? ==> !e.status.mountReady
  }

  ghost predicate SilentRun(r: Registry, es: seq<Event>)
    decreases |es|
  {
    es == [] || (Silent(r, es[0]) && SilentRun(Next(r, es[0]), es[1..]))
  }

  /** What is on record is also the last thing observed. */
  ghost predicate RecordIsLast(s: Session) {
    s.record.Some? ==> s.last == s.record
  }

  ghost predicate RecordsAreLast(r: Registry) {
    && (forall m :: m in r.sessions ==> RecordIsLast(r.sessions[m]))
    && (forall v :: v in r.clean ==> RecordIsLast(r.clean[v].session))
  }

  lemma StopKeepsLast(s: Session, v: StopView)
    requires Sound(s) && RecordIsLast(s)
    ensures RecordIsLast(StopStep(s, v).0)
  {
  }

  lemma StopWriterKeepsLast(r: Registry, mount: string, v: StopView, pin: PinView)
    requires RecordsAreLast(r) && mount in r.sessions && Sound(r.sessions[mount])
    ensures RecordsAreLast(StopWriter(r, mount, v, pin).0)
  {
    StopKeepsLast(r.sessions[mount], v);
  }

  lemma UnlockKeepsLast(r: Registry, p: Profile, v: UnlockView)
    requires RecordsAreLast(r)
    ensures RecordsAreLast(UnlockStep(r, p, v).0)
  {
    if UnlockAllowed(r, p) && v.hostPresent && v.leaseUnchanged && v.started {
      var s := AdmitAll(Fresh(v.mountPoint, p, v.hostPid), v.statuses);
      AdmitAllTakesNoProof(Fresh(v.mountPoint, p, v.hostPid), v.statuses);
      AdmitAllKeeps(Fresh(v.mountPoint, p, v.hostPid), v.statuses);
      var cleared := r.(clean := r.clean - {p.volumeId});
      var added := cleared.(sessions := cleared.sessions[v.mountPoint := s], latest := cleared.latest[p.volumeId := v.mountPoint]);
      if !v.ready {
        StopWriterKeepsLast(added, v.mountPoint, v.stop, v.pin);
      }
    }
  }

  lemma StepKeepsLast(r: Registry, e: Event)
    requires RegistrySound(r) && RecordsAreLast(r) && Silent(r, e)
    ensures RecordsAreLast(Next(r, e))
  {
    match e
    case Register(p) =>
    case Deregister(volume) =>
    case Unlock(p, v) => UnlockKeepsLast(r, p, v);
    case Status(m, status) =>
    case Unmount(m, v, pin) =>
      if m in r.sessions {
        assert WriterSound(r, m);
        StopWriterKeepsLast(r, m, v, pin);
      }
  }

  lemma {:induction false} LastOverRuns(r: Registry, es: seq<Event>)
    requires RegistrySound(r) && RecordsAreLast(r) && AllowedRun(r, es) && SilentRun(r, es)
    ensures RecordsAreLast(Run(r, es))
    decreases |es|
  {
    if es != [] {
      StepKeeps(r, es[0]);
      StepKeepsLast(r, es[0]);
      LastOverRuns(Next(r, es[0]), es[1..]);
    }
  }

  /** Where a gone host leaves no status of a mounted one, the registered profile is exactly at the settled checkpoint. */
  lemma AlreadyLockedIsSettled(es: seq<Event>, p: Profile, v: LockView)
    requires AllowedRun(EMPTY, es) && SilentRun(EMPTY, es) && AlreadyLocked(Run(EMPTY, es), p, v)
    ensures var s := Run(EMPTY, es).clean[p.volumeId].session;
      s.last.Some? && Settled(s.last.value) && s.last == s.record && p.checkpointXid == s.last.value.checkpoint
  {
    AlreadyLockedMeansClean(es, p, v);
    LastOverRuns(EMPTY, es);
  }

  ghost predicate StaysRegistered(r: Registry, es: seq<Event>, volume: string)
    decreases |es|
  {
    volume in r.images && (es == [] || StaysRegistered(Next(r, es[0]), es[1..], volume))
  }

  /** While a volume stays registered, its registered checkpoint never goes down, whatever sessions come and go. */
  lemma {:induction false} CheckpointNeverFalls(r: Registry, es: seq<Event>, volume: string)
    requires RegistrySound(r) && AllowedRun(r, es) && StaysRegistered(r, es, volume)
    ensures volume in Run(r, es).images
    ensures r.images[volume].profile.checkpointXid <= Run(r, es).images[volume].profile.checkpointXid
    decreases |es|
  {
    if es != [] {
      StepKeeps(r, es[0]);
      CheckpointNeverFalls(Next(r, es[0]), es[1..], volume);
    }
  }
}

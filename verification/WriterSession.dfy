/** An encrypted image writer session: admitted watermarks, staged retirement, and the stop answer that is kept. */
module WriterSession {
  import opened Prelude

  /** The registered selectors that matter here. */
  datatype Profile = Profile(volumeId: string, selectors: string, checkpointXid: nat, writable: bool, valid: bool)

  /** One status document of the host, with its text fields already compared against the profile. */
  datatype Status = Status(
    identityMatches: bool,      // source, container, volume, selection and the read-only flags
    hostPid: int, mountReady: bool, failureFree: bool, recoveryStateValid: bool,
    healthReadWrite: bool, healthStopping: bool, commitReady: bool,
    checkpointXid: nat, accepted: nat, durable: nat, cleaned: nat, dirty: int)

  datatype Observation = Observation(checkpoint: nat, accepted: nat, durable: nat, cleaned: nat, dirty: int)

  datatype UnmountResult = UnmountResult(success: bool, mountRemoved: bool, ownershipReleased: bool, durabilityCleared: bool)

  const STILL_RESERVED := UnmountResult(false, false, false, false)
  const RELEASE_PENDING := UnmountResult(false, true, false, false)

  /** TryObserve: what a status document is worth after the last admitted one. */
  function TryObserve(p: Profile, s: Status, hostPid: int, terminal: bool, prior: Option<Observation>): Option<Observation> {
    if !p.writable || !p.valid || hostPid <= 0 || s.hostPid != hostPid || s.mountReady == terminal ||
       !s.identityMatches || !s.failureFree || !s.recoveryStateValid ||
       !(if terminal then s.healthStopping else s.healthReadWrite) then None
    else if !terminal && !s.commitReady then None
    else if s.checkpointXid < p.checkpointXid || s.accepted < s.durable || s.durable < s.cleaned || s.dirty < 0 ||
            (terminal && (s.accepted != s.cleaned || s.dirty != 0)) then None
    else if prior.Some? && (s.checkpointXid < prior.value.checkpoint || s.accepted < prior.value.accepted ||
            s.durable < prior.value.durable || s.cleaned < prior.value.cleaned) then None
    else Some(Observation(s.checkpointXid, s.accepted, s.durable, s.cleaned, s.dirty))
  }

  /** The session's fields; `record` is the observation that the retirement file states when it states one. */
  datatype Session = Session(
    mountPoint: string, profile: Profile, hostPid: int,
    last: Option<Observation>, record: Option<Observation>, retirementProof: Option<UnmountResult>,
    terminalResult: Option<UnmountResult>, released: bool)

  function Fresh(mountPoint: string, profile: Profile, hostPid: int): Session {
    Session(mountPoint, profile, hostPid, None, None, None, None, false)
  }

  function CheckpointXid(s: Session): nat {
    if s.last.Some? then s.last.value.checkpoint else s.profile.checkpointXid
  }

  /** Admission replaces the last observation, or leaves everything. */
  function AdmitStep(s: Session, status: Status, terminal: bool): Session {
    var o := TryObserve(s.profile, status, s.hostPid, terminal, s.last);
    if o.Some? then s.(last := o) else s
  }

  /** What one stop call meets: the host and directory, the final status, the lease, the record, the guardian. */
  datatype StopView = StopView(
    hostGone: bool, exitCode: Option<int>, jobEmpty: bool, mountAbsentFirst: bool,
    terminal: Option<Status>, leaseUnchanged: bool, recordWritten: bool,
    guardianReleased: bool, mountAbsentLast: bool)

  predicate OwnerGone(v: StopView) {
    v.hostGone && v.jobEmpty && v.mountAbsentFirst
  }

  predicate CleanRetirement(s: Session, v: StopView) {
    && v.exitCode == Some(0) && v.terminal.Some?
    && TryObserve(s.profile, v.terminal.value, s.hostPid, true, s.last).Some?
    && v.leaseUnchanged
  }

  /** The stop call up to the captured proof: None when it ends before there is one. */
  function RetireStep(s: Session, v: StopView): Session {
    if s.retirementProof.Some? || !OwnerGone(v) then s
    else
      var observed := if v.exitCode == Some(0) && v.terminal.Some? then AdmitStep(s, v.terminal.value, true) else s;
      var clean := CleanRetirement(s, v);
      if !v.recordWritten then observed
      else observed.(retirementProof := Some(UnmountResult(clean, true, true, clean)),
                     record := if clean then observed.last else None)
  }

  /** StopAsync: the new session and its answer. */
  function StopStep(s: Session, v: StopView): (Session, UnmountResult) {
    if s.released then (s, if s.terminalResult.Some? then s.terminalResult.value else STILL_RESERVED)
    else
      var r := RetireStep(s, v);
      if r.retirementProof.None? then (r, STILL_RESERVED)
      else if !v.guardianReleased then (r, RELEASE_PENDING)
      else if !v.mountAbsentLast then (r, STILL_RESERVED)
      else (r.(released := true, terminalResult := r.retirementProof), r.retirementProof.value)
  }

  // ---- The class ----

  class NativeEncryptedImageServiceSession {
    const mountPoint: string
    const profile: Profile
    const hostPid: int
    var last: Option<Observation>
    var record: Option<Observation>
    var retirementProof: Option<UnmountResult>
    var terminalResult: Option<UnmountResult>
    var released: bool

    ghost function State(): Session
      reads this
    {
      Session(mountPoint, profile, hostPid, last, record, retirementProof, terminalResult, released)
    }

    constructor (mountPoint: string, profile: Profile, hostPid: int)
      ensures State() == Fresh(mountPoint, profile, hostPid)
    {
      this.mountPoint, this.profile, this.hostPid := mountPoint, profile, hostPid;
      last, record, retirementProof, terminalResult, released := None, None, None, None, false;
    }

    method TryAdmitObservation(status: Status, terminal: bool) returns (observed: Option<Observation>)
      modifies this`last
      ensures observed == TryObserve(profile, status, hostPid, terminal, old(last))
      ensures State() == AdmitStep(old(State()), status, terminal)
    {
      observed := TryObserve(profile, status, hostPid, terminal, last);
      if observed.None? { return; }
      last := observed;
    }

    method StopAsync(v: StopView) returns (result: UnmountResult)
      requires Sound(State())
      modifies this
      ensures (State(), result) == StopStep(old(State()), v)
    {
      if released { return terminalResult.value; }
      if retirementProof.None? {
        if !v.hostGone || !v.jobEmpty || !v.mountAbsentFirst { return STILL_RESERVED; }
        var clean := false;
        if v.exitCode == Some(0) && v.terminal.Some? {
          var observed := TryAdmitObservation(v.terminal.value, true);
          clean := observed.Some?;
        }
        if !v.leaseUnchanged { clean := false; }
        if !v.recordWritten { return STILL_RESERVED; }
        record := if clean then last else None;
        retirementProof := Some(UnmountResult(clean, true, true, clean));
      }
      if !v.guardianReleased { return RELEASE_PENDING; }
      if !v.mountAbsentLast { return STILL_RESERVED; }
      released := true;
      terminalResult := retirementProof;
      result := retirementProof.value;
    }
  }

  // ---- Runs ----

  ghost predicate Ordered(o: Observation) {
    o.cleaned <= o.durable <= o.accepted && o.dirty >= 0
  }

  /** Every counter of the second observation is at or above the first. */
  ghost predicate AtOrAbove(low: Option<Observation>, high: Option<Observation>) {
    low.Some? ==>
      && high.Some? && low.value.checkpoint <= high.value.checkpoint && low.value.accepted <= high.value.accepted
      && low.value.durable <= high.value.durable && low.value.cleaned <= high.value.cleaned
  }

  /** Nothing accepted is still on its way. */
  ghost predicate Settled(o: Observation) {
    o.accepted == o.durable == o.cleaned && o.dirty == 0
  }

  /** What holds of a session between calls. A clean proof was taken over a settled observation, which is on record. */
  ghost predicate Sound(s: Session) {
    && (s.last.Some? ==> Ordered(s.last.value) && s.last.value.checkpoint >= s.profile.checkpointXid)
    && (s.released ==> s.retirementProof.Some? && s.terminalResult == s.retirementProof)
    && (!s.released ==> s.terminalResult.None?)
    && (s.retirementProof.Some? ==> var r := s.retirementProof.value;
         r.mountRemoved && r.ownershipReleased && r.success == r.durabilityCleared && (r.success <==> s.record.Some?))
    && (s.record.Some? ==> s.retirementProof.Some? && RecordSound(s, s.record.value))
  }

  ghost predicate RecordSound(s: Session, o: Observation) {
    Settled(o) && o.checkpoint >= s.profile.checkpointXid && AtOrAbove(Some(o), s.last)
  }

  /** What a later state of the same session keeps. */
  ghost predicate Onward(s: Session, t: Session) {
    && t.mountPoint == s.mountPoint && t.profile == s.profile && t.hostPid == s.hostPid
    && AtOrAbove(s.last, t.last)
    && (s.retirementProof.Some? ==> t.retirementProof == s.retirementProof && t.record == s.record)
    && (s.released ==> t.released && t.terminalResult == s.terminalResult)
  }

  datatype Call = Admit(status: Status) | Stop(view: StopView)

  function Step(s: Session, c: Call): Session {
    match c
    case Admit(status) => AdmitStep(s, status, false)
    case Stop(v) => StopStep(s, v).0
  }

  function Run(s: Session, calls: seq<Call>): Session
    decreases |calls|
  {
    if calls == [] then s else Run(Step(s, calls[0]), calls[1..])
  }

  /** An admitted observation is ordered, at or above the previous one, and clean when it is terminal. */
  lemma AdmissionIsMonotone(s: Session, status: Status, terminal: bool)
    requires Sound(s)
    ensures var t := AdmitStep(s, status, terminal);
      && Sound(t) && Onward(s, t)
      && (terminal && TryObserve(s.profile, status, s.hostPid, true, s.last).Some? ==>
           t.last.Some? && Settled(t.last.value))
  {
  }

  lemma RetireKeeps(s: Session, v: StopView)
    requires Sound(s) && !s.released
    ensures Sound(RetireStep(s, v)) && Onward(s, RetireStep(s, v)) && !RetireStep(s, v).released
    ensures s.retirementProof.None? && RetireStep(s, v).retirementProof.Some? && RetireStep(s, v).retirementProof.value.success ==>
      var t := RetireStep(s, v); t.last.Some? && Settled(t.last.value) && t.record == t.last
  {
    if v.terminal.Some? {
      AdmissionIsMonotone(s, v.terminal.value, true);
    }
  }

  lemma StopKeeps(s: Session, v: StopView)
    requires Sound(s)
    ensures Sound(StopStep(s, v).0) && Onward(s, StopStep(s, v).0)
  {
    if !s.released {
      RetireKeeps(s, v);
    }
  }

  lemma {:induction false} RunKeeps(s: Session, calls: seq<Call>)
    requires Sound(s)
    ensures Sound(Run(s, calls)) && Onward(s, Run(s, calls))
    decreases |calls|
  {
    if calls != [] {
      match calls[0] {
        case Admit(status) => AdmissionIsMonotone(s, status, false);
        case Stop(v) => StopKeeps(s, v);
      }
      RunKeeps(Step(s, calls[0]), calls[1..]);
    }
  }

  lemma {:induction false} RunAppend(s: Session, a: seq<Call>, b: seq<Call>)
    ensures Run(s, a + b) == Run(Run(s, a), b)
    decreases |a|
  {
    if a == [] {
      assert a + b == b;
    } else {
      assert (a + b)[1..] == a[1..] + b;
      RunAppend(Step(s, a[0]), a[1..], b);
    }
  }

  /** Over a whole run every later observation is at or above every earlier one. */
  lemma WatermarksNeverFall(s: Session, calls: seq<Call>, i: nat, j: nat)
    requires Sound(s) && i <= j <= |calls|
    ensures AtOrAbove(Run(s, calls[..i]).last, Run(s, calls[..j]).last)
  {
    RunKeeps(s, calls[..i]);
    assert calls[..j] == calls[..i] + calls[i..j];
    RunAppend(s, calls[..i], calls[i..j]);
    RunKeeps(Run(s, calls[..i]), calls[i..j]);
  }

  /** A clean retirement leaves and records accepted = durable = cleaned, at or above everything the run had seen. */
  lemma CleanRetirementCoversRun(s: Session, calls: seq<Call>, v: StopView, i: nat)
    requires Sound(s) && i <= |calls|
    requires Run(s, calls).retirementProof.None?
    requires var r := StopStep(Run(s, calls), v).0.retirementProof; r.Some? && r.value.success
    ensures var o := StopStep(Run(s, calls), v).0.last;
      && o.Some? && Settled(o.value) && StopStep(Run(s, calls), v).0.record == o
      && AtOrAbove(Run(s, calls[..i]).last, o)
  {
    WatermarksNeverFall(s, calls, i, |calls|);
    assert calls[..|calls|] == calls;
    RunKeeps(s, calls);
    RetireKeeps(Run(s, calls), v);
  }

  /** Once there is a proof, every later run of calls keeps it, and once released every stop gives the same answer. */
  lemma ProofNeverChanges(s: Session, calls: seq<Call>, v: StopView)
    requires Sound(s) && s.retirementProof.Some?
    ensures var t := Run(s, calls);
      && t.retirementProof == s.retirementProof
      && (t.released ==> StopStep(t, v).1 == s.retirementProof.value)
      && (StopStep(t, v).1.ownershipReleased ==> StopStep(t, v).1 == s.retirementProof.value && StopStep(t, v).0.released)
  {
    RunKeeps(s, calls);
  }

  // ---- What a status and a stop are worth, in their own terms ----

  ghost function ObservationOf(s: Status): Observation {
    Observation(s.checkpointXid, s.accepted, s.durable, s.cleaned, s.dirty)
  }

  /** The document is about this session's image and names its host process. */
  ghost predicate OwnDocument(p: Profile, hostPid: int, s: Status) {
    p.writable && p.valid && hostPid > 0 && s.hostPid == hostPid && s.identityMatches
  }

  /** A live host is mounted, read-write and ready to commit; an ended one is unmounted and stopping; neither reports a failure. */
  ghost predicate Healthy(s: Status, terminal: bool) {
    && s.failureFree && s.recoveryStateValid
    && if terminal then !s.mountReady && s.healthStopping else s.mountReady && s.healthReadWrite && s.commitReady
  }

  /** The counters add up, start from the registered checkpoint, and at the end leave nothing on its way. */
  ghost predicate CountersHold(p: Profile, o: Observation, terminal: bool) {
    Ordered(o) && o.checkpoint >= p.checkpointXid && (terminal ==> Settled(o))
  }

  /** Admission is exact: own document, healthy, counters that hold and fall below nothing admitted before; then it is recorded as it is. */
  lemma AdmissionIsExact(p: Profile, s: Status, hostPid: int, terminal: bool, prior: Option<Observation>)
    ensures var admitted := TryObserve(p, s, hostPid, terminal, prior);
      && (admitted.Some? <==>
           && OwnDocument(p, hostPid, s) && Healthy(s, terminal)
           && CountersHold(p, ObservationOf(s), terminal) && AtOrAbove(prior, Some(ObservationOf(s))))
      && (admitted.Some? ==> admitted.value == ObservationOf(s))
  {
  }

  /** This call showed the session a document of its own host with these counters. */
  ghost predicate Reported(s: Session, c: Call, o: Observation) {
    match c
    case Admit(status) => OwnDocument(s.profile, s.hostPid, status) && Healthy(status, false) && o == ObservationOf(status)
    case Stop(v) =>
      && v.terminal.Some? && v.exitCode == Some(0) && v.hostGone && v.jobEmpty && v.mountAbsentFirst
      && OwnDocument(s.profile, s.hostPid, v.terminal.value) && Healthy(v.terminal.value, true) && o == ObservationOf(v.terminal.value)
  }

  /** This stop saw the owner gone and wrote the record; a clean proof also saw a settled final document, exit code 0 and the lease kept. */
  ghost predicate Retired(s: Session, c: Call, proof: UnmountResult) {
    && c.Stop? && c.view.hostGone && c.view.jobEmpty && c.view.mountAbsentFirst && c.view.recordWritten
    && (proof.success ==>
         && c.view.exitCode == Some(0) && c.view.leaseUnchanged && c.view.terminal.Some?
         && OwnDocument(s.profile, s.hostPid, c.view.terminal.value) && Healthy(c.view.terminal.value, true)
         && Settled(ObservationOf(c.view.terminal.value)))
  }

  /** The last observation, the proof and the release of a session each go back to a call that showed them. */
  ghost predicate Explained(s: Session, calls: seq<Call>) {
    && (s.last.Some? ==> exists k :: 0 <= k < |calls| && Reported(s, calls[k], s.last.value))
    && (s.retirementProof.Some? ==> exists k :: 0 <= k < |calls| && Retired(s, calls[k], s.retirementProof.value))
    && (s.released ==> exists k :: 0 <= k < |calls| && calls[k].Stop? && calls[k].view.guardianReleased && calls[k].view.mountAbsentLast)
  }

  /** What one call adds it has shown itself. */
  lemma StepExplained(s: Session, c: Call)
    requires Sound(s)
    ensures var t := Step(s, c);
      && t.profile == s.profile && t.hostPid == s.hostPid
      && (t.last == s.last || (t.last.Some? && Reported(s, c, t.last.value)))
      && (t.retirementProof == s.retirementProof || (t.retirementProof.Some? && Retired(s, c, t.retirementProof.value)))
      && (t.released ==> s.released || (c.Stop? && c.view.guardianReleased && c.view.mountAbsentLast))
  {
  }

  lemma ExplainedLonger(s: Session, calls: seq<Call>, c: Call)
    requires Sound(s) && Explained(s, calls)
    ensures Explained(Step(s, c), calls + [c])
  {
    StepExplained(s, c);
    var all, t := calls + [c], Step(s, c);
    assert all[|calls|] == c;
    if t.last.Some? && t.last == s.last {
      var k :| 0 <= k < |calls| && Reported(s, calls[k], s.last.value);
      assert Reported(t, all[k], t.last.value);
    }
    if t.retirementProof.Some? && t.retirementProof == s.retirementProof {
      var k :| 0 <= k < |calls| && Retired(s, calls[k], s.retirementProof.value);
      assert Retired(t, all[k], t.retirementProof.value);
    }
    if s.released {
      var k :| 0 <= k < |calls| && calls[k].Stop? && calls[k].view.guardianReleased && calls[k].view.mountAbsentLast;
      assert all[k] == calls[k];
    }
  }

  /** Over every run of a new session: no observation, proof or release without the call that showed it. */
  lemma {:induction false} ExplainedOverRuns(s: Session, calls: seq<Call>)
    requires s == Fresh(s.mountPoint, s.profile, s.hostPid)
    ensures Explained(Run(s, calls), calls)
    decreases |calls|
  {
    if calls != [] {
      var n := |calls| - 1;
      assert calls == calls[..n] + [calls[n]];
      ExplainedOverRuns(s, calls[..n]);
      RunKeeps(s, calls[..n]);
      RunAppend(s, calls[..n], [calls[n]]);
      assert Run(Run(s, calls[..n]), [calls[n]]) == Step(Run(s, calls[..n]), calls[n]) by {
        assert [calls[n]][1..] == [];
      }
      ExplainedLonger(Run(s, calls[..n]), calls[..n], calls[n]);
    }
  }

  /** A first stop is exact: what it must see to release the session, and what more to call the end clean. */
  lemma FirstStopIsExact(s: Session, v: StopView)
    requires Sound(s) && s.retirementProof.None?
    ensures var result := StopStep(s, v).1;
      && (result.ownershipReleased <==>
           && v.hostGone && v.jobEmpty && v.mountAbsentFirst && v.recordWritten && v.guardianReleased && v.mountAbsentLast)
      && (result.success <==>
           && result.ownershipReleased && v.exitCode == Some(0) && v.leaseUnchanged && v.terminal.Some?
           && OwnDocument(s.profile, s.hostPid, v.terminal.value) && Healthy(v.terminal.value, true)
           && CountersHold(s.profile, ObservationOf(v.terminal.value), true)
           && AtOrAbove(s.last, Some(ObservationOf(v.terminal.value))))
      && (result.success <==> result.durabilityCleared)
      && (result.mountRemoved && !result.ownershipReleased <==>
           v.hostGone && v.jobEmpty && v.mountAbsentFirst && v.recordWritten && !v.guardianReleased)
      && (result.ownershipReleased ==> result.mountRemoved)
  {
    if v.terminal.Some? {
      AdmissionIsExact(s.profile, v.terminal.value, s.hostPid, true, s.last);
    }
  }
}

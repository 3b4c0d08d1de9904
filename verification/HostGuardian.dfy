/** Custody of a child process: handles and job are given up only after their end is proved. */
module HostGuardian {
  import opened Prelude

  /**
   * What is true of the child, whatever anyone observes: when it was created, when the present owner of its
   * process id was, if the id is in use, and how many processes its job has.
   */
  datatype World = World(created: int, exited: bool, exitCode: int, owner: Option<int>, active: nat)

  /** One look at the child; every part of it can fail. */
  datatype Probe = Probe(
    signaled: bool,             // the original handle is signaled
    code: Option<int>,          // its exit code, if the query worked
    absent: Option<bool>,       // whether the process id is absent, if enumeration worked
    creation: Option<int>,      // creation time of the id's current owner, if it could be read
    faults: bool,               // a query after the exit code threw
    active: Option<nat>)        // the job's active count, if the query worked

  /** The guardian's fields; `keepers` counts the keeper loops alive. */
  datatype Guardian = Guardian(
    processId: nat, creationTime: int, hadJob: bool,
    job: bool, thread: bool, process: bool, observedExit: Option<int>, released: bool,
    disposeRequested: bool, keeperRunning: bool, keepers: nat, terminationCode: int)

  // ---- What each lock body does ----

  predicate SeesIdentityGone(g: Guardian, p: Probe) {
    p.absent == Some(true) ||
    (p.absent == Some(false) && g.creationTime > 0 && p.creation.Some? && p.creation.value > 0 && p.creation.value != g.creationTime)
  }

  predicate SeesSignal(g: Guardian, p: Probe) {
    !g.released && g.process && g.processId != 0 && p.signaled
  }

  /** TryObserveProcessExit: the answer. */
  predicate ObservesExit(g: Guardian, p: Probe) {
    g.released || (SeesSignal(g, p) && !p.faults && SeesIdentityGone(g, p))
  }

  /** TryObserveProcessExit: the remembered exit code, which a later fault does not take back. */
  function AfterObserve(g: Guardian, p: Probe): Guardian {
    if SeesSignal(g, p) && p.code.Some? then g.(observedExit := p.code) else g
  }

  /** TryProveOwnershipReleased: the answer. */
  predicate Proves(g: Guardian, p: Probe) {
    ObservesExit(g, p) && (!g.job || p.active == Some(0))
  }

  function StartedKeeper(g: Guardian): Guardian {
    if g.keeperRunning then g else g.(keeperRunning := true, keepers := g.keepers + 1)
  }

  function Release(g: Guardian): Guardian {
    g.(job := false, thread := false, process := false, released := true)
  }

  /** What a termination attempt answers: only open handles are tried. */
  predicate TerminateAnswer(g: Guardian, jobResult: bool, processResult: bool) {
    (g.job && jobResult) || (g.process && processResult)
  }

  function ResumeStep(g: Guardian, resumed: bool): Guardian {
    if g.thread && resumed then g.(thread := false) else g
  }

  function TerminateStep(g: Guardian, code: int, p: Probe): Guardian {
    var t := g.(terminationCode := code);
    if t.released then t
    else if Proves(t, p) then AfterObserve(t, p)
    else StartedKeeper(AfterObserve(t, p))
  }

  /** Dispose looks once before and once after its termination attempt. */
  function DisposeStep(g: Guardian, before: Probe, after: Probe): Guardian {
    if g.disposeRequested then g
    else
      var d := AfterObserve(g.(disposeRequested := true), before);
      if Proves(g, before) then Release(d)
      else if Proves(d, after) then Release(AfterObserve(d, after))
      else StartedKeeper(AfterObserve(d, after))
  }

  /** One pass of the keeper loop, if a keeper is alive. */
  function KeeperStep(g: Guardian, p: Probe): Guardian {
    if g.keepers == 0 then g
    else if g.released then g.(keeperRunning := false, keepers := g.keepers - 1)
    else
      var o := AfterObserve(g, p);
      if Proves(g, p) then
        var k := o.(keeperRunning := false, keepers := o.keepers - 1);
        if k.disposeRequested then Release(k) else k
      else o
  }

  /** One pass of WaitForEmpty: an answer, or the flag to carry into the next pass. */
  function WaitStep(g: Guardian, observedEmpty: bool, p: Probe): (Option<bool>, bool) {
    if !g.job then (Some(false), observedEmpty)
    else if Proves(g, p) then (if observedEmpty then (Some(true), true) else (None, true))
    else (None, false)
  }

  // ---- The class ----

  class HostProcessGuardian {
    const processId: nat
    const creationTime: int
    const hadJob: bool
    var job: bool
    var suspendedThread: bool
    var processHandle: bool
    var observedExitCode: Option<int>
    var ownershipReleased: bool
    var disposeRequested: bool
    var keeperRunning: bool
    ghost var keepers: nat
    var terminationExitCode: int

    ghost function State(): Guardian
      reads this
    {
      Guardian(processId, creationTime, hadJob, job, suspendedThread, processHandle, observedExitCode, ownershipReleased,
               disposeRequested, keeperRunning, keepers, terminationExitCode)
    }

    constructor (job: bool, processId: nat, creationTime: int)
      ensures State() == Started(processId, creationTime, job)
    {
      this.processId, this.creationTime, this.hadJob := processId, creationTime, job;
      this.job, suspendedThread, processHandle, observedExitCode := job, true, true, None;
      ownershipReleased, disposeRequested, keeperRunning, terminationExitCode := false, false, false, STARTUP_FAILURE;
      keepers := 0;
    }

    method TryObserveProcessExit(p: Probe) returns (exited: bool)
      modifies this`observedExitCode
      ensures exited == ObservesExit(old(State()), p) && State() == AfterObserve(old(State()), p)
    {
      if ownershipReleased { return true; }
      if !processHandle || processId == 0 || !p.signaled { return false; }
      if p.code.Some? { observedExitCode := p.code; }
      if p.faults { return false; }
      if p.absent == Some(true) { return true; }
      if p.absent != Some(false) || creationTime <= 0 { return false; }
      exited := p.creation.Some? && p.creation.value > 0 && p.creation.value != creationTime;
    }

    method TryProveOwnershipReleased(p: Probe) returns (proved: bool)
      modifies this`observedExitCode
      ensures proved == Proves(old(State()), p) && State() == AfterObserve(old(State()), p)
    {
      var exited := TryObserveProcessExit(p);
      proved := exited && (!job || p.active == Some(0));
    }

    method StartKeeper()
      modifies this`keeperRunning, this`keepers
      ensures State() == StartedKeeper(old(State()))
    {
      if keeperRunning { return; }
      keeperRunning := true;
      keepers := keepers + 1;
    }

    /** Starting the child closes the handle of its suspended thread. */
    method ResumeSuspendedProcess(resumed: bool) returns (ok: bool)
      modifies this`suspendedThread
      ensures State() == ResumeStep(old(State()), resumed) && (ok <==> old(suspendedThread) && resumed)
    {
      ok := suspendedThread && resumed;
      if ok { suspendedThread := false; }
    }

    method ReleaseProvenOwnership()
      modifies this`job, this`suspendedThread, this`processHandle, this`ownershipReleased
      ensures State() == Release(old(State()))
    {
      job := false;
      suspendedThread := false;
      processHandle := false;
      ownershipReleased := true;
    }

    /** The two results of one termination attempt; only open handles are tried. */
    method TryTerminateOnce(jobResult: bool, processResult: bool) returns (terminated: bool)
      ensures terminated <==> TerminateAnswer(State(), jobResult, processResult)
    {
      terminated := false;
      if job { terminated := jobResult; }
      if processHandle { terminated := terminated || processResult; }
    }

    method TryTerminate(code: int, jobResult: bool, processResult: bool, p: Probe) returns (terminated: bool)
      modifies this
      ensures State() == TerminateStep(old(State()), code, p)
      ensures terminated <==> TerminateAnswer(old(State()), jobResult, processResult)
    {
      terminationExitCode := code;
      terminated := TryTerminateOnce(jobResult, processResult);
      if !ownershipReleased {
        var proved := TryProveOwnershipReleased(p);
        if !proved { StartKeeper(); }
      }
    }

    method Dispose(before: Probe, jobResult: bool, processResult: bool, after: Probe)
      modifies this
      ensures State() == DisposeStep(old(State()), before, after)
    {
      if disposeRequested { return; }
      disposeRequested := true;
      var proved := TryProveOwnershipReleased(before);
      if proved {
        ReleaseProvenOwnership();
        return;
      }
      var _ := TryTerminateOnce(jobResult, processResult);
      proved := TryProveOwnershipReleased(after);
      if proved {
        ReleaseProvenOwnership();
        return;
      }
      StartKeeper();
    }

    /** One pass of the keeper loop under the lock; `done` leaves the loop. */
    method KeepOwnership(jobResult: bool, processResult: bool, p: Probe) returns (done: bool)
      requires keepers > 0
      modifies this
      ensures State() == KeeperStep(old(State()), p)
      ensures done <==> keepers == old(keepers) - 1
    {
      done := false;
      if ownershipReleased {
        keeperRunning, keepers := false, keepers - 1;
        return true;
      }
      var _ := TryTerminateOnce(jobResult, processResult);
      var proved := TryProveOwnershipReleased(p);
      if proved {
        keeperRunning, keepers := false, keepers - 1;
        if disposeRequested { ReleaseProvenOwnership(); }
        return true;
      }
    }

    method WaitForEmptyPass(observedEmpty: bool, p: Probe) returns (answer: Option<bool>, seen: bool)
      modifies this`observedExitCode
      ensures (answer, seen) == WaitStep(old(State()), observedEmpty, p)
      ensures State() == if old(job) then AfterObserve(old(State()), p) else old(State())
    {
      if !job { return Some(false), observedEmpty; }
      var proved := TryProveOwnershipReleased(p);
      if proved {
        if observedEmpty { return Some(true), true; }
        return None, true;
      }
      answer, seen := None, false;
    }
  }

  const STARTUP_FAILURE: int := 0xE1

  function Started(processId: nat, creationTime: int, job: bool): Guardian {
    Guardian(processId, creationTime, job, job, true, true, None, false, false, false, 0, STARTUP_FAILURE)
  }

  // ---- Runs ----

  /** What happens outside: the child exits, its id is freed or given to a process created later, its job fills or empties. */
  datatype Move = Exit(code: int) | Vanish | Reuse(created: int) | Jobs(active: nat)

  /** A lock body of the guardian, or a move of the child; `between` is what the child does inside a lock body. */
  datatype Event =
    | Child(move: Move)
    | Resume(resumed: bool)
    | Terminate(code: int, p: Probe)
    | Dispose(before: Probe, between: seq<Move>, after: Probe)
    | Keep(between: seq<Move>, p: Probe)
    | Observe(p: Probe)

  datatype System = System(g: Guardian, w: World)

  /** The child exits once, keeps its id until then, and an emptied job of an exited child stays empty. */
  function WorldStep(w: World, m: Move): World {
    match m
    case Exit(code) => if w.exited then w else w.(exited := true, exitCode := code)
    case Vanish => if w.exited then w.(owner := None) else w
    case Reuse(created) => if w.owner.None? && created > 0 && created != w.created then w.(owner := Some(created)) else w
    case Jobs(n) => if w.exited && w.active == 0 then w else w.(active := n)
  }

  function WorldRun(w: World, ms: seq<Move>): World
    decreases |ms|
  {
    if ms == [] then w else WorldRun(WorldStep(w, ms[0]), ms[1..])
  }

  /** Creation times are positive, and a child that has not exited owns its id. */
  ghost predicate WorldSound(w: World) {
    && w.created > 0 && (w.owner.Some? ==> w.owner.value > 0)
    && (!w.exited ==> w.owner == Some(w.created))
  }

  /**
   * Observations may fail at will, but what they do report is true. The identity is looked up only for a
   * signaled handle and a process id; after a fault, or where a creation time is not positive, nothing was read.
   */
  ghost predicate Truthful(p: Probe, s: System) {
    && (p.signaled ==> s.w.exited)
    && (p.signaled && p.code.Some? ==> p.code.value == s.w.exitCode)
    && (p.signaled && !p.faults && s.g.processId != 0 ==>
         && (p.absent == Some(true) ==> s.w.owner.None?)
         && (p.absent == Some(false) && p.creation.Some? && p.creation.value > 0 ==> s.w.owner == p.creation))
    && (p.active.Some? ==> p.active.value == s.w.active)
  }

  function Moved(s: System, ms: seq<Move>): System {
    s.(w := WorldRun(s.w, ms))
  }

  ghost predicate Allowed(s: System, e: Event) {
    match e
    case Terminate(_, p) => Truthful(p, s)
    case Dispose(before, between, after) => Truthful(before, s) && Truthful(after, Moved(s, between))
    case Keep(between, p) => Truthful(p, Moved(s, between))
    case Observe(p) => Truthful(p, s)
    case Child(_) => true
    case Resume(_) => true
  }

  function Next(s: System, e: Event): System {
    match e
    case Terminate(code, p) => s.(g := TerminateStep(s.g, code, p))
    case Dispose(before, between, after) => System(DisposeStep(s.g, before, after), WorldRun(s.w, between))
    case Keep(between, p) => System(KeeperStep(s.g, p), WorldRun(s.w, between))
    case Observe(p) => s.(g := AfterObserve(s.g, p))
    case Child(move) => s.(w := WorldStep(s.w, move))
    case Resume(resumed) => s.(g := ResumeStep(s.g, resumed))
  }

  function Run(s: System, es: seq<Event>): System
    decreases |es|
  {
    if es == [] then s else Run(Next(s, es[0]), es[1..])
  }

  ghost predicate AllowedRun(s: System, es: seq<Event>)
    decreases |es|
  {
    es == [] || (Allowed(s, es[0]) && AllowedRun(Next(s, es[0]), es[1..]))
  }

  /** Any child and any guardian just created over it, which may not have learnt when the child was created. */
  ghost predicate Initial(s: System) {
    && s.g == Started(s.g.processId, s.g.creationTime, s.g.hadJob)
    && WorldSound(s.w) && (s.g.creationTime > 0 ==> s.g.creationTime == s.w.created)
  }

  /** The child is over: it exited, its id is free or another process's, and its job, if it ever had one, is empty. */
  ghost predicate Over(s: System) {
    s.w.exited && s.w.owner != Some(s.w.created) && (s.g.hadJob ==> s.w.active == 0)
  }

  /** Custody: what holds between any two lock bodies. */
  ghost predicate Custody(s: System) {
    && WorldSound(s.w) && (s.g.creationTime > 0 ==> s.g.creationTime == s.w.created)
    && (s.g.released ==> Over(s))
    && (s.g.released ==> s.g.disposeRequested)
    && (s.g.process <==> !s.g.released)
    && (s.g.released ==> !s.g.thread)
    && (s.g.job <==> s.g.hadJob && !s.g.released)
    && s.g.keepers == (if s.g.keeperRunning then 1 else 0)
    && (s.g.disposeRequested && !s.g.released ==> s.g.keeperRunning)
    && (s.g.observedExit.Some? ==> s.w.exited && s.g.observedExit.value == s.w.exitCode)
  }

  /** What never goes back. */
  ghost predicate Later(s: System, t: System) {
    && (s.g.released ==> t.g.released)
    && (s.g.disposeRequested ==> t.g.disposeRequested)
    && (!s.g.process ==> !t.g.process) && (!s.g.job ==> !t.g.job) && (!s.g.thread ==> !t.g.thread)
    && (s.g.observedExit.Some? ==> t.g.observedExit == s.g.observedExit)
    && (Over(s) ==> Over(t))
    && t.g.hadJob == s.g.hadJob && t.g.processId == s.g.processId && t.g.creationTime == s.g.creationTime
  }

  lemma {:induction false} WorldForward(w: World, ms: seq<Move>)
    ensures w.exited ==> WorldRun(w, ms).exited && WorldRun(w, ms).exitCode == w.exitCode
    ensures w.exited && w.owner != Some(w.created) ==> WorldRun(w, ms).owner != Some(w.created)
    ensures WorldSound(w) ==> WorldSound(WorldRun(w, ms))
    ensures WorldRun(w, ms).created == w.created
    ensures w.exited && w.active == 0 ==> WorldRun(w, ms).active == 0
    decreases |ms|
  {
    if ms != [] {
      WorldForward(WorldStep(w, ms[0]), ms[1..]);
    }
  }

  lemma MovesKeepCustody(s: System, ms: seq<Move>)
    requires Custody(s)
    ensures Custody(Moved(s, ms)) && Later(s, Moved(s, ms))
  {
    WorldForward(s.w, ms);
  }

  lemma ObserveKeepsCustody(s: System, p: Probe)
    requires Custody(s) && Truthful(p, s)
    ensures Custody(s.(g := AfterObserve(s.g, p))) && Later(s, s.(g := AfterObserve(s.g, p)))
  {
  }

  lemma DisposeAtOnce(s: System, before: Probe, between: seq<Move>)
    requires Custody(s) && !s.g.disposeRequested && Truthful(before, s) && Proves(s.g, before)
    ensures var t := System(Release(AfterObserve(s.g, before).(disposeRequested := true)), WorldRun(s.w, between));
      Custody(t) && Later(s, t)
  {
    var d := AfterObserve(s.g, before).(disposeRequested := true);
    MovesKeepCustody(s.(g := Release(d)), between);
  }

  lemma DisposeAfterKill(s: System, before: Probe, between: seq<Move>, after: Probe)
    requires Custody(s) && !s.g.disposeRequested && Truthful(before, s)
    requires Truthful(after, Moved(s, between))
    ensures var o := s.(g := AfterObserve(s.g, before));
      var d := AfterObserve(o.g, after).(disposeRequested := true);
      var t := System(if Proves(o.g, after) then Release(d) else StartedKeeper(d), WorldRun(s.w, between));
      Custody(t) && Later(s, t)
  {
    var o := s.(g := AfterObserve(s.g, before));
    ObserveKeepsCustody(s, before);
    MovesKeepCustody(o, between);
    var d := AfterObserve(o.g, after).(disposeRequested := true);
  }

  lemma DisposeIsTwoLooks(g: Guardian, before: Probe, after: Probe)
    requires !g.disposeRequested
    ensures var o := AfterObserve(g, before);
      DisposeStep(g, before, after) ==
        if Proves(g, before) then Release(o.(disposeRequested := true))
        else if Proves(o, after) then Release(AfterObserve(o, after).(disposeRequested := true))
        else StartedKeeper(AfterObserve(o, after).(disposeRequested := true))
  {
    ObserveCommutes(g, before);
    var o := AfterObserve(g, before);
    ObserveCommutes(o, after);
  }

  /** Observing does not look at the dispose flag. */
  lemma ObserveCommutes(g: Guardian, p: Probe)
    ensures AfterObserve(g.(disposeRequested := true), p) == AfterObserve(g, p).(disposeRequested := true)
    ensures Proves(g.(disposeRequested := true), p) <==> Proves(g, p)
  {
  }

  lemma DisposeKeepsCustody(s: System, before: Probe, between: seq<Move>, after: Probe)
    requires Custody(s) && Allowed(s, Dispose(before, between, after))
    ensures var t := Next(s, Dispose(before, between, after)); Custody(t) && Later(s, t)
  {
    if s.g.disposeRequested {
      MovesKeepCustody(s, between);
    } else {
      DisposeIsTwoLooks(s.g, before, after);
      if Proves(s.g, before) {
        DisposeAtOnce(s, before, between);
      } else {
        DisposeAfterKill(s, before, between, after);
      }
    }
  }

  lemma KeepKeepsCustody(s: System, between: seq<Move>, p: Probe)
    requires Custody(s) && Allowed(s, Keep(between, p))
    ensures var t := Next(s, Keep(between, p)); Custody(t) && Later(s, t)
  {
    MovesKeepCustody(s, between);
    ObserveKeepsCustody(Moved(s, between), p);
  }

  lemma StepKeepsCustody(s: System, e: Event)
    requires Custody(s) && Allowed(s, e)
    ensures Custody(Next(s, e)) && Later(s, Next(s, e))
  {
    match e
    case Dispose(before, between, after) => DisposeKeepsCustody(s, before, between, after);
    case Keep(between, p) => KeepKeepsCustody(s, between, p);
    case Observe(p) => ObserveKeepsCustody(s, p);
    case Terminate(_, p) => ObserveKeepsCustody(s, p);
    case Child(move) =>
    case Resume(resumed) =>
  }

  /** Over every interleaving of disposals, terminations, keeper passes, failed observations and the child's own moves. */
  lemma {:induction false} CustodyOverRuns(s: System, es: seq<Event>)
    requires (Initial(s) || Custody(s)) && AllowedRun(s, es)
    ensures Custody(Run(s, es)) && Later(s, Run(s, es))
    decreases |es|
  {
    if es != [] {
      StepKeepsCustody(s, es[0]);
      CustodyOverRuns(Next(s, es[0]), es[1..]);
    }
  }

  // ---- Working observations ----

  /** A probe on which every query works. */
  ghost predicate Reliable(p: Probe, s: System) {
    && (p.signaled <==> s.w.exited) && (p.signaled ==> p.code == Some(s.w.exitCode)) && !p.faults
    && p.absent == Some(s.w.owner.None?) && (s.w.owner.Some? ==> p.creation == s.w.owner)
    && p.active == Some(s.w.active)
  }

  /** The guardian can tell that an id in use is not its child's only by a creation time of its own. */
  ghost predicate Recognizable(s: System) {
    s.g.creationTime > 0 || s.w.owner.None?
  }

  /** An exit the guardian sees while it holds its handles has happened, and the id's present owner is not the child. */
  lemma SeenExitIsReal(s: System, p: Probe)
    requires Custody(s) && Truthful(p, s) && !s.g.released && ObservesExit(s.g, p)
    ensures s.w.exited && s.w.owner != Some(s.w.created)
    ensures s.g.creationTime > 0 ==> s.w.owner != Some(s.g.creationTime)
  {
  }

  /** Without release no exit is seen through a closed handle, for no process id, before the handle is signaled or after a fault. */
  lemma NoExitUnseen(g: Guardian, p: Probe)
    requires !g.released && (!g.process || g.processId == 0 || !p.signaled || p.faults)
    ensures !ObservesExit(g, p) && !Proves(g, p)
  {
  }

  /** A proof by queries that work is exact: it is given if and only if the child is over and can be told from the id's owner. */
  lemma ReliableProofIsExact(s: System, p: Probe)
    requires Custody(s) && Reliable(p, s) && s.g.processId != 0
    ensures ObservesExit(s.g, p) <==>
      s.g.released || (s.w.exited && s.w.owner != Some(s.w.created) && Recognizable(s))
    ensures Proves(s.g, p) <==> s.g.released || (Over(s) && Recognizable(s))
  {
  }

  /** A code the original handle gave once is kept over every run, whatever failed after it was read. */
  lemma ExitCodeIsKept(s: System, p: Probe, es: seq<Event>)
    requires Custody(s) && Truthful(p, s) && AllowedRun(Next(s, Observe(p)), es)
    requires !s.g.released && s.g.processId != 0 && p.signaled && p.code.Some?
    ensures Run(Next(s, Observe(p)), es).g.observedExit == p.code == Some(s.w.exitCode)
  {
    StepKeepsCustody(s, Observe(p));
    CustodyOverRuns(Next(s, Observe(p)), es);
  }

  /**
   * A keeper pass with working queries ends the keeper if and only if ownership is released or the child
   * is over and recognizable, and it releases if and only if a disposal has been asked for as well.
   */
  lemma ReliableKeeperIsExact(s: System, between: seq<Move>, p: Probe)
    requires Custody(s) && s.g.keeperRunning && s.g.processId != 0 && Reliable(p, Moved(s, between))
    ensures var m, t := Moved(s, between), Next(s, Keep(between, p));
      && (!t.g.keeperRunning <==> s.g.released || (Over(m) && Recognizable(m)))
      && (t.g.released <==> s.g.released || (s.g.disposeRequested && Over(m) && Recognizable(m)))
  {
    MovesKeepCustody(s, between);
    ReliableProofIsExact(Moved(s, between), p);
  }

  /** A first disposal with working queries releases if one of its two looks finds the child over and recognizable, else a keeper runs. */
  lemma ReliableDisposeIsExact(s: System, before: Probe, between: seq<Move>, after: Probe)
    requires Custody(s) && !s.g.disposeRequested && s.g.processId != 0
    requires Reliable(before, s) && Reliable(after, Moved(s, between))
    ensures var m, t := Moved(s, between), Next(s, Dispose(before, between, after));
      && (t.g.released <==> (Over(s) && Recognizable(s)) || (Over(m) && Recognizable(m)))
      && (t.g.released || t.g.keeperRunning)
  {
    DisposeIsTwoLooks(s.g, before, after);
    ReliableProofIsExact(s, before);
    var o := s.(g := AfterObserve(s.g, before));
    ObserveKeepsCustody(s, before);
    MovesKeepCustody(o, between);
    ReliableProofIsExact(Moved(o, between), after);
  }

  /** A second disposal does nothing. */
  lemma DisposedOnce(s: System, before: Probe, between: seq<Move>, after: Probe)
    requires s.g.disposeRequested
    ensures Next(s, Dispose(before, between, after)) == Moved(s, between)
  {
  }

  ghost predicate HasReliablePass(s: System, es: seq<Event>)
    decreases |es|
  {
    && es != []
    && ((es[0].Keep? && Reliable(es[0].p, Moved(s, es[0].between)) && Recognizable(Moved(s, es[0].between)))
        || HasReliablePass(Next(s, es[0]), es[1..]))
  }

  /** Progress over runs: a disposed guardian of a finished child is released by any run with one reliable keeper pass. */
  lemma {:induction false} ReliablePassReleases(s: System, es: seq<Event>)
    requires Custody(s) && AllowedRun(s, es)
    requires Over(s) && s.g.disposeRequested && s.g.processId != 0
    requires HasReliablePass(s, es)
    ensures Run(s, es).g.released
    decreases |es|
  {
    StepKeepsCustody(s, es[0]);
    if es[0].Keep? && Reliable(es[0].p, Moved(s, es[0].between)) && Recognizable(Moved(s, es[0].between)) {
      PassReleases(s, es[0].between, es[0].p);
      CustodyOverRuns(Next(s, es[0]), es[1..]);
    } else {
      ReliablePassReleases(Next(s, es[0]), es[1..]);
    }
  }

  lemma PassReleases(s: System, between: seq<Move>, p: Probe)
    requires Custody(s) && Over(s) && s.g.disposeRequested && s.g.processId != 0
    requires Reliable(p, Moved(s, between)) && Recognizable(Moved(s, between))
    ensures Next(s, Keep(between, p)).g.released
  {
    MovesKeepCustody(s, between);
    if !s.g.released {
      ReliableKeeperIsExact(s, between, p);
    }
  }

  /** No look of this event finds the process id free. */
  ghost predicate IdNeverFree(e: Event) {
    match e
    case Terminate(_, p) => p.absent != Some(true)
    case Dispose(before, _, after) => before.absent != Some(true) && after.absent != Some(true)
    case Keep(_, p) => p.absent != Some(true)
    case Observe(p) => p.absent != Some(true)
    case _ => true
  }

  lemma StaysUnreleased(s: System, e: Event)
    requires !s.g.released && s.g.creationTime <= 0 && IdNeverFree(e)
    ensures !Next(s, e).g.released && Next(s, e).g.creationTime == s.g.creationTime
  {
    match e
    case Dispose(before, _, after) => ObserveCommutes(s.g, before);
    case _ =>
  }

  /** Without a creation time of its own a guardian never releases while the id stays in use, however long the child is over. */
  lemma {:induction false} UnknownCreationNeverReleases(s: System, es: seq<Event>)
    requires !s.g.released && s.g.creationTime <= 0 && forall k :: 0 <= k < |es| ==> IdNeverFree(es[k])
    ensures !Run(s, es).g.released
    decreases |es|
  {
    if es != [] {
      StaysUnreleased(s, es[0]);
      UnknownCreationNeverReleases(Next(s, es[0]), es[1..]);
    }
  }

  /** Release is reachable: a child with three processes in its job exits, its id goes to a later process, its job empties, and a disposal sees it. */
  lemma ReleaseIsReachable() returns (s: System, es: seq<Event>)
    ensures Initial(s) && !s.w.exited && s.w.active == 3 && AllowedRun(s, es)
    ensures Run(s, es).g.released && Run(s, es).w.owner == Some(2) && es[|es| - 1].Dispose?
  {
    s := System(Started(1, 1, true), World(1, false, 0, Some(1), 3));
    var p := Probe(true, Some(7), Some(false), Some(2), false, Some(0));
    var dispose := Dispose(p, [], p);
    es := [Child(Exit(7))] + ([Child(Vanish)] + ([Child(Reuse(2))] + ([Child(Jobs(0))] + ([dispose] + []))));
    var emptied := s.(w := World(1, true, 7, Some(2), 0));
    RunCons(emptied, dispose, []);
    RunCons(s.(w := World(1, true, 7, Some(2), 3)), Child(Jobs(0)), [dispose] + []);
    RunCons(s.(w := World(1, true, 7, None, 3)), Child(Reuse(2)), [Child(Jobs(0))] + ([dispose] + []));
    RunCons(s.(w := World(1, true, 7, Some(1), 3)), Child(Vanish), [Child(Reuse(2))] + ([Child(Jobs(0))] + ([dispose] + [])));
    RunCons(s, Child(Exit(7)), [Child(Vanish)] + ([Child(Reuse(2))] + ([Child(Jobs(0))] + ([dispose] + []))));
  }

  lemma RunCons(s: System, e: Event, es: seq<Event>)
    ensures Run(s, [e] + es) == Run(Next(s, e), es)
    ensures AllowedRun(s, [e] + es) <==> Allowed(s, e) && AllowedRun(Next(s, e), es)
  {
    assert ([e] + es)[1..] == es;
  }

  // ---- Enforcement ----

  /** A termination attempt reaches a job that was there and the process, until release closes both handles. */
  lemma TerminationReaches(s: System, code: int, jobResult: bool, processResult: bool, p: Probe)
    requires Custody(s)
    ensures TerminateAnswer(s.g, jobResult, processResult) <==> !s.g.released && ((s.g.hadJob && jobResult) || processResult)
    ensures s.g.released ==> TerminateStep(s.g, code, p) == s.g.(terminationCode := code)
  {
  }

  /** Someone still enforces the end of the child, or it is over. */
  ghost predicate Enforced(s: System) {
    s.g.keeperRunning || Over(s)
  }

  lemma StepKeepsEnforced(s: System, e: Event)
    requires Custody(s) && Allowed(s, e) && (e.Terminate? || e.Dispose? || Enforced(s))
    ensures Enforced(Next(s, e))
  {
    StepKeepsCustody(s, e);
    match e
    case Keep(between, p) => MovesKeepCustody(s, between);
    case Dispose(before, between, after) => MovesKeepCustody(s, between);
    case _ =>
  }

  /** After a termination attempt or a disposal, whatever it answered, the child's end is enforced until it is over. */
  lemma {:induction false} EnforcedOverRuns(s: System, e: Event, es: seq<Event>)
    requires Custody(s) && Allowed(s, e) && AllowedRun(Next(s, e), es) && (e.Terminate? || e.Dispose? || Enforced(s))
    ensures Enforced(Run(Next(s, e), es))
    decreases |es|
  {
    StepKeepsCustody(s, e);
    StepKeepsEnforced(s, e);
    if es != [] {
      EnforcedOverRuns(Next(s, e), es[0], es[1..]);
    }
  }

  /** The code of the last termination attempt. */
  function LastCode(es: seq<Event>, before: int): int
    decreases |es|
  {
    if es == [] then before else LastCode(es[1..], if es[0].Terminate? then es[0].code else before)
  }

  /** What a disposal leaves of the other fields. */
  lemma DisposeFrame(g: Guardian, before: Probe, after: Probe)
    ensures var d := DisposeStep(g, before, after);
      && d.terminationCode == g.terminationCode
      && ((g.released ==> !g.thread) ==> (d.thread <==> g.thread && !d.released))
  {
    ObserveCommutes(g, before);
  }

  lemma KeeperFrame(g: Guardian, p: Probe)
    ensures var k := KeeperStep(g, p);
      && k.terminationCode == g.terminationCode
      && ((g.released ==> !g.thread) ==> (k.thread <==> g.thread && !k.released))
  {
  }

  lemma CodeStep(s: System, e: Event)
    ensures Next(s, e).g.terminationCode == if e.Terminate? then e.code else s.g.terminationCode
  {
    match e
    case Dispose(before, _, after) => DisposeFrame(s.g, before, after);
    case Keep(_, p) => KeeperFrame(s.g, p);
    case _ =>
  }

  /** Over any run the guardian ends the child with the last code asked for, at first with that of a failed start. */
  lemma {:induction false} LastCodeOverRuns(s: System, es: seq<Event>)
    ensures Run(s, es).g.terminationCode == LastCode(es, s.g.terminationCode)
    decreases |es|
  {
    if es != [] {
      CodeStep(s, es[0]);
      LastCodeOverRuns(Next(s, es[0]), es[1..]);
    }
  }

  /** Over any run the suspended thread's handle is open until the first resume that works, or until release. */
  lemma {:induction false} ThreadOverRuns(s: System, es: seq<Event>)
    requires Custody(s) && AllowedRun(s, es)
    ensures Run(s, es).g.thread <==> s.g.thread && !Run(s, es).g.released && Resume(true) !in es
    decreases |es|
  {
    if es != [] {
      StepKeepsCustody(s, es[0]);
      ThreadStep(s, es[0]);
      CustodyOverRuns(Next(s, es[0]), es[1..]);
      ThreadOverRuns(Next(s, es[0]), es[1..]);
      assert Resume(true) in es <==> es[0] == Resume(true) || Resume(true) in es[1..];
    }
  }

  lemma ThreadStep(s: System, e: Event)
    requires Custody(s)
    ensures Next(s, e).g.thread <==> s.g.thread && !Next(s, e).g.released && e != Resume(true)
  {
    match e
    case Dispose(before, _, after) => DisposeFrame(s.g, before, after);
    case Keep(_, p) => KeeperFrame(s.g, p);
    case _ =>
  }

  /** So a new guardian's is, from its start on. */
  lemma NewThreadOverRuns(s: System, es: seq<Event>)
    requires Initial(s) && AllowedRun(s, es)
    ensures Run(s, es).g.thread <==> !Run(s, es).g.released && Resume(true) !in es
  {
    ThreadOverRuns(s, es);
  }

  // ---- Waiting for an empty job ----

  /** WaitForEmpty answers yes only on a second consecutive proof, and then the child is over. */
  lemma WaitAnswersTruthfully(s: System, observedEmpty: bool, p: Probe)
    requires Custody(s) && Truthful(p, s)
    ensures WaitStep(s.g, observedEmpty, p).0 == Some(true) ==> observedEmpty && Over(s)
    ensures !s.g.hadJob || s.g.released ==> WaitStep(s.g, observedEmpty, p).0 == Some(false)
  {
  }

  /** With working queries a pass sees the job empty if and only if the child is over and recognizable, and answers only if it did before. */
  lemma ReliableWaitIsExact(s: System, observedEmpty: bool, p: Probe)
    requires Custody(s) && Reliable(p, s) && s.g.processId != 0 && s.g.hadJob && !s.g.released
    ensures WaitStep(s.g, observedEmpty, p) ==
      if Over(s) && Recognizable(s) then (if observedEmpty then Some(true) else None, true) else (None, false)
  {
    ReliableProofIsExact(s, p);
  }

  /**
   * And once the child is over and observations work, two passes with anything in between answer yes
   * exactly when there was a job and ownership is not released: a guardian without a job, and one whose
   * keeper or disposal came first, answers no.
   */
  lemma WaitAnswersYes(s: System, p: Probe, es: seq<Event>, q: Probe)
    requires Custody(s) && Over(s) && s.g.processId != 0 && Reliable(p, s) && Recognizable(s)
    requires AllowedRun(s.(g := AfterObserve(s.g, p)), es)
    requires var t := Run(s.(g := AfterObserve(s.g, p)), es); Reliable(q, t) && Recognizable(t)
    ensures WaitStep(s.g, false, p) == if s.g.hadJob && !s.g.released then (None, true) else (Some(false), false)
    ensures var t := Run(s.(g := AfterObserve(s.g, p)), es);
      WaitStep(t.g, true, q).0 == Some(s.g.hadJob && !t.g.released)
  {
    ObserveKeepsCustody(s, p);
    CustodyOverRuns(s.(g := AfterObserve(s.g, p)), es);
  }
}

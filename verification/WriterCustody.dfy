/** A writer session together with the guardian of its host process: what a stop reports is true of the child. */
module WriterCustody {
  import opened Prelude
  import G = HostGuardian
  import W = WriterSession

  /** The host process and its guardian, and the session that owns them. */
  datatype Joint = Joint(host: G.System, session: W.Session)

  /** What one stop call sees of the guardian: an exit query, then the job's count, then the two looks of its disposal. */
  datatype Look = Look(exit: G.Probe, between: seq<G.Move>, active: Option<nat>, before: G.Probe, meanwhile: seq<G.Move>, after: G.Probe)

  datatype Event =
    | Host(event: G.Event)
    | Admit(status: W.Status)
    | Stop(view: W.StopView, look: Look)

  /** The guardian after the stop's queries, which are made only while there is no proof yet. */
  function Queried(j: Joint, look: Look): G.System {
    if j.session.retirementProof.Some? then j.host
    else G.System(G.AfterObserve(j.host.g, look.exit), G.WorldRun(j.host.w, look.between))
  }

  /** With a proof at hand, new or kept, the stop disposes of the guardian. */
  function Disposed(j: Joint, v: W.StopView, look: Look): G.System {
    if W.RetireStep(j.session, v).retirementProof.None? then Queried(j, look)
    else G.Next(Queried(j, look), G.Dispose(look.before, look.meanwhile, look.after))
  }

  function Next(j: Joint, e: Event): Joint {
    match e
    case Host(event) => j.(host := G.Next(j.host, event))
    case Admit(status) => j.(session := W.AdmitStep(j.session, status, false))
    case Stop(v, look) =>
      if j.session.released then j
      else Joint(Disposed(j, v, look), W.StopStep(j.session, v).0)
  }

  /** The flags of the stop are the guardian's answers to these queries. */
  ghost predicate Answers(j: Joint, v: W.StopView, look: Look) {
    && (v.hostGone <==> G.ObservesExit(j.host.g, look.exit))
    && v.exitCode == G.AfterObserve(j.host.g, look.exit).observedExit
    && (v.jobEmpty <==> j.host.g.job && look.active == Some(0))
  }

  /** Queries may fail but are truthful; the guardian's release is read after its disposal. */
  ghost predicate StopAllowed(j: Joint, v: W.StopView, look: Look) {
    && (j.session.retirementProof.None? ==>
         && G.Truthful(look.exit, j.host)
         && (look.active.Some? ==> look.active.value == G.WorldRun(j.host.w, look.between).active)
         && Answers(j, v, look))
    && G.Allowed(Queried(j, look), G.Dispose(look.before, look.meanwhile, look.after))
    && (v.guardianReleased ==> Disposed(j, v, look).g.released)
  }

  ghost predicate Allowed(j: Joint, e: Event) {
    match e
    case Host(event) => G.Allowed(j.host, event)
    case Admit(_) => true
    case Stop(v, look) => j.session.released || StopAllowed(j, v, look)
  }

  ghost predicate AllowedRun(j: Joint, es: seq<Event>)
    decreases |es|
  {
    es == [] || (Allowed(j, es[0]) && AllowedRun(Next(j, es[0]), es[1..]))
  }

  function Run(j: Joint, es: seq<Event>): Joint
    decreases |es|
  {
    if es == [] then j else Run(Next(j, es[0]), es[1..])
  }

  ghost predicate Initial(j: Joint) {
    G.Initial(j.host) && j.session == W.Fresh(j.session.mountPoint, j.session.profile, j.session.hostPid)
  }

  /** A proof of retirement is held only of a child that is over, a clean one only of a child that exited with 0. */
  ghost predicate Joined(j: Joint) {
    && G.Custody(j.host) && W.Sound(j.session)
    && (j.session.retirementProof.Some? ==>
         G.Over(j.host) && j.host.g.hadJob && (j.session.retirementProof.value.success ==> j.host.w.exitCode == 0))
    && (j.session.released ==> j.host.g.released)
  }

  /** An exit the guardian sees, with its job's count read as zero afterwards, means that the child is over. */
  lemma SeenIsOver(j: Joint, v: W.StopView, look: Look)
    requires Joined(j) && G.Truthful(look.exit, j.host) && Answers(j, v, look)
    requires look.active.Some? ==> look.active.value == G.WorldRun(j.host.w, look.between).active
    requires v.hostGone && v.jobEmpty
    ensures var s := G.System(G.AfterObserve(j.host.g, look.exit), G.WorldRun(j.host.w, look.between));
      G.Over(s) && s.g.hadJob && (v.exitCode == Some(0) ==> s.w.exitCode == 0)
  {
    G.WorldForward(j.host.w, look.between);
    G.ObserveKeepsCustody(j.host, look.exit);
  }

  lemma QueriedKeeps(j: Joint, v: W.StopView, look: Look)
    requires Joined(j) && !j.session.released && Allowed(j, Stop(v, look))
    ensures G.Custody(Queried(j, look))
    ensures W.RetireStep(j.session, v).retirementProof.Some? ==>
      G.Over(Queried(j, look)) && Queried(j, look).g.hadJob
      && (W.RetireStep(j.session, v).retirementProof.value.success ==> Queried(j, look).w.exitCode == 0)
  {
    if j.session.retirementProof.None? {
      G.ObserveKeepsCustody(j.host, look.exit);
      G.MovesKeepCustody(j.host.(g := G.AfterObserve(j.host.g, look.exit)), look.between);
      if v.hostGone && v.jobEmpty {
        SeenIsOver(j, v, look);
      }
    }
  }

  lemma DisposeKeepsExit(s: G.System, before: G.Probe, between: seq<G.Move>, after: G.Probe)
    requires G.Custody(s) && s.w.exited
    ensures G.Next(s, G.Dispose(before, between, after)).w.exitCode == s.w.exitCode
  {
    G.WorldForward(s.w, between);
  }

  lemma StopKeeps(j: Joint, v: W.StopView, look: Look)
    requires Joined(j) && Allowed(j, Stop(v, look))
    ensures Joined(Next(j, Stop(v, look)))
  {
    if !j.session.released {
      W.StopKeeps(j.session, v);
      W.RetireKeeps(j.session, v);
      QueriedKeeps(j, v, look);
      if W.RetireStep(j.session, v).retirementProof.Some? {
        G.StepKeepsCustody(Queried(j, look), G.Dispose(look.before, look.meanwhile, look.after));
        DisposeKeepsExit(Queried(j, look), look.before, look.meanwhile, look.after);
      }
    }
  }

  lemma HostKeepsExit(s: G.System, e: G.Event)
    requires s.w.exited
    ensures G.Next(s, e).w.exitCode == s.w.exitCode
  {
    match e
    case Dispose(_, between, _) => G.WorldForward(s.w, between);
    case Keep(between, _) => G.WorldForward(s.w, between);
    case _ =>
  }

  lemma StepKeeps(j: Joint, e: Event)
    requires Joined(j) && Allowed(j, e)
    ensures Joined(Next(j, e))
  {
    match e
    case Host(event) =>
      G.StepKeepsCustody(j.host, event);
      if j.host.w.exited { HostKeepsExit(j.host, event); }
    case Admit(status) => W.AdmissionIsMonotone(j.session, status, false);
    case Stop(v, look) => StopKeeps(j, v, look);
  }

  /** Over every interleaving of the child, the guardian's own passes, admissions and stop calls. */
  lemma {:induction false} JoinedOverRuns(j: Joint, es: seq<Event>)
    requires (Initial(j) || Joined(j)) && AllowedRun(j, es)
    ensures Joined(Run(j, es))
    decreases |es|
  {
    if es != [] {
      StepKeeps(j, es[0]);
      JoinedOverRuns(Next(j, es[0]), es[1..]);
    }
  }

  /**
   * A stop that answers released leaves a guardian that gave up its handles and a child that is truly over,
   * its whole job with it; a clean answer also means exit code 0 and a settled observation on record.
   */
  lemma ReleasedMeansOver(j: Joint, es: seq<Event>, v: W.StopView, look: Look)
    requires Initial(j) && AllowedRun(j, es) && Allowed(Run(j, es), Stop(v, look))
    requires W.StopStep(Run(j, es).session, v).1.ownershipReleased
    ensures var t := Next(Run(j, es), Stop(v, look));
      && t.session.released && t.host.g.released && G.Over(t.host) && t.host.w.active == 0
      && (W.StopStep(Run(j, es).session, v).1.success ==>
           t.host.w.exitCode == 0 && t.session.record.Some? && W.Settled(t.session.record.value))
  {
    JoinedOverRuns(j, es);
    StopKeeps(Run(j, es), v, look);
  }

  /** The stop's queries, its look before the disposal and the one after all work, and so do its files. */
  ghost predicate ReliableStop(j: Joint, v: W.StopView, look: Look) {
    && G.Reliable(look.exit, j.host) && look.active == Some(Queried(j, look).w.active)
    && G.Reliable(look.before, Queried(j, look)) && G.Reliable(look.after, G.Moved(Queried(j, look), look.meanwhile))
    && v.mountAbsentFirst && v.recordWritten && v.mountAbsentLast
    && (v.guardianReleased <==> Disposed(j, v, look).g.released)
  }

  lemma QueriesAreExact(j: Joint, v: W.StopView, look: Look)
    requires Joined(j) && !j.host.g.disposeRequested && j.host.g.processId != 0
    requires G.Reliable(look.exit, j.host) && look.active == Some(G.WorldRun(j.host.w, look.between).active) && Answers(j, v, look)
    ensures v.hostGone <==> j.host.w.exited && j.host.w.owner != Some(j.host.w.created) && G.Recognizable(j.host)
    ensures v.jobEmpty <==> j.host.g.hadJob && G.WorldRun(j.host.w, look.between).active == 0
  {
    G.ReliableProofIsExact(j.host, look.exit);
  }

  lemma DisposalIsExact(s: G.System, before: G.Probe, between: seq<G.Move>, after: G.Probe)
    requires G.Custody(s) && !s.g.disposeRequested && s.g.processId != 0 && G.Over(s)
    requires G.Reliable(before, s) && G.Reliable(after, G.Moved(s, between))
    ensures G.Next(s, G.Dispose(before, between, after)).g.released
       <==> G.Recognizable(s) || G.Recognizable(G.Moved(s, between))
  {
    G.MovesKeepCustody(s, between);
    G.ReliableDisposeIsExact(s, before, between, after);
  }

  /**
   * And exactly when: a first stop whose queries and files work answers released if and only if the child was
   * over at its queries, with its job, and could be told from the owner of its process id then and at the disposal.
   */
  lemma ReliableStopIsExact(j: Joint, v: W.StopView, look: Look)
    requires Joined(j) && j.session.retirementProof.None? && StopAllowed(j, v, look) && ReliableStop(j, v, look)
    requires !j.host.g.disposeRequested && j.host.g.processId != 0
    ensures var q := Queried(j, look);
      W.StopStep(j.session, v).1.ownershipReleased <==>
        && j.host.w.exited && j.host.w.owner != Some(j.host.w.created) && G.Recognizable(j.host)
        && j.host.g.hadJob && q.w.active == 0
        && (G.Recognizable(q) || G.Recognizable(G.Moved(q, look.meanwhile)))
    ensures W.StopStep(j.session, v).1.ownershipReleased <==> Next(j, Stop(v, look)).session.released
  {
    QueriesAreExact(j, v, look);
    QueriedKeeps(j, v, look);
    W.RetireKeeps(j.session, v);
    if v.hostGone && v.jobEmpty {
      DisposalIsExact(Queried(j, look), look.before, look.meanwhile, look.after);
    }
  }

  // ---- Both runs inside a joint run ----

  /** The calls that a joint run makes to its session. */
  function CallsOf(es: seq<Event>): seq<W.Call> {
    if es == [] then []
    else match es[0]
      case Host(_) => CallsOf(es[1..])
      case Admit(status) => [W.Admit(status)] + CallsOf(es[1..])
      case Stop(v, _) => [W.Stop(v)] + CallsOf(es[1..])
  }

  /** A joint run moves its session exactly as those calls alone do. */
  lemma {:induction false} SessionOverRuns(j: Joint, es: seq<Event>)
    ensures Run(j, es).session == W.Run(j.session, CallsOf(es))
    decreases |es|
  {
    if es != [] {
      SessionOverRuns(Next(j, es[0]), es[1..]);
      match es[0] {
        case Host(_) =>
        case Admit(status) => assert CallsOf(es)[1..] == CallsOf(es[1..]);
        case Stop(v, _) => assert CallsOf(es)[1..] == CallsOf(es[1..]);
      }
    }
  }

  function ChildMoves(ms: seq<G.Move>): seq<G.Event> {
    if ms == [] then [] else [G.Child(ms[0])] + ChildMoves(ms[1..])
  }

  /** The lock bodies that one event runs on the guardian, and the child's moves between them. */
  function BodiesOf(j: Joint, e: Event): seq<G.Event> {
    match e
    case Host(event) => [event]
    case Admit(_) => []
    case Stop(v, look) =>
      if j.session.released then []
      else
        (if j.session.retirementProof.Some? then [] else [G.Observe(look.exit)] + ChildMoves(look.between)) +
        (if W.RetireStep(j.session, v).retirementProof.None? then [] else [G.Dispose(look.before, look.meanwhile, look.after)])
  }

  function BodiesOfAll(j: Joint, es: seq<Event>): seq<G.Event>
    decreases |es|
  {
    if es == [] then [] else BodiesOf(j, es[0]) + BodiesOfAll(Next(j, es[0]), es[1..])
  }

  lemma {:induction false} HostAppend(s: G.System, a: seq<G.Event>, b: seq<G.Event>)
    ensures G.Run(s, a + b) == G.Run(G.Run(s, a), b)
    ensures G.AllowedRun(s, a + b) <==> G.AllowedRun(s, a) && G.AllowedRun(G.Run(s, a), b)
    decreases |a|
  {
    if a == [] {
      assert a + b == b;
    } else {
      assert (a + b)[1..] == a[1..] + b;
      HostAppend(G.Next(s, a[0]), a[1..], b);
    }
  }

  lemma {:induction false} MovesRun(s: G.System, ms: seq<G.Move>)
    ensures G.Run(s, ChildMoves(ms)) == G.Moved(s, ms) && G.AllowedRun(s, ChildMoves(ms))
    decreases |ms|
  {
    if ms != [] {
      assert ChildMoves(ms)[1..] == ChildMoves(ms[1..]);
      MovesRun(G.Next(s, G.Child(ms[0])), ms[1..]);
    }
  }

  lemma OneRun(s: G.System, e: G.Event)
    ensures G.Run(s, [e]) == G.Next(s, e) && (G.AllowedRun(s, [e]) <==> G.Allowed(s, e))
  {
    assert [e][1..] == [];
  }

  lemma QueriesRun(j: Joint, v: W.StopView, look: Look)
    requires StopAllowed(j, v, look)
    ensures var bodies := if j.session.retirementProof.Some? then [] else [G.Observe(look.exit)] + ChildMoves(look.between);
      G.Run(j.host, bodies) == Queried(j, look) && G.AllowedRun(j.host, bodies)
  {
    if j.session.retirementProof.None? {
      OneRun(j.host, G.Observe(look.exit));
      HostAppend(j.host, [G.Observe(look.exit)], ChildMoves(look.between));
      MovesRun(G.Next(j.host, G.Observe(look.exit)), look.between);
    }
  }

  lemma StepRuns(j: Joint, e: Event)
    requires Allowed(j, e)
    ensures G.Run(j.host, BodiesOf(j, e)) == Next(j, e).host && G.AllowedRun(j.host, BodiesOf(j, e))
  {
    match e
    case Host(event) => OneRun(j.host, event);
    case Admit(_) =>
    case Stop(v, look) =>
      if !j.session.released {
        QueriesRun(j, v, look);
        var queries := if j.session.retirementProof.Some? then [] else [G.Observe(look.exit)] + ChildMoves(look.between);
        var dispose := G.Dispose(look.before, look.meanwhile, look.after);
        OneRun(Queried(j, look), dispose);
        HostAppend(j.host, queries, [dispose]);
        assert queries + [] == queries;
      }
  }

  /** And it moves its guardian and child exactly as one run of lock bodies does, so what holds over all of those holds here. */
  lemma {:induction false} HostOverRuns(j: Joint, es: seq<Event>)
    requires AllowedRun(j, es)
    ensures G.Run(j.host, BodiesOfAll(j, es)) == Run(j, es).host && G.AllowedRun(j.host, BodiesOfAll(j, es))
    decreases |es|
  {
    if es != [] {
      StepRuns(j, es[0]);
      HostOverRuns(Next(j, es[0]), es[1..]);
      HostAppend(j.host, BodiesOf(j, es[0]), BodiesOfAll(Next(j, es[0]), es[1..]));
    }
  }
}

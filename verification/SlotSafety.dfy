/**
 What the slot protocol guarantees over whole runs.
 */
module SlotSafety {
  import opened Phases
  import opened SlotModel
  import opened SlotInvariant

  ghost predicate NoStaleRetrying(s: State) {
    forall m | m in s.nodes :: !StaleRetrying(s.nodes[m])
  }

  // A new generation on a cluster that keeps its promises.
  ghost predicate Start(c: Config, s: State) {
    ValidConfig(c) && Disciplined(c) && Init(c, s) && NoStaleRetrying(s)
  }

  lemma ReachableInv(c: Config, s: State, steps: seq<Step>)
    requires Start(c, s) && CanRun(c, s, steps)
    ensures Inv(c, Run(c, s, steps))
  {
    InitEstablishes(c, s);
    RunKeeps(c, s, steps);
  }

  lemma AppliersOwn(c: Config, s: State)
    requires Inv(c, s)
    ensures Appliers(s) <= Owners(s) && |Appliers(s)| <= s.policy.count <= c.max
  {
    forall m | m in Appliers(s) ensures m in Owners(s) {
      assert PcInv(s.nodes[m]);
    }
    SubsetSize(Appliers(s), Owners(s));
  }

  // At most maxUnavailable nodes apply at once, in every state of every run.
  lemma AtMostMaxApply(c: Config, s: State, steps: seq<Step>)
    requires Start(c, s) && CanRun(c, s, steps)
    ensures |Appliers(Run(c, s, steps))| <= c.max
  {
    ReachableInv(c, s, steps);
    AppliersOwn(c, Run(c, s, steps));
  }

  // Whatever happened between an audit's read, its listing and its write, a write that still
  // matches the version it read leaves a slot for every owner.
  lemma AuditNeverUndercounts(c: Config, s: State, steps: seq<Step>, n: NodeName, stamp: int)
    requires Start(c, s) && CanRun(c, s, steps)
    requires var r := Run(c, s, steps); n in r.nodes && Enabled(c, r, n, CommitAudit(stamp))
    ensures var r := Run(c, s, steps);
            var r' := Do(c, r, Act(n, CommitAudit(stamp)));
            && Owners(r') == Owners(r) && Appliers(r') <= Owners(r)
            && |Owners(r)| <= r'.policy.count < r.policy.count
  {
    ReachableInv(c, s, steps);
    AuditCommitCovers(c, Run(c, s, steps), n, stamp);
  }

  lemma AuditCommitCovers(c: Config, r: State, n: NodeName, stamp: int)
    requires Inv(c, r) && n in r.nodes && Enabled(c, r, n, CommitAudit(stamp))
    ensures var r' := Do(c, r, Act(n, CommitAudit(stamp)));
            && Owners(r') == Owners(r) && Appliers(r') <= Owners(r)
            && |Owners(r)| <= r'.policy.count < r.policy.count
  {
    assert ViewInv(c, r, r.nodes[n].pc);
    var r' := Do(c, r, Act(n, CommitAudit(stamp)));
    assert Owners(r') == Owners(r);
    StepKeeps(c, r, Act(n, CommitAudit(stamp)));
    AppliersOwn(c, r');
  }

  // The ledger moves only when a read-modify-write loop commits.
  lemma LedgerMoves(c: Config, s: State, n: NodeName, a: Action)
    requires n in s.nodes && Enabled(c, s, n, a)
    ensures var ns := s.nodes[n];
            var ns' := NodeEffect(c, s, n, a);
            && ns'.claims == (if a.CommitRmw? && ns.pc.op.Claim? then ns.claims + 1 else ns.claims)
            && ns'.releases == (if a.CommitRmw? && !ns.pc.op.Claim? then ns.releases + 1 else ns.releases)
            && (a.CommitRmw? ==> ns'.owns == ns.pc.op.Claim?)
            && (ns.exhausted ==> ns'.exhausted)
  {
  }

  // No step of one node takes another node's slot; a node gives back only a slot it owns, and
  // never more often than it claimed.
  lemma NoStepFreesAnother(c: Config, s: State, steps: seq<Step>, n: NodeName, a: Action)
    requires Start(c, s) && CanRun(c, s, steps)
    requires var r := Run(c, s, steps); n in r.nodes && Enabled(c, r, n, a)
    ensures var r := Run(c, s, steps);
            var r' := Do(c, r, Act(n, a));
            && Owners(r) - {n} == Owners(r') - {n}
            && |Owners(r')| <= r'.policy.count
            && r'.nodes[n].releases + (if r'.nodes[n].owns then 1 else 0) <= r'.nodes[n].claims
            && (r'.nodes[n].releases > r.nodes[n].releases ==> r.nodes[n].owns && !r'.nodes[n].owns)
  {
    ReachableInv(c, s, steps);
    OneStepFreesNoOther(c, Run(c, s, steps), n, a);
  }

  lemma OneStepFreesNoOther(c: Config, r: State, n: NodeName, a: Action)
    requires Inv(c, r) && n in r.nodes && Enabled(c, r, n, a)
    ensures var r' := Do(c, r, Act(n, a));
            && Owners(r) - {n} == Owners(r') - {n}
            && |Owners(r')| <= r'.policy.count
            && r'.nodes[n].releases + (if r'.nodes[n].owns then 1 else 0) <= r'.nodes[n].claims
            && (r'.nodes[n].releases > r.nodes[n].releases ==> r.nodes[n].owns && !r'.nodes[n].owns)
  {
    var r' := Do(c, r, Act(n, a));
    StepKeeps(c, r, Act(n, a));
    LedgerMoves(c, r, n, a);
    assert PcInv(r.nodes[n]) by { assert LocalInv(c, r.clock, r.policy, r.nodes[n]); }
    assert LedgerInv(c, r'.nodes[n]) by { assert LocalInv(c, r'.clock, r'.policy, r'.nodes[n]); }
    assert Owners(r) - {n} == Owners(r') - {n};
  }

  // ---------- exhausted retries ----------

  lemma ExhaustedOwn(c: Config, s: State)
    requires Inv(c, s)
    ensures ExhaustedNodes(s) <= Owners(s) && ExhaustedNodes(s) <= TerminallyFailed(Enactments(s))
    ensures ExhaustedNodes(s) !! Appliers(s)
    ensures |ExhaustedNodes(s)| <= s.policy.count
  {
    forall m | m in ExhaustedNodes(s)
      ensures m in Owners(s) && m in TerminallyFailed(Enactments(s)) && m !in Appliers(s)
    {
      assert LocalInv(c, s.clock, s.policy, s.nodes[m]);
    }
    SubsetSize(ExhaustedNodes(s), Owners(s));
  }

  // With every slot held by an exhausted node, nobody applies and no claim can be committed...
  lemma FullMeansStopped(c: Config, s: State)
    requires Inv(c, s) && |ExhaustedNodes(s)| >= c.max
    ensures Appliers(s) == {} && s.policy.count == c.max
    ensures forall n, stamp | n in s.nodes && Enabled(c, s, n, CommitRmw(stamp)) :: !s.nodes[n].pc.op.Claim?
  {
    ExhaustedOwn(c, s);
    AppliersOwn(c, s);
    assert |ExhaustedNodes(s) + Appliers(s)| <= |Owners(s)| by {
      SubsetSize(ExhaustedNodes(s) + Appliers(s), Owners(s));
    }
    forall n, stamp | n in s.nodes && Enabled(c, s, n, CommitRmw(stamp)) ensures !s.nodes[n].pc.op.Claim? {
      assert ViewInv(c, s, s.nodes[n].pc);
    }
  }

  // ...and a refused node that can read the failure count aborts.
  lemma FullMeansAborted(c: Config, s: State, n: NodeName)
    requires Inv(c, s) && |ExhaustedNodes(s)| >= c.max
    requires n in s.nodes && Enabled(c, s, n, ShouldAbort(false))
    ensures NodeEffect(c, s, n, ShouldAbort(false)).pc.Aborting?
  {
    ExhaustedOwn(c, s);
    SubsetSize(ExhaustedNodes(s), TerminallyFailed(Enactments(s)));
  }

  lemma StepWhenFull(c: Config, s: State, st: Step)
    requires Inv(c, s) && |ExhaustedNodes(s)| >= c.max && StepEnabled(c, s, st)
    ensures ExhaustedNodes(s) <= ExhaustedNodes(Do(c, s, st))
    ensures forall m | m in s.nodes :: m in Do(c, s, st).nodes && Do(c, s, st).nodes[m].claims == s.nodes[m].claims
  {
    FullMeansStopped(c, s);
    if st.Act? { LedgerMoves(c, s, st.node, st.action); }
  }

  lemma {:induction false} FullStaysStopped(c: Config, s: State, steps: seq<Step>)
    requires Inv(c, s) && |ExhaustedNodes(s)| >= c.max && CanRun(c, s, steps)
    ensures var r := Run(c, s, steps);
            && ExhaustedNodes(s) <= ExhaustedNodes(r) && |ExhaustedNodes(r)| == c.max
            && Appliers(r) == {}
            && forall m | m in s.nodes :: m in r.nodes && r.nodes[m].claims == s.nodes[m].claims
    decreases |steps|
  {
    FullMeansStopped(c, s);
    ExhaustedOwn(c, s);
    if steps != [] {
      var s' := Do(c, s, steps[0]);
      StepKeeps(c, s, steps[0]);
      StepWhenFull(c, s, steps[0]);
      SubsetSize(ExhaustedNodes(s), ExhaustedNodes(s'));
      FullStaysStopped(c, s', steps[1..]);
    }
  }

  // Once maxUnavailable nodes have recorded their terminal failure the rollout has stopped for
  // good: in every continuation nobody applies, nobody claims, the failures stay recorded, and
  // a refused node that can read the failure count aborts.
  lemma FailuresStopRollout(c: Config, s: State, steps: seq<Step>, more: seq<Step>)
    requires Start(c, s) && CanRun(c, s, steps)
    requires var r := Run(c, s, steps); |ExhaustedNodes(r)| >= c.max && CanRun(c, r, more)
    ensures var r := Run(c, s, steps);
            var r' := Run(c, r, more);
            && ExhaustedNodes(r) <= ExhaustedNodes(r') && |ExhaustedNodes(r')| == c.max
            && Appliers(r') == {}
            && (forall m | m in r.nodes :: m in r'.nodes && r'.nodes[m].claims == r.nodes[m].claims)
            && (forall n | n in r'.nodes && Enabled(c, r', n, ShouldAbort(false)) ::
                  NodeEffect(c, r', n, ShouldAbort(false)).pc.Aborting?)
  {
    ReachableInv(c, s, steps);
    FullStaysStopped(c, Run(c, s, steps), more);
    RunKeeps(c, Run(c, s, steps), more);
    var r' := Run(c, Run(c, s, steps), more);
    forall n | n in r'.nodes && Enabled(c, r', n, ShouldAbort(false))
      ensures NodeEffect(c, r', n, ShouldAbort(false)).pc.Aborting?
    {
      FullMeansAborted(c, r', n);
    }
  }

  lemma AtMostMaxExhausted(c: Config, s: State, steps: seq<Step>)
    requires Start(c, s) && CanRun(c, s, steps)
    ensures |ExhaustedNodes(Run(c, s, steps))| <= c.max
  {
    ReachableInv(c, s, steps);
    ExhaustedOwn(c, Run(c, s, steps));
  }

  // ---------- a committed configuration is not applied again ----------

  predicate Committed(ns: NodeState) {
    Current(ns.enactment) && (ns.enactment.phase.Finalizing? || ns.enactment.phase.Available?)
  }

  lemma CommittedStep(c: Config, s: State, n: NodeName, a: Action)
    requires n in s.nodes && PcInv(s.nodes[n]) && Committed(s.nodes[n]) && Enabled(c, s, n, a)
    ensures Committed(NodeEffect(c, s, n, a)) <==> a != NotifyGenerateFailure(true)
  {
  }

  // The one step that leaves the committed phases is a recorded failure to generate the desired state.
  lemma CommittedUntilGenerateFailure(c: Config, s: State, n: NodeName, st: Step)
    requires Inv(c, s) && n in s.nodes && Committed(s.nodes[n]) && StepEnabled(c, s, st)
    ensures n in Do(c, s, st).nodes
    ensures Committed(Do(c, s, st).nodes[n]) <==> st != Act(n, NotifyGenerateFailure(true))
    ensures !s.nodes[n].pc.Applying? && !BeforeApply(s.nodes[n].pc)
  {
    assert PcInv(s.nodes[n]) by { assert LocalInv(c, s.clock, s.policy, s.nodes[n]); }
    if st.Act? && st.node == n { CommittedStep(c, s, n, st.action); }
  }

  lemma {:induction false} CommittedRun(c: Config, s: State, n: NodeName, steps: seq<Step>)
    requires Inv(c, s) && n in s.nodes && Committed(s.nodes[n]) && CanRun(c, s, steps)
    requires Act(n, NotifyGenerateFailure(true)) !in steps
    ensures n in Run(c, s, steps).nodes && Committed(Run(c, s, steps).nodes[n])
    ensures !Run(c, s, steps).nodes[n].pc.Applying?
    decreases |steps|
  {
    if steps == [] {
      CommittedUntilGenerateFailure(c, s, n, OtherWrite(false));
    } else {
      CommittedUntilGenerateFailure(c, s, n, steps[0]);
      StepKeeps(c, s, steps[0]);
      CommittedRun(c, Do(c, s, steps[0]), n, steps[1..]);
    }
  }

  // Once a node has persisted its Finalizing marker, no continuation has it apply again --
  // through failed releases, lost success writes, crashes and restarts -- unless a failure to
  // generate its desired state is recorded over the marker.
  lemma FinalizedNeverReapplied(c: Config, s: State, steps: seq<Step>, n: NodeName, more: seq<Step>)
    requires Start(c, s) && CanRun(c, s, steps)
    requires var r := Run(c, s, steps);
             n in r.nodes && Current(r.nodes[n].enactment) && r.nodes[n].enactment.phase.Finalizing? && CanRun(c, r, more)
    requires Act(n, NotifyGenerateFailure(true)) !in more
    ensures var r := Run(c, Run(c, s, steps), more);
            n in r.nodes && Committed(r.nodes[n]) && !r.nodes[n].pc.Applying?
  {
    ReachableInv(c, s, steps);
    CommittedRun(c, Run(c, s, steps), n, more);
  }
}

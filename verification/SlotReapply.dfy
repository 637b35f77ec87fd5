/**
 A configuration that was committed and marked Finalizing can be applied a second time: exactly
 when, and by which runs.
 */
module SlotReapply {
  import opened Phases
  import opened SlotModel
  import opened SlotInvariant
  import opened SlotSafety
  import opened SlotLimits

  // ---------- how a finalized node gets to apply ----------

  // Wherever its reconcile is, a handler can die, restart and fail to recover its enactment.
  lemma CrashToIdle(c: Config, s: State, x: NodeName) returns (s': State)
    requires x in s.nodes
    ensures Reaches(c, s, x, s') && s'.policy == s.policy
    ensures s'.nodes[x].pc.Idle? && s'.nodes[x].enactment == s.nodes[x].enactment
  {
    if s.nodes[x].pc.Down? {
      s' := ToIdle(c, s, x);
    } else {
      var s1 := Do(c, s, Act(x, Crash));
      s' := ToIdle(c, s1, x);
      ReachesStep(c, s, x, Crash, s');
    }
  }

  // A failure to generate the desired state is recorded over whatever the enactment said.
  lemma RecordGenerateFailure(c: Config, s: State, x: NodeName) returns (s': State)
    requires x in s.nodes && s.nodes[x].pc.Idle? && Current(s.nodes[x].enactment)
    ensures Reaches(c, s, x, s') && s'.policy == s.policy
    ensures s'.nodes[x].pc.Idle? && s'.nodes[x].enactment == s.nodes[x].enactment.(phase := Failed)
  {
    var s1 := Do(c, s, Act(x, Begin));
    var s2 := Do(c, s1, Act(x, FillIn(GenerateError)));
    s' := WriteGenerateFailure(c, s2, x);
    ReachesStep(c, s1, x, FillIn(GenerateError), s');
    ReachesStep(c, s, x, Begin, s');
  }

  lemma WriteGenerateFailure(c: Config, s: State, x: NodeName) returns (s': State)
    requires x in s.nodes && s.nodes[x].pc.GenerateFailed? && s.nodes[x].enactment.Enactment?
    ensures Reaches(c, s, x, s') && s'.policy == s.policy
    ensures s'.nodes[x].pc.Idle? && s'.nodes[x].enactment == s.nodes[x].enactment.(phase := Failed)
  {
    var s1 := Do(c, s, Act(x, NotifyGenerateFailure(true)));
    s' := SkipUpdate(c, s1, x);
    ReachesStep(c, s, x, NotifyGenerateFailure(true), s');
  }

  // A failed node with retries left claims a free slot like any other.
  lemma FailedApplies(c: Config, s: State, x: NodeName) returns (s': State)
    requires ValidConfig(c) && x in s.nodes && s.nodes[x].pc.Idle? && Current(s.nodes[x].enactment)
    requires s.nodes[x].enactment.phase.Failed? && !Spent(c, s.nodes[x]) && s.policy.count < c.max
    ensures Reaches(c, s, x, s') && s'.nodes[x].pc.Applying? && s'.policy.count == s.policy.count + 1
  {
    var s1 := Do(c, s, Act(x, Begin));
    var s2 := Do(c, s1, Act(x, FillIn(Generated)));
    var s3 := Do(c, s2, Act(x, Dispatch));
    s' := ClaimThenApply(c, s3, x);
    ReachesStep(c, s2, x, Dispatch, s');
    ReachesStep(c, s1, x, FillIn(Generated), s');
    ReachesStep(c, s, x, Begin, s');
  }

  lemma Reapply(c: Config, s: State, x: NodeName) returns (s': State)
    requires ValidConfig(c) && x in s.nodes && Current(s.nodes[x].enactment)
    requires !Spent(c, s.nodes[x]) && s.policy.count < c.max
    ensures Reaches(c, s, x, s') && s'.nodes[x].pc.Applying? && s'.policy.count == s.policy.count + 1
  {
    var s1 := CrashToIdle(c, s, x);
    var s2 := RecordGenerateFailure(c, s1, x);
    s' := FailedApplies(c, s2, x);
    ReachesTrans(c, s, x, s1, s2);
    ReachesTrans(c, s, x, s2, s');
  }

  // ---------- when it cannot ----------

  // A node that used up its retries and is not on its way to apply.
  predicate DoneFor(c: Config, ns: NodeState) {
    NoMoreTries(c, ns.enactment) && OffTheWay(ns.pc)
  }

  predicate NoMoreTries(c: Config, e: Enactment) {
    Current(e) && e.retry >= c.retries && !e.phase.Progressing? && !e.phase.Retrying?
  }

  predicate OffTheWay(pc: Pc) {
    !ClaimPath(pc) && (RelyingOnHeartbeat(pc) ==> Releasing(pc))
  }

  lemma NoMoreTriesStep(c: Config, s: State, x: NodeName, a: Action)
    requires x in s.nodes && DoneFor(c, s.nodes[x]) && Enabled(c, s, x, a)
    ensures NoMoreTries(c, NodeEffect(c, s, x, a).enactment)
  {
  }

  predicate OnCounter(a: Action) {
    || a.ReadPolicy? || a.NothingToRelease? || a.Conflict? || a.RereadSpoilt? || a.StopTrying? || a.LimitReached? || a.CommitRmw?
    || a.AuditGet? || a.AuditList? || a.AuditCount? || a.AuditRetry? || a.AuditFail? || a.CommitAudit?
  }

  lemma CounterStepOffTheWay(c: Config, s: State, x: NodeName, a: Action)
    requires x in s.nodes && DoneFor(c, s.nodes[x]) && Enabled(c, s, x, a) && OnCounter(a)
    ensures OffTheWay(NodeEffect(c, s, x, a).pc)
  {
  }

  lemma OtherStepOffTheWay(c: Config, s: State, x: NodeName, a: Action)
    requires x in s.nodes && DoneFor(c, s.nodes[x]) && Enabled(c, s, x, a) && !OnCounter(a)
    ensures OffTheWay(NodeEffect(c, s, x, a).pc)
  {
  }

  lemma OffTheWayStep(c: Config, s: State, x: NodeName, a: Action)
    requires x in s.nodes && DoneFor(c, s.nodes[x]) && Enabled(c, s, x, a)
    ensures OffTheWay(NodeEffect(c, s, x, a).pc)
  {
    if OnCounter(a) {
      CounterStepOffTheWay(c, s, x, a);
    } else {
      OtherStepOffTheWay(c, s, x, a);
    }
  }

  lemma {:induction false} DoneForStays(c: Config, s: State, x: NodeName, more: seq<Step>)
    requires x in s.nodes && DoneFor(c, s.nodes[x]) && CanRun(c, s, more)
    ensures x in Run(c, s, more).nodes && !Run(c, s, more).nodes[x].pc.Applying?
    decreases |more|
  {
    if more != [] {
      if more[0].Act? && more[0].node == x {
        NoMoreTriesStep(c, s, x, more[0].action);
        OffTheWayStep(c, s, x, more[0].action);
      }
      DoneForStays(c, Do(c, s, more[0]), x, more[1..]);
    }
  }

  // ---------- exactly when a committed configuration is applied again ----------

  ghost predicate Applies(c: Config, s: State, n: NodeName, more: seq<Step>) {
    CanRun(c, s, more) && n in Run(c, s, more).nodes && Run(c, s, more).nodes[n].pc.Applying?
  }

  predicate IsFinalizing(s: State, n: NodeName) {
    n in s.nodes && Current(s.nodes[n].enactment) && s.nodes[n].enactment.phase.Finalizing?
  }

  // With a slot free, a node that had persisted its Finalizing marker can be brought to apply
  // again exactly if it has retries left, and every such run records a generate failure over it.
  lemma ReappliesExactly(c: Config, s: State, steps: seq<Step>, n: NodeName)
    requires Start(c, s) && CanRun(c, s, steps)
    requires var r := Run(c, s, steps); IsFinalizing(r, n) && r.policy.count < c.max
    ensures var r := Run(c, s, steps);
            && ((exists more :: Applies(c, r, n, more)) <==> r.nodes[n].enactment.retry < c.retries)
            && (forall more | Applies(c, r, n, more) :: Act(n, NotifyGenerateFailure(true)) in more)
  {
    var r := Run(c, s, steps);
    ReachableInv(c, s, steps);
    forall more | Applies(c, r, n, more) ensures Act(n, NotifyGenerateFailure(true)) in more && !Spent(c, r.nodes[n]) {
      if Act(n, NotifyGenerateFailure(true)) !in more { CommittedRun(c, r, n, more); }
      if Spent(c, r.nodes[n]) {
        assert LocalInv(c, r.clock, r.policy, r.nodes[n]);
        DoneForStays(c, r, n, more);
      }
    }
    if !Spent(c, r.nodes[n]) {
      var r' := Reapply(c, r, n);
      var more :| CanRun(c, r, more) && Run(c, r, more) == r';
      assert Applies(c, r, n, more);
    }
  }

  // After `steps` n carries the Finalizing marker, and after `more` it applies.
  ghost predicate Reapplied(c: Config, s: State, steps: seq<Step>, n: NodeName, more: seq<Step>) {
    CanRun(c, s, steps) && IsFinalizing(Run(c, s, steps), n) && Applies(c, Run(c, s, steps), n, more)
  }

  // Nobody applies again in any run or, unless `failing`, in any that records no generate
  // failure over the marker.
  ghost predicate NeverReapplied(c: Config, s: State, failing: bool) {
    !exists steps, n, more :: Reapplied(c, s, steps, n, more) && (failing || Act(n, NotifyGenerateFailure(true)) !in more)
  }

  lemma FinalizeAndRelease(c: Config, s: State, x: NodeName) returns (s': State)
    requires ValidConfig(c) && x in s.nodes && s.nodes[x].pc.Applying? && s.nodes[x].enactment.Enactment? && s.policy.count > 0
    ensures Reaches(c, s, x, s') && s'.policy.count == s.policy.count - 1
    ensures s'.nodes[x].enactment == s.nodes[x].enactment.(phase := Finalizing(s.clock))
  {
    var s1 := Do(c, s, Act(x, ApplyDone(true)));
    var s2 := Do(c, s1, Act(x, NotifyFinalizing(true, s.clock)));
    s' := ReleaseSlot(c, s2, x);
    ReachesStep(c, s1, x, NotifyFinalizing(true, s.clock), s');
    ReachesStep(c, s, x, ApplyDone(true), s');
  }

  lemma ReleaseSlot(c: Config, s: State, x: NodeName) returns (s': State)
    requires x in s.nodes && s.nodes[x].pc == Rmw(Release) && s.policy.count > 0
    ensures Reaches(c, s, x, s') && s'.policy.count == s.policy.count - 1
    ensures s'.nodes[x].enactment == s.nodes[x].enactment
  {
    var s1 := Do(c, s, Act(x, ReadPolicy(s.policy)));
    s' := Do(c, s1, Act(x, CommitRmw(s.clock)));
    ReachesSelf(c, s', x);
    ReachesStep(c, s1, x, CommitRmw(s.clock), s');
    ReachesStep(c, s, x, ReadPolicy(s.policy), s');
  }

  // The promise holds of all runs exactly if no generate failure may be recorded over the marker.
  lemma NeverReappliedExactly(c: Config, s: State, failing: bool)
    requires Start(c, s)
    ensures NeverReapplied(c, s, failing) <==> !failing || c.nodes == {}
  {
    if !failing {
      forall steps, n, more | Reapplied(c, s, steps, n, more) ensures Act(n, NotifyGenerateFailure(true)) in more {
        if Act(n, NotifyGenerateFailure(true)) !in more { FinalizedNeverReapplied(c, s, steps, n, more); }
      }
    } else if c.nodes == {} {
      forall steps, n, more | CanRun(c, s, steps) ensures !Reapplied(c, s, steps, n, more) {
        RunKeepsKeys(c, s, steps);
      }
    } else {
      var x :| x in c.nodes;
      SomeNodeReapplies(c, s, x);
    }
  }

  lemma SomeNodeReapplies(c: Config, s: State, x: NodeName)
    requires Start(c, s) && x in c.nodes
    ensures !NeverReapplied(c, s, true)
  {
    var s0 := StartToClaim(c, s, x);
    var s1 := ClaimThenApply(c, s0, x);
    var s2 := FinalizeAndRelease(c, s1, x);
    var s3 := Reapply(c, s2, x);
    ReachesTrans(c, s, x, s0, s1);
    ReachesTrans(c, s, x, s1, s2);
    var steps :| CanRun(c, s, steps) && Run(c, s, steps) == s2;
    var more :| CanRun(c, s2, more) && Run(c, s2, more) == s3;
    assert Reapplied(c, s, steps, x, more);
  }
}

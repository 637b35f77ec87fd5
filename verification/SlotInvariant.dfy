/**
 The inductive invariant of the slot protocol, and its preservation by every step.
 */
module SlotInvariant {
  import opened Phases
  import opened SlotModel

  predicate Sound(c: Config) {
    ValidConfig(c) && Disciplined(c)
  }

  // ---------- the invariant ----------

  // What keeps a marked owner in the audit's holder count, with the audit's own lag to spare.
  predicate Holds(c: Config, p: Phase, now: int) {
    p.Failed? || Fresh(c, p, now)
  }

  predicate NotAfter(u: Stamp, t: int) {
    u.At? ==> u.time <= t
  }

  predicate GoodCopy(copy: Policy, p: Policy) {
    copy.version <= p.version && (copy.version == p.version ==> copy == p)
  }

  // A slot's owner is unmarked inside its grace window, or a holder the audit cannot miss.
  predicate OwnerInv(c: Config, clock: int, p: Policy, ns: NodeState) {
    ns.owns ==>
      && Current(ns.enactment) && !ns.enactment.phase.Available?
      && if Unmarked(ns.pc)
         then clock < ClaimStamp(ns.pc) + c.grace && p.lastUpdate.At? && ClaimStamp(ns.pc) <= p.lastUpdate.time
         else Holds(c, ns.enactment.phase, clock)
  }

  predicate ClaimPath(pc: Pc) {
    || ((pc.Rmw? || pc.RmwRead?) && pc.op.Claim?)
    || ((pc.Audit? || pc.AuditRead? || pc.AuditListed? || pc.AuditCounted?) && pc.why.ForClaim?)
    || pc.Refused? || pc.AbortCheck? || pc.Aborting?
    || Unmarked(pc)
  }

  predicate ReleaseAudit(pc: Pc) {
    (pc.Audit? || pc.AuditRead? || pc.AuditListed? || pc.AuditCounted?) && !pc.why.ForClaim?
  }

  // What the program counter says about the node's own enactment and slot.
  predicate PcInv(ns: NodeState) {
    var pc := ns.pc;
    var e := ns.enactment;
    && (pc.Initialized? ==> e.Enactment? && (pc.wasRetrying ==> e.current && e.phase.Retrying?))
    && (pc.Filled? ==> Current(e) && (pc.wasRetrying ==> e.phase.Retrying?))
    && (pc.GenerateFailed? ==> Current(e))
    && (ClaimPath(pc) ==> Current(e) && !IsProgressing(e.phase) && !e.phase.Available? && !ns.exhausted)
    && (Unmarked(pc) ==> ns.owns)
    && (RelyingOnHeartbeat(pc) ==> ns.owns && Current(e) && IsProgressing(e.phase) && (Releasing(pc) <==> e.phase.Finalizing?))
    && (pc.Released? ==> Current(e) && e.phase.Finalizing? && !ns.owns)
    && (pc.RecordSuccess? ==> Current(e) && e.phase.Finalizing?)
    && (ReleaseAudit(pc) ==> e.Enactment? && !ns.owns && (e.phase.Available? || e.phase.Pending?))
  }

  predicate LedgerInv(c: Config, ns: NodeState) {
    && (ns.exhausted ==> ns.owns && Current(ns.enactment) && ns.enactment.phase.Failed? && ns.enactment.retry >= c.retries)
    && (ns.pc.GivingUp? ==> ns.enactment.Enactment? && ns.enactment.retry >= c.retries)
    && ns.releases + (if ns.owns then 1 else 0) <= ns.claims
  }

  // A fresh Progressing marker is backed by a slot; only a Finalizing one may have given it back.
  predicate MarkerInv(c: Config, clock: int, ns: NodeState) {
    && !StaleRetrying(ns)
    && (Current(ns.enactment) && Fresh(c, ns.enactment.phase, clock) && !ns.enactment.phase.Finalizing? ==> ns.owns)
  }

  predicate LocalInv(c: Config, clock: int, p: Policy, ns: NodeState) {
    OwnerInv(c, clock, p, ns) && PcInv(ns) && LedgerInv(c, ns) && MarkerInv(c, clock, ns)
  }

  // What a reader of shared state may still rely on if nobody wrote the policy since.
  ghost predicate ViewInv(c: Config, s: State, pc: Pc) {
    match pc
    case RmwRead(op, copy, readAt) =>
      && copy.version <= s.policy.version
      && (copy.version == s.policy.version ==>
            (copy == s.policy || !Writable(c, op, copy)) && NotAfter(s.policy.lastUpdate, readAt))
    case AuditRead(_, copy) => GoodCopy(copy, s.policy) && (copy == s.policy ==> AllMarked(s))
    case AuditListed(_, copy, listed, at) =>
      && GoodCopy(copy, s.policy)
      && (copy == s.policy ==> AllMarked(s) && NotAfter(s.policy.lastUpdate, at) && ListedHold(c, s, listed, at))
    case AuditCounted(_, copy, holders, at) =>
      && GoodCopy(copy, s.policy) && holders < copy.count && 0 <= holders
      && (copy == s.policy ==> NotAfter(s.policy.lastUpdate, at) && |Owners(s)| <= holders)
    case UpdateRead(_, copy) => GoodCopy(copy, s.policy)
    case UpdateListed(_, copy, listed, _, ready) =>
      && GoodCopy(copy, s.policy) && |Existing(listed)| <= ready
      && (copy == s.policy ==> forall m | m in Owners(s) :: m in listed && listed[m].Enactment? && !listed[m].phase.Available?)
    case _ => true
  }

  ghost predicate AllMarked(s: State) {
    forall m | m in Owners(s) :: !Unmarked(s.nodes[m].pc)
  }

  ghost predicate ListedHold(c: Config, s: State, listed: Listing, at: int) {
    forall m | m in Owners(s) :: m in listed && Current(listed[m]) && Holds(c, listed[m].phase, at)
  }

  ghost predicate CountInv(c: Config, s: State) {
    && s.nodes.Keys == c.nodes
    && |Owners(s)| <= s.policy.count <= c.max
    && NotAfter(s.policy.lastUpdate, s.clock)
  }

  ghost predicate Inv(c: Config, s: State) {
    && Sound(c)
    && CountInv(c, s)
    && (forall m | m in s.nodes :: LocalInv(c, s.clock, s.policy, s.nodes[m]))
    && (forall m | m in s.nodes :: ViewInv(c, s, s.nodes[m].pc))
  }

  // ---------- initial states ----------

  lemma InitEstablishes(c: Config, s: State)
    requires Sound(c) && Init(c, s)
    requires forall m | m in s.nodes :: !StaleRetrying(s.nodes[m])
    ensures Inv(c, s)
  {
    assert Owners(s) == {};
    forall m | m in s.nodes ensures LocalInv(c, s.clock, s.policy, s.nodes[m]) {
      assert InitNode(s.nodes[m]);
    }
  }

  // ---------- one node's own part ----------

  // Steps that leave the policy alone keep the acting node's own invariant, gain no slot
  // and leave no slot newly unmarked.
  predicate GainsNothing(ns: NodeState, ns': NodeState) {
    && (ns'.owns ==> ns.owns)
    && (ns'.owns && Unmarked(ns'.pc) ==> Unmarked(ns.pc))
  }

  predicate IsCommit(a: Action) {
    a.CommitRmw? || a.CommitAudit? || a.CommitUpdate?
  }

  lemma RestartStepKeepsLocal(c: Config, s: State, n: NodeName, a: Action)
    requires Sound(c) && n in s.nodes && LocalInv(c, s.clock, s.policy, s.nodes[n]) && Enabled(c, s, n, a)
    requires a.Crash? || a.Restart? || a.Recover?
    ensures LocalInv(c, s.clock, s.policy, NodeEffect(c, s, n, a))
    ensures GainsNothing(s.nodes[n], NodeEffect(c, s, n, a))
  {
  }

  lemma BeginStepKeepsLocal(c: Config, s: State, n: NodeName, a: Action)
    requires Sound(c) && n in s.nodes && LocalInv(c, s.clock, s.policy, s.nodes[n]) && Enabled(c, s, n, a)
    requires a.Begin? || a.FillIn? || a.NotifyGenerateFailure? || a.GiveUp?
    ensures LocalInv(c, s.clock, s.policy, NodeEffect(c, s, n, a))
    ensures GainsNothing(s.nodes[n], NodeEffect(c, s, n, a))
  {
  }

  lemma DispatchKeepsLocal(c: Config, s: State, n: NodeName)
    requires Sound(c) && n in s.nodes && LocalInv(c, s.clock, s.policy, s.nodes[n]) && Enabled(c, s, n, Dispatch)
    ensures LocalInv(c, s.clock, s.policy, NodeEffect(c, s, n, Dispatch))
    ensures GainsNothing(s.nodes[n], NodeEffect(c, s, n, Dispatch))
  {
  }

  lemma CounterStepKeepsLocal(c: Config, s: State, n: NodeName, a: Action)
    requires Sound(c) && n in s.nodes && LocalInv(c, s.clock, s.policy, s.nodes[n]) && Enabled(c, s, n, a)
    requires a.ReadPolicy? || a.NothingToRelease? || a.Conflict? || a.RereadSpoilt? || a.StopTrying? || a.LimitReached?
    ensures LocalInv(c, s.clock, s.policy, NodeEffect(c, s, n, a))
    ensures GainsNothing(s.nodes[n], NodeEffect(c, s, n, a))
  {
  }

  lemma AuditStepKeepsLocal(c: Config, s: State, n: NodeName, a: Action)
    requires Sound(c) && n in s.nodes && LocalInv(c, s.clock, s.policy, s.nodes[n]) && Enabled(c, s, n, a)
    requires a.AuditGet? || a.AuditList? || a.AuditCount? || a.AuditRetry? || a.AuditFail?
    ensures LocalInv(c, s.clock, s.policy, NodeEffect(c, s, n, a))
    ensures GainsNothing(s.nodes[n], NodeEffect(c, s, n, a))
  {
  }

  lemma RefusalStepKeepsLocal(c: Config, s: State, n: NodeName, a: Action)
    requires Sound(c) && n in s.nodes && LocalInv(c, s.clock, s.policy, s.nodes[n]) && Enabled(c, s, n, a)
    requires a.NotifyPending? || a.ShouldAbort? || a.NotifyAborted?
    ensures LocalInv(c, s.clock, s.policy, NodeEffect(c, s, n, a))
    ensures GainsNothing(s.nodes[n], NodeEffect(c, s, n, a))
  {
  }

  lemma ApplyStepKeepsLocal(c: Config, s: State, n: NodeName, a: Action)
    requires Sound(c) && n in s.nodes && LocalInv(c, s.clock, s.policy, s.nodes[n]) && Enabled(c, s, n, a)
    requires a.NotifyProgressing? || a.ApplyDone? || a.NotifyFinalizing? || a.NotifySuccess?
    ensures LocalInv(c, s.clock, s.policy, NodeEffect(c, s, n, a))
    ensures GainsNothing(s.nodes[n], NodeEffect(c, s, n, a))
  {
  }

  lemma RetryStepKeepsLocal(c: Config, s: State, n: NodeName, a: Action)
    requires Sound(c) && n in s.nodes && LocalInv(c, s.clock, s.policy, s.nodes[n]) && Enabled(c, s, n, a)
    requires a.RecordRetry? || a.NotifyFailed? || a.NotifyRetrying?
    ensures LocalInv(c, s.clock, s.policy, NodeEffect(c, s, n, a))
    ensures GainsNothing(s.nodes[n], NodeEffect(c, s, n, a))
  {
  }

  lemma UpdateStepKeepsLocal(c: Config, s: State, n: NodeName, a: Action)
    requires Sound(c) && n in s.nodes && LocalInv(c, s.clock, s.policy, s.nodes[n]) && Enabled(c, s, n, a)
    requires a.UpdateGet? || a.UpdateList? || a.UpdateRetry? || a.UpdateFail?
    ensures LocalInv(c, s.clock, s.policy, NodeEffect(c, s, n, a))
    ensures GainsNothing(s.nodes[n], NodeEffect(c, s, n, a))
  {
  }

  lemma LocalStepKeepsLocal(c: Config, s: State, n: NodeName, a: Action)
    requires Sound(c) && n in s.nodes && LocalInv(c, s.clock, s.policy, s.nodes[n]) && Enabled(c, s, n, a)
    requires !IsCommit(a)
    ensures LocalInv(c, s.clock, s.policy, NodeEffect(c, s, n, a))
    ensures GainsNothing(s.nodes[n], NodeEffect(c, s, n, a))
  {
    if a.Crash? || a.Restart? || a.Recover? {
      RestartStepKeepsLocal(c, s, n, a);
    } else if a.Dispatch? {
      DispatchKeepsLocal(c, s, n);
    } else if a.Begin? || a.FillIn? || a.NotifyGenerateFailure? || a.GiveUp? {
      BeginStepKeepsLocal(c, s, n, a);
    } else if a.ReadPolicy? || a.NothingToRelease? || a.Conflict? || a.RereadSpoilt? || a.StopTrying? || a.LimitReached? {
      CounterStepKeepsLocal(c, s, n, a);
    } else if a.AuditGet? || a.AuditList? || a.AuditCount? || a.AuditRetry? || a.AuditFail? {
      AuditStepKeepsLocal(c, s, n, a);
    } else if a.NotifyPending? || a.ShouldAbort? || a.NotifyAborted? {
      RefusalStepKeepsLocal(c, s, n, a);
    } else if a.NotifyProgressing? || a.ApplyDone? || a.NotifyFinalizing? || a.NotifySuccess? {
      ApplyStepKeepsLocal(c, s, n, a);
    } else if a.RecordRetry? || a.NotifyFailed? || a.NotifyRetrying? {
      RetryStepKeepsLocal(c, s, n, a);
    } else {
      UpdateStepKeepsLocal(c, s, n, a);
    }
  }

  // ---------- what the others rely on ----------

  lemma SubsetSize<T>(a: set<T>, b: set<T>)
    requires a <= b
    ensures |a| <= |b|
  {
    assert a + (b - a) == b;
  }

  // With the policy unwritten, views survive as long as owners only leave and none turns unmarked.
  lemma ViewFrame(c: Config, s: State, s': State, pc: Pc)
    requires ViewInv(c, s, pc) && s'.policy == s.policy
    requires Owners(s') <= Owners(s)
    requires forall m | m in Owners(s') :: Unmarked(s'.nodes[m].pc) ==> Unmarked(s.nodes[m].pc)
    ensures ViewInv(c, s', pc)
  {
    SubsetSize(Owners(s'), Owners(s));
  }

  // A policy write makes every earlier copy stale.
  lemma ViewBump(c: Config, s: State, s': State, pc: Pc)
    requires ViewInv(c, s, pc) && s'.policy.version > s.policy.version
    ensures ViewInv(c, s', pc)
  {
  }

  lemma LocalFrame(c: Config, s: State, n: NodeName, ns: NodeState)
    requires Inv(c, s) && n in s.nodes
    requires LocalInv(c, s.clock, s.policy, ns) && GainsNothing(s.nodes[n], ns)
    requires ViewInv(c, s, ns.pc)
    ensures Inv(c, s.(nodes := s.nodes[n := ns]))
  {
    var s' := s.(nodes := s.nodes[n := ns]);
    assert Owners(s') <= Owners(s);
    SubsetSize(Owners(s'), Owners(s));
    forall m | m in s'.nodes ensures ViewInv(c, s', s'.nodes[m].pc) {
      ViewFrame(c, s, s', s'.nodes[m].pc);
    }
  }

  // An audit past the grace window meets no unmarked owner...
  lemma GraceElapsed(c: Config, s: State)
    requires Inv(c, s) && !InGrace(c, s.policy.lastUpdate, s.clock)
    ensures AllMarked(s)
  {
    forall m | m in Owners(s) ensures !Unmarked(s.nodes[m].pc) {
      assert OwnerInv(c, s.clock, s.policy, s.nodes[m]);
    }
  }

  // ...so every owner it then lists holds...
  lemma OwnersListed(c: Config, s: State)
    requires Inv(c, s)
    ensures AllMarked(s) ==> ListedHold(c, s, Enactments(s), s.clock)
    ensures forall m | m in Owners(s) :: Enactments(s)[m].Enactment? && !Enactments(s)[m].phase.Available?
  {
    forall m | m in Owners(s) ensures OwnerInv(c, s.clock, s.policy, s.nodes[m]) {
    }
  }

  // ...and is still counted when the listing is judged within the lag.
  lemma OwnersCounted(c: Config, s: State, listed: Listing, at: int)
    requires Sound(c) && ListedHold(c, s, listed, at) && s.clock <= at + c.lag
    ensures |Owners(s)| <= |Holders(c, listed, s.clock)|
  {
    SubsetSize(Owners(s), Holders(c, listed, s.clock));
  }

  lemma AuditGetKeepsView(c: Config, s: State, n: NodeName, copy: Policy)
    requires Inv(c, s) && n in s.nodes && Enabled(c, s, n, AuditGet(copy))
    ensures ViewInv(c, s, NodeEffect(c, s, n, AuditGet(copy)).pc)
  {
    if !InGrace(c, s.policy.lastUpdate, s.clock) { GraceElapsed(c, s); }
  }

  lemma AuditListKeepsView(c: Config, s: State, n: NodeName)
    requires Inv(c, s) && n in s.nodes && Enabled(c, s, n, AuditList)
    ensures ViewInv(c, s, NodeEffect(c, s, n, AuditList).pc)
  {
    assert ViewInv(c, s, s.nodes[n].pc);
    OwnersListed(c, s);
  }

  lemma AuditCountKeepsView(c: Config, s: State, n: NodeName)
    requires Inv(c, s) && n in s.nodes && Enabled(c, s, n, AuditCount)
    ensures ViewInv(c, s, NodeEffect(c, s, n, AuditCount).pc)
  {
    var pc := s.nodes[n].pc;
    assert ViewInv(c, s, pc);
    if pc.copy == s.policy { OwnersCounted(c, s, pc.listed, pc.at); }
  }

  lemma AuditStepKeepsView(c: Config, s: State, n: NodeName, a: Action)
    requires Inv(c, s) && n in s.nodes && Enabled(c, s, n, a)
    requires a.AuditGet? || a.AuditList? || a.AuditCount?
    ensures ViewInv(c, s, NodeEffect(c, s, n, a).pc)
  {
    if a.AuditGet? {
      AuditGetKeepsView(c, s, n, a.copy);
    } else if a.AuditList? {
      AuditListKeepsView(c, s, n);
    } else {
      AuditCountKeepsView(c, s, n);
    }
  }

  lemma ReadStepKeepsView(c: Config, s: State, n: NodeName, a: Action)
    requires Inv(c, s) && n in s.nodes && Enabled(c, s, n, a)
    requires a.ReadPolicy? || a.RereadSpoilt? || a.UpdateGet? || a.UpdateList?
    ensures ViewInv(c, s, NodeEffect(c, s, n, a).pc)
  {
    assert ViewInv(c, s, s.nodes[n].pc);
    if a.UpdateList? { OwnersListed(c, s); }
  }

  predicate Reads(a: Action) {
    a.AuditGet? || a.AuditList? || a.AuditCount? || a.ReadPolicy? || a.RereadSpoilt? || a.UpdateGet? || a.UpdateList?
  }

  lemma OtherStepHasNoView(c: Config, s: State, n: NodeName, a: Action)
    requires n in s.nodes && Enabled(c, s, n, a) && !IsCommit(a) && !Reads(a)
    ensures var pc := NodeEffect(c, s, n, a).pc;
            !(pc.RmwRead? || pc.AuditRead? || pc.AuditListed? || pc.AuditCounted? || pc.UpdateRead? || pc.UpdateListed?)
  {
  }

  lemma LocalStepKeepsView(c: Config, s: State, n: NodeName, a: Action)
    requires Inv(c, s) && n in s.nodes && Enabled(c, s, n, a) && !IsCommit(a)
    ensures ViewInv(c, s, NodeEffect(c, s, n, a).pc)
  {
    if a.AuditGet? || a.AuditList? || a.AuditCount? {
      AuditStepKeepsView(c, s, n, a);
    } else if Reads(a) {
      ReadStepKeepsView(c, s, n, a);
    } else {
      OtherStepHasNoView(c, s, n, a);
    }
  }

  lemma LocalStepLeavesPolicy(c: Config, s: State, n: NodeName, a: Action)
    requires n in s.nodes && Enabled(c, s, n, a) && !IsCommit(a)
    ensures Do(c, s, Act(n, a)) == s.(nodes := s.nodes[n := NodeEffect(c, s, n, a)])
  {
  }

  lemma LocalStepKeeps(c: Config, s: State, n: NodeName, a: Action)
    requires Inv(c, s) && n in s.nodes && Enabled(c, s, n, a) && !IsCommit(a)
    ensures Inv(c, Do(c, s, Act(n, a)))
  {
    LocalStepKeepsLocal(c, s, n, a);
    LocalStepKeepsView(c, s, n, a);
    LocalFrame(c, s, n, NodeEffect(c, s, n, a));
    LocalStepLeavesPolicy(c, s, n, a);
  }

  // ---------- policy writes ----------

  lemma WriteFrame(c: Config, s: State, n: NodeName, p: Policy, ns: NodeState)
    requires Inv(c, s) && n in s.nodes
    requires p.version == s.policy.version + 1
    requires |Owners(State(s.clock, p, s.nodes[n := ns]))| <= p.count <= c.max
    requires NotAfter(p.lastUpdate, s.clock)
    requires s.policy.lastUpdate.At? ==> p.lastUpdate.At? && s.policy.lastUpdate.time <= p.lastUpdate.time
    requires LocalInv(c, s.clock, p, ns)
    requires !(ns.pc.RmwRead? || ns.pc.AuditRead? || ns.pc.AuditListed? || ns.pc.AuditCounted?)
    requires !(ns.pc.UpdateRead? || ns.pc.UpdateListed?)
    ensures Inv(c, State(s.clock, p, s.nodes[n := ns]))
  {
    var s' := State(s.clock, p, s.nodes[n := ns]);
    forall m | m in s'.nodes
      ensures LocalInv(c, s'.clock, s'.policy, s'.nodes[m]) && ViewInv(c, s', s'.nodes[m].pc)
    {
      if m != n {
        assert LocalInv(c, s.clock, s.policy, s.nodes[m]);
        ViewBump(c, s, s', s.nodes[m].pc);
      }
    }
  }

  // A commit keeps the writer's own invariant under the policy it wrote.
  lemma CommitKeepsLocal(c: Config, s: State, n: NodeName, a: Action)
    requires Sound(c) && n in s.nodes && LocalInv(c, s.clock, s.policy, s.nodes[n]) && Enabled(c, s, n, a)
    requires IsCommit(a)
    ensures LocalInv(c, s.clock, PolicyEffect(c, s, n, a), NodeEffect(c, s, n, a))
    ensures var pc := NodeEffect(c, s, n, a).pc;
            pc.Marking? || pc.Released? || pc.Updating? || pc.Rmw? || pc.Refused? || pc.Idle? || pc.Applying?
  {
  }

  // A loop that commits has read what it overwrites.
  lemma CommitReadIt(c: Config, s: State, n: NodeName, stamp: int)
    requires Inv(c, s) && n in s.nodes && Enabled(c, s, n, CommitRmw(stamp))
    ensures s.nodes[n].pc.copy == s.policy && NotAfter(s.policy.lastUpdate, stamp)
  {
    assert ViewInv(c, s, s.nodes[n].pc);
  }

  lemma ClaimCounts(c: Config, s: State, n: NodeName, stamp: int)
    requires Inv(c, s) && n in s.nodes && Enabled(c, s, n, CommitRmw(stamp)) && s.nodes[n].pc.op.Claim?
    ensures var s' := Do(c, s, Act(n, CommitRmw(stamp)));
            |Owners(s')| <= s'.policy.count <= c.max
  {
    CommitReadIt(c, s, n, stamp);
    assert Owners(Do(c, s, Act(n, CommitRmw(stamp)))) == Owners(s) + {n};
  }

  lemma ReleaseCounts(c: Config, s: State, n: NodeName, stamp: int)
    requires Inv(c, s) && n in s.nodes && Enabled(c, s, n, CommitRmw(stamp)) && !s.nodes[n].pc.op.Claim?
    ensures var s' := Do(c, s, Act(n, CommitRmw(stamp)));
            |Owners(s')| <= s'.policy.count <= c.max
  {
    CommitReadIt(c, s, n, stamp);
    assert PcInv(s.nodes[n]) by { assert LocalInv(c, s.clock, s.policy, s.nodes[n]); }
    assert Owners(Do(c, s, Act(n, CommitRmw(stamp)))) == Owners(s) - {n} && n in Owners(s);
  }

  lemma CommitRmwKeeps(c: Config, s: State, n: NodeName, stamp: int)
    requires Inv(c, s) && n in s.nodes && Enabled(c, s, n, CommitRmw(stamp))
    ensures Inv(c, Do(c, s, Act(n, CommitRmw(stamp))))
  {
    var a := CommitRmw(stamp);
    CommitReadIt(c, s, n, stamp);
    if s.nodes[n].pc.op.Claim? {
      ClaimCounts(c, s, n, stamp);
    } else {
      ReleaseCounts(c, s, n, stamp);
    }
    CommitKeepsLocal(c, s, n, a);
    WriteFrame(c, s, n, PolicyEffect(c, s, n, a), NodeEffect(c, s, n, a));
  }

  lemma CommitAuditKeeps(c: Config, s: State, n: NodeName, stamp: int)
    requires Inv(c, s) && n in s.nodes && Enabled(c, s, n, CommitAudit(stamp))
    ensures Inv(c, Do(c, s, Act(n, CommitAudit(stamp))))
  {
    var a := CommitAudit(stamp);
    assert ViewInv(c, s, s.nodes[n].pc);
    assert Owners(Do(c, s, Act(n, a))) == Owners(s);
    CommitKeepsLocal(c, s, n, a);
    WriteFrame(c, s, n, PolicyEffect(c, s, n, a), NodeEffect(c, s, n, a));
  }

  // Pigeonhole: with no more enactments than ready nodes, success means every enactment is Available.
  lemma SuccessMeansAllAvailable(l: Listing, matching: nat, ready: nat)
    requires |Existing(l)| <= ready && SuccessVerdict(l, matching, ready)
    ensures forall m | m in l && l[m].Enactment? :: l[m].current && l[m].phase.Available?
  {
    assert AvailableIn(l) <= Existing(l);
    if m :| m in l && l[m].Enactment? && !(l[m].current && l[m].phase.Available?) {
      assert m in Existing(l) && AvailableIn(l) <= Existing(l) - {m};
      SubsetSize(AvailableIn(l), Existing(l) - {m});
    }
  }

  // The slot map is emptied only when nobody owns a slot.
  lemma WipeMeansNoOwner(c: Config, s: State, n: NodeName)
    requires Inv(c, s) && n in s.nodes && Enabled(c, s, n, CommitUpdate)
    ensures var pc := s.nodes[n].pc; SuccessVerdict(pc.listed, pc.matching, pc.ready) ==> Owners(s) == {}
    ensures s.nodes[n].pc.copy == s.policy
  {
    var pc := s.nodes[n].pc;
    assert ViewInv(c, s, pc);
    if SuccessVerdict(pc.listed, pc.matching, pc.ready) {
      SuccessMeansAllAvailable(pc.listed, pc.matching, pc.ready);
    }
  }

  lemma CommitUpdateKeeps(c: Config, s: State, n: NodeName)
    requires Inv(c, s) && n in s.nodes && Enabled(c, s, n, CommitUpdate)
    ensures Inv(c, Do(c, s, Act(n, CommitUpdate)))
  {
    WipeMeansNoOwner(c, s, n);
    assert Owners(Do(c, s, Act(n, CommitUpdate))) == Owners(s);
    CommitKeepsLocal(c, s, n, CommitUpdate);
    WriteFrame(c, s, n, PolicyEffect(c, s, n, CommitUpdate), NodeEffect(c, s, n, CommitUpdate));
  }

  // ---------- time and foreign writes ----------

  lemma TickKeeps(c: Config, s: State, t: int)
    requires Inv(c, s) && StepEnabled(c, s, Tick(t))
    ensures Inv(c, Do(c, s, Tick(t)))
  {
    var s' := Do(c, s, Tick(t));
    assert Owners(s') <= Owners(s);
    SubsetSize(Owners(s'), Owners(s));
    forall m | m in s'.nodes
      ensures LocalInv(c, t, s.policy, s'.nodes[m]) && ViewInv(c, s', s'.nodes[m].pc)
    {
      AgedKeepsLocal(c, s.clock, t, s.policy, s.nodes[m]);
      ViewFrame(c, s, s', s.nodes[m].pc);
    }
  }

  lemma AgedKeepsLocal(c: Config, now: int, t: int, p: Policy, ns: NodeState)
    requires Sound(c) && now < t && LocalInv(c, now, p, ns) && Timely(c, ns, t)
    ensures LocalInv(c, t, p, Aged(c, ns, t))
  {
  }

  lemma OtherWriteKeeps(c: Config, s: State, touch: bool)
    requires Inv(c, s)
    ensures Inv(c, Do(c, s, OtherWrite(touch)))
  {
    var s' := Do(c, s, OtherWrite(touch));
    assert Owners(s') == Owners(s);
    forall m | m in s'.nodes
      ensures LocalInv(c, s'.clock, s'.policy, s'.nodes[m]) && ViewInv(c, s', s'.nodes[m].pc)
    {
      assert LocalInv(c, s.clock, s.policy, s.nodes[m]);
      ViewBump(c, s, s', s.nodes[m].pc);
    }
  }

  // ---------- every step, every run ----------

  lemma StepKeeps(c: Config, s: State, st: Step)
    requires Inv(c, s) && StepEnabled(c, s, st)
    ensures Inv(c, Do(c, s, st))
  {
    match st
    case Tick(t) => TickKeeps(c, s, t);
    case OtherWrite(touch) => OtherWriteKeeps(c, s, touch);
    case Act(n, a) =>
      if a.CommitRmw? {
        CommitRmwKeeps(c, s, n, a.stamp);
      } else if a.CommitAudit? {
        CommitAuditKeeps(c, s, n, a.stamp);
      } else if a.CommitUpdate? {
        CommitUpdateKeeps(c, s, n);
      } else {
        LocalStepKeeps(c, s, n, a);
      }
  }

  lemma {:induction false} RunKeeps(c: Config, s: State, steps: seq<Step>)
    requires Inv(c, s) && CanRun(c, s, steps)
    ensures Inv(c, Run(c, s, steps))
    decreases |steps|
  {
    if steps != [] {
      StepKeeps(c, s, steps[0]);
      RunKeeps(c, Do(c, s, steps[0]), steps[1..]);
    }
  }
}

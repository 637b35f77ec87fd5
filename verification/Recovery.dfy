/**
 Handler startup: this node's enactments that were still Progressing when the handler died are
 finalized or marked interrupted, and the slot counters of their policies audited.
 */
module Recovery {
  import opened Conditions
  import opened EnactmentConditions
  import opened Counter
  import opened SlotCounter

  // The part of the status update that MarkInterrupted applies besides the conditions.
  function ResetRetries(r: Option<map<int, int>>, generation: int): Option<map<int, int>> {
    if r.Some? then Some(r.value[generation := 0]) else None
  }

  predicate NeedsRecovery(e: Nnce, node: string) {
    e.node == node && e.policy != "" && IsProgressing(e.conditions)
  }

  // What recovery writes for one enactment.
  function Recovered(e: Nnce, node: string, message: string, now: int): Nnce {
    var stamps := [now, now, now, now, now];
    if !NeedsRecovery(e, node) then e
    else if IsFinalizing(e.conditions) then
      e.(conditions := Replay(e.conditions, Calls(Written(Success, message, stamps))))
    else
      e.(conditions := Replay(e.conditions, Calls(Written(Pend(ConfigurationInterrupted), message, stamps))),
         retryCount := ResetRetries(e.retryCount, e.generation))
  }

  // Nothing of this node is left Progressing: a committed apply is recorded as a success, an
  // interrupted one waits to be applied again with its retries back, everything else is untouched.
  lemma RecoveredIsSettled(e: Nnce, node: string, message: string, now: int)
    ensures var r := Recovered(e, node, message, now);
            && !NeedsRecovery(r, node)
            && (NeedsRecovery(e, node) && IsFinalizing(e.conditions) ==> IsAvailable(r.conditions) && r.retryCount == e.retryCount)
            && (NeedsRecovery(e, node) && !IsFinalizing(e.conditions) ==>
                  && Has(r.conditions, Pending, True)
                  && Find(r.conditions, Pending).value.reason == ConfigurationInterrupted
                  && (r.retryCount.Some? <==> e.retryCount.Some?)
                  && (r.retryCount.Some? ==>
                        && e.generation in r.retryCount.value && r.retryCount.value[e.generation] == 0
                        && r.retryCount.value - {e.generation} == e.retryCount.value - {e.generation}))
            && (!NeedsRecovery(e, node) ==> r == e)
            && (NeedsRecovery(e, node) ==> NoLongerHolds(r))
  {
    if NeedsRecovery(e, node) {
      var stamps := [now, now, now, now, now];
      if IsFinalizing(e.conditions) {
        SuccessSettles(e.conditions, Written(Success, message, stamps));
      } else {
        InterruptionSettles(e.conditions, Written(Pend(ConfigurationInterrupted), message, stamps));
      }
    }
  }

  // Recovery touches exactly this node's enactments that name a policy and are Progressing.
  lemma RecoveredExactly(e: Nnce, node: string, message: string, now: int)
    ensures Recovered(e, node, message, now) == e <==> e.node != node || e.policy == "" || !Has(e.conditions, Progressing, True)
  {
    RecoveredIsSettled(e, node, message, now);
  }

  lemma SuccessSettles(cs: seq<Condition>, w: Written)
    requires ValidWritten(w) && w.setter.Success?
    ensures var h := Replay(cs, Calls(w));
            IsAvailable(h) && !IsProgressing(h) && !IsTerminallyFailed(h)
  {
    SetterShows(cs, w, Available);
    SetterShows(cs, w, Progressing);
    SetterShows(cs, w, Failing);
  }

  lemma InterruptionSettles(cs: seq<Condition>, w: Written)
    requires ValidWritten(w) && w.setter == Pend(ConfigurationInterrupted)
    ensures var h := Replay(cs, Calls(w));
            && Has(h, Pending, True) && Find(h, Pending).value.reason == ConfigurationInterrupted
            && !IsProgressing(h) && !IsTerminallyFailed(h)
  {
    SetterShows(cs, w, Pending);
    SetterShows(cs, w, Progressing);
    SetterShows(cs, w, Failing);
  }

  // ---------- slot holders of one policy ----------

  function Listing(es: seq<Nnce>, policy: string): seq<Nnce> {
    if es == [] then []
    else Listing(es[..|es| - 1], policy) + (if es[|es| - 1].policy == policy then [es[|es| - 1]] else [])
  }

  // The policy's enactments that hold a slot.
  ghost function HoldersAt(es: seq<Nnce>, policy: string, generation: int, t: int, threshold: int): set<int> {
    set i | 0 <= i < |es| && es[i].policy == policy && HoldsSlot(es[i], generation, t, threshold)
  }

  lemma HoldersAtSnoc(es: seq<Nnce>, policy: string, generation: int, t: int, threshold: int)
    requires es != []
    ensures var n := |es| - 1;
            HoldersAt(es, policy, generation, t, threshold)
            == HoldersAt(es[..n], policy, generation, t, threshold)
               + if es[n].policy == policy && HoldsSlot(es[n], generation, t, threshold) then {n} else {}
  {
    assert forall i | 0 <= i < |es| - 1 :: es[..|es| - 1][i] == es[i];
  }

  // The holders counted for a policy are those among its own enactments.
  lemma {:induction false} HeldIsSize(es: seq<Nnce>, policy: string, generation: int, t: int, threshold: int)
    ensures HolderCount(Listing(es, policy), generation, t, threshold) == |HoldersAt(es, policy, generation, t, threshold)|
    decreases |es|
  {
    if es == [] {
      assert HoldersAt(es, policy, generation, t, threshold) == {};
    } else {
      var n := |es| - 1;
      HeldIsSize(es[..n], policy, generation, t, threshold);
      HoldersAtSnoc(es, policy, generation, t, threshold);
      HolderSnoc(Listing(es[..n], policy), es[n], generation, t, threshold);
      assert Listing(es[..n], policy) + [] == Listing(es[..n], policy);
    }
  }

  // Holders only become fewer as time passes and enactments are recovered.
  lemma {:induction false} HoldersShrink(es: seq<Nnce>, es': seq<Nnce>, policy: string, generation: int, t: int, t': int, threshold: int)
    requires |es| == |es'| && forall i | 0 <= i < |es| ::
               es[i].policy == es'[i].policy
               && (HoldsSlot(es'[i], generation, t', threshold) ==> HoldsSlot(es[i], generation, t, threshold))
    ensures HolderCount(Listing(es', policy), generation, t', threshold) <= HolderCount(Listing(es, policy), generation, t, threshold)
    decreases |es|
  {
    if es != [] {
      var n := |es| - 1;
      HoldersShrink(es[..n], es'[..n], policy, generation, t, t', threshold);
      HolderSnoc(Listing(es[..n], policy), es[n], generation, t, threshold);
      HolderSnoc(Listing(es'[..n], policy), es'[n], generation, t', threshold);
      assert Listing(es[..n], policy) + [] == Listing(es[..n], policy);
      assert Listing(es'[..n], policy) + [] == Listing(es'[..n], policy);
    }
  }

  lemma HolderSnoc(items: seq<Nnce>, e: Nnce, generation: int, t: int, threshold: int)
    ensures HolderCount(items + [e], generation, t, threshold)
            == HolderCount(items, generation, t, threshold) + (if HoldsSlot(e, generation, t, threshold) then 1 else 0)
  {
    assert (items + [e])[..|items|] == items;
  }

  // ---------- counters during recovery ----------

  // The counter stands where it did, or was lowered to no less than the slots still held.
  predicate Floored(p: PolicyStatus, generation: int, before: int, holders: int) {
    0 <= CountAt(p, generation) <= before && (CountAt(p, generation) == before || CountAt(p, generation) >= holders)
  }

  ghost predicate AllFloored(ps: map<string, PolicyStatus>, gs: map<string, int>, ps0: map<string, PolicyStatus>,
                             es: seq<Nnce>, now: int, threshold: int) {
    && ps.Keys == gs.Keys == ps0.Keys
    && forall p | p in ps ::
         Floored(ps[p], gs[p], CountAt(ps0[p], gs[p]), HolderCount(Listing(es, p), gs[p], now, threshold))
  }

  lemma FloorsSurvive(ps: map<string, PolicyStatus>, gs: map<string, int>, ps0: map<string, PolicyStatus>,
                      es: seq<Nnce>, es': seq<Nnce>, t: int, t': int, threshold: int)
    requires AllFloored(ps, gs, ps0, es, t, threshold) && t <= t' && |es| == |es'|
    requires forall i | 0 <= i < |es| :: es'[i] == es[i] || (es'[i].policy == es[i].policy && NoLongerHolds(es'[i]))
    ensures AllFloored(ps, gs, ps0, es', t', threshold)
  {
    forall p | p in ps
      ensures HolderCount(Listing(es', p), gs[p], t', threshold) <= HolderCount(Listing(es, p), gs[p], t, threshold)
    {
      HoldersShrink(es, es', p, gs[p], t, t', threshold);
    }
  }

  predicate NoLongerHolds(e: Nnce) {
    !IsProgressing(e.conditions) && !IsTerminallyFailed(e.conditions)
  }

  lemma AuditKeepsFloor(p: PolicyStatus, generation: int, before: int, items: seq<Nnce>, now: int, threshold: int)
    requires Floored(p, generation, before, HolderCount(items, generation, now, threshold))
    ensures Floored(AuditResult(p, generation, items, now, threshold).0, generation, before, HolderCount(items, generation, now, threshold))
  {
  }

  // ---------- the recovery loop ----------

  // How a startup goes: for each listed enactment, when its turn comes and whether its status
  // write and the audit of its policy get through.
  datatype Startup = Startup(node: string, message: string, now: seq<int>, writeOk: seq<bool>, auditOk: seq<bool>, threshold: int)

  predicate Covers(x: Startup, n: nat) {
    && |x.now| == n + 1 && |x.writeOk| == n && |x.auditOk| == n
    && forall i, j | 0 <= i < j <= n :: x.now[i] <= x.now[j]
  }

  // The enactments after the first n turns.
  function EnactmentsAfter(es: seq<Nnce>, x: Startup, n: nat): (r: seq<Nnce>)
    requires Covers(x, |es|) && n <= |es|
    ensures |r| == |es|
  {
    seq(|es|, j requires 0 <= j < |es| => if j < n && x.writeOk[j] then Recovered(es[j], x.node, x.message, x.now[j]) else es[j])
  }

  // The i-th turn recovers an enactment of the policy and audits the policy.
  predicate AuditedAt(es: seq<Nnce>, x: Startup, policy: string, i: int)
    requires Covers(x, |es|)
  {
    0 <= i < |es| && es[i].policy == policy && NeedsRecovery(es[i], x.node) && x.writeOk[i] && x.auditOk[i]
  }

  // The policy after the first n turns: audited in each of its turns.
  function PolicyAfter(p: PolicyStatus, generation: int, es: seq<Nnce>, x: Startup, policy: string, n: nat): PolicyStatus
    requires Covers(x, |es|) && n <= |es|
  {
    if n == 0 then p
    else
      var q := PolicyAfter(p, generation, es, x, policy, n - 1);
      if AuditedAt(es, x, policy, n - 1)
      then AuditResult(q, generation, Listing(EnactmentsAfter(es, x, n), policy), x.now[n - 1], x.threshold).0 else q
  }

  // The slots held when the i-th turn audits.
  function HeldAt(generation: int, es: seq<Nnce>, x: Startup, policy: string, i: nat): nat
    requires Covers(x, |es|) && i < |es|
  {
    HolderCount(Listing(EnactmentsAfter(es, x, i + 1), policy), generation, x.now[i], x.threshold)
  }

  lemma {:induction false} NeverRaised(p: PolicyStatus, generation: int, es: seq<Nnce>, x: Startup, policy: string, m: nat, n: nat)
    requires Covers(x, |es|) && m <= n <= |es| && CountAt(p, generation) >= 0
    ensures 0 <= CountAt(PolicyAfter(p, generation, es, x, policy, n), generation)
                 <= CountAt(PolicyAfter(p, generation, es, x, policy, m), generation)
    decreases n
  {
    if n > 0 {
      NeverRaised(p, generation, es, x, policy, if m < n then m else n - 1, n - 1);
    }
  }

  lemma {:induction false} NotAuditedUnchanged(p: PolicyStatus, generation: int, es: seq<Nnce>, x: Startup, policy: string, m: nat, n: nat)
    requires Covers(x, |es|) && m <= n <= |es| && forall i | m <= i < n :: !AuditedAt(es, x, policy, i)
    ensures PolicyAfter(p, generation, es, x, policy, n) == PolicyAfter(p, generation, es, x, policy, m)
    decreases n
  {
    if m < n { NotAuditedUnchanged(p, generation, es, x, policy, m, n - 1); }
  }

  // A turn that audits the policy when it is not deferred frees every slot that is not held...
  lemma RecoveryFrees(p: PolicyStatus, generation: int, es: seq<Nnce>, x: Startup, policy: string, i: nat)
    requires Covers(x, |es|) && CountAt(p, generation) >= 0
    requires i < |es| && AuditedAt(es, x, policy, i) && !Deferred(PolicyAfter(p, generation, es, x, policy, i), x.now[i])
    ensures CountAt(PolicyAfter(p, generation, es, x, policy, |es|), generation) <= HeldAt(generation, es, x, policy, i)
  {
    NeverRaised(p, generation, es, x, policy, 0, i);
    NeverRaised(p, generation, es, x, policy, i + 1, |es|);
  }

  // ...and if it is the only one, it leaves the smaller of the old count and the slots held.
  lemma SoleRecoveryFreesExactly(p: PolicyStatus, generation: int, es: seq<Nnce>, x: Startup, policy: string, i: nat)
    requires Covers(x, |es|) && CountAt(p, generation) >= 0 && i < |es| && AuditedAt(es, x, policy, i) && !Deferred(p, x.now[i])
    requires forall j | AuditedAt(es, x, policy, j) :: j == i
    ensures CountAt(PolicyAfter(p, generation, es, x, policy, |es|), generation)
            == Min(CountAt(p, generation), HeldAt(generation, es, x, policy, i))
  {
    NotAuditedUnchanged(p, generation, es, x, policy, 0, i);
    NotAuditedUnchanged(p, generation, es, x, policy, i + 1, |es|);
  }

  // `generations` are the policies' own; a policy that is gone is in neither map.
  class Cluster {
    const generations: map<string, int>
    var enactments: seq<Nnce>
    var policies: map<string, PolicyStatus>

    constructor (es: seq<Nnce>, ps: map<string, PolicyStatus>, gs: map<string, int>)
      requires ps.Keys == gs.Keys
      ensures enactments == es && policies == ps && generations == gs
    {
      enactments, policies, generations := es, ps, gs;
    }

    // One audit of a policy's counter against its enactments; it may fail and then changes nothing.
    method AuditPolicy(policy: string, now: int, threshold: int, ok: bool, ghost before: map<string, PolicyStatus>)
      requires AllFloored(policies, generations, before, enactments, now, threshold)
      modifies this`policies
      ensures AllFloored(policies, generations, before, enactments, now, threshold)
      ensures forall p | p in policies :: policies[p] ==
                if ok && p == policy then AuditResult(old(policies)[p], generations[p], Listing(enactments, p), now, threshold).0
                else old(policies)[p]
    {
      if ok && policy in policies {
        AuditKeepsFloor(policies[policy], generations[policy], CountAt(before[policy], generations[policy]), Listing(enactments, policy), now, threshold);
        policies := policies[policy := AuditResult(policies[policy], generations[policy], Listing(enactments, policy), now, threshold).0];
      }
    }

    // One turn of the loop: skip, or write the recovered status and audit the policy.
    method RecoverOne(i: nat, node: string, message: string, now: int, writeOk: bool, auditOk: bool, threshold: int,
                      ghost before: map<string, PolicyStatus>)
      requires i < |enactments| && AllFloored(policies, generations, before, enactments, now, threshold)
      modifies this
      ensures enactments == old(enactments)[i := if writeOk then Recovered(old(enactments)[i], node, message, now) else old(enactments)[i]]
      ensures AllFloored(policies, generations, before, enactments, now, threshold)
      ensures var e := old(enactments)[i];
              forall p | p in policies :: p in old(policies) && policies[p] ==
                if e.policy == p && NeedsRecovery(e, node) && writeOk && auditOk
                then AuditResult(old(policies)[p], generations[p], Listing(enactments, p), now, threshold).0
                else old(policies)[p]
    {
      var e := enactments[i];
      RecoveredIsSettled(e, node, message, now);
      if !NeedsRecovery(e, node) || !writeOk {
        return;
      }
      enactments := enactments[i := Recovered(e, node, message, now)];
      FloorsSurvive(policies, generations, before, old(enactments), enactments, now, now, threshold);
      AuditPolicy(e.policy, now, threshold, auditOk, before);
    }

    /**
     The loop over this node's enactments: every one whose write gets through is recovered, and
     its policy is audited in the same turn. No counter is raised, and none is lowered below the
     slots still held when the loop is done.
     */
    method ReclaimInterruptedSlots(x: Startup)
      requires policies.Keys == generations.Keys && Covers(x, |enactments|)
      requires forall p | p in policies :: CountAt(policies[p], generations[p]) >= 0
      modifies this
      ensures |enactments| == |old(enactments)|
      ensures forall i | 0 <= i < |enactments| ::
                enactments[i] == if x.writeOk[i] then Recovered(old(enactments)[i], x.node, x.message, x.now[i]) else old(enactments)[i]
      ensures policies.Keys == old(policies).Keys
      ensures forall p | p in policies ::
                policies[p] == PolicyAfter(old(policies)[p], generations[p], old(enactments), x, p, |old(enactments)|)
      ensures AllFloored(policies, generations, old(policies), enactments, x.now[|enactments|], x.threshold)
    {
      var listed := enactments;
      for i := 0 to |listed|
        invariant enactments == EnactmentsAfter(listed, x, i)
        invariant policies.Keys == old(policies).Keys
        invariant forall p | p in policies :: policies[p] == PolicyAfter(old(policies)[p], generations[p], listed, x, p, i)
        invariant AllFloored(policies, generations, old(policies), enactments, x.now[i], x.threshold)
      {
        RecoverOne(i, x.node, x.message, x.now[i], x.writeOk[i], x.auditOk[i], x.threshold, old(policies));
        assert enactments == EnactmentsAfter(listed, x, i + 1);
        FloorsSurvive(policies, generations, old(policies), enactments, enactments, x.now[i], x.now[i + 1], x.threshold);
      }
    }
  }
}

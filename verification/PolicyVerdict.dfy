/**
 The verdict a policy gets from its enactments, and the slot map that the success verdict empties.
 */
module PolicyVerdict {
  import opened Conditions
  import opened EnactmentConditions
  import opened Counter

  datatype Verdict = NotMatching | FailedToConfigureVerdict | InProgress | Configured

  datatype Summary = Summary(matching: nat, ready: nat, available: nat, failed: nat, aborted: nat, pending: nat)

  function VerdictOf(s: Summary): Verdict {
    if s.matching == 0 then NotMatching
    else if s.failed > 0 || s.aborted > 0 then FailedToConfigureVerdict
    else if s.available + s.failed + s.aborted < s.ready then InProgress
    else if s.pending > 0 then InProgress
    else Configured
  }

  function SummaryOf(items: seq<Nnce>, generation: int, matching: nat, ready: nat): Summary {
    Summary(matching, ready,
            CountOf(items, generation, Available, True), CountOf(items, generation, Failing, True),
            CountOf(items, generation, Aborted, True), CountOf(items, generation, Pending, True))
  }

  // The conditions a verdict sets, in the order it sets them.
  function VerdictCalls(v: Verdict, message: string, n: seq<int>): (r: seq<SetCall>)
    requires |n| == 4
  {
    match v
    case InProgress =>
      [SetCall(Degraded, Unknown, ConfigurationProgressing, "", n[0]),
       SetCall(Available, Unknown, ConfigurationProgressing, "", n[1]),
       SetCall(Progressing, True, ConfigurationProgressing, message, n[2]),
       SetCall(Ignored, False, ConfigurationProgressing, "", n[3])]
    case Configured =>
      [SetCall(Degraded, False, SuccessfullyConfigured, "", n[0]),
       SetCall(Available, True, SuccessfullyConfigured, message, n[1]),
       SetCall(Progressing, False, SuccessfullyConfigured, "", n[2]),
       SetCall(Ignored, False, SuccessfullyConfigured, "", n[3])]
    case NotMatching =>
      [SetCall(Degraded, False, NoMatchingNode, "", n[0]),
       SetCall(Available, False, NoMatchingNode, "", n[1]),
       SetCall(Progressing, False, NoMatchingNode, "", n[2]),
       SetCall(Ignored, True, NoMatchingNode, message, n[3])]
    case FailedToConfigureVerdict =>
      [SetCall(Degraded, True, FailedToConfigure, message, n[0]),
       SetCall(Available, False, FailedToConfigure, "", n[1]),
       SetCall(Progressing, False, ConfigurationProgressing, "", n[2]),
       SetCall(Ignored, False, FailedToConfigure, "", n[3])]
  }

  method RunVerdict(conditions: ConditionList, v: Verdict, message: string, now: seq<int>)
    requires |now| == 4
    modifies conditions
    ensures conditions.items == Replay(old(conditions.items), VerdictCalls(v, message, now))
  {
    var x := VerdictCalls(v, message, now);
    conditions.Set(x[0].kind, x[0].status, x[0].reason, x[0].message, x[0].now);
    conditions.Set(x[1].kind, x[1].status, x[1].reason, x[1].message, x[1].now);
    conditions.Set(x[2].kind, x[2].status, x[2].reason, x[2].message, x[2].now);
    conditions.Set(x[3].kind, x[3].status, x[3].reason, x[3].message, x[3].now);
    ReplayFour(old(conditions.items), x[0], x[1], x[2], x[3]);
    assert x == [x[0], x[1], x[2], x[3]];
  }

  class PolicyObject {
    const conditions: ConditionList
    var counts: map<int, int>

    constructor (cs: ConditionList, m: map<int, int>)
      ensures conditions == cs && counts == m
    {
      conditions := cs;
      counts := m;
    }

    // Of the four conditions exactly the one the verdict stands for is True afterwards, whatever
    // was set before; the slot map is emptied by the success verdict and by no other.
    method SetPolicyStatus(s: Summary, message: string, now: seq<int>)
      requires |now| == 4
      modifies this, conditions
      ensures conditions.items == Replay(old(conditions.items), VerdictCalls(VerdictOf(s), message, now))
      ensures Has(conditions.items, Available, True) <==> VerdictOf(s).Configured?
      ensures Has(conditions.items, Progressing, True) <==> VerdictOf(s).InProgress?
      ensures Has(conditions.items, Available, Unknown) <==> VerdictOf(s).InProgress?
      ensures Has(conditions.items, Degraded, True) <==> VerdictOf(s).FailedToConfigureVerdict?
      ensures Has(conditions.items, Ignored, True) <==> VerdictOf(s).NotMatching?
      ensures counts == if VerdictOf(s).Configured? then map[] else old(counts)
    {
      var v;
      if s.matching == 0 {
        v := NotMatching;
      } else if s.failed > 0 || s.aborted > 0 {
        v := FailedToConfigureVerdict;
      } else if s.available + s.failed + s.aborted < s.ready {
        v := InProgress;
      } else if s.pending > 0 {
        v := InProgress;
      } else {
        counts := map[];
        v := Configured;
      }
      RunVerdict(conditions, v, message, now);
      VerdictShows(old(conditions.items), v, message, now);
    }

    /**
     The status update: tally the listed enactments, then set the conditions. Ignored is True
     exactly if no node matches; else Degraded exactly if an enactment of the generation fails or
     aborted; else Progressing exactly if fewer enactments than ready nodes are Available or one
     is pending; else Available, and only then is the slot map emptied.
     */
    method UpdateStatus(items: seq<Nnce>, generation: int, matching: nat, ready: nat, message: string, now: seq<int>)
      requires |now| == 4
      modifies this, conditions
      ensures var broken := SomeHas(items, generation, Failing) || SomeHas(items, generation, Aborted);
              var waiting := |AvailableAt(items, generation)| < ready || SomeHas(items, generation, Pending);
              && (Has(conditions.items, Ignored, True) <==> matching == 0)
              && (Has(conditions.items, Degraded, True) <==> matching > 0 && broken)
              && (Has(conditions.items, Progressing, True) <==> matching > 0 && !broken && waiting)
              && (Has(conditions.items, Available, True) <==> matching > 0 && !broken && !waiting)
              && counts == if matching > 0 && !broken && !waiting then map[] else old(counts)
    {
      var tallies := Count(items, generation);
      assert Available in ENACTMENT_TYPES && Failing in ENACTMENT_TYPES && Aborted in ENACTMENT_TYPES && Pending in ENACTMENT_TYPES by {
        assert ENACTMENT_TYPES[0] == Available && ENACTMENT_TYPES[1] == Failing && ENACTMENT_TYPES[3] == Pending && ENACTMENT_TYPES[4] == Aborted;
      }
      CountTells(items, generation, Failing);
      CountTells(items, generation, Aborted);
      CountTells(items, generation, Pending);
      AvailableTells(items, generation);
      SetPolicyStatus(Summary(matching, ready, tallies[Available].yes, tallies[Failing].yes, tallies[Aborted].yes, tallies[Pending].yes), message, now);
    }
  }

  // ---------- what the policy's conditions say about the enactments ----------

  // Some listed enactment of the generation has the condition True.
  ghost predicate SomeHas(items: seq<Nnce>, generation: int, t: ConditionType) {
    exists i :: 0 <= i < |items| && items[i].generation == generation && Has(items[i].conditions, t, True)
  }

  ghost function AvailableAt(items: seq<Nnce>, generation: int): set<int> {
    set i | 0 <= i < |items| && items[i].generation == generation && Has(items[i].conditions, Available, True)
  }

  lemma CountTells(items: seq<Nnce>, generation: int, t: ConditionType)
    ensures CountOf(items, generation, t, True) > 0 <==> SomeHas(items, generation, t)
  {
    CountIsSize(items, generation, t, True);
    var s := Sayers(items, generation, t, True);
    if i :| 0 <= i < |items| && items[i].generation == generation && Has(items[i].conditions, t, True) {
      assert i in s;
    }
    if s != {} {
      var i :| i in s;
      assert items[i].generation == generation && Has(items[i].conditions, t, True);
    }
  }

  lemma AvailableTells(items: seq<Nnce>, generation: int)
    ensures CountOf(items, generation, Available, True) == |AvailableAt(items, generation)|
  {
    CountIsSize(items, generation, Available, True);
    assert Sayers(items, generation, Available, True) == AvailableAt(items, generation);
  }

  lemma ReplayFour(cs: seq<Condition>, a: SetCall, b: SetCall, c: SetCall, d: SetCall)
    ensures Replay(cs, [a, b, c, d]) == AfterSet(AfterSet(AfterSet(AfterSet(cs, a), b), c), d)
  {
    ReplaySnoc(cs, [], a);
    ReplaySnoc(cs, [a], b);
    ReplaySnoc(cs, [a, b], c);
    ReplaySnoc(cs, [a, b, c], d);
    assert [a, b, c] + [d] == [a, b, c, d] && [a, b] + [c] == [a, b, c];
    assert [] + [a] == [a] && [a] + [b] == [a, b];
  }

  lemma VerdictShows(cs: seq<Condition>, v: Verdict, message: string, now: seq<int>)
    requires |now| == 4
    ensures var h := Replay(cs, VerdictCalls(v, message, now));
            && (Has(h, Available, True) <==> v.Configured?) && (Has(h, Progressing, True) <==> v.InProgress?)
            && (Has(h, Available, Unknown) <==> v.InProgress?)
            && (Has(h, Degraded, True) <==> v.FailedToConfigureVerdict?) && (Has(h, Ignored, True) <==> v.NotMatching?)
  {
    var x := VerdictCalls(v, message, now);
    assert IsLast(x, Degraded, 0) && IsLast(x, Available, 1) && IsLast(x, Progressing, 2) && IsLast(x, Ignored, 3);
    FindAfterReplay(cs, x, Degraded, 0);
    FindAfterReplay(cs, x, Available, 1);
    FindAfterReplay(cs, x, Progressing, 2);
    FindAfterReplay(cs, x, Ignored, 3);
  }

  // The condition a verdict stands for.
  function HeadOf(v: Verdict): ConditionType {
    match v
    case NotMatching => Ignored
    case FailedToConfigureVerdict => Degraded
    case InProgress => Progressing
    case Configured => Available
  }

  function ReasonFor(v: Verdict, t: ConditionType): Reason {
    match v
    case NotMatching => NoMatchingNode
    case FailedToConfigureVerdict => if t == Progressing then ConfigurationProgressing else FailedToConfigure
    case InProgress => ConfigurationProgressing
    case Configured => SuccessfullyConfigured
  }

  // Whatever was set before, the verdict's own condition is True and carries the message; of the
  // others all are False, but for Degraded and Available while the rollout is in progress.
  lemma VerdictLeaves(cs: seq<Condition>, v: Verdict, message: string, now: seq<int>, t: ConditionType)
    requires |now| == 4 && (t == Degraded || t == Available || t == Progressing || t == Ignored)
    ensures var f := Find(Replay(cs, VerdictCalls(v, message, now)), t);
            && f.Some? && f.value.reason == ReasonFor(v, t)
            && f.value.message == (if t == HeadOf(v) then message else "")
            && f.value.status == if t == HeadOf(v) then True
                                 else if v.InProgress? && (t == Degraded || t == Available) then Unknown else False
  {
    var x := VerdictCalls(v, message, now);
    FindAfterReplay(cs, x, t, if t == Degraded then 0 else if t == Available then 1 else if t == Progressing then 2 else 3);
  }

  // ---------- when the slot map is emptied ----------

  // What every setter guarantees of the list it leaves.
  predicate Exclusive(e: Nnce) {
    !(Has(e.conditions, Available, True) && Has(e.conditions, Progressing, True))
  }

  lemma {:induction false} FullCount(items: seq<Nnce>, generation: int, t: ConditionType, st: Status)
    ensures CountOf(items, generation, t, st) <= |items|
    ensures CountOf(items, generation, t, st) == |items| ==> forall e | e in items :: Contribution(e, generation, t) == st
    ensures CountOf(items, generation, t, st) == 0 ==> forall e | e in items :: Contribution(e, generation, t) != st
    decreases |items|
  {
    if items != [] {
      FullCount(items[..|items| - 1], generation, t, st);
      assert items == items[..|items| - 1] + [items[|items| - 1]];
    }
  }

  lemma {:induction false} NoHolders(items: seq<Nnce>, generation: int, now: int, threshold: int)
    requires forall e | e in items :: !HoldsSlot(e, generation, now, threshold)
    ensures HolderCount(items, generation, now, threshold) == 0
    decreases |items|
  {
    if items != [] {
      NoHolders(items[..|items| - 1], generation, now, threshold);
    }
  }

  // Pigeonhole: no more enactments than ready nodes, so success leaves no slot holder.
  lemma ConfiguredMeansNoHolder(items: seq<Nnce>, generation: int, matching: nat, ready: nat, now: int, threshold: int)
    requires |items| <= ready && (forall e | e in items :: Exclusive(e))
    requires VerdictOf(SummaryOf(items, generation, matching, ready)).Configured?
    ensures HolderCount(items, generation, now, threshold) == 0
  {
    FullCount(items, generation, Available, True);
    FullCount(items, generation, Failing, True);
    forall e | e in items ensures !HoldsSlot(e, generation, now, threshold) {
      assert Contribution(e, generation, Available) == True && Contribution(e, generation, Failing) != True;
      assert Exclusive(e);
    }
    NoHolders(items, generation, now, threshold);
  }

  lemma ReachableIsExclusive(e: Nnce)
    requires Reachable(e.conditions)
    ensures Exclusive(e)
  {
    if w :| ValidWritten(w) && ShowsAll(e.conditions, w) {
      ShownStatuses(e.conditions, w, Available, Progressing);
    } else if e.conditions != [] {
      assert Has(e.conditions, Available, Unknown);
    }
  }

  // Whatever k enactments the handlers may have left, one per node, success leaves no slot holder.
  ghost predicate WipeIsSafe(k: nat, generation: int, matching: nat, ready: nat, now: int, threshold: int) {
    forall items: seq<Nnce> |
      |items| == k && OnePerNode(items) && VerdictOf(SummaryOf(items, generation, matching, ready)).Configured? ::
      HolderCount(items, generation, now, threshold) == 0
  }

  function NodeAt(i: nat): (r: string)
    ensures |r| == i + 1
  {
    seq(i + 1, _ => 'n')
  }

  function WrittenNow(setter: Setter, now: int): (w: Written)
    ensures ValidWritten(w)
  {
    Written(setter, "", [now, now, now, now, now])
  }

  // The i-th node's enactment, last written by one of the setters.
  function Left(setter: Setter, i: nat, generation: int, now: int): Nnce {
    Nnce(NodeAt(i) + ".policy", NodeAt(i), "policy", generation, Replay([], Calls(WrittenNow(setter, now))), None)
  }

  lemma LeftIsListable(setter: Setter, i: nat, generation: int, now: int)
    ensures Reachable(Left(setter, i, generation, now).conditions) && |Left(setter, i, generation, now).node| == i + 1
  {
    WrittenIsReachable([], WrittenNow(setter, now));
  }

  function SetterAt(i: nat, done: nat): Setter {
    if i < done then Success else Progress
  }

  // `done` nodes finished, the others still applying.
  function Mixed(k: nat, done: nat, generation: int, now: int): (r: seq<Nnce>)
    ensures |r| == k && forall i | 0 <= i < k :: r[i] == Left(SetterAt(i, done), i, generation, now)
  {
    if k == 0 then [] else Mixed(k - 1, done, generation, now) + [Left(SetterAt(k - 1, done), k - 1, generation, now)]
  }

  lemma MixedIsListable(k: nat, done: nat, generation: int, now: int)
    ensures OnePerNode(Mixed(k, done, generation, now))
  {
    forall i: nat ensures Reachable(Left(SetterAt(i, done), i, generation, now).conditions)
                          && |Left(SetterAt(i, done), i, generation, now).node| == i + 1
    {
      LeftIsListable(SetterAt(i, done), i, generation, now);
    }
    var all := Mixed(k, done, generation, now);
    forall i, j | 0 <= i < j < k ensures all[i].node != all[j].node {
      assert |all[i].node| == i + 1 && |all[j].node| == j + 1;
    }
  }

  lemma LeftContributes(setter: Setter, i: nat, generation: int, now: int, t: ConditionType)
    requires IsEnactmentType(t)
    ensures Contribution(Left(setter, i, generation, now), generation, t) == Table(setter, t)
  {
    SetterShows([], WrittenNow(setter, now), t);
  }

  // A count when exactly the first `yes` enactments contribute.
  lemma {:induction false} CountPrefix(items: seq<Nnce>, generation: int, t: ConditionType, yes: nat)
    requires forall i | 0 <= i < |items| :: Contribution(items[i], generation, t) == True <==> i < yes
    ensures CountOf(items, generation, t, True) == if |items| <= yes then |items| else yes
    decreases |items|
  {
    if items != [] {
      CountPrefix(items[..|items| - 1], generation, t, yes);
    }
  }

  lemma MixedCounts(k: nat, done: nat, generation: int, now: int, t: ConditionType)
    requires IsEnactmentType(t) && t != Progressing && done <= k
    ensures CountOf(Mixed(k, done, generation, now), generation, t, True) == if t == Available then done else 0
  {
    var items, yes := Mixed(k, done, generation, now), if t == Available then done else 0;
    forall i | 0 <= i < k ensures Contribution(items[i], generation, t) == True <==> i < yes {
      MixedContributes(i, done, generation, now, t);
    }
    CountPrefix(items, generation, t, yes);
  }

  lemma MixedContributes(i: nat, done: nat, generation: int, now: int, t: ConditionType)
    requires IsEnactmentType(t) && t != Progressing
    ensures Contribution(Left(SetterAt(i, done), i, generation, now), generation, t) == True
            <==> i < if t == Available then done else 0
  {
    LeftContributes(SetterAt(i, done), i, generation, now, t);
  }

  lemma MixedConfigures(k: nat, ready: nat, generation: int, matching: nat, now: int)
    requires matching > 0 && ready < k
    ensures VerdictOf(SummaryOf(Mixed(k, ready, generation, now), generation, matching, ready)).Configured?
  {
    MixedCounts(k, ready, generation, now, Available);
    MixedCounts(k, ready, generation, now, Failing);
    MixedCounts(k, ready, generation, now, Aborted);
    MixedCounts(k, ready, generation, now, Pending);
    SummaryConfigures(Mixed(k, ready, generation, now), generation, matching, ready);
  }

  lemma SummaryConfigures(items: seq<Nnce>, generation: int, matching: nat, ready: nat)
    requires matching > 0 && CountOf(items, generation, Available, True) >= ready
    requires CountOf(items, generation, Failing, True) == CountOf(items, generation, Aborted, True) == CountOf(items, generation, Pending, True) == 0
    ensures VerdictOf(SummaryOf(items, generation, matching, ready)).Configured?
  {
  }

  lemma BusyHolds(i: nat, generation: int, now: int, threshold: int)
    requires threshold > 0
    ensures HoldsSlot(Left(Progress, i, generation, now), generation, now, threshold)
  {
    SetterShows([], WrittenNow(Progress, now), Progressing);
  }

  /**
   The success verdict leaves no slot holder behind for any k enactments exactly if no more
   enactments are listed than nodes are ready: one finished node that is no longer ready is
   enough to hide one that is still applying.
   */
  lemma WipeSafeExactly(k: nat, generation: int, matching: nat, ready: nat, now: int, threshold: int)
    requires matching > 0 && threshold > 0
    ensures WipeIsSafe(k, generation, matching, ready, now, threshold) <==> k <= ready
  {
    if k <= ready {
      forall items: seq<Nnce> | |items| == k && OnePerNode(items)
          && VerdictOf(SummaryOf(items, generation, matching, ready)).Configured?
        ensures HolderCount(items, generation, now, threshold) == 0
      {
        forall e | e in items ensures Exclusive(e) {
          ReachableIsExclusive(e);
        }
        ConfiguredMeansNoHolder(items, generation, matching, ready, now, threshold);
      }
    } else {
      var items := Mixed(k, ready, generation, now);
      MixedIsListable(k, ready, generation, now);
      MixedConfigures(k, ready, generation, matching, now);
      BusyHolds(k - 1, generation, now, threshold);
      assert items[k - 1] == Left(Progress, k - 1, generation, now);
      assert HolderCount(items, generation, now, threshold) > 0;
      assert !WipeIsSafe(k, generation, matching, ready, now, threshold);
    }
  }
}

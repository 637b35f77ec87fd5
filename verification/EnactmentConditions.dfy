/**
 The setters that move an enactment from phase to phase, and what the predicates over its
 conditions can tell afterwards.
 */
module EnactmentConditions {
  import opened Conditions
  import P = Phases

  datatype Setter = Retry | Fail | Abort | Success | Progress | Finalize | Pend(why: Reason)

  // One setter call: the five Set calls it makes read the clock one after the other.
  datatype Written = Written(setter: Setter, message: string, now: seq<int>)

  predicate ValidWritten(w: Written) {
    |w.now| == 5
  }

  function Calls(w: Written): (r: seq<SetCall>)
    requires ValidWritten(w)
    ensures |r| == 5
  {
    var m := w.message;
    var n := w.now;
    match w.setter
    case Retry =>
      [SetCall(Failing, True, RetryingReason, m, n[0]),
       SetCall(Progressing, True, RetryingReason, m, n[1]),
       SetCall(Available, False, RetryingReason, "", n[2]),
       SetCall(Pending, False, RetryingReason, "", n[3]),
       SetCall(Aborted, False, SuccessfullyConfigured, "", n[4])]
    case Fail =>
      [SetCall(Failing, True, FailedToConfigure, m, n[0]),
       SetCall(Available, False, FailedToConfigure, "", n[1]),
       SetCall(Progressing, False, FailedToConfigure, "", n[2]),
       SetCall(Pending, False, FailedToConfigure, "", n[3]),
       SetCall(Aborted, False, SuccessfullyConfigured, "", n[4])]
    case Abort =>
      [SetCall(Failing, False, ConfigurationAborted, "", n[0]),
       SetCall(Available, False, ConfigurationAborted, "", n[1]),
       SetCall(Progressing, False, ConfigurationAborted, "", n[2]),
       SetCall(Pending, False, ConfigurationAborted, "", n[3]),
       SetCall(Aborted, True, ConfigurationAborted, m, n[4])]
    case Success =>
      [SetCall(Available, True, SuccessfullyConfigured, m, n[0]),
       SetCall(Failing, False, SuccessfullyConfigured, "", n[1]),
       SetCall(Progressing, False, SuccessfullyConfigured, "", n[2]),
       SetCall(Pending, False, SuccessfullyConfigured, "", n[3]),
       SetCall(Aborted, False, SuccessfullyConfigured, "", n[4])]
    case Progress => ProgressCalls(ConfigurationProgressing, m, n)
    case Finalize => ProgressCalls(ConfigurationFinalizing, m, n)
    case Pend(why) =>
      [SetCall(Pending, True, why, m, n[0]),
       SetCall(Aborted, False, why, "", n[1]),
       SetCall(Progressing, False, why, m, n[2]),
       SetCall(Failing, False, why, "", n[3]),
       SetCall(Available, False, why, "", n[4])]
  }

  function ProgressCalls(why: Reason, m: string, n: seq<int>): (r: seq<SetCall>)
    requires |n| == 5
    ensures |r| == 5
  {
    [SetCall(Progressing, True, why, m, n[0]),
     SetCall(Failing, Unknown, why, "", n[1]),
     SetCall(Available, Unknown, why, "", n[2]),
     SetCall(Pending, False, why, "", n[3]),
     SetCall(Aborted, False, why, "", n[4])]
  }

  lemma ReplayFive(cs: seq<Condition>, a: SetCall, b: SetCall, c: SetCall, d: SetCall, e: SetCall)
    ensures Replay(cs, [a, b, c, d, e]) == AfterSet(AfterSet(AfterSet(AfterSet(AfterSet(cs, a), b), c), d), e)
  {
    ReplaySnoc(cs, [], a);
    ReplaySnoc(cs, [a], b);
    ReplaySnoc(cs, [a, b], c);
    ReplaySnoc(cs, [a, b, c], d);
    ReplaySnoc(cs, [a, b, c, d], e);
    assert [a, b, c, d] + [e] == [a, b, c, d, e];
    assert [a, b, c] + [d] == [a, b, c, d];
    assert [a, b] + [c] == [a, b, c];
    assert [] + [a] == [a] && [a] + [b] == [a, b];
  }

  // A setter makes its five Set calls through the list it is given.
  method RunSetter(conditions: ConditionList, w: Written)
    requires ValidWritten(w)
    modifies conditions
    ensures conditions.items == Replay(old(conditions.items), Calls(w))
  {
    var x := Calls(w);
    conditions.Set(x[0].kind, x[0].status, x[0].reason, x[0].message, x[0].now);
    conditions.Set(x[1].kind, x[1].status, x[1].reason, x[1].message, x[1].now);
    conditions.Set(x[2].kind, x[2].status, x[2].reason, x[2].message, x[2].now);
    conditions.Set(x[3].kind, x[3].status, x[3].reason, x[3].message, x[3].now);
    conditions.Set(x[4].kind, x[4].status, x[4].reason, x[4].message, x[4].now);
    ReplayFive(old(conditions.items), x[0], x[1], x[2], x[3], x[4]);
    assert x == [x[0], x[1], x[2], x[3], x[4]];
  }

  // ---------- what the handlers ask of a condition list ----------

  predicate IsProgressing(cs: seq<Condition>) {
    Has(cs, Progressing, True)
  }

  predicate IsFinalizing(cs: seq<Condition>) {
    Has(cs, Progressing, True) && Find(cs, Progressing).value.reason == ConfigurationFinalizing
  }

  predicate IsAvailable(cs: seq<Condition>) {
    Has(cs, Available, True)
  }

  predicate IsRetrying(cs: seq<Condition>) {
    Has(cs, Failing, True) && Has(cs, Progressing, True)
  }

  predicate IsLiveHolder(cs: seq<Condition>, now: int, threshold: int) {
    Has(cs, Progressing, True) && now - Find(cs, Progressing).value.heartbeat < threshold
  }

  predicate IsTerminallyFailed(cs: seq<Condition>) {
    Has(cs, Progressing, False) && Has(cs, Failing, True)
  }

  // The phase a condition list stands for.
  function PhaseOf(cs: seq<Condition>): P.Phase {
    if Has(cs, Progressing, True) then
      var hb := Find(cs, Progressing).value.heartbeat;
      if IsFinalizing(cs) then P.Finalizing(hb) else if Has(cs, Failing, True) then P.Retrying(hb) else P.Progressing(hb)
    else if Has(cs, Available, True) then P.Available
    else if IsTerminallyFailed(cs) then P.Failed
    else if Has(cs, Pending, True) then P.Pending
    else if Has(cs, Aborted, True) then P.Aborted
    else if Find(cs, Progressing).None? || Find(cs, Failing).None? then P.Blank
    else P.Unknown
  }

  // ---------- only the last setter counts ----------

  // The status a setter leaves each of the five types in.
  function Table(k: Setter, t: ConditionType): Status {
    match k
    case Retry => if t == Failing || t == Progressing then True else False
    case Fail => if t == Failing then True else False
    case Abort => if t == Aborted then True else False
    case Success => if t == Available then True else False
    case Progress => if t == Progressing then True else if t == Failing || t == Available then Unknown else False
    case Finalize => if t == Progressing then True else if t == Failing || t == Available then Unknown else False
    case Pend(_) => if t == Pending then True else False
  }

  function ReasonOf(k: Setter, t: ConditionType): Reason {
    match k
    case Retry => if t == Aborted then SuccessfullyConfigured else RetryingReason
    case Fail => if t == Aborted then SuccessfullyConfigured else FailedToConfigure
    case Abort => ConfigurationAborted
    case Success => SuccessfullyConfigured
    case Progress => ConfigurationProgressing
    case Finalize => ConfigurationFinalizing
    case Pend(why) => why
  }

  predicate IsEnactmentType(t: ConditionType) {
    t == Available || t == Failing || t == Progressing || t == Pending || t == Aborted
  }

  // Every setter sets each of the five types exactly once.
  function PositionOf(k: Setter, t: ConditionType): (i: int)
    requires IsEnactmentType(t)
    ensures 0 <= i < 5
  {
    match k
    case Retry => if t == Failing then 0 else if t == Progressing then 1 else if t == Available then 2 else if t == Pending then 3 else 4
    case Progress => if t == Progressing then 0 else if t == Failing then 1 else if t == Available then 2 else if t == Pending then 3 else 4
    case Finalize => if t == Progressing then 0 else if t == Failing then 1 else if t == Available then 2 else if t == Pending then 3 else 4
    case Success => if t == Available then 0 else if t == Failing then 1 else if t == Progressing then 2 else if t == Pending then 3 else 4
    case Pend(_) => if t == Pending then 0 else if t == Aborted then 1 else if t == Progressing then 2 else if t == Failing then 3 else 4
    case _ => if t == Failing then 0 else if t == Available then 1 else if t == Progressing then 2 else if t == Pending then 3 else 4
  }

  ghost predicate SetOnce(w: Written, t: ConditionType)
    requires ValidWritten(w) && IsEnactmentType(t)
  {
    var i := PositionOf(w.setter, t);
    && IsLast(Calls(w), t, i) && Calls(w)[i].status == Table(w.setter, t)
    && Calls(w)[i].reason == ReasonOf(w.setter, t) && Calls(w)[i].now == w.now[i]
    && Calls(w)[i].message == if Table(w.setter, t) == True || (w.setter.Pend? && t == Progressing) then w.message else ""
  }

  lemma FailureSetsOnce(w: Written, t: ConditionType)
    requires ValidWritten(w) && IsEnactmentType(t) && (w.setter.Retry? || w.setter.Fail? || w.setter.Abort?)
    ensures SetOnce(w, t)
  {
  }

  lemma ProgressSetsOnce(w: Written, t: ConditionType)
    requires ValidWritten(w) && IsEnactmentType(t) && (w.setter.Progress? || w.setter.Finalize?)
    ensures SetOnce(w, t)
  {
  }

  lemma OutcomeSetsOnce(w: Written, t: ConditionType)
    requires ValidWritten(w) && IsEnactmentType(t) && (w.setter.Success? || w.setter.Pend?)
    ensures SetOnce(w, t)
  {
  }

  lemma SetsEachTypeOnce(w: Written, t: ConditionType)
    requires ValidWritten(w) && IsEnactmentType(t)
    ensures SetOnce(w, t)
  {
    match w.setter
    case Retry => FailureSetsOnce(w, t);
    case Fail => FailureSetsOnce(w, t);
    case Abort => FailureSetsOnce(w, t);
    case Progress => ProgressSetsOnce(w, t);
    case Finalize => ProgressSetsOnce(w, t);
    case _ => OutcomeSetsOnce(w, t);
  }

  // What a list shows of the setter that wrote it last.
  predicate Shows(h: seq<Condition>, w: Written, t: ConditionType)
    requires ValidWritten(w) && IsEnactmentType(t)
  {
    var f := Find(h, t);
    var i := PositionOf(w.setter, t);
    f.Some? && f.value.status == Table(w.setter, t) && f.value.reason == ReasonOf(w.setter, t) && f.value.heartbeat == w.now[i]
  }

  predicate ShowsAll(h: seq<Condition>, w: Written)
    requires ValidWritten(w)
  {
    Shows(h, w, Available) && Shows(h, w, Failing) && Shows(h, w, Progressing) && Shows(h, w, Pending) && Shows(h, w, Aborted)
  }

  lemma SetterShows(cs: seq<Condition>, w: Written, t: ConditionType)
    requires ValidWritten(w) && IsEnactmentType(t)
    ensures Shows(Replay(cs, Calls(w)), w, t)
  {
    SetsEachTypeOnce(w, t);
    FindAfterReplay(cs, Calls(w), t, PositionOf(w.setter, t));
  }

  lemma SetterShowsAll(cs: seq<Condition>, w: Written)
    requires ValidWritten(w)
    ensures ShowsAll(Replay(cs, Calls(w)), w)
  {
    SetterShows(cs, w, Available);
    SetterShows(cs, w, Failing);
    SetterShows(cs, w, Progressing);
    SetterShows(cs, w, Pending);
    SetterShows(cs, w, Aborted);
  }

  // The phase a setter writes, stamped with the clock its Progressing condition read.
  function Target(w: Written): P.Phase
    requires ValidWritten(w)
  {
    match w.setter
    case Retry => P.Retrying(w.now[1])
    case Fail => P.Failed
    case Abort => P.Aborted
    case Success => P.Available
    case Progress => P.Progressing(w.now[0])
    case Finalize => P.Finalizing(w.now[0])
    case Pend(_) => P.Pending
  }

  lemma ShownPhase(h: seq<Condition>, w: Written)
    requires ValidWritten(w) && ShowsAll(h, w)
    ensures PhaseOf(h) == Target(w)
  {
  }

  lemma SetterGivesPhase(cs: seq<Condition>, w: Written)
    requires ValidWritten(w)
    ensures PhaseOf(Replay(cs, Calls(w))) == Target(w)
  {
    SetterShowsAll(cs, w);
    ShownPhase(Replay(cs, Calls(w)), w);
  }

  function History(cs: seq<Condition>, ws: seq<Written>): seq<Condition>
    requires forall w | w in ws :: ValidWritten(w)
  {
    if ws == [] then cs else Replay(History(cs, ws[..|ws| - 1]), Calls(ws[|ws| - 1]))
  }

  lemma ShownStatuses(h: seq<Condition>, w: Written, t: ConditionType, t': ConditionType)
    requires ValidWritten(w) && ShowsAll(h, w) && IsEnactmentType(t) && IsEnactmentType(t')
    ensures Find(h, t).Some? && Find(h, t).value.status == Table(w.setter, t)
    ensures t != Failing && t' != Failing && Has(h, t, True) && Has(h, t', True) ==> t == t'
    ensures IsRetrying(h) <==> w.setter.Retry?
  {
  }

  // After any nonempty sequence of setters the five statuses are those of the last one; at most
  // one of Available, Progressing, Pending and Aborted is True; and Failing with Progressing
  // means exactly that the last setter was the retry one.
  lemma OnlyLastSetterCounts(cs: seq<Condition>, ws: seq<Written>, t: ConditionType, t': ConditionType)
    requires ws != [] && (forall w | w in ws :: ValidWritten(w))
    requires IsEnactmentType(t) && IsEnactmentType(t')
    ensures var h := History(cs, ws);
            var last := ws[|ws| - 1].setter;
            && Find(h, t).Some? && Find(h, t).value.status == Table(last, t)
            && (t != Failing && t' != Failing && Has(h, t, True) && Has(h, t', True) ==> t == t')
            && (IsRetrying(h) <==> last.Retry?)
  {
    var n := |ws| - 1;
    SetterShowsAll(History(cs, ws[..n]), ws[n]);
    ShownStatuses(History(cs, ws), ws[n], t, t');
  }

  ghost predicate SeesPhase(h: seq<Condition>, now: int, threshold: int) {
    && IsProgressing(h) == P.IsProgressing(PhaseOf(h))
    && IsFinalizing(h) == PhaseOf(h).Finalizing?
    && IsRetrying(h) == PhaseOf(h).Retrying?
    && IsAvailable(h) == PhaseOf(h).Available?
    && IsTerminallyFailed(h) == PhaseOf(h).Failed?
    && (IsLiveHolder(h, now, threshold) || IsTerminallyFailed(h)) == P.IsHolder(PhaseOf(h), now, threshold)
    && !(IsLiveHolder(h, now, threshold) && IsTerminallyFailed(h))
  }

  lemma ShownIsSeen(h: seq<Condition>, w: Written, now: int, threshold: int)
    requires ValidWritten(w) && ShowsAll(h, w)
    ensures SeesPhase(h, now, threshold)
  {
  }

  // On every list setters can produce, starting from a reset enactment or any other, the
  // predicates see exactly the phase, and the audit's two kinds of holder are disjoint.
  lemma PredicatesSeePhase(cs: seq<Condition>, ws: seq<Written>, now: int, threshold: int)
    requires forall w | w in ws :: ValidWritten(w)
    requires ws == [] ==> cs == []
    ensures SeesPhase(History(cs, ws), now, threshold)
    ensures ws == [] ==> PhaseOf(History(cs, ws)) == P.Blank
    ensures ws != [] ==> PhaseOf(History(cs, ws)) == Target(ws[|ws| - 1])
  {
    if ws != [] {
      var n := |ws| - 1;
      SetterShowsAll(History(cs, ws[..n]), ws[n]);
      ShownIsSeen(History(cs, ws), ws[n], now, threshold);
      ShownPhase(History(cs, ws), ws[n]);
    }
  }

  // ---------- the lists an enactment can carry ----------

  // Reset, freshly created, or left by a setter.
  ghost predicate Reachable(cs: seq<Condition>) {
    || cs == []
    || (forall t | IsEnactmentType(t) :: Has(cs, t, Unknown))
    || (exists w :: ValidWritten(w) && ShowsAll(cs, w))
  }

  lemma WrittenIsReachable(cs: seq<Condition>, w: Written)
    requires ValidWritten(w)
    ensures Reachable(Replay(cs, Calls(w)))
  {
    SetterShowsAll(cs, w);
  }

  // A new enactment's conditions: each of the five types Unknown.
  function CreationCalls(now: seq<int>): seq<SetCall>
    requires |now| == 5
  {
    [SetCall(Available, Unknown, NoReason, "", now[0]), SetCall(Failing, Unknown, NoReason, "", now[1]),
     SetCall(Progressing, Unknown, NoReason, "", now[2]), SetCall(Pending, Unknown, NoReason, "", now[3]),
     SetCall(Aborted, Unknown, NoReason, "", now[4])]
  }

  lemma CreatedIsReachable(now: seq<int>)
    requires |now| == 5
    ensures var cs := Replay([], CreationCalls(now));
            Reachable(cs) && PhaseOf(cs) == P.Unknown
  {
    var x := CreationCalls(now);
    FindAfterReplay([], x, Available, 0);
    FindAfterReplay([], x, Failing, 1);
    FindAfterReplay([], x, Progressing, 2);
    FindAfterReplay([], x, Pending, 3);
    FindAfterReplay([], x, Aborted, 4);
    forall t | IsEnactmentType(t) ensures Has(Replay([], x), t, Unknown) {
    }
  }
}

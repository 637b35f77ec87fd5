/**
 Condition lists: one entry per condition type, found by a linear search and updated in place.
 */
module Conditions {
  datatype Option<+T> = None | Some(value: T)

  datatype Status = True | False | Unknown

  // The types and reasons the handlers use; any other string is Other.
  datatype ConditionType =
    | Available | Failing | Progressing | Pending | Aborted   // enactments
    | Degraded | Ignored                                      // policies, with Available and Progressing
    | Other(name: string)

  datatype Reason =
    | NoReason
    | FailedToConfigure | RetryingReason | SuccessfullyConfigured | MaxUnavailableLimitReached
    | ConfigurationProgressing | ConfigurationAborted | ConfigurationInterrupted | ConfigurationFinalizing
    | NoMatchingNode
    | OtherReason(text: string)

  datatype Condition = Condition(
    kind: ConditionType, status: Status, reason: Reason, message: string, heartbeat: int, transition: int)

  // One call of Set, with the time it reads from the clock.
  datatype SetCall = SetCall(kind: ConditionType, status: Status, reason: Reason, message: string, now: int)

  // The first entry of a type, or the length when there is none.
  function IndexOf(cs: seq<Condition>, t: ConditionType): (i: nat)
    ensures i <= |cs|
    ensures i < |cs| ==> cs[i].kind == t
    ensures forall j | 0 <= j < i :: cs[j].kind != t
  {
    if cs == [] || cs[0].kind == t then 0 else 1 + IndexOf(cs[1..], t)
  }

  function Find(cs: seq<Condition>, t: ConditionType): Option<Condition> {
    var i := IndexOf(cs, t);
    if i < |cs| then Some(cs[i]) else None
  }

  predicate Has(cs: seq<Condition>, t: ConditionType, st: Status) {
    Find(cs, t).Some? && Find(cs, t).value.status == st
  }

  function NewCondition(x: SetCall): Condition {
    Condition(x.kind, x.status, x.reason, x.message, x.now, x.now)
  }

  function Refreshed(c: Condition, x: SetCall): Condition {
    Condition(c.kind, x.status, x.reason, x.message, x.now, if c.status != x.status then x.now else c.transition)
  }

  function AfterSet(cs: seq<Condition>, x: SetCall): seq<Condition> {
    var i := IndexOf(cs, x.kind);
    if i == |cs| then cs + [NewCondition(x)] else cs[i := Refreshed(cs[i], x)]
  }

  class ConditionList {
    var items: seq<Condition>

    constructor ()
      ensures items == []
    {
      items := [];
    }

    method FindIndex(t: ConditionType) returns (i: nat)
      ensures i == IndexOf(items, t)
    {
      i := 0;
      while i < |items|
        invariant 0 <= i <= |items|
        invariant forall j | 0 <= j < i :: items[j].kind != t
      {
        if items[i].kind == t {
          break;
        }
        i := i + 1;
      }
      IndexOfUnique(items, t, i);
    }

    method Set(t: ConditionType, status: Status, reason: Reason, message: string, now: int)
      modifies this
      ensures items == AfterSet(old(items), SetCall(t, status, reason, message, now))
    {
      var i := FindIndex(t);
      if i == |items| {
        items := items + [Condition(t, status, reason, message, now, now)];
        return;
      }
      var c := items[i];
      if c.status != status || c.reason != reason || c.message != message {
        if c.status != status {
          c := c.(transition := now);
        }
        c := c.(status := status, reason := reason, message := message);
      }
      c := c.(heartbeat := now);
      items := items[i := c];
    }
  }

  lemma IndexOfUnique(cs: seq<Condition>, t: ConditionType, i: nat)
    requires i <= |cs| && (i < |cs| ==> cs[i].kind == t)
    requires forall j | 0 <= j < i :: cs[j].kind != t
    ensures i == IndexOf(cs, t)
  {
  }

  // Set makes its own type read back what it wrote and leaves every other type alone.
  lemma FindAfterSet(cs: seq<Condition>, x: SetCall, t: ConditionType)
    ensures t != x.kind ==> Find(AfterSet(cs, x), t) == Find(cs, t)
    ensures t == x.kind ==>
              var f := Find(AfterSet(cs, x), t);
              && f.Some? && f.value.status == x.status && f.value.reason == x.reason
              && f.value.message == x.message && f.value.heartbeat == x.now
  {
    var cs' := AfterSet(cs, x);
    var i := IndexOf(cs, t);
    if t != x.kind {
      IndexOfUnique(cs', t, if i == |cs| then |cs'| else i);
    } else {
      IndexOfUnique(cs', t, i);
    }
  }

  // ---------- what a history of Set calls leaves behind ----------

  function Replay(cs: seq<Condition>, calls: seq<SetCall>): seq<Condition> {
    if calls == [] then cs else AfterSet(Replay(cs, calls[..|calls| - 1]), calls[|calls| - 1])
  }

  lemma ReplaySnoc(cs: seq<Condition>, calls: seq<SetCall>, x: SetCall)
    ensures Replay(cs, calls + [x]) == AfterSet(Replay(cs, calls), x)
  {
    assert (calls + [x])[..|calls|] == calls;
  }

  lemma {:induction false} ReplayAppend(cs: seq<Condition>, xs: seq<SetCall>, ys: seq<SetCall>)
    ensures Replay(cs, xs + ys) == Replay(Replay(cs, xs), ys)
    decreases |ys|
  {
    if ys == [] {
      assert xs + ys == xs;
    } else {
      var n := |ys| - 1;
      ReplayAppend(cs, xs, ys[..n]);
      ReplaySnoc(cs, xs + ys[..n], ys[n]);
      assert xs + ys == xs + ys[..n] + [ys[n]];
    }
  }

  // A type reads back its last call, whatever the list held before.
  lemma {:induction false} FindAfterReplay(cs: seq<Condition>, calls: seq<SetCall>, t: ConditionType, l: int)
    requires IsLast(calls, t, l)
    ensures var f := Find(Replay(cs, calls), t);
            && f.Some? && f.value.status == calls[l].status && f.value.reason == calls[l].reason
            && f.value.message == calls[l].message && f.value.heartbeat == calls[l].now
    decreases |calls|
  {
    var n := |calls| - 1;
    FindAfterSet(Replay(cs, calls[..n]), calls[n], t);
    if l < n {
      FindAfterReplay(cs, calls[..n], t, l);
    }
  }

  predicate IsFirst(calls: seq<SetCall>, t: ConditionType, k: int) {
    0 <= k < |calls| && calls[k].kind == t && forall j | 0 <= j < k :: calls[j].kind != t
  }

  predicate IsLast(calls: seq<SetCall>, t: ConditionType, k: int) {
    0 <= k < |calls| && calls[k].kind == t && forall j | k < j < |calls| :: calls[j].kind != t
  }

  // From call k on, every call of the type has the same status.
  predicate SteadyFrom(calls: seq<SetCall>, t: ConditionType, k: int) {
    0 <= k < |calls| && calls[k].kind == t
    && forall j | k <= j < |calls| && calls[j].kind == t :: calls[j].status == calls[k].status
  }

  // The first call of the latest run of equal statuses of the type.
  predicate IsRunStart(calls: seq<SetCall>, t: ConditionType, k: int) {
    SteadyFrom(calls, t, k) && forall j | 0 <= j < k :: !SteadyFrom(calls, t, j)
  }

  ghost predicate Records(calls: seq<SetCall>, c: Condition) {
    && (exists l :: IsLast(calls, c.kind, l)
           && c.status == calls[l].status && c.reason == calls[l].reason
           && c.message == calls[l].message && c.heartbeat == calls[l].now)
    && (exists k :: IsRunStart(calls, c.kind, k) && c.transition == calls[k].now)
  }

  // Entries appear in the order in which their types were first set, so each type once.
  ghost predicate InFirstSetOrder(calls: seq<SetCall>, cs: seq<Condition>) {
    forall i, j, p, q | 0 <= i < j < |cs| && IsFirst(calls, cs[i].kind, p) && IsFirst(calls, cs[j].kind, q) :: p < q
  }

  ghost predicate WasSet(calls: seq<SetCall>, t: ConditionType) {
    exists p :: IsFirst(calls, t, p)
  }

  ghost predicate SameTypes(calls: seq<SetCall>, cs: seq<Condition>) {
    && (forall k | 0 <= k < |calls| :: IndexOf(cs, calls[k].kind) < |cs|)
    && (forall i | 0 <= i < |cs| :: WasSet(calls, cs[i].kind))
  }

  ghost predicate Faithful(calls: seq<SetCall>, cs: seq<Condition>) {
    && SameTypes(calls, cs) && InFirstSetOrder(calls, cs)
    && forall i | 0 <= i < |cs| :: Records(calls, cs[i])
  }

  lemma AppendOther(calls: seq<SetCall>, x: SetCall, c: Condition)
    requires Records(calls, c) && c.kind != x.kind
    ensures Records(calls + [x], c)
  {
    var calls' := calls + [x];
    var l :| IsLast(calls, c.kind, l) && c.status == calls[l].status && c.reason == calls[l].reason
             && c.message == calls[l].message && c.heartbeat == calls[l].now;
    var k :| IsRunStart(calls, c.kind, k) && c.transition == calls[k].now;
    assert IsLast(calls', c.kind, l);
    RunStartGrows(calls, x, c.kind, k);
    assert IsRunStart(calls', c.kind, k);
  }

  // A run start survives a call of another type, or one of its own type and status.
  lemma RunStartGrows(calls: seq<SetCall>, x: SetCall, t: ConditionType, k: int)
    requires IsRunStart(calls, t, k) && (x.kind == t ==> x.status == calls[k].status)
    ensures IsRunStart(calls + [x], t, k)
  {
    var calls' := calls + [x];
    forall j | 0 <= j < k ensures !SteadyFrom(calls', t, j) {
      if SteadyFrom(calls', t, j) {
        assert forall i | j <= i < |calls| && calls[i].kind == t :: calls'[i] == calls[i];
        assert SteadyFrom(calls, t, j);
      }
    }
    assert forall j | k <= j < |calls'| && calls'[j].kind == t :: j < |calls| ==> calls'[j] == calls[j];
  }

  lemma AppendOwn(calls: seq<SetCall>, x: SetCall, c: Condition)
    requires Records(calls, c) && c.kind == x.kind
    ensures Records(calls + [x], Refreshed(c, x))
  {
    var calls' := calls + [x];
    var n := |calls|;
    assert IsLast(calls', x.kind, n);
    var l :| IsLast(calls, c.kind, l) && c.status == calls[l].status && c.reason == calls[l].reason
             && c.message == calls[l].message && c.heartbeat == calls[l].now;
    var k :| IsRunStart(calls, c.kind, k) && c.transition == calls[k].now;
    assert k <= l;
    if c.status == x.status {
      RunStartGrows(calls, x, c.kind, k);
      assert IsRunStart(calls', c.kind, k);
    } else {
      forall j | 0 <= j < n ensures !SteadyFrom(calls', x.kind, j) {
        assert calls'[l] == calls[l] && calls'[n] == x;
      }
      assert IsRunStart(calls', x.kind, n);
    }
  }

  lemma AppendNew(calls: seq<SetCall>, x: SetCall)
    requires forall j | 0 <= j < |calls| :: calls[j].kind != x.kind
    ensures Records(calls + [x], NewCondition(x))
  {
    assert IsLast(calls + [x], x.kind, |calls|);
    assert IsRunStart(calls + [x], x.kind, |calls|);
  }

  lemma FirstGrows(calls: seq<SetCall>, x: SetCall, t: ConditionType)
    ensures forall p :: 0 <= p < |calls| ==> (IsFirst(calls, t, p) <==> IsFirst(calls + [x], t, p))
    ensures IsFirst(calls + [x], t, |calls|) ==> t == x.kind
  {
    assert forall j | 0 <= j < |calls| :: (calls + [x])[j] == calls[j];
  }

  /**
   For every history of Set calls on an empty list: each type set is present once, entries
   stand in first-set order, and each entry carries status, reason, message and heartbeat of
   the last call of its type and the time of the first call of its latest run of one status.
   */
  lemma {:induction false} HistoryRecorded(calls: seq<SetCall>)
    ensures Faithful(calls, Replay([], calls))
    decreases |calls|
  {
    if calls == [] {
      assert Replay([], calls) == [];
    } else {
      var n := |calls| - 1;
      var before, x := calls[..n], calls[n];
      assert before + [x] == calls;
      HistoryRecorded(before);
      HistoryStep(before, x, Replay([], before));
    }
  }

  lemma HistoryStep(calls: seq<SetCall>, x: SetCall, cs: seq<Condition>)
    requires Faithful(calls, cs)
    ensures Faithful(calls + [x], AfterSet(cs, x))
  {
    var cs' := AfterSet(cs, x);
    HistoryStepTypes(calls, x, cs);
    HistoryStepOrder(calls, x, cs);
    forall i | 0 <= i < |cs'| ensures Records(calls + [x], cs'[i]) {
      if i == |cs| {
        AppendNew(calls, x);
      } else if cs[i].kind == x.kind {
        TypesOnce(calls, cs, IndexOf(cs, x.kind), i);
        AppendOwn(calls, x, cs[i]);
      } else {
        AppendOther(calls, x, cs[i]);
      }
    }
  }

  lemma TypesOnce(calls: seq<SetCall>, cs: seq<Condition>, i: nat, j: nat)
    requires SameTypes(calls, cs) && InFirstSetOrder(calls, cs)
    requires i < |cs| && j < |cs| && cs[i].kind == cs[j].kind
    ensures i == j
  {
    assert WasSet(calls, cs[i].kind);
    var p :| IsFirst(calls, cs[i].kind, p);
    assert IsFirst(calls, cs[j].kind, p);
  }

  lemma HistoryStepTypes(calls: seq<SetCall>, x: SetCall, cs: seq<Condition>)
    requires SameTypes(calls, cs)
    ensures SameTypes(calls + [x], AfterSet(cs, x))
  {
    var calls' := calls + [x];
    var cs' := AfterSet(cs, x);
    forall k | 0 <= k < |calls'| ensures IndexOf(cs', calls'[k].kind) < |cs'| {
      assert k < |calls| ==> calls'[k] == calls[k];
      FindAfterSet(cs, x, calls'[k].kind);
    }
    forall i | 0 <= i < |cs'| ensures WasSet(calls', cs'[i].kind) {
      FirstGrows(calls, x, cs'[i].kind);
      if i < |cs| {
        assert WasSet(calls, cs[i].kind) && cs'[i].kind == cs[i].kind;
        var p :| IsFirst(calls, cs[i].kind, p);
        assert IsFirst(calls', cs'[i].kind, p);
      } else {
        assert forall k | 0 <= k < |calls| :: IndexOf(cs, calls[k].kind) < |cs|;
        assert IsFirst(calls', x.kind, |calls|);
      }
    }
  }

  lemma HistoryStepOrder(calls: seq<SetCall>, x: SetCall, cs: seq<Condition>)
    requires SameTypes(calls, cs) && InFirstSetOrder(calls, cs)
    ensures InFirstSetOrder(calls + [x], AfterSet(cs, x))
  {
    var calls' := calls + [x];
    var cs' := AfterSet(cs, x);
    forall i, j, p, q | 0 <= i < j < |cs'| && IsFirst(calls', cs'[i].kind, p) && IsFirst(calls', cs'[j].kind, q)
      ensures p < q
    {
      FirstGrows(calls, x, cs'[i].kind);
      FirstGrows(calls, x, cs'[j].kind);
      assert WasSet(calls, cs[i].kind);
      var p0 :| IsFirst(calls, cs[i].kind, p0);
      assert p == p0 by { assert IsFirst(calls', cs'[i].kind, p0); }
      if j < |cs| {
        assert WasSet(calls, cs[j].kind);
        var q0 :| IsFirst(calls, cs[j].kind, q0);
        assert q == q0 by { assert IsFirst(calls', cs'[j].kind, q0); }
      }
    }
  }
}

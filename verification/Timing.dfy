/**
 How long an apply can keep the heartbeat it started with, against the age at which the
 audit calls that heartbeat stale. Durations are nanoseconds.
 */
module Timing {
  import opened Conditions

  const SECOND: int := 1_000_000_000

  const DEFAULT_GW_PROBE_TIMEOUT: int := 120 * SECOND
  const DEFAULT_GW_RETRIEVE_TIMEOUT: int := 120 * SECOND
  const DEFAULT_DNS_PROBE_TIMEOUT: int := 120 * SECOND
  const API_SERVER_PROBE_TIMEOUT: int := 120 * SECOND
  const NODE_READINESS_PROBE_TIMEOUT: int := 120 * SECOND

  const PROBES_TOTAL_TIMEOUT: int :=
    DEFAULT_GW_RETRIEVE_TIMEOUT + DEFAULT_DNS_PROBE_TIMEOUT + DEFAULT_DNS_PROBE_TIMEOUT
    + API_SERVER_PROBE_TIMEOUT + NODE_READINESS_PROBE_TIMEOUT

  const DESIRED_STATE_CONFIGURATION_TIMEOUT: int := (DEFAULT_GW_PROBE_TIMEOUT + API_SERVER_PROBE_TIMEOUT) * 2

  const WORST_CASE_APPLY_CYCLE: int := DESIRED_STATE_CONFIGURATION_TIMEOUT + 3 * PROBES_TOTAL_TIMEOUT

  const DEFAULT_STALE_THRESHOLD: int := WORST_CASE_APPLY_CYCLE + 300 * SECOND

  // The override as parsed from the environment: None when unset or not a duration.
  function StaleEnactmentThreshold(override: Option<int>): (t: int)
    ensures t > WORST_CASE_APPLY_CYCLE
    ensures override.Some? && override.value > WORST_CASE_APPLY_CYCLE ==> t == override.value
  {
    if override.None? then DEFAULT_STALE_THRESHOLD
    else if override.value <= 0 then DEFAULT_STALE_THRESHOLD
    else if override.value <= WORST_CASE_APPLY_CYCLE then DEFAULT_STALE_THRESHOLD
    else override.value
  }

  // Without an admissible override the threshold is 43 minutes.
  lemma DefaultThreshold(override: Option<int>)
    ensures StaleEnactmentThreshold(override) ==
            if override.Some? && override.value > 2280 * SECOND then override.value else 2580 * SECOND
  {
  }

  datatype Probe = Probe(name: string, timeout: int)

  // How one wait on a probe goes: how long it takes and whether the condition came true.
  datatype Wait = Wait(elapsed: int, ok: bool)

  predicate WithinTimeout(w: Wait, timeout: int) {
    0 <= w.elapsed <= timeout
  }

  function TotalTimeout(ps: seq<Probe>): int {
    if ps == [] then 0 else TotalTimeout(ps[..|ps| - 1]) + ps[|ps| - 1].timeout
  }

  const PING: Probe := Probe("ping", DEFAULT_GW_PROBE_TIMEOUT)
  const DNS: Probe := Probe("dns", DEFAULT_DNS_PROBE_TIMEOUT)
  const API_SERVER: Probe := Probe("api-server", API_SERVER_PROBE_TIMEOUT)
  const NODE_READINESS: Probe := Probe("node-readiness", NODE_READINESS_PROBE_TIMEOUT)

  // The external probes that worked, in order, then the internal ones.
  function Selected(ping: bool, dns: bool): seq<Probe> {
    External(ping, dns) + [API_SERVER] + [NODE_READINESS]
  }

  function External(ping: bool, dns: bool): seq<Probe> {
    (if ping then [PING] else []) + (if dns then [DNS] else [])
  }

  // Each external probe is run exactly if it worked, before the two internal ones.
  lemma SelectedExactly(ping: bool, dns: bool)
    ensures var r := Selected(ping, dns);
            && (PING in r <==> ping) && (DNS in r <==> dns)
            && |r| == (if ping then 1 else 0) + (if dns then 1 else 0) + 2
            && r[|r| - 2..] == [API_SERVER, NODE_READINESS] && (ping ==> r[0] == PING)
  {
    assert PING.name[0] == 'p' && DNS.name[0] == 'd' && API_SERVER.name[0] == 'a' && NODE_READINESS.name[0] == 'n';
    assert ping ==> Selected(ping, dns)[0] == PING;
    assert dns ==> Selected(ping, dns)[if ping then 1 else 0] == DNS;
  }

  lemma TotalSnoc(ps: seq<Probe>, p: Probe)
    ensures TotalTimeout(ps + [p]) == TotalTimeout(ps) + p.timeout
  {
    assert (ps + [p])[..|ps|] == ps;
  }

  lemma SelectedTotal(ping: bool, dns: bool)
    ensures TotalTimeout(Selected(ping, dns)) <= PING.timeout + DNS.timeout + API_SERVER.timeout + NODE_READINESS.timeout
  {
    ExternalTotal(ping, dns);
    TwoMore(External(ping, dns), API_SERVER, NODE_READINESS);
  }

  lemma TwoMore(ps: seq<Probe>, p: Probe, q: Probe)
    ensures TotalTimeout(ps + [p] + [q]) == TotalTimeout(ps) + p.timeout + q.timeout
  {
    TotalSnoc(ps, p);
    TotalSnoc(ps + [p], q);
  }

  lemma ExternalTotal(ping: bool, dns: bool)
    ensures TotalTimeout(External(ping, dns)) <= PING.timeout + DNS.timeout
  {
    var first := if ping then [PING] else [];
    TotalSnoc([], PING);
    TotalSnoc(first, DNS);
    assert [] + [PING] == [PING] && first + [] == first;
  }

  // Tries the external probes one after the other and keeps the working ones.
  method Select(waits: seq<Wait>) returns (probes: seq<Probe>, elapsed: int)
    requires |waits| == 2 && WithinTimeout(waits[0], PING.timeout) && WithinTimeout(waits[1], DNS.timeout)
    ensures elapsed == waits[0].elapsed + waits[1].elapsed
    ensures probes == Selected(waits[0].ok, waits[1].ok)
  {
    var external := [PING, DNS];
    probes, elapsed := [], 0;
    for i := 0 to 2
      invariant elapsed == (if i > 0 then waits[0].elapsed else 0) + (if i > 1 then waits[1].elapsed else 0)
      invariant probes == (if i > 0 && waits[0].ok then [PING] else []) + (if i > 1 && waits[1].ok then [DNS] else [])
    {
      elapsed := elapsed + waits[i].elapsed;
      if waits[i].ok {
        probes := probes + [external[i]];
      }
    }
    probes := probes + [API_SERVER] + [NODE_READINESS];
  }

  predicate AllOk(waits: seq<Wait>) {
    forall i | 0 <= i < |waits| :: waits[i].ok
  }

  // The time the waits take up to and including the first that fails.
  function ProbeTime(waits: seq<Wait>): int {
    if waits == [] then 0 else waits[0].elapsed + if waits[0].ok then ProbeTime(waits[1..]) else 0
  }

  // Shows the state for its error messages, then runs the probes in order up to the first that fails.
  method RunProbes(showOk: bool, probes: seq<Probe>, waits: seq<Wait>) returns (ok: bool, elapsed: int)
    requires WaitsFor(waits, probes)
    ensures ok <==> showOk && AllOk(waits)
    ensures elapsed == (if showOk then ProbeTime(waits) else 0)
    ensures 0 <= elapsed <= TotalTimeout(probes)
  {
    ProbesEnd(probes, waits);
    if !showOk {
      return false, 0;
    }
    elapsed := 0;
    for i := 0 to |probes|
      invariant elapsed + ProbeTime(waits[i..]) == ProbeTime(waits)
      invariant forall j | 0 <= j < i :: waits[j].ok
    {
      assert waits[i..][1..] == waits[i + 1..];
      elapsed := elapsed + waits[i].elapsed;
      if !waits[i].ok {
        return false, elapsed;
      }
    }
    return true, elapsed;
  }

  lemma {:induction false} ProbesEnd(probes: seq<Probe>, waits: seq<Wait>)
    requires WaitsFor(waits, probes)
    ensures 0 <= ProbeTime(waits) <= TotalTimeout(probes)
    decreases |probes|
  {
    if probes != [] {
      ProbesEnd(probes[1..], waits[1..]);
      TotalCons(probes);
      assert WithinTimeout(waits[0], probes[0].timeout);
    }
  }

  lemma {:induction false} TotalCons(probes: seq<Probe>)
    requires probes != []
    ensures TotalTimeout(probes) == probes[0].timeout + TotalTimeout(probes[1..])
    decreases |probes|
  {
    var n := |probes| - 1;
    if n > 0 {
      TotalCons(probes[..n]);
      assert probes[..n][1..] == probes[1..][..n - 1];
    } else {
      assert probes[..0] == [] && probes[1..] == [];
    }
  }

  predicate WaitsFor(waits: seq<Wait>, probes: seq<Probe>) {
    |waits| == |probes| && forall i | 0 <= i < |probes| :: WithinTimeout(waits[i], probes[i].timeout)
  }

  // How an apply goes: its timed phases, whether each run of the probes could show the state
  // first, and the time its untimed commands take in all.
  datatype Course = Course(
    select: seq<Wait>, configure: Wait, showOk: bool, after: seq<Wait>, rollbackOk: bool,
    showAgainOk: bool, afterRollback: seq<Wait>, commitOk: bool, untimed: int)

  predicate PossibleCourse(x: Course) {
    && |x.select| == 2 && WithinTimeout(x.select[0], PING.timeout) && WithinTimeout(x.select[1], DNS.timeout)
    && WithinTimeout(x.configure, DESIRED_STATE_CONFIGURATION_TIMEOUT)
    && WaitsFor(x.after, Selected(x.select[0].ok, x.select[1].ok))
    && WaitsFor(x.afterRollback, Selected(x.select[0].ok, x.select[1].ok))
    && 0 <= x.untimed
  }

  // What is left of the shortest admissible threshold after the longest timed apply.
  const SPARE: int := 600 * SECOND

  predicate Probed(x: Course) {
    x.showOk && AllOk(x.after)
  }

  function TimeOf(showOk: bool, waits: seq<Wait>): int {
    if showOk then ProbeTime(waits) else 0
  }

  // How long the apply takes.
  function Elapsed(empty: bool, x: Course): int
    requires PossibleCourse(x)
  {
    if empty then 0
    else
      var configured := x.untimed + x.select[0].elapsed + x.select[1].elapsed + x.configure.elapsed;
      if !x.configure.ok then configured
      else if Probed(x) || !x.rollbackOk then configured + TimeOf(x.showOk, x.after)
      else configured + TimeOf(x.showOk, x.after) + TimeOf(x.showAgainOk, x.afterRollback)
  }

  function SumOf(ts: seq<int>): int {
    if ts == [] then 0 else ts[0] + SumOf(ts[1..])
  }

  function Durations(waits: seq<Wait>): (r: seq<int>)
    ensures |r| == |waits| && forall i | 0 <= i < |waits| :: r[i] == waits[i].elapsed
  {
    seq(|waits|, i requires 0 <= i < |waits| => waits[i].elapsed)
  }

  // k waits were made: all but the last succeeded, and the last failed unless there was no other.
  predicate Made(waits: seq<Wait>, k: nat) {
    && k <= |waits| && (forall i | 0 <= i < k - 1 :: waits[i].ok)
    && (k < |waits| ==> k > 0 && !waits[k - 1].ok)
  }

  // The probes take the time of the waits that were made.
  lemma {:induction false} ProbeTimeIsSum(waits: seq<Wait>, k: nat)
    requires Made(waits, k)
    ensures ProbeTime(waits) == SumOf(Durations(waits)[..k])
    decreases |waits|
  {
    if waits != [] {
      var ts := Durations(waits);
      assert ts[..k][0] == waits[0].elapsed && ts[..k][1..] == ts[1..k];
      if waits[0].ok && k > 1 {
        ProbeTimeIsSum(waits[1..], k - 1);
        assert Durations(waits[1..])[..k - 1] == ts[1..k];
      } else {
        assert ts[1..k] == [] && (waits[0].ok ==> waits[1..] == []);
      }
    }
  }

  // The phases of an apply, one after the other: k probes after the set, k' after the rollback.
  function PhasesOf(x: Course, k: nat, k': nat): seq<int>
    requires PossibleCourse(x) && k <= |x.after| && k' <= |x.afterRollback|
  {
    [x.untimed, x.select[0].elapsed, x.select[1].elapsed, x.configure.elapsed]
    + Durations(x.after)[..k] + Durations(x.afterRollback)[..k']
  }

  // The probes are waited for again.
  predicate Rerun(x: Course) {
    x.configure.ok && !(x.showOk && AllOk(x.after)) && x.rollbackOk && x.showAgainOk
  }

  // An apply takes the time of the phases it went through: after a failed set there are none,
  // after a failed show no probes, and the probes are run again exactly after a rollback.
  lemma ElapsedIsSum(x: Course, k: nat, k': nat)
    requires PossibleCourse(x)
    requires if x.configure.ok && x.showOk then Made(x.after, k) else k == 0
    requires if Rerun(x) then Made(x.afterRollback, k') else k' == 0
    ensures Elapsed(false, x) == SumOf(PhasesOf(x, k, k')) && Elapsed(true, x) == 0
  {
    PhasesSum(x, k, k');
    if x.configure.ok && x.showOk { ProbeTimeIsSum(x.after, k); }
    if Rerun(x) { ProbeTimeIsSum(x.afterRollback, k'); }
  }

  lemma PhasesSum(x: Course, k: nat, k': nat)
    requires PossibleCourse(x) && k <= |x.after| && k' <= |x.afterRollback|
    ensures SumOf(PhasesOf(x, k, k')) == x.untimed + x.select[0].elapsed + x.select[1].elapsed + x.configure.elapsed
                                         + SumOf(Durations(x.after)[..k]) + SumOf(Durations(x.afterRollback)[..k'])
  {
    var a, b := Durations(x.after)[..k], Durations(x.afterRollback)[..k'];
    SumOfFour(x.untimed, x.select[0].elapsed, x.select[1].elapsed, x.configure.elapsed, a + b);
    SumAppend(a, b);
    assert PhasesOf(x, k, k') == [x.untimed, x.select[0].elapsed, x.select[1].elapsed, x.configure.elapsed] + (a + b);
  }

  lemma SumCons(a: int, ts: seq<int>)
    ensures SumOf([a] + ts) == a + SumOf(ts)
  {
    assert ([a] + ts)[1..] == ts;
  }

  lemma SumOfFour(a: int, b: int, c: int, d: int, ts: seq<int>)
    ensures SumOf([a, b, c, d] + ts) == a + b + c + d + SumOf(ts)
  {
    SumCons(d, ts);
    SumCons(c, [d] + ts);
    SumCons(b, [c] + ([d] + ts));
    SumCons(a, [b] + ([c] + ([d] + ts)));
    assert [a, b, c, d] + ts == [a] + ([b] + ([c] + ([d] + ts)));
  }

  lemma {:induction false} SumAppend(a: seq<int>, b: seq<int>)
    ensures SumOf(a + b) == SumOf(a) + SumOf(b)
    decreases |a|
  {
    if a == [] {
      assert a + b == b;
    } else {
      SumAppend(a[1..], b);
      assert (a + b)[1..] == a[1..] + b;
    }
  }

  // The timed phases end at least SPARE before the heartbeat they started with reaches any
  // admissible threshold.
  lemma ApplyEndsInTime(empty: bool, x: Course, override: Option<int>)
    requires PossibleCourse(x)
    ensures 0 <= Elapsed(empty, x)
    ensures Elapsed(empty, x) - x.untimed + SPARE < StaleEnactmentThreshold(override)
  {
    var probes := Selected(x.select[0].ok, x.select[1].ok);
    SelectedTotal(x.select[0].ok, x.select[1].ok);
    ProbesEnd(probes, x.after);
    ProbesEnd(probes, x.afterRollback);
  }

  /**
   Select the probes that work, set the desired state, probe, then commit; probes that fail or
   cannot be run roll back and probe again, a failed set or commit does not.
   */
  method ApplyDesiredState(empty: bool, x: Course) returns (ok: bool, committed: bool, rolledBack: bool, elapsed: int)
    requires PossibleCourse(x)
    ensures elapsed == Elapsed(empty, x)
    ensures ok <==> empty || (x.configure.ok && Probed(x) && x.commitOk)
    ensures committed <==> ok && !empty
    ensures rolledBack <==> !empty && x.configure.ok && !Probed(x) && x.rollbackOk
    ensures forall override :: 0 <= elapsed && elapsed - x.untimed + SPARE < StaleEnactmentThreshold(override)
  {
    forall override ensures 0 <= Elapsed(empty, x) && Elapsed(empty, x) - x.untimed + SPARE < StaleEnactmentThreshold(override) {
      ApplyEndsInTime(empty, x, override);
    }
    if empty {
      return true, false, false, 0;
    }
    var probes, t := Select(x.select);
    elapsed := x.untimed + t + x.configure.elapsed;
    if !x.configure.ok {
      return false, false, false, elapsed;
    }
    var probed, t1 := RunProbes(x.showOk, probes, x.after);
    elapsed := elapsed + t1;
    if !probed {
      if !x.rollbackOk {
        return false, false, false, elapsed;
      }
      var _, t2 := RunProbes(x.showAgainOk, probes, x.afterRollback);
      return false, false, true, elapsed + t2;
    }
    return x.commitOk, x.commitOk, false, elapsed;
  }
}

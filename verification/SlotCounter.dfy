/**
 The loops that change a policy's unavailable-node counter: claim, release and audit. Each
 reads the policy, works on its copy and writes the copy back under the version it read,
 while other writers get in between.
 */
module SlotCounter {
  import opened Conditions
  import opened Counter

  // The policy's status as stored: counts per generation and the time of the last counter update.
  datatype PolicyStatus = PolicyStatus(version: nat, counts: map<int, int>, lastUpdate: Option<int>)

  function CountAt(p: PolicyStatus, generation: int): int {
    if generation in p.counts then p.counts[generation] else 0
  }

  // A status update by somebody else.
  datatype Edit = Edit(counts: map<int, int>, lastUpdate: Option<int>)

  function Edited(p: PolicyStatus, e: Edit): PolicyStatus {
    PolicyStatus(p.version + 1, e.counts, e.lastUpdate)
  }

  function AllEdited(p: PolicyStatus, es: seq<Edit>): (r: PolicyStatus)
    ensures r.version == p.version + |es|
    decreases |es|
  {
    if es == [] then p else AllEdited(Edited(p, es[0]), es[1..])
  }

  // What the informer hands its cache before a cached read: nothing new, the stored object, or
  // one that is older by now.
  datatype Delivery = Nothing | Latest | Older(policy: PolicyStatus)

  // A read fails, goes to the API server, or is answered from the cache.
  datatype Read = ReadError | Direct | Cached(delivery: Delivery)

  // What one attempt of a loop meets: how its read goes, what lands before its write, whether
  // the write request gets through, and what it finds when it lists the enactments.
  datatype Attempt = Attempt(read: Read, foreign: seq<Edit>, lost: bool, listing: Option<seq<Nnce>>, now: int)

  function Foreign(p: PolicyStatus, plan: seq<Attempt>): (r: PolicyStatus)
    ensures r.version >= p.version
    decreases |plan|
  {
    if plan == [] then p else Foreign(AllEdited(p, plan[0].foreign), plan[1..])
  }

  // No read is answered from the cache, so every copy is private.
  predicate Private(plan: seq<Attempt>) {
    forall i | 0 <= i < |plan| :: !plan[i].read.Cached?
  }

  // Fresh reads, nobody else writing, every request getting through.
  predicate Quiet(plan: seq<Attempt>) {
    forall i | 0 <= i < |plan| :: plan[i].read.Direct? && plan[i].foreign == [] && !plan[i].lost
  }

  // A late delivery is older than what is stored.
  ghost predicate Plausible(p: PolicyStatus, plan: seq<Attempt>)
    decreases |plan|
  {
    plan == []
    || (PlausibleRead(p, plan[0].read) && Plausible(AllEdited(p, plan[0].foreign), plan[1..]))
  }

  // The cached object once a read's delivery has arrived, and the object the read returns.
  function Delivered(k: PolicyStatus, p: PolicyStatus, read: Read): PolicyStatus {
    if !read.Cached? || read.delivery.Nothing? then k else if read.delivery.Latest? then p else read.delivery.policy
  }

  function Seen(k: PolicyStatus, p: PolicyStatus, read: Read): PolicyStatus {
    if read.Cached? then Delivered(k, p, read) else p
  }

  // A cached object is copied without its counts, which stay shared unless there are none:
  // whoever changes the copy's counts changes the cached ones.
  function Touched(k: PolicyStatus, p: PolicyStatus, read: Read, counts: map<int, int>): PolicyStatus {
    var k' := Delivered(k, p, read);
    if read.Cached? && k'.counts != map[] then k'.(counts := counts) else k'
  }

  function Moved(p: PolicyStatus, generation: int, delta: int): map<int, int> {
    p.counts[generation := CountAt(p, generation) + delta]
  }

  class PolicyStore {
    var status: PolicyStatus

    constructor (p: PolicyStatus)
      ensures status == p
    {
      status := p;
    }

    // Succeeds exactly if the copy carries the stored version; a failed update changes nothing.
    method Update(copy: PolicyStatus) returns (ok: bool)
      modifies this
      ensures ok == (copy.version == old(status).version)
      ensures status == if ok then copy.(version := copy.version + 1) else old(status)
    {
      ok := copy.version == status.version;
      if ok {
        status := copy.(version := copy.version + 1);
      }
    }

    method LandForeign(es: seq<Edit>)
      modifies this
      ensures status == AllEdited(old(status), es)
    {
      var i := 0;
      while i < |es|
        invariant 0 <= i <= |es|
        invariant AllEdited(status, es[i..]) == AllEdited(old(status), es)
      {
        status := Edited(status, es[i]);
        assert es[i..][1..] == es[i + 1..];
        i := i + 1;
      }
    }
  }

  // The informer's object.
  class PolicyCache {
    var policy: PolicyStatus

    constructor (p: PolicyStatus)
      ensures policy == p
    {
      policy := p;
    }
  }

  function Adjusted(p: PolicyStatus, generation: int, delta: int, now: int): PolicyStatus {
    PolicyStatus(p.version + 1, Moved(p, generation, delta), Some(now))
  }

  // ---------- how far the cache is off ----------

  // The cached object is older than the stored one, or it is the stored one up to `off` in the
  // generation's count.
  ghost predicate OffBy(k: PolicyStatus, p: PolicyStatus, generation: int, off: int) {
    && k.version <= p.version
    && (k.version == p.version ==>
          && k.lastUpdate == p.lastUpdate && (k.counts == map[] <==> p.counts == map[])
          && (k.counts != map[] ==>
                CountAt(k, generation) == CountAt(p, generation) + off && k.counts[generation := 0] == p.counts[generation := 0]))
  }

  predicate Renews(read: Read) {
    read.Cached? && !read.delivery.Nothing?
  }

  // How many writes were lost after changing the cached object an attempt reads, when `off` were
  // before the plan began.
  function LostBefore(off: nat, plan: seq<Attempt>): (n: nat)
    requires plan != []
    decreases |plan|
  {
    if |plan| == 1 then (if plan[0].read.Cached? && !Renews(plan[0].read) then off else 0)
    else LostBefore(LostAfter(off, plan[0]), plan[1..])
  }

  function LostAfter(off: nat, a: Attempt): nat {
    (if Renews(a.read) then 0 else off) + (if a.read.Cached? && a.lost then 1 else 0)
  }

  // The i-th attempt lost its write on the cached object the last one reads.
  predicate SpoilsLast(plan: seq<Attempt>, i: int) {
    && 0 <= i < |plan| - 1 && plan[i].read.Cached? && plan[i].lost
    && forall j | i < j < |plan| :: !Renews(plan[j].read)
  }

  // Nothing was lost before the last attempt exactly if it reads directly or no earlier attempt
  // spoilt the object it reads.
  lemma {:induction false} NothingLostExactly(off: nat, plan: seq<Attempt>)
    requires plan != []
    ensures LostBefore(off, plan) == 0 <==>
            || !plan[|plan| - 1].read.Cached?
            || ((off == 0 || exists j :: 0 <= j < |plan| && Renews(plan[j].read)) && forall i :: !SpoilsLast(plan, i))
    decreases |plan|
  {
    var last := plan[|plan| - 1];
    if |plan| == 1 {
      assert Renews(plan[0].read) ==> exists j :: 0 <= j < |plan| && Renews(plan[j].read);
    } else {
      var rest, off' := plan[1..], LostAfter(off, plan[0]);
      NothingLostExactly(off', rest);
      assert rest[|rest| - 1] == last;
      forall i | SpoilsLast(rest, i) ensures SpoilsLast(plan, i + 1) {
        assert forall j | i + 1 < j < |plan| :: plan[j] == rest[j - 1];
      }
      forall i | SpoilsLast(plan, i) && i > 0 ensures SpoilsLast(rest, i - 1) {
        assert forall j | i - 1 < j < |rest| :: rest[j] == plan[j + 1];
      }
      assert SpoilsLast(plan, 0) <==> plan[0].read.Cached? && plan[0].lost && forall j | 0 < j < |plan| :: !Renews(plan[j].read);
    }
  }

  function Signed(sign: int, n: int): int {
    if sign > 0 then n else -n
  }

  predicate PlausibleRead(p: PolicyStatus, read: Read) {
    read.Cached? && read.delivery.Older? ==> read.delivery.policy.version < p.version
  }

  // An attempt whose write does not take effect leaves the cache off by what was lost so far.
  lemma FailedWriteSpoils(p: PolicyStatus, k: PolicyStatus, generation: int, a: Attempt, sign: int, off: nat)
    requires PlausibleRead(p, a.read) && OffBy(k, p, generation, Signed(sign, off)) && (sign == 1 || sign == -1)
    requires !a.read.ReadError? && (a.lost || Seen(k, p, a.read).version != AllEdited(p, a.foreign).version)
    ensures OffBy(Touched(k, p, a.read, Moved(Seen(k, p, a.read), generation, sign)), AllEdited(p, a.foreign), generation,
                  Signed(sign, LostAfter(off, a)))
  {
    var p' := AllEdited(p, a.foreign);
    if a.read.Cached? && Delivered(k, p, a.read).version == p'.version {
      assert a.foreign == [] && p' == p;
    }
  }

  lemma SameButOne(m: map<int, int>, m': map<int, int>, g: int, v: int)
    requires m[g := 0] == m'[g := 0]
    ensures m[g := v] == m'[g := v]
  {
    assert m[g := v] == m[g := 0][g := v] && m'[g := v] == m'[g := 0][g := v];
  }

  // A write that takes effect carries what the cache was off by.
  lemma WriteCarriesOff(p: PolicyStatus, k: PolicyStatus, generation: int, a: Attempt, sign: int, off: nat)
    requires PlausibleRead(p, a.read) && OffBy(k, p, generation, Signed(sign, off)) && (sign == 1 || sign == -1)
    requires !a.read.ReadError? && Seen(k, p, a.read).version == AllEdited(p, a.foreign).version
    ensures var n := if p.counts == map[] then 0 else LostBefore(off, [a]);
            && AllEdited(p, a.foreign) == p
            && Adjusted(Seen(k, p, a.read), generation, sign, a.now) == Adjusted(p, generation, sign + Signed(sign, n), a.now)
  {
    var seen := Seen(k, p, a.read);
    assert a.foreign == [];
    if seen != p && p.counts != map[] {
      SameButOne(seen.counts, p.counts, generation, CountAt(seen, generation) + sign);
    }
  }

  // What holds of the rest of a plan holds of the whole.
  lemma OneMore(p: PolicyStatus, plan: seq<Attempt>, used: nat, off: nat)
    requires 0 < used <= |plan|
    ensures Foreign(p, plan[..used]) == Foreign(AllEdited(p, plan[0].foreign), plan[1..][..used - 1])
    ensures used > 1 ==> LostBefore(off, plan[..used]) == LostBefore(LostAfter(off, plan[0]), plan[1..][..used - 1])
    ensures used > 1 ==> plan[used - 1] == plan[1..][used - 2]
    ensures used == 1 ==> plan[..used] == [plan[0]]
  {
    assert plan[..used][1..] == plan[1..][..used - 1];
  }

  // ---------- release ----------

  datatype ReleaseResult = Taken | NothingHeld | GaveUp

  datatype Release = Release(stored: PolicyStatus, cached: PolicyStatus, result: ReleaseResult, used: nat)

  // What the decrement loop comes to.
  function ReleaseRun(p: PolicyStatus, k: PolicyStatus, generation: int, plan: seq<Attempt>): (r: Release)
    ensures r.used <= |plan|
    decreases |plan|
  {
    if plan == [] then Release(p, k, GaveUp, 0)
    else
      var a := plan[0];
      var p' := AllEdited(p, a.foreign);
      var seen := Seen(k, p, a.read);
      if a.read.ReadError? then Counted(ReleaseRun(p', k, generation, plan[1..]))
      else if CountAt(seen, generation) <= 0 then Release(p', Delivered(k, p, a.read), NothingHeld, 1)
      else
        var k' := Touched(k, p, a.read, Moved(seen, generation, -1));
        if !a.lost && seen.version == p'.version then Release(Adjusted(seen, generation, -1, a.now), k', Taken, 1)
        else Counted(ReleaseRun(p', k', generation, plan[1..]))
  }

  function Counted(r: Release): Release {
    r.(used := r.used + 1)
  }

  // Minus one exactly once on top of what the others wrote, or nothing.
  ghost predicate TakesOnce(r: Release, p: PolicyStatus, generation: int, plan: seq<Attempt>) {
    && r.used <= |plan| && (r.used == 0 ==> r.result.GaveUp?) && (r.result.GaveUp? ==> r.used == |plan|)
    && r.stored == (if r.result.Taken? then Adjusted(Foreign(p, plan[..r.used]), generation, -1, plan[r.used - 1].now)
                    else Foreign(p, plan[..r.used]))
    && (r.result.Taken? ==> CountAt(Foreign(p, plan[..r.used]), generation) > 0)
    && (r.result.NothingHeld? ==> CountAt(Foreign(p, plan[..r.used - 1]), generation) <= 0)
  }

  lemma TakesOnceMore(r: Release, p: PolicyStatus, generation: int, plan: seq<Attempt>)
    requires plan != [] && TakesOnce(r, AllEdited(p, plan[0].foreign), generation, plan[1..])
    ensures TakesOnce(Counted(r), p, generation, plan)
  {
    OneMore(p, plan, r.used + 1, 0);
    if r.used > 0 { OneMore(p, plan, r.used, 0); }
  }

  // With private reads every failed read, conflict and lost write is harmless.
  lemma {:induction false} PrivateRelease(p: PolicyStatus, k: PolicyStatus, generation: int, plan: seq<Attempt>)
    requires Private(plan)
    ensures TakesOnce(ReleaseRun(p, k, generation, plan), p, generation, plan)
    decreases |plan|
  {
    if plan != [] {
      var a := plan[0];
      var p' := AllEdited(p, a.foreign);
      if !a.read.ReadError? && (CountAt(p, generation) <= 0 || (!a.lost && p.version == p'.version)) {
        OneMore(p, plan, 1, 0);
      } else {
        PrivateRelease(p', k, generation, plan[1..]);
        TakesOnceMore(ReleaseRun(p', k, generation, plan[1..]), p, generation, plan);
      }
    }
  }

  /**
   The bounded decrement loop, under any sequence of failed reads, late caches, conflicts and lost
   writes. PrivateRelease and ReleaseTakes say what that comes to.
   */
  method TryDecrement(store: PolicyStore, cache: PolicyCache, generation: int, plan: seq<Attempt>)
    returns (ok: bool, changed: bool, used: nat)
    modifies store, cache
    ensures var r := ReleaseRun(old(store.status), old(cache.policy), generation, plan);
            && store.status == r.stored && cache.policy == r.cached && used == r.used
            && ok == !r.result.GaveUp? && changed == r.result.Taken?
  {
    ghost var r := ReleaseRun(store.status, cache.policy, generation, plan);
    used := 0;
    while used < |plan|
      invariant 0 <= used <= |plan|
      invariant var rest := ReleaseRun(store.status, cache.policy, generation, plan[used..]);
                r == rest.(used := rest.used + used)
    {
      var a := plan[used];
      assert plan[used..][0] == a && plan[used..][1..] == plan[used + 1..];
      var before, cached := store.status, cache.policy;
      store.LandForeign(a.foreign);
      used := used + 1;
      if a.read.ReadError? {
        continue;
      }
      var copy := Seen(cached, before, a.read);
      cache.policy := Delivered(cached, before, a.read);
      if CountAt(copy, generation) <= 0 {
        return true, false, used;
      }
      var counts := Moved(copy, generation, -1);
      if a.read.Cached? {
        cache.policy := cache.policy.(counts := counts);
      }
      if a.lost {
        continue;
      }
      var written := store.Update(copy.(counts := counts, lastUpdate := Some(a.now)));
      if written {
        return true, true, used;
      }
    }
    return false, false, used;
  }

  ghost predicate TakesRight(r: Release, p: PolicyStatus, generation: int, plan: seq<Attempt>, off: nat) {
    && r.used <= |plan|
    && (r.result.Taken? ==>
          && r.used > 0 && CountAt(r.stored, generation) >= 0
          && r.stored == Adjusted(Foreign(p, plan[..r.used]), generation, -1 - LostBefore(off, plan[..r.used]), plan[r.used - 1].now))
    && (!r.result.Taken? ==> r.stored == Foreign(p, plan[..r.used]))
    && (r.result.GaveUp? ==> r.used == |plan|)
    && (r.result.NothingHeld? ==>
          && r.used > 0 && !plan[r.used - 1].read.ReadError?
          && (plan[r.used - 1].read.Direct? ==> CountAt(Foreign(p, plan[..r.used - 1]), generation) <= 0)
          && (plan[r.used - 1].read.Cached? ==> CountAt(r.cached, generation) <= 0))
  }

  lemma TakesOneMore(r: Release, p: PolicyStatus, generation: int, plan: seq<Attempt>, off: nat)
    requires plan != [] && TakesRight(r, AllEdited(p, plan[0].foreign), generation, plan[1..], LostAfter(off, plan[0]))
    ensures TakesRight(Counted(r), p, generation, plan, off)
  {
    OneMore(p, plan, r.used + 1, off);
    if r.used > 0 { OneMore(p, plan, r.used, off); }
  }

  /**
   The loop takes one from the counter for its own write and one more for every write it lost
   before on the cached object it wrote, on top of what the others wrote. Otherwise it changes
   nothing: what it read had no slot to give back, or it used up its attempts.
   */
  lemma {:induction false} ReleaseTakes(p: PolicyStatus, k: PolicyStatus, generation: int, plan: seq<Attempt>, off: nat)
    requires Plausible(p, plan) && OffBy(k, p, generation, Signed(-1, off))
    ensures TakesRight(ReleaseRun(p, k, generation, plan), p, generation, plan, off)
    decreases |plan|
  {
    if plan != [] {
      var a, rest := plan[0], plan[1..];
      var p' := AllEdited(p, a.foreign);
      var seen := Seen(k, p, a.read);
      if a.read.ReadError? {
        ReleaseTakes(p', k, generation, rest, off);
        TakesOneMore(ReleaseRun(p', k, generation, rest), p, generation, plan, off);
      } else if CountAt(seen, generation) <= 0 || (!a.lost && seen.version == p'.version) {
        OneMore(p, plan, 1, off);
        if CountAt(seen, generation) > 0 { WriteCarriesOff(p, k, generation, a, -1, off); }
      } else {
        var k' := Touched(k, p, a.read, Moved(seen, generation, -1));
        FailedWriteSpoils(p, k, generation, a, -1, off);
        ReleaseTakes(p', k', generation, rest, LostAfter(off, a));
        TakesOneMore(ReleaseRun(p', k', generation, rest), p, generation, plan, off);
      }
    }
  }

  // ---------- claim ----------

  datatype ClaimError = LimitReached | ConflictError | OtherError

  datatype Claim = Claim(stored: PolicyStatus, cached: PolicyStatus, err: Option<ClaimError>, used: nat)

  // What the increment loop comes to; `err` is the error of the attempt before.
  function ClaimRun(p: PolicyStatus, k: PolicyStatus, generation: int, max: int, plan: seq<Attempt>, err: ClaimError): (r: Claim)
    ensures r.used <= |plan|
    decreases |plan|
  {
    if plan == [] then Claim(p, k, Some(err), 0)
    else
      var a := plan[0];
      var p' := AllEdited(p, a.foreign);
      var seen := Seen(k, p, a.read);
      if ClaimLands(p, k, generation, max, a) then
        Claim(Adjusted(seen, generation, 1, a.now), Touched(k, p, a.read, Moved(seen, generation, 1)), None, 1)
      else
        var (k', err') := ClaimFails(p, k, generation, max, a);
        var r := ClaimRun(p', k', generation, max, plan[1..], err');
        r.(used := r.used + 1)
  }

  // An attempt to claim takes effect...
  predicate ClaimLands(p: PolicyStatus, k: PolicyStatus, generation: int, max: int, a: Attempt) {
    var seen := Seen(k, p, a.read);
    !a.read.ReadError? && CountAt(seen, generation) < max && !a.lost && seen.version == AllEdited(p, a.foreign).version
  }

  // ...or leaves the cache and an error behind.
  function ClaimFails(p: PolicyStatus, k: PolicyStatus, generation: int, max: int, a: Attempt): (PolicyStatus, ClaimError) {
    var seen := Seen(k, p, a.read);
    if a.read.ReadError? then (k, OtherError)
    else if CountAt(seen, generation) >= max then (Delivered(k, p, a.read), LimitReached)
    else (Touched(k, p, a.read, Moved(seen, generation, 1)), if a.lost then OtherError else ConflictError)
  }

  // Plus one exactly once, below the cap and on top of what the others wrote, or nothing.
  ghost predicate AddsOnce(r: Claim, p: PolicyStatus, generation: int, max: int, plan: seq<Attempt>) {
    && 0 < r.used <= |plan| && (r.err.Some? ==> r.used == |plan|)
    && r.stored == (if r.err.None? then Adjusted(Foreign(p, plan[..r.used]), generation, 1, plan[r.used - 1].now)
                    else Foreign(p, plan[..r.used]))
    && (r.err.None? ==> CountAt(Foreign(p, plan[..r.used]), generation) < max)
    && (r.err.Some? ==>
          var a, full := plan[r.used - 1], CountAt(Foreign(p, plan[..r.used - 1]), generation) >= max;
          && (r.err.value == LimitReached <==> !a.read.ReadError? && full)
          && (r.err.value == OtherError <==> a.read.ReadError? || (!full && a.lost))
          && (r.err.value == ConflictError <==> !a.read.ReadError? && !full && !a.lost)
          && (r.err.value == ConflictError ==> a.foreign != []))
  }

  lemma AddsOnceMore(r: Claim, p: PolicyStatus, generation: int, max: int, plan: seq<Attempt>)
    requires |plan| > 1 && AddsOnce(r, AllEdited(p, plan[0].foreign), generation, max, plan[1..])
    ensures AddsOnce(r.(used := r.used + 1), p, generation, max, plan)
  {
    OneMore(p, plan, r.used + 1, 0);
    OneMore(p, plan, r.used, 0);
  }

  // With private reads every failed read, conflict and lost write is harmless.
  lemma {:induction false} PrivateClaim(p: PolicyStatus, k: PolicyStatus, generation: int, max: int, plan: seq<Attempt>, err: ClaimError)
    requires Private(plan) && plan != []
    ensures AddsOnce(ClaimRun(p, k, generation, max, plan, err), p, generation, max, plan)
    decreases |plan|
  {
    var a, rest := plan[0], plan[1..];
    var p' := AllEdited(p, a.foreign);
    if ClaimLands(p, k, generation, max, a) || rest == [] {
      OneMore(p, plan, 1, 0);
    } else {
      var (k', err') := ClaimFails(p, k, generation, max, a);
      PrivateClaim(p', k', generation, max, rest, err');
      AddsOnceMore(ClaimRun(p', k', generation, max, rest, err'), p, generation, max, plan);
    }
  }

  /**
   The increment loop. A refusal at the cap is retried like any other error; the result is
   the last error. PrivateClaim and ClaimAdds say what that comes to.
   */
  method Increment(store: PolicyStore, cache: PolicyCache, generation: int, max: int, plan: seq<Attempt>)
    returns (err: Option<ClaimError>, used: nat)
    requires plan != []
    modifies store, cache
    ensures var r := ClaimRun(old(store.status), old(cache.policy), generation, max, plan, OtherError);
            store.status == r.stored && cache.policy == r.cached && err == r.err && used == r.used
  {
    ghost var r := ClaimRun(store.status, cache.policy, generation, max, plan, OtherError);
    used := 0;
    var last := OtherError;
    while used < |plan|
      invariant 0 <= used <= |plan|
      invariant var rest := ClaimRun(store.status, cache.policy, generation, max, plan[used..], last);
                r == rest.(used := rest.used + used)
    {
      var a := plan[used];
      assert plan[used..][0] == a && plan[used..][1..] == plan[used + 1..];
      var before, cached := store.status, cache.policy;
      store.LandForeign(a.foreign);
      used := used + 1;
      if a.read.ReadError? {
        last := OtherError;
        continue;
      }
      var copy := Seen(cached, before, a.read);
      cache.policy := Delivered(cached, before, a.read);
      if CountAt(copy, generation) >= max {
        last := LimitReached;
        continue;
      }
      var counts := Moved(copy, generation, 1);
      if a.read.Cached? && cache.policy.counts != map[] {
        cache.policy := cache.policy.(counts := counts);
      }
      if a.lost {
        last := OtherError;
        continue;
      }
      var written := store.Update(copy.(counts := counts, lastUpdate := Some(a.now)));
      if written {
        return None, used;
      }
      last := ConflictError;
    }
    return Some(last), used;
  }

  // What a successful claim adds to the counter.
  function Added(p: PolicyStatus, off: nat, plan: seq<Attempt>): int
    requires plan != []
  {
    1 + if p.counts == map[] then 0 else LostBefore(off, plan)
  }

  ghost predicate AddsRight(r: Claim, p: PolicyStatus, generation: int, max: int, plan: seq<Attempt>, off: nat) {
    && r.used <= |plan|
    && (r.err.None? ==>
          && r.used > 0 && CountAt(r.stored, generation) <= max
          && r.stored == Adjusted(Foreign(p, plan[..r.used]), generation, Added(Foreign(p, plan[..r.used]), off, plan[..r.used]), plan[r.used - 1].now))
    && (r.err.Some? ==> r.used == |plan| && r.stored == Foreign(p, plan[..r.used]))
    && (r.err == Some(LimitReached) && plan != [] ==>
          && !plan[r.used - 1].read.ReadError?
          && (plan[r.used - 1].read.Direct? ==> CountAt(Foreign(p, plan[..r.used - 1]), generation) >= max))
    && (r.err == Some(ConflictError) && plan != [] ==> !plan[r.used - 1].read.ReadError? && !plan[r.used - 1].lost)
    && (r.err == Some(OtherError) && plan != [] ==> plan[r.used - 1].read.ReadError? || plan[r.used - 1].lost)
  }

  lemma AddsOneMore(r: Claim, p: PolicyStatus, generation: int, max: int, plan: seq<Attempt>, off: nat)
    requires |plan| > 1 && AddsRight(r, AllEdited(p, plan[0].foreign), generation, max, plan[1..], LostAfter(off, plan[0]))
    ensures AddsRight(r.(used := r.used + 1), p, generation, max, plan, off)
  {
    OneMore(p, plan, r.used + 1, off);
    if r.used > 0 { OneMore(p, plan, r.used, off); }
  }

  // The cache is off by what was lost, or it shows a count that no claim gets past.
  ghost predicate CacheFor(k: PolicyStatus, p: PolicyStatus, generation: int, max: int, off: nat) {
    OffBy(k, p, generation, off) || (k.version <= p.version && CountAt(k, generation) >= max)
  }

  lemma LandedClaimAdds(p: PolicyStatus, k: PolicyStatus, generation: int, max: int, plan: seq<Attempt>, off: nat)
    requires plan != [] && PlausibleRead(p, plan[0].read)
    requires CacheFor(k, p, generation, max, off) && ClaimLands(p, k, generation, max, plan[0])
    ensures var a := plan[0];
            var seen := Seen(k, p, a.read);
            AddsRight(Claim(Adjusted(seen, generation, 1, a.now), Touched(k, p, a.read, Moved(seen, generation, 1)), None, 1), p, generation, max, plan, off)
  {
    OneMore(p, plan, 1, off);
    if OffBy(k, p, generation, off) {
      WriteCarriesOff(p, k, generation, plan[0], 1, off);
    } else {
      WriteCarriesOff(p, p, generation, plan[0], 1, 0);
    }
  }

  lemma FailedClaimSpoils(p: PolicyStatus, k: PolicyStatus, generation: int, max: int, a: Attempt, off: nat)
    requires PlausibleRead(p, a.read) && CacheFor(k, p, generation, max, off) && !ClaimLands(p, k, generation, max, a)
    ensures CacheFor(ClaimFails(p, k, generation, max, a).0, AllEdited(p, a.foreign), generation, max, LostAfter(off, a))
  {
    var seen := Seen(k, p, a.read);
    if !a.read.ReadError? && CountAt(seen, generation) < max {
      if OffBy(k, p, generation, off) {
        FailedWriteSpoils(p, k, generation, a, 1, off);
      } else {
        FailedWriteSpoils(p, p, generation, a, 1, 0);
      }
    }
  }

  /**
   A claim adds one for its own write and one more for every write it lost before on the cached
   object it wrote, and stays within the cap; a failed one changes nothing, and one refused at
   the cap had read a full counter.
   */
  lemma {:induction false} ClaimAdds(p: PolicyStatus, k: PolicyStatus, generation: int, max: int, plan: seq<Attempt>, err: ClaimError, off: nat)
    requires Plausible(p, plan) && CacheFor(k, p, generation, max, off)
    ensures AddsRight(ClaimRun(p, k, generation, max, plan, err), p, generation, max, plan, off)
    decreases |plan|
  {
    if plan != [] {
      var a, rest := plan[0], plan[1..];
      var p' := AllEdited(p, a.foreign);
      if ClaimLands(p, k, generation, max, a) {
        LandedClaimAdds(p, k, generation, max, plan, off);
      } else {
        var (k', err') := ClaimFails(p, k, generation, max, a);
        FailedClaimSpoils(p, k, generation, max, a, off);
        ClaimAdds(p', k', generation, max, rest, err', LostAfter(off, a));
        if rest != [] {
          AddsOneMore(ClaimRun(p', k', generation, max, rest, err'), p, generation, max, plan, off);
        } else {
          OneMore(p, plan, 1, off);
        }
      }
    }
  }

  // ---------- audit ----------

  const GRACE_WINDOW: int := 30

  predicate Deferred(p: PolicyStatus, now: int) {
    p.lastUpdate.Some? && now - p.lastUpdate.value < GRACE_WINDOW
  }

  // What an undisturbed audit leaves behind, and whether it wrote.
  function AuditResult(p: PolicyStatus, generation: int, items: seq<Nnce>, now: int, threshold: int): (r: (PolicyStatus, bool)) {
    var holders := HolderCount(items, generation, now, threshold);
    if Deferred(p, now) || CountAt(p, generation) == 0 || holders >= CountAt(p, generation) then (p, false)
    else (PolicyStatus(p.version + 1, p.counts[generation := holders], Some(now)), true)
  }

  // Thirty seconds, and the moment they are over no longer counts.
  lemma GraceIsThirtySeconds(p: PolicyStatus, now: int)
    ensures Deferred(p, now) <==> p.lastUpdate.Some? && now < p.lastUpdate.value + 30
  {
  }

  // An audit has nothing to do: it is deferred, no slot is taken, or all that are taken are held.
  predicate NothingToRepair(p: PolicyStatus, generation: int, a: Attempt, threshold: int) {
    || Deferred(p, a.now) || CountAt(p, generation) == 0
    || (a.listing.Some? && HolderCount(a.listing.value, generation, a.now, threshold) >= CountAt(p, generation))
  }

  lemma {:induction false} ForeignSnoc(p: PolicyStatus, plan: seq<Attempt>, n: nat)
    requires n < |plan|
    ensures Foreign(p, plan[..n + 1]) == AllEdited(Foreign(p, plan[..n]), plan[n].foreign)
    decreases n
  {
    assert plan[..n + 1][1..] == plan[1..][..n];
    if n > 0 {
      ForeignSnoc(AllEdited(p, plan[0].foreign), plan[1..], n - 1);
      assert plan[..n][1..] == plan[1..][..n - 1];
    }
  }

  /**
   The audit: set to truth, retried on conflict only. It repairs once, on top of what the
   others wrote and to the holders listed in that attempt, or changes nothing. Every attempt but
   the last met a foreign write; the last one had nothing to repair, or failed to read, list or
   write, or met a foreign write when no attempts were left.
   */
  method AuditUnavailableSlots(store: PolicyStore, generation: int, threshold: int, plan: seq<Attempt>)
    returns (repaired: bool, failed: bool, used: nat)
    requires plan != [] && forall i | 0 <= i < |plan| :: !plan[i].read.Cached?
    modifies store
    ensures 0 < used <= |plan|
    ensures repaired ==>
              && !failed && plan[used - 1].listing.Some?
              && AuditResult(Foreign(old(store.status), plan[..used]), generation, plan[used - 1].listing.value, plan[used - 1].now, threshold)
                 == (store.status, true)
    ensures !repaired ==> store.status == Foreign(old(store.status), plan[..used])
    ensures forall i | 0 <= i < used - 1 :: plan[i].foreign != []
    ensures var a, p := plan[used - 1], Foreign(old(store.status), plan[..used - 1]);
            var idle := !a.read.ReadError? && NothingToRepair(p, generation, a, threshold);
            && (!failed && !repaired <==> idle)
            && (failed <==> !idle && (a.read.ReadError? || a.listing.None? || a.lost || a.foreign != []))
            && (failed && !a.read.ReadError? && a.listing.Some? && !a.lost ==> used == |plan|)
    ensures Quiet(plan) && plan[0].listing.Some? ==>
              used == 1 && !failed
              && (store.status, repaired) == AuditResult(old(store.status), generation, plan[0].listing.value, plan[0].now, threshold)
    ensures Quiet(plan) && plan[0].listing.None? ==> !repaired && store.status == old(store.status)
  {
    ghost var start := store.status;
    used := 0;
    while used < |plan|
      invariant 0 <= used <= |plan|
      invariant store.status == Foreign(start, plan[..used])
      invariant Quiet(plan) ==> used == 0
      invariant forall i | 0 <= i < used :: plan[i].foreign != []
      invariant used > 0 ==>
                  var a, p := plan[used - 1], Foreign(start, plan[..used - 1]);
                  !a.read.ReadError? && a.listing.Some? && !a.lost && !NothingToRepair(p, generation, a, threshold)
    {
      var a := plan[used];
      ForeignSnoc(start, plan, used);
      var copy := store.status;
      store.LandForeign(a.foreign);
      used := used + 1;
      if a.read.ReadError? {
        return false, true, used;
      }
      if Deferred(copy, a.now) || CountAt(copy, generation) == 0 {
        return false, false, used;
      }
      if a.listing.None? {
        return false, true, used;
      }
      var holders := CountSlotHolders(a.listing.value, generation, a.now, threshold);
      if holders >= CountAt(copy, generation) {
        return false, false, used;
      }
      if a.lost {
        return false, true, used;
      }
      var written := store.Update(copy.(counts := copy.counts[generation := holders], lastUpdate := Some(a.now)));
      if written {
        assert a.foreign == [];
        return true, false, used;
      }
    }
    return false, true, used;
  }

  // ---------- the whole claim ----------

  lemma {:induction false} QuietChangesNothing(p: PolicyStatus, plan: seq<Attempt>)
    requires Quiet(plan)
    ensures Foreign(p, plan) == p && Plausible(p, plan)
    decreases |plan|
  {
    if plan != [] {
      QuietChangesNothing(p, plan[1..]);
    }
  }

  // Undisturbed, a release takes one if anything is held...
  lemma QuietRelease(p: PolicyStatus, k: PolicyStatus, generation: int, plan: seq<Attempt>)
    requires Quiet(plan) && plan != []
    ensures var r := ReleaseRun(p, k, generation, plan);
            if CountAt(p, generation) > 0 then r.result.Taken? && r.stored == Adjusted(p, generation, -1, plan[0].now)
            else r.result.NothingHeld? && r.stored == p
  {
  }

  // ...and a claim adds one if there is room.
  lemma {:induction false} QuietClaim(p: PolicyStatus, k: PolicyStatus, generation: int, max: int, plan: seq<Attempt>, err: ClaimError)
    requires Quiet(plan) && plan != []
    ensures var r := ClaimRun(p, k, generation, max, plan, err);
            if CountAt(p, generation) < max then r.err.None? && r.stored == Adjusted(p, generation, 1, plan[0].now)
            else r.err == Some(LimitReached) && r.stored == p
    decreases |plan|
  {
    if |plan| > 1 && CountAt(p, generation) >= max {
      QuietClaim(p, k, generation, max, plan[1..], LimitReached);
    }
  }

  // What a claim comes to on a quiet cluster: claimed directly, or after freeing ghost slots.
  predicate ClaimSucceeds(p: PolicyStatus, generation: int, max: int, holders: int, now: int) {
    CountAt(p, generation) < max || (!Deferred(p, now) && holders < max)
  }

  method ClaimUnavailableSlot(store: PolicyStore, cache: PolicyCache, generation: int, max: int, threshold: int,
                              first: seq<Attempt>, audit: seq<Attempt>, second: seq<Attempt>)
    returns (err: Option<ClaimError>)
    requires max >= 1 && first != [] && audit != [] && second != []
    requires Quiet(first) && Quiet(audit) && Quiet(second) && audit[0].listing.Some?
    modifies store, cache
    ensures var holders := HolderCount(audit[0].listing.value, generation, audit[0].now, threshold);
            var before := CountAt(old(store.status), generation);
            var after := CountAt(store.status, generation);
            && (err.None? <==> ClaimSucceeds(old(store.status), generation, max, holders, audit[0].now))
            && (err.None? ==> after == (if before < max then before + 1 else holders + 1) && after <= max)
            && (err.Some? ==> err.value == LimitReached && after == (if Deferred(old(store.status), audit[0].now) || holders >= before then before else holders))
            && forall g | g != generation :: CountAt(store.status, g) == CountAt(old(store.status), g)
  {
    QuietClaim(store.status, cache.policy, generation, max, first, OtherError);
    var used;
    err, used := Increment(store, cache, generation, max, first);
    if err != Some(LimitReached) {
      return;
    }
    var repaired, failed, n := AuditUnavailableSlots(store, generation, threshold, audit);
    if failed || !repaired {
      return;
    }
    QuietClaim(store.status, cache.policy, generation, max, second, OtherError);
    err, used := Increment(store, cache, generation, max, second);
  }

  // ---------- what a lost write on a cached object does ----------

  // The release exceeds its one slot exactly if the object it wrote had been spoilt.
  lemma ReleaseTakesOneExactly(p: PolicyStatus, k: PolicyStatus, generation: int, plan: seq<Attempt>)
    requires Plausible(p, plan) && OffBy(k, p, generation, 0) && ReleaseRun(p, k, generation, plan).result.Taken?
    ensures var r := ReleaseRun(p, k, generation, plan);
            && r.used > 0
            && (r.stored == Adjusted(Foreign(p, plan[..r.used]), generation, -1, plan[r.used - 1].now)
                <==> !plan[r.used - 1].read.Cached? || forall i :: !SpoilsLast(plan[..r.used], i))
  {
    var r := ReleaseRun(p, k, generation, plan);
    ReleaseTakes(p, k, generation, plan, 0);
    NothingLostExactly(0, plan[..r.used]);
    AdjustedTells(Foreign(p, plan[..r.used]), generation, -1, -1 - LostBefore(0, plan[..r.used]), plan[r.used - 1].now);
  }

  // And so for a claim, except that counts which are not there yet are never shared.
  lemma ClaimAddsOneExactly(p: PolicyStatus, k: PolicyStatus, generation: int, max: int, plan: seq<Attempt>, err: ClaimError)
    requires Plausible(p, plan) && OffBy(k, p, generation, 0) && ClaimRun(p, k, generation, max, plan, err).err.None?
    ensures var r := ClaimRun(p, k, generation, max, plan, err);
            && r.used > 0
            && (r.stored == Adjusted(Foreign(p, plan[..r.used]), generation, 1, plan[r.used - 1].now)
                <==> || Foreign(p, plan[..r.used]).counts == map[]
                     || !plan[r.used - 1].read.Cached? || forall i :: !SpoilsLast(plan[..r.used], i))
  {
    var r := ClaimRun(p, k, generation, max, plan, err);
    ClaimAdds(p, k, generation, max, plan, err, 0);
    NothingLostExactly(0, plan[..r.used]);
    var f := Foreign(p, plan[..r.used]);
    AdjustedTells(f, generation, 1, Added(f, 0, plan[..r.used]), plan[r.used - 1].now);
  }

  lemma AdjustedTells(p: PolicyStatus, generation: int, d: int, d': int, now: int)
    ensures Adjusted(p, generation, d, now) == Adjusted(p, generation, d', now) <==> d == d'
  {
    assert CountAt(Adjusted(p, generation, d, now), generation) == CountAt(p, generation) + d;
    assert CountAt(Adjusted(p, generation, d', now), generation) == CountAt(p, generation) + d';
  }

  // One cached read whose write is lost, and a second one before the informer hands over anything.
  function LostOnce(t: int, t': int): seq<Attempt> {
    [Attempt(Cached(Latest), [], true, None, t), Attempt(Cached(Nothing), [], false, None, t')]
  }

  // With two slots or more taken the release takes two of them, one of somebody else; with only
  // its own taken it reports a release that was never written.
  lemma LostReleaseFreesAnother(p: PolicyStatus, k: PolicyStatus, generation: int, t: int, t': int)
    requires CountAt(p, generation) >= 1
    ensures var r := ReleaseRun(p, k, generation, LostOnce(t, t'));
            if CountAt(p, generation) >= 2 then r.result.Taken? && CountAt(r.stored, generation) == CountAt(p, generation) - 2
            else r.result.NothingHeld? && r.stored == p
  {
    var plan := LostOnce(t, t');
    assert plan[1..] == [plan[1]];
  }

  // A claim in the same situation takes two slots, or is refused with one slot free.
  lemma LostClaimTakesTwo(p: PolicyStatus, k: PolicyStatus, generation: int, max: int, t: int, t': int)
    requires CountAt(p, generation) < max && p.counts != map[]
    ensures var r := ClaimRun(p, k, generation, max, LostOnce(t, t'), OtherError);
            if CountAt(p, generation) + 1 < max then r.err.None? && CountAt(r.stored, generation) == CountAt(p, generation) + 2
            else r.err == Some(LimitReached) && r.stored == p
  {
    var plan := LostOnce(t, t');
    assert plan[1..] == [plan[1]] && plan[1..][1..] == [];
    var k' := p.(counts := Moved(p, generation, 1));
    assert CountAt(k', generation) >= max ==> ClaimRun(p, k', generation, max, plan[1..], OtherError).err == Some(LimitReached);
  }

  // ---------- audits repeat harmlessly ----------

  function Audits(p: PolicyStatus, generation: int, items: seq<Nnce>, times: seq<int>, threshold: int): PolicyStatus {
    if times == [] then p
    else AuditResult(Audits(p, generation, items, times[..|times| - 1], threshold), generation, items, times[|times| - 1], threshold).0
  }

  predicate Nondecreasing(times: seq<int>) {
    forall i, j | 0 <= i < j < |times| :: times[i] <= times[j]
  }

  function Min(a: int, b: int): int {
    if a <= b then a else b
  }

  /**
   Any number of audits of the same enactments as time goes on: the counter is never raised and
   never set below the holders left at the end. If the last audit is not deferred, it leaves the
   smaller of the first count and those holders, as if it had been the only one.
   */
  lemma {:induction false} AuditsSettle(p: PolicyStatus, generation: int, items: seq<Nnce>, times: seq<int>, threshold: int)
    requires times != [] && Nondecreasing(times) && CountAt(p, generation) >= 0
    ensures var n := |times| - 1;
            var holders := HolderCount(items, generation, times[n], threshold);
            var r := Audits(p, generation, items, times, threshold);
            && Min(CountAt(p, generation), holders) <= CountAt(r, generation) <= CountAt(p, generation)
            && (!Deferred(Audits(p, generation, items, times[..n], threshold), times[n])
                ==> CountAt(r, generation) == Min(CountAt(p, generation), holders))
    decreases |times|
  {
    var n := |times| - 1;
    if n == 0 {
      assert times[..0] == [];
    } else {
      AuditsSettle(p, generation, items, times[..n], threshold);
      HoldersAge(items, generation, times[n - 1], times[n], threshold);
    }
  }

  // Audits at one moment write at most once.
  lemma {:induction false} AuditsAtOnce(p: PolicyStatus, generation: int, items: seq<Nnce>, times: seq<int>, threshold: int)
    requires times != [] && forall i | 0 <= i < |times| :: times[i] == times[0]
    ensures Audits(p, generation, items, times, threshold) == AuditResult(p, generation, items, times[0], threshold).0
    decreases |times|
  {
    var n := |times| - 1;
    if n == 0 {
      assert times[..0] == [];
    } else {
      AuditsAtOnce(p, generation, items, times[..n], threshold);
    }
  }
}

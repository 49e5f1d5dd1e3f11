/**
 The load measure of an API's queue: the number of outstanding calls, its exponentially
 weighted mean, and the container count derived from the mean
 (engine/src/juliabox/api/api_queue.py, api_connector.py, api_container.py).
 Numbers are exact reals, not floating point.
 */
module ApiQueue {

  const BUFFER_SZ: int := 20
  const QLEN_WT: real := 0.25

  datatype Stat = Stat(num: int, mean: real)

  const FRESH := Stat(0, 0.0)

  // incr_outstanding
  function Incr(q: Stat, n: int): Stat {
    var num := q.num + n;
    Stat(num, (QLEN_WT * q.mean + num as real) / (1.0 + QLEN_WT))
  }

  // The admission test of send_recv.
  predicate Admits(q: Stat) {
    q.mean < BUFFER_SZ as real
  }

  // The mean never strays a quarter from the number it follows.
  predicate IsNear(q: Stat) {
    -0.25 < q.mean - q.num as real < 0.25
  }

  class APIQueue {
    var numOutstanding: int
    var meanOutstanding: real

    ghost function State(): Stat
      reads this
    {
      Stat(numOutstanding, meanOutstanding)
    }

    constructor ()
      ensures State() == FRESH
    {
      numOutstanding, meanOutstanding := 0, 0.0;
    }

    method Reset()
      modifies this
      ensures State() == FRESH
    {
      numOutstanding := 0;
      meanOutstanding := 0.0;
    }

    // Calls and releases change the number by one at a time, idle passes by nothing; each
    // keeps the mean near the number.
    method IncrOutstanding(n: int)
      modifies this
      ensures State() == Incr(old(State()), n)
      ensures IsNear(old(State())) && -1 <= n <= 1 ==> IsNear(State())
    {
      numOutstanding := numOutstanding + n;
      meanOutstanding := (QLEN_WT * meanOutstanding + numOutstanding as real) / (1.0 + QLEN_WT);
      StaysNear(old(State()), n);
    }
  }

  lemma IncrMean(q: Stat, n: int)
    ensures Incr(q, n).mean == 0.2 * q.mean + 0.8 * (Incr(q, n).num as real)
  {
  }

  lemma StaysNear(q: Stat, n: int)
    ensures IsNear(q) && -1 <= n <= 1 ==> IsNear(Incr(q, n))
  {
    IncrMean(q, n);
  }

  // A quarter is the least such bound: a run of calls brings the distance as close to it as
  // one likes.
  function Calls(k: nat): Stat {
    if k == 0 then FRESH else Incr(Calls(k - 1), 1)
  }

  function Fifth(k: nat): real {
    if k == 0 then 1.0 else Fifth(k - 1) / 5.0
  }

  lemma {:induction false} DistanceAfterCalls(k: nat)
    ensures Calls(k).num == k
    ensures Calls(k).num as real - Calls(k).mean == 0.25 * (1.0 - Fifth(k))
    ensures 0.0 < Fifth(k) <= 1.0
  {
    if k > 0 {
      DistanceAfterCalls(k - 1);
      IncrMean(Calls(k - 1), 1);
    }
  }

  // Admission keeps the number of outstanding calls at or below BUFFER_SZ + 1.
  lemma AdmissionCaps(q: Stat)
    requires IsNear(q) && Admits(q)
    ensures Incr(q, 1).num <= BUFFER_SZ + 1
  {
  }

  // And that many calls are indeed admitted, one after the other, from a fresh queue.
  lemma CapIsReached(k: nat)
    requires k <= BUFFER_SZ
    ensures Admits(Calls(k)) && Calls(BUFFER_SZ + 1).num == BUFFER_SZ + 1
  {
    DistanceAfterCalls(k);
    DistanceAfterCalls(BUFFER_SZ + 1);
  }

  // ---------- Desired container counts ----------

  function Min(a: int, b: int): int {
    if a < b then a else b
  }

  // One API's part of calc_desired_container_counts.
  function Desired(desired: int, mean: real, maxPerApi: int): int {
    if mean > 1.0 then Min(desired + mean.Floor, maxPerApi)
    else if mean < 0.01 then 0
    else if mean < 0.5 && desired > 1 then desired - 1
    else if desired > 1 then desired else 1
  }

  // The mean is recalculated when no calls are coming.
  function AfterPass(q: Stat): Stat {
    if q.num == 0 then Incr(q, 0) else q
  }

  lemma DesiredInRange(desired: int, mean: real, maxPerApi: int)
    requires maxPerApi >= 1 && 0 <= desired <= maxPerApi
    ensures 0 <= Desired(desired, mean, maxPerApi) <= maxPerApi
    ensures mean > 1.0 ==> Desired(desired, mean, maxPerApi) > desired || Desired(desired, mean, maxPerApi) == maxPerApi
  {
  }

  // What one recalculation does, by the number of calls outstanding: with two or more the count
  // grows by as many calls as the mean has in full, with none it shrinks by one and at last to 0.
  lemma DesiredByCalls(q: Stat, desired: int, maxPerApi: int)
    requires IsNear(q) && q.num >= 0 && maxPerApi >= 1 && 0 <= desired <= maxPerApi
    ensures var d := Desired(desired, q.mean, maxPerApi);
            && (q.num >= 2 ==>
                  var full := if q.mean >= q.num as real then q.num else q.num - 1;
                  d == if desired + full <= maxPerApi then desired + full else maxPerApi)
            && (q.num == 1 ==>
                  d == if q.mean <= 1.0 then (if desired == 0 then 1 else desired)
                       else if desired < maxPerApi then desired + 1 else desired)
            && (q.num == 0 ==> d == if q.mean < 0.01 then 0 else if desired >= 2 then desired - 1 else 1)
  {
    if q.num >= 1 && q.mean > 1.0 {
      var full := if q.mean >= q.num as real then q.num else q.num - 1;
      assert full as real <= q.mean < (full + 1) as real;
      assert q.mean.Floor == full;
    }
  }

  // Calls outstanding are never left without a container.
  lemma OutstandingWantsContainer(q: Stat, desired: int, maxPerApi: int)
    requires IsNear(q) && q.num >= 1 && desired >= 0 && maxPerApi >= 1
    ensures Desired(desired, q.mean, maxPerApi) >= 1
  {
  }

  // The desired count and the queue after n idle passes.
  function IdlePasses(desired: int, q: Stat, maxPerApi: int, n: nat): (int, Stat)
    decreases n
  {
    if n == 0 then (desired, q)
    else IdlePasses(Desired(desired, q.mean, maxPerApi), AfterPass(q), maxPerApi, n - 1)
  }

  // From the third idle pass on the desired count is 0.
  lemma {:induction false} IdleDrainsByThirdPass(desired: int, q: Stat, maxPerApi: int, n: nat)
    requires IsNear(q) && q.num == 0 && n >= 3
    ensures IdlePasses(desired, q, maxPerApi, n).0 == 0
  {
    var q1 := AfterPass(q);
    var q2 := AfterPass(q1);
    IncrMean(q, 0);
    IncrMean(q1, 0);
    assert q2.mean < 0.01 && IsNear(q2);
    var d2 := Desired(Desired(desired, q.mean, maxPerApi), q1.mean, maxPerApi);
    assert IdlePasses(desired, q, maxPerApi, n) == IdlePasses(Desired(desired, q.mean, maxPerApi), q1, maxPerApi, n - 1);
    StaysDrained(d2, q2, maxPerApi, n - 2);
  }

  lemma {:induction false} StaysDrained(desired: int, q: Stat, maxPerApi: int, n: nat)
    requires q.num == 0 && q.mean < 0.01 && n >= 1
    ensures IdlePasses(desired, q, maxPerApi, n).0 == 0
    decreases n
  {
    IncrMean(q, 0);
    if n > 1 {
      StaysDrained(Desired(desired, q.mean, maxPerApi), AfterPass(q), maxPerApi, n - 1);
    }
  }

  // Not always before the third: after a single call that was answered, two idle passes leave
  // a container wanted.
  lemma TwoPassesAreNotEnough(maxPerApi: int)
    requires maxPerApi >= 1
    ensures var q := Incr(Incr(FRESH, 1), -1);
            q.num == 0 && IdlePasses(1, q, maxPerApi, 2).0 == 1 && IdlePasses(1, q, maxPerApi, 3).0 == 0
  {
    var q := Incr(Incr(FRESH, 1), -1);
    assert q.mean == 0.16;
    var q1 := AfterPass(q);
    assert q1.mean == 0.032;
    assert IdlePasses(1, q, maxPerApi, 2) == IdlePasses(1, q1, maxPerApi, 1);
    StaysNear(FRESH, 1);
    StaysNear(Incr(FRESH, 1), -1);
    IdleDrainsByThirdPass(1, q, maxPerApi, 3);
  }
}

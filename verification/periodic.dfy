/** `PeriodicUpdated`: the refresh gate that decides when the cumulative
    distribution is rebuilt. Its state is the time of the last firing and a
    period of at least one second; times are Java `long`s. */
module PeriodicUpdated {
  import opened JavaOps

  datatype Gate = Gate(lastUpdate: int, period: int)

  /** The invariant every constructed gate keeps. */
  predicate Valid(g: Gate) {
    IsLong(g.lastUpdate) && g.period >= 1 && g.period <= 0x7fff_ffff
  }

  /** The constructor: a fresh gate has never fired (`Long.MIN_VALUE`) and its
      period is the argument when that is positive, and one second otherwise. */
  function NewGate(periodInSecond: int): (g: Gate)
    requires periodInSecond <= 0x7fff_ffff
    ensures Valid(g)
    ensures g.lastUpdate == LONG_MIN
    ensures periodInSecond > 0 ==> g.period == periodInSecond
    ensures periodInSecond <= 0 ==> g.period == 1
  {
    Gate(LONG_MIN, if periodInSecond > 0 then periodInSecond else 1)
  }

  /** Whether the gate fires at time `t` (the long sum of the last update and
      the period does not exceed `t`), together with the gate afterwards. */
  function Test(g: Gate, t: int): (res: (bool, Gate))
    requires Valid(g) && IsLong(t)
    ensures Valid(res.1)
    ensures res.1.period == g.period
    ensures res.0 ==> res.1.lastUpdate == t
    ensures !res.0 ==> res.1 == g
    ensures g.lastUpdate + g.period <= LONG_MAX ==> (res.0 <==> g.lastUpdate + g.period <= t)
  {
    if WrapLong(g.lastUpdate + g.period) <= t then (true, g.(lastUpdate := t)) else (false, g)
  }

  /** A fresh gate fires on its first test at any time from `Long.MIN_VALUE`
      plus the period on. */
  lemma FreshGateFires(periodInSecond: int, t: int)
    requires periodInSecond <= 0x7fff_ffff && IsLong(t)
    requires t >= LONG_MIN + NewGate(periodInSecond).period
    ensures Test(NewGate(periodInSecond), t).0
  {
  }

  /** After a firing at `t`, every earlier time and every time before `t`
      plus the period is refused, and `t` plus the period fires again (as long
      as that sum stays inside the `long` range). */
  lemma QuietForOnePeriod(g: Gate, t: int, t': int)
    requires Valid(g) && IsLong(t) && IsLong(t')
    requires Test(g, t).0
    requires t + g.period <= LONG_MAX
    ensures t' < t + g.period ==> !Test(Test(g, t).1, t').0
    ensures t' == t + g.period ==> Test(Test(g, t).1, t').0
    ensures t' < t ==> !Test(Test(g, t).1, t').0
  {
  }

  /** The gate run over a sequence of test times: which tests fired, and the
      gate afterwards. */
  function Run(g: Gate, ts: seq<int>): (res: (seq<bool>, Gate))
    requires Valid(g)
    requires forall i :: 0 <= i < |ts| ==> IsLong(ts[i])
    ensures |res.0| == |ts|
    ensures Valid(res.1)
    ensures res.1.period == g.period
    decreases |ts|
  {
    if |ts| == 0 then ([], g)
    else
      var (fired, g') := Test(g, ts[0]);
      var (rest, last) := Run(g', ts[1..]);
      ([fired] + rest, last)
  }

  predicate NoOverflow(g: Gate, ts: seq<int>) {
    && g.lastUpdate + g.period <= LONG_MAX
    && forall i :: 0 <= i < |ts| ==> IsLong(ts[i]) && ts[i] + g.period <= LONG_MAX
  }

  /** Every firing during a run happens at least one period after the last
      update the run started from. */
  lemma {:induction false} FiringAfterLastUpdate(g: Gate, ts: seq<int>, j: int)
    requires Valid(g) && NoOverflow(g, ts)
    requires 0 <= j < |ts| && Run(g, ts).0[j]
    ensures ts[j] >= g.lastUpdate + g.period
    decreases |ts|
  {
    var (fired, g') := Test(g, ts[0]);
    if j > 0 {
      assert Run(g, ts).0[j] == Run(g', ts[1..]).0[j - 1];
      assert NoOverflow(g', ts[1..]);
      FiringAfterLastUpdate(g', ts[1..], j - 1);
      assert g'.lastUpdate >= g.lastUpdate;
    }
  }

  /** Firings are spaced: whatever the order of the test times, two firings of
      one run are at least one period apart in the order they happened. */
  lemma {:induction false} FiringsSpaced(g: Gate, ts: seq<int>, i: int, j: int)
    requires Valid(g) && NoOverflow(g, ts)
    requires 0 <= i < j < |ts|
    requires Run(g, ts).0[i] && Run(g, ts).0[j]
    ensures ts[j] >= ts[i] + g.period
    decreases |ts|
  {
    var (fired, g') := Test(g, ts[0]);
    assert NoOverflow(g', ts[1..]);
    assert Run(g, ts).0[j] == Run(g', ts[1..]).0[j - 1];
    if i == 0 {
      assert g'.lastUpdate == ts[0];
      FiringAfterLastUpdate(g', ts[1..], j - 1);
    } else {
      assert Run(g, ts).0[i] == Run(g', ts[1..]).0[i - 1];
      FiringsSpaced(g', ts[1..], i - 1, j - 1);
    }
  }
}

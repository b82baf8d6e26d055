/** `package_is_faulted`: when faults of one package come too often. */
module FaultWindow {
  /** WIDGET_CONF_FAULT_DETECT_COUNT and WIDGET_CONF_FAULT_DETECT_IN_TIME. */
  datatype Limits = Limits(count: nat, inTime: real)

  /** `fault_count` and `faulted_at` of a package record. */
  datatype Counter = Counter(count: nat, since: real)

  /** The record as `calloc` leaves it. */
  const ZEROED := Counter(0, 0.0)

  class PackageInfo {
    var faultCount: nat
    var faultedAt: real

    constructor ()
      ensures View() == ZEROED
    {
      faultCount, faultedAt := 0, 0.0;
    }

    function View(): Counter
      reads this
    {
      Counter(faultCount, faultedAt)
    }

    method IsFaulted(timestamp: real, conf: Limits) returns (ret: bool)
      modifies this
      ensures View() == Note(old(View()), timestamp, conf)
      ensures ret == Trips(old(View()), timestamp, conf)
    {
      if timestamp - faultedAt < conf.inTime {
        faultCount := faultCount + 1;
      } else {
        faultCount := 1;
        faultedAt := timestamp;
      }
      if faultCount > conf.count {
        faultCount := 0;
        faultedAt := timestamp;
        return true;
      }
      return false;
    }
  }

  predicate InWindow(w: Counter, t: real, conf: Limits) {
    t - w.since < conf.inTime
  }

  /** Whether a fault at `t` is reported: it is one more than allowed in this window. */
  predicate Trips(w: Counter, t: real, conf: Limits) {
    if InWindow(w, t, conf) then w.count >= conf.count else conf.count == 0
  }

  function Note(w: Counter, t: real, conf: Limits): Counter {
    if Trips(w, t, conf) then Counter(0, t)
    else if InWindow(w, t, conf) then w.(count := w.count + 1)
    else Counter(1, t)
  }

  // ---------------------------------------------------------------- runs

  /** The record after the faults `ts`. */
  function After(ts: seq<real>, conf: Limits): Counter {
    if ts == [] then ZEROED
    else Note(After(ts[..|ts| - 1], conf), ts[|ts| - 1], conf)
  }

  /** Fault number `j` was reported. */
  predicate Reported(ts: seq<real>, j: nat, conf: Limits)
    requires j < |ts|
  {
    Trips(After(ts[..j], conf), ts[j], conf)
  }

  function Reports(ts: seq<real>, conf: Limits): nat {
    if ts == [] then 0
    else Reports(ts[..|ts| - 1], conf) + if Reported(ts, |ts| - 1, conf) then 1 else 0
  }

  ghost predicate Ordered(ts: seq<real>) {
    (ts != [] ==> ts[0] >= 0.0) && forall i, j :: 0 <= i <= j < |ts| ==> ts[i] <= ts[j]
  }

  lemma AfterOne(ts: seq<real>, j: nat, conf: Limits)
    requires j < |ts|
    ensures After(ts[..j + 1], conf) == Note(After(ts[..j], conf), ts[j], conf)
  {
    assert ts[..j + 1][..j] == ts[..j];
  }

  /** The counter counts the latest faults, all of them since `since` and within the time. */
  lemma {:induction false} CountsTheLatest(ts: seq<real>, n: nat, conf: Limits)
    requires Ordered(ts) && n <= |ts|
    ensures var w := After(ts[..n], conf);
            && w.count <= n && w.count <= conf.count && w.since >= 0.0
            && (n > 0 ==> w.since <= ts[n - 1])
            && forall k :: n - w.count <= k < n ==>
                 w.since <= ts[k] && (ts[k] - w.since < conf.inTime || ts[k] == w.since)
    decreases n
  {
    if n > 0 {
      CountsTheLatest(ts, n - 1, conf);
      AfterOne(ts, n - 1, conf);
    }
  }

  /** A reported fault starts a new count: no fault up to it is counted again. */
  lemma {:induction false} CountedAfterReports(ts: seq<real>, i: nat, n: nat, conf: Limits)
    requires i < n <= |ts| && Reported(ts, i, conf)
    ensures After(ts[..n], conf).count <= n - 1 - i
    decreases n
  {
    AfterOne(ts, n - 1, conf);
    if i < n - 1 {
      CountedAfterReports(ts, i, n - 1, conf);
    }
  }

  /** Each report stands for exactly one more fault than allowed, none of them counted for
      an earlier report, all within one window shorter than the limit. */
  lemma ReportIsJustified(ts: seq<real>, j: nat, conf: Limits)
    requires Ordered(ts) && j < |ts| && conf.inTime > 0.0 && Reported(ts, j, conf)
    ensures conf.count <= j
    ensures forall i :: 0 <= i < j && Reported(ts, i, conf) ==> i < j - conf.count
    ensures forall a, b :: j - conf.count <= a <= j && j - conf.count <= b <= j ==> ts[a] - ts[b] < conf.inTime
  {
    CountsTheLatest(ts, j, conf);
    forall i | 0 <= i < j && Reported(ts, i, conf) ensures i < j - conf.count {
      CountedAfterReports(ts, i, j, conf);
    }
  }

  /** Hence reports are paid for: each costs `count + 1` faults of its own. This needs no
      assumption about the clock. */
  lemma {:induction false} ReportsArePaidFor(ts: seq<real>, conf: Limits)
    ensures Reports(ts, conf) * (conf.count + 1) + After(ts, conf).count <= |ts|
  {
    if ts != [] {
      var n := |ts| - 1;
      ReportsArePaidFor(ts[..n], conf);
      var r := Reports(ts[..n], conf);
      assert (r + 1) * (conf.count + 1) == r * (conf.count + 1) + conf.count + 1;
      CountBounded(ts[..n], conf);
    }
  }

  lemma {:induction false} CountBounded(ts: seq<real>, conf: Limits)
    ensures After(ts, conf).count <= conf.count
  {
    if ts != [] {
      CountBounded(ts[..|ts| - 1], conf);
    }
  }

  /** Unreported faults in a row within the time: counted on from `before`, or restarted
      once at `m`. */
  lemma {:induction false} Streak(ts: seq<real>, lo: nat, n: nat, conf: Limits) returns (m: nat)
    requires Ordered(ts) && lo <= n <= |ts|
    requires n > lo ==> ts[n - 1] - ts[lo] < conf.inTime
    requires forall j :: lo <= j < n ==> !Reported(ts, j, conf)
    ensures lo <= m <= n
    ensures var w := After(ts[..n], conf);
            if m == n then w.count == After(ts[..lo], conf).count + n - lo && w.since == After(ts[..lo], conf).since
            else w.count == n - m && w.since == ts[m]
    ensures m - lo <= conf.count
    decreases n
  {
    CountBounded(ts[..lo], conf);
    m := lo;
    if n > lo {
      m := Streak(ts, lo, n - 1, conf);
      AfterOne(ts, n - 1, conf);
      CountBounded(ts[..n - 1], conf);
      var w := After(ts[..n - 1], conf);
      assert !Reported(ts, n - 1, conf);
      if m == n - 1 {
        if InWindow(w, ts[n - 1], conf) {
          CountBounded(ts[..n], conf);
          m := n;
        }
      } else {
        assert ts[n - 1] - ts[m] <= ts[n - 1] - ts[lo];
      }
    }
  }

  /** No burst goes unnoticed: among any 2 * count + 1 consecutive faults within the time
      one is reported. */
  lemma BurstIsReported(ts: seq<real>, lo: nat, conf: Limits)
    requires Ordered(ts) && lo + 2 * conf.count < |ts|
    requires ts[lo + 2 * conf.count] - ts[lo] < conf.inTime
    ensures exists j :: lo <= j <= lo + 2 * conf.count && Reported(ts, j, conf)
  {
    var n := lo + 2 * conf.count + 1;
    if forall j :: lo <= j < n ==> !Reported(ts, j, conf) {
      var m := Streak(ts, lo, n, conf);
      CountBounded(ts[..n], conf);
      assert false;
    }
  }

  /** Within the window faults are counted, and none is reported that is still allowed. */
  lemma {:induction false} WindowFills(ts: seq<real>, lo: nat, n: nat, conf: Limits)
    requires lo <= n <= |ts|
    requires forall k :: lo <= k < n ==> InWindow(After(ts[..lo], conf), ts[k], conf)
    requires After(ts[..lo], conf).count + n - lo <= conf.count
    ensures After(ts[..n], conf) == Counter(After(ts[..lo], conf).count + n - lo, After(ts[..lo], conf).since)
    ensures forall k :: lo <= k < n ==> !Reported(ts, k, conf)
    decreases n
  {
    if n > lo {
      WindowFills(ts, lo, n - 1, conf);
      AfterOne(ts, n - 1, conf);
    }
  }

  /** Behind a report the window starts anew, at the fault reported: of the faults that follow
      within the time, the one that is one too many is reported, and none before it. */
  lemma AfterReport(ts: seq<real>, j: nat, conf: Limits)
    requires j + conf.count + 1 < |ts| && Reported(ts, j, conf)
    requires forall k :: j < k <= j + conf.count + 1 ==> ts[k] - ts[j] < conf.inTime
    ensures forall k :: j < k <= j + conf.count + 1 ==> (Reported(ts, k, conf) <==> k == j + conf.count + 1)
  {
    AfterOne(ts, j, conf);
    WindowFills(ts, j + 1, j + 1 + conf.count, conf);
  }

  /** It does so too at a fault that comes after a pause as long as the time, and counts that
      fault. */
  lemma AfterPause(ts: seq<real>, j: nat, conf: Limits)
    requires Ordered(ts) && j + conf.count < |ts|
    requires ts[j] - (if j == 0 then 0.0 else ts[j - 1]) >= conf.inTime && ts[j + conf.count] - ts[j] < conf.inTime
    ensures forall k :: j <= k <= j + conf.count ==> (Reported(ts, k, conf) <==> k == j + conf.count)
  {
    CountsTheLatest(ts, j, conf);
    assert !InWindow(After(ts[..j], conf), ts[j], conf);
    if conf.count > 0 {
      AfterOne(ts, j, conf);
      WindowFills(ts, j + 1, j + conf.count, conf);
    }
  }

  /** `k` faults at time `t`. */
  function Burst(t: real, k: nat): (ts: seq<real>)
    ensures |ts| == k && forall i :: 0 <= i < k ==> ts[i] == t
  {
    seq(k, _ => t)
  }

  /** One fault fewer may pass: the window is fixed at its first fault, it does not slide. */
  lemma SmallerBurstMayPass(conf: Limits)
    requires conf.inTime > 0.0 && conf.count > 0
    ensures var ts := Burst(conf.inTime / 2.0, conf.count) + Burst(conf.inTime, conf.count);
            Ordered(ts) && |ts| == 2 * conf.count && ts[|ts| - 1] - ts[0] < conf.inTime && Reports(ts, conf) == 0
  {
    var a, b := Burst(conf.inTime / 2.0, conf.count), Burst(conf.inTime, conf.count);
    QuietBurst([], conf.inTime / 2.0, conf.count, conf);
    assert [] + a == a;
    assert a + Burst(conf.inTime, 0) == a;
    QuietLateBurst(a, conf.inTime, conf.count, conf);
  }

  lemma {:induction false} QuietBurst(ts: seq<real>, t: real, k: nat, conf: Limits)
    requires ts == [] && t < conf.inTime && k <= conf.count
    ensures After(ts + Burst(t, k), conf) == Counter(k, 0.0) && Reports(ts + Burst(t, k), conf) == 0
  {
    if k > 0 {
      QuietBurst(ts, t, k - 1, conf);
      assert (ts + Burst(t, k))[..k - 1] == ts + Burst(t, k - 1);
    } else {
      assert ts + Burst(t, 0) == [];
    }
  }

  lemma {:induction false} QuietLateBurst(ts: seq<real>, t: real, k: nat, conf: Limits)
    requires After(ts, conf).since == 0.0 && Reports(ts, conf) == 0
    requires t == conf.inTime > 0.0 && 0 < conf.count && k <= conf.count
    ensures k > 0 ==> After(ts + Burst(t, k), conf) == Counter(k, t)
    ensures Reports(ts + Burst(t, k), conf) == 0
  {
    if k > 0 {
      QuietLateBurst(ts, t, k - 1, conf);
      assert (ts + Burst(t, k))[..|ts| + k - 1] == ts + Burst(t, k - 1);
      assert ts + Burst(t, 0) == ts;
    } else {
      assert ts + Burst(t, 0) == ts;
    }
  }

  /** With a clock that steps back the window is not what it says: two faults five time
      units apart are reported under a limit of two units. */
  lemma SteppedClockMisleads()
    ensures var ts, conf := [10.0, 5.0], Limits(1, 2.0);
            Reported(ts, 1, conf) && !(ts[0] - ts[1] < conf.inTime)
  {
    var ts, conf := [10.0, 5.0], Limits(1, 2.0);
    assert ts[..1] == [10.0] && ts[..1][..0] == [];
    assert After([], conf) == ZEROED;
    assert After(ts[..1], conf) == Counter(1, 10.0);
  }
}

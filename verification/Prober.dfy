/** One probe worker (ami/native/prober/worker.go, prober.go). */
module Prober {
  import opened Model

  datatype ProbeKey = ProbeKey(name: string, version: string, startup: bool)

  // NoResult is the zero value a new worker starts with
  datatype ProbeResult = NoResult | Success | Warning | Failure | Unknown

  datatype ProbeSpec = ProbeSpec(failureThreshold: int, successThreshold: int, initialDelay: int)

  datatype ProcessStatus = StatusError | StatusStopped | StatusUnknown | StatusRunning

  /** What one call of doProbe meets: the process status, the seconds since the worker started, the answer of
      the prober (None when it errs), and whether a call panics before the result is in. */
  datatype Tick = Tick(status: ProcessStatus, elapsed: int, probe: Option<ProbeResult>, panics: bool)

  const MAX_PROBE_RETRIES := 3

  // lastResult, resultRun
  datatype Count = Count(last: ProbeResult, run: int)

  // the result is used
  predicate Kept(startup: bool, spec: ProbeSpec, tick: Tick) {
    && !tick.panics && tick.status == (if startup then StatusUnknown else StatusRunning)
    && tick.elapsed >= spec.initialDelay && tick.probe.Some?
  }

  predicate GoesOn(tick: Tick) {
    tick.panics || tick.status != StatusStopped
  }

  // count one kept result; the flag says whether the process is restarted
  function Observe(spec: ProbeSpec, c: Count, result: ProbeResult): (Count, bool) {
    var run := if c.last == result then c.run + 1 else 1;
    if (result == Failure && run < spec.failureThreshold) || (result == Success && run < spec.successThreshold) then
      (Count(result, run), false)
    else if result == Failure then (Count(result, 0), true)
    else (Count(result, run), false)
  }

  // up to three attempts; an attempt is None when it errs
  method Probe(attempts: seq<Option<ProbeResult>>) returns (r: Option<ProbeResult>)
    requires |attempts| == 3
    ensures r.None? <==> forall i :: 0 <= i < |attempts| ==> attempts[i].None?
    ensures r.Some? ==>
              exists i :: 0 <= i < |attempts| && attempts[i].Some? && (forall j :: 0 <= j < i ==> attempts[j].None?) &&
                          r.value == if attempts[i].value == Success || attempts[i].value == Warning
                                     then Success else Failure
  {
    var result: Option<ProbeResult> := None;
    var i := 0;
    while i < MAX_PROBE_RETRIES
      invariant 0 <= i <= MAX_PROBE_RETRIES
      invariant result.None? && forall j :: 0 <= j < i ==> attempts[j].None?
    {
      result := attempts[i];
      if result.Some? {
        break;
      }
      i := i + 1;
    }
    if result.None? {
      return None;
    }
    if result.value != Success && result.value != Warning {
      return Some(Failure);
    }
    r := Some(Success);
  }

  class Worker {
    const key: ProbeKey
    // the liveness specification, also for a startup probe
    const spec: Option<ProbeSpec>
    // tokens in the stop channel, which has room for one
    var stopCh: nat
    var lastResult: ProbeResult
    var resultRun: int

    constructor (key: ProbeKey, spec: Option<ProbeSpec>)
      ensures this.key == key && this.spec == spec && stopCh == 0 && lastResult == NoResult && resultRun == 0
    {
      this.key, this.spec := key, spec;
      stopCh, lastResult, resultRun := 0, NoResult, 0;
    }

    method Stop()
      modifies this`stopCh
      ensures stopCh == if old(stopCh) == 0 then 1 else old(stopCh)
    {
      if stopCh < 1 {
        stopCh := stopCh + 1;
      }
    }

    method DoProbe(tick: Tick) returns (keepGoing: bool, restarted: bool)
      requires spec.Some?
      modifies this`lastResult, this`resultRun
      ensures keepGoing <==> tick.panics || tick.status != StatusStopped
      ensures if tick.panics || tick.status == StatusError || tick.status == StatusStopped ||
                 tick.status == (if key.startup then StatusRunning else StatusUnknown) ||
                 tick.elapsed < spec.value.initialDelay || tick.probe.None?
              then lastResult == old(lastResult) && resultRun == old(resultRun) && !restarted
              else
                var result := tick.probe.value;
                var run := if old(lastResult) == result then old(resultRun) + 1 else 1;
                && (restarted <==> result == Failure && run >= spec.value.failureThreshold)
                && lastResult == result && resultRun == if restarted then 0 else run
      ensures if Kept(key.startup, spec.value, tick)
              then (Count(lastResult, resultRun), restarted) ==
                   Observe(spec.value, Count(old(lastResult), old(resultRun)), tick.probe.value)
              else lastResult == old(lastResult) && resultRun == old(resultRun) && !restarted
    {
      restarted := false;
      if tick.panics {
        return true, false;
      }
      if tick.status == StatusError {
        return true, false;
      }
      if tick.status == StatusStopped {
        return false, false;
      }
      if !key.startup && tick.status == StatusUnknown {
        return true, false;
      }
      if key.startup && tick.status == StatusRunning {
        return true, false;
      }
      if tick.elapsed < spec.value.initialDelay {
        return true, false;
      }
      if tick.probe.None? {
        return true, false;
      }
      var result := tick.probe.value;
      if lastResult == result {
        resultRun := resultRun + 1;
      } else {
        lastResult := result;
        resultRun := 1;
      }
      if (result == Failure && resultRun < spec.value.failureThreshold) ||
         (result == Success && resultRun < spec.value.successThreshold) {
        return true, false;
      }
      if result == Failure {
        restarted := true;
        resultRun := 0;
      }
      keepGoing := true;
    }

    /** The probe loop over the ticks of a finite stretch of time; stopSent says during which of them the manager
        sends a stop. A new worker restarts the process once for every full threshold of failures within each block
        of consecutive failures. */
    method Run(ticks: seq<Tick>, stopSent: nat -> bool) returns (restarts: nat, probes: nat)
      requires spec.Some? && lastResult == NoResult && resultRun == 0
      modifies this
      ensures probes <= |ticks|
      ensures restarts == BlockRestarts(spec.value.failureThreshold, Results(key.startup, spec.value, ticks[..probes]))
      ensures forall i :: 0 <= i < probes - 1 ==> ticks[i].panics || ticks[i].status != StatusStopped
      ensures (forall i :: 0 <= i < probes ==> ticks[i].elapsed < spec.value.initialDelay) ==> restarts == 0
      ensures probes < |ticks| ==>
                || (probes > 0 && !ticks[probes - 1].panics && ticks[probes - 1].status == StatusStopped)
                || old(stopCh) > 0 || exists i :: 0 <= i < probes && stopSent(i)
    {
      restarts, probes := 0, 0;
      assert ticks[..0] == [];
      while probes < |ticks|
        invariant probes <= |ticks|
        invariant stopCh > 0 <==> old(stopCh) > 0 || exists i :: 0 <= i < probes && stopSent(i)
        invariant (Count(lastResult, resultRun), restarts) ==
            Watch(spec.value, Results(key.startup, spec.value, ticks[..probes]))
        invariant forall i :: 0 <= i < probes ==> GoesOn(ticks[i])
      {
        var keepGoing;
        keepGoing, restarts := ProbeOnce(ticks, probes, restarts);
        // the manager may stop the worker meanwhile
        if stopSent(probes) {
          Stop();
        }
        probes := probes + 1;
        if !keepGoing {
          break;
        }
        // both channels may be ready; either may be taken
        if stopCh > 0 {
          if * {
            stopCh := stopCh - 1;
            break;
          }
        }
      }
      RestartsExactly(spec.value, Results(key.startup, spec.value, ticks[..probes]));
      if forall i :: 0 <= i < probes ==> ticks[i].elapsed < spec.value.initialDelay {
        EarlyTicksGiveNothing(key.startup, spec.value, ticks[..probes]);
      }
    }

    method ProbeOnce(ticks: seq<Tick>, i: nat, restarts0: nat) returns (keepGoing: bool, restarts: nat)
      requires i < |ticks| && spec.Some?
      requires (Count(lastResult, resultRun), restarts0) ==
          Watch(spec.value, Results(key.startup, spec.value, ticks[..i]))
      modifies this`lastResult, this`resultRun
      ensures keepGoing <==> GoesOn(ticks[i])
      ensures (Count(lastResult, resultRun), restarts) ==
          Watch(spec.value, Results(key.startup, spec.value, ticks[..i + 1]))
    {
      ghost var seen := Results(key.startup, spec.value, ticks[..i]);
      var restarted;
      keepGoing, restarted := DoProbe(ticks[i]);
      ResultsGrow(key.startup, spec.value, ticks, i);
      if Kept(key.startup, spec.value, ticks[i]) {
        WatchGrows(spec.value, seen, ticks[i].probe.value);
      } else {
        assert seen + [] == seen;
      }
      restarts := if restarted then restarts0 + 1 else restarts0;
    }
  }

  // the kept results of a stretch of ticks
  function Results(startup: bool, spec: ProbeSpec, ticks: seq<Tick>): seq<ProbeResult> {
    if ticks == [] then []
    else
      var before, t := Results(startup, spec, ticks[..|ticks| - 1]), ticks[|ticks| - 1];
      if Kept(startup, spec, t) then before + [t.probe.value] else before
  }

  lemma {:induction false} ResultsGrow(startup: bool, spec: ProbeSpec, ticks: seq<Tick>, i: nat)
    requires i < |ticks|
    ensures Results(startup, spec, ticks[..i + 1]) ==
            Results(startup, spec, ticks[..i]) + if Kept(startup, spec, ticks[i]) then [ticks[i].probe.value] else []
  {
    assert ticks[..i + 1][..i] == ticks[..i];
  }

  // a tick gives a result when nothing stands against it
  lemma {:induction false} ResultOfTick(startup: bool, spec: ProbeSpec, ticks: seq<Tick>, t: Tick)
    ensures Results(startup, spec, ticks + [t]) ==
            Results(startup, spec, ticks) +
            if t.panics || t.elapsed < spec.initialDelay || t.probe.None? || t.status == StatusError ||
               t.status == StatusStopped || t.status == (if startup then StatusRunning else StatusUnknown)
            then [] else [t.probe.value]
  {
    assert (ticks + [t])[..|ticks|] == ticks;
  }

  lemma {:induction false} EarlyTicksGiveNothing(startup: bool, spec: ProbeSpec, ticks: seq<Tick>)
    requires forall i :: 0 <= i < |ticks| ==> ticks[i].elapsed < spec.initialDelay
    ensures Results(startup, spec, ticks) == []
  {
    if ticks != [] {
      EarlyTicksGiveNothing(startup, spec, ticks[..|ticks| - 1]);
    }
  }

  /** A tick before the initial delay makes no difference to what comes of the others. */
  lemma {:induction false} EarlyTickIgnored(startup: bool, spec: ProbeSpec, before: seq<Tick>, t: Tick, later: seq<Tick>)
    requires t.elapsed < spec.initialDelay
    ensures Results(startup, spec, before + [t] + later) == Results(startup, spec, before + later)
  {
    if later == [] {
      assert before + [t] + later == before + [t] && before + later == before;
      ResultOfTick(startup, spec, before, t);
    } else {
      var front, last := later[..|later| - 1], later[|later| - 1];
      EarlyTickIgnored(startup, spec, before, t, front);
      assert before + [t] + later == before + [t] + front + [last] && before + later == before + front + [last];
      ResultOfTick(startup, spec, before + [t] + front, last);
      ResultOfTick(startup, spec, before + front, last);
    }
  }

  // the counter and the restarts after a series of kept results
  function Watch(spec: ProbeSpec, results: seq<ProbeResult>): (Count, nat) {
    if results == [] then (Count(NoResult, 0), 0)
    else
      var (c, n) := Watch(spec, results[..|results| - 1]);
      var (d, restarted) := Observe(spec, c, results[|results| - 1]);
      (d, if restarted then n + 1 else n)
  }

  lemma {:induction false} WatchGrows(spec: ProbeSpec, results: seq<ProbeResult>, result: ProbeResult)
    ensures var (c, n) := Watch(spec, results);
            var (d, restarted) := Observe(spec, c, result);
            Watch(spec, results + [result]) == (d, if restarted then n + 1 else n)
  {
    assert (results + [result])[..|results|] == results;
  }

  // length of the block of failures at the end
  function TrailingFailures(results: seq<ProbeResult>): (n: nat)
    ensures n <= |results| && forall i :: |results| - n <= i < |results| ==> results[i] == Failure
    ensures n < |results| ==> results[|results| - n - 1] != Failure
  {
    if results == [] || results[|results| - 1] != Failure then 0
    else 1 + TrailingFailures(results[..|results| - 1])
  }

  function Threshold(t: int): (r: int)
    ensures r >= 1
  {
    if t < 1 then 1 else t
  }

  /** Sum of n / threshold over the maximal blocks of n consecutive failures. */
  function BlockRestarts(threshold: int, results: seq<ProbeResult>): nat
    decreases |results|
  {
    if results == [] then 0
    else
      var n := TrailingFailures(results);
      if n == 0 then BlockRestarts(threshold, results[..|results| - 1])
      else n / Threshold(threshold) + BlockRestarts(threshold, results[..|results| - n])
  }

  /** That sum, block by block: nothing gives nothing, a result that is no failure adds nothing, and a whole block
      of failures adds its length divided by the threshold, which is one when it is below one. */
  lemma {:induction false} BlocksAdd(threshold: int, results: seq<ProbeResult>, block: seq<ProbeResult>, r: ProbeResult)
    requires results != [] ==> results[|results| - 1] != Failure
    requires (forall i :: 0 <= i < |block| ==> block[i] == Failure) && r != Failure
    ensures BlockRestarts(threshold, []) == 0
    ensures BlockRestarts(threshold, results + block) ==
            BlockRestarts(threshold, results) + |block| / (if threshold < 1 then 1 else threshold)
    ensures BlockRestarts(threshold, results + block + [r]) == BlockRestarts(threshold, results + block)
  {
    var all := results + block;
    TrailingBlock(results, block);
    assert all[..|all| - |block|] == results;
    assert block == [] ==> all == results;
    var longer := all + [r];
    assert longer[..|longer| - 1] == all;
  }

  lemma {:induction false} TrailingBlock(results: seq<ProbeResult>, block: seq<ProbeResult>)
    requires results != [] ==> results[|results| - 1] != Failure
    requires forall i :: 0 <= i < |block| ==> block[i] == Failure
    ensures TrailingFailures(results + block) == |block|
  {
    var all := results + block;
    if block == [] {
      assert all == results;
    } else {
      assert all[..|all| - 1] == results + block[..|block| - 1];
      TrailingBlock(results, block[..|block| - 1]);
    }
  }

  /** Closed form of the restart count, for any thresholds (a failure threshold below 1 acts as 1). The
      success threshold does not appear in it, and neither do discarded probes. */
  lemma {:induction false} RestartsExactly(spec: ProbeSpec, results: seq<ProbeResult>)
    ensures var (c, n) := Watch(spec, results);
            var t, f := Threshold(spec.failureThreshold), TrailingFailures(results);
            && n == BlockRestarts(spec.failureThreshold, results)
            && (results != [] ==> c.last == results[|results| - 1])
            && (f > 0 ==> c.run == f % t)
            && (results == [] ==> c == Count(NoResult, 0))
  {
    if results != [] {
      var front, last := results[..|results| - 1], results[|results| - 1];
      RestartsExactly(spec, front);
      if last == Failure {
        BlockGrows(spec.failureThreshold, results);
        var t, f := Threshold(spec.failureThreshold), TrailingFailures(front);
        NextMultiple(f, t);
      }
    }
  }

  lemma {:induction false} BlockGrows(threshold: int, results: seq<ProbeResult>)
    requires results != [] && results[|results| - 1] == Failure
    ensures var front, t := results[..|results| - 1], Threshold(threshold);
            var f := TrailingFailures(front);
            && TrailingFailures(results) == f + 1
            && BlockRestarts(threshold, results) == BlockRestarts(threshold, front) - f / t + (f + 1) / t
  {
    var front, t := results[..|results| - 1], Threshold(threshold);
    var f := TrailingFailures(front);
    assert results[..|results| - (f + 1)] == front[..|front| - f];
    if f == 0 {
      assert front[..|front| - f] == front;
    }
  }

  lemma {:induction false} NextMultiple(f: nat, t: int)
    requires t >= 1
    ensures (f + 1) / t == f / t + (if f % t + 1 == t then 1 else 0)
    ensures (f + 1) % t == if f % t + 1 == t then 0 else f % t + 1
  {
    var q, r := f / t, f % t;
    assert f == t * q + r;
    if r + 1 == t {
      assert f + 1 == t * (q + 1);
      DivUnique(f + 1, t, q + 1, 0);
    } else {
      DivUnique(f + 1, t, q, r + 1);
    }
  }

  lemma {:induction false} DivUnique(a: int, t: int, q: int, r: int)
    requires t >= 1 && a == t * q + r && 0 <= r < t
    ensures a / t == q && a % t == r
  {
    var d := a / t - q;
    assert t * d + (a % t - r) == 0;
    Stretch(t, d);
  }

  lemma {:induction false} Stretch(t: int, d: int)
    requires t >= 1
    ensures (d >= 1 ==> t * d >= t) && (d <= -1 ==> t * d <= -t)
  {
  }

  /** The success threshold, which the code does compare with, has no effect on counter or restarts. */
  lemma {:induction false} SuccessThresholdIdle(spec: ProbeSpec, other: int, results: seq<ProbeResult>)
    ensures Watch(spec, results) == Watch(spec.(successThreshold := other), results)
  {
    if results != [] {
      SuccessThresholdIdle(spec, other, results[..|results| - 1]);
    }
  }
}

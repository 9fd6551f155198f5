/** The restart policy of the soak supervisor: when a node that went down is launched again, and how long it waits. */
module Supervisor {

  /** The policy: restarts per hour, the backoff steps, and the uptime that counts as healthy. */
  datatype Policy = Policy(cap: nat, backoff: seq<real>, healthy: real)

  /**
   One generation: what is found before its launch, how its run ended, and whether the wait after it was
   cut short.
   */
  datatype Run = Run(lowDisk: bool, pinBroken: bool, stopped: bool, fatal: bool, time: real, uptime: real,
                     interrupted: bool)

  datatype Ending = DiskFloor | PinViolation | OperatorStop | FatalSignature | CrashLoop | WaitStopped | StillRunning

  const HOUR: real := 3600.0

  ghost predicate Clocked(times: seq<real>) { forall i, j :: 0 <= i < j < |times| ==> times[i] <= times[j] }

  /** The clock does not go back. */
  ghost predicate Ascending(runs: seq<Run>) { forall i, j :: 0 <= i < j < |runs| ==> runs[i].time <= runs[j].time }

  /** Any cap + 1 restarts in a row span more than an hour. */
  ghost predicate Spread(cap: nat, times: seq<real>) {
    forall j, k :: 0 <= j < |times| && k == j + cap < |times| ==> times[k] - times[j] > 3600.0
  }

  /** The wait never shrinks from one restart to the next, unless the run between them was healthy. */
  ghost predicate Patient(p: Policy, runs: seq<Run>, delays: seq<real>)
    requires |delays| <= |runs|
  {
    forall j, k :: 0 <= j < |delays| && k == j + 1 < |delays| && runs[k].uptime < p.healthy ==> delays[j] <= delays[k]
  }

  /** The restarts since the last healthy run. */
  function Since(p: Policy, runs: seq<Run>, k: nat): nat
    requires k < |runs|
  {
    if runs[k].uptime >= p.healthy || k == 0 then 0 else 1 + Since(p, runs, k - 1)
  }

  /** The wait after r restarts since the last healthy run is step r of the policy, or its last one. */
  ghost predicate Stepped(p: Policy, runs: seq<Run>, delays: seq<real>)
    requires p.backoff != [] && |delays| <= |runs|
  {
    forall k :: 0 <= k < |delays| ==>
      var r := Since(p, runs, k);
      delays[k] == if r < |p.backoff| then p.backoff[r] else p.backoff[|p.backoff| - 1]
  }

  ghost predicate Rising(backoff: seq<real>) { forall i, j :: 0 <= i < j < |backoff| ==> backoff[i] <= backoff[j] }

  /** The node was launched, and went down without being stopped and without a signature that forbids a restart. */
  ghost predicate WentDown(run: Run) { !run.lowDisk && !run.pinBroken && !run.stopped && !run.fatal }

  /** The restarts are those of the first runs, each of which went down. */
  ghost predicate Follows(times: seq<real>, runs: seq<Run>) {
    |times| <= |runs| && forall k :: 0 <= k < |times| ==> times[k] == runs[k].time && WentDown(runs[k])
  }

  /**
   The restarts follow the first runs, one wait for each. With a clock that does not go back any cap + 1 of
   them span more than an hour. The waits are the steps of the policy, and with rising steps they are patient.
   */
  ghost predicate Paced(p: Policy, runs: seq<Run>, times: seq<real>, delays: seq<real>)
    requires p.backoff != []
  {
    && Follows(times, runs) && |delays| == |times|
    && (Ascending(runs) ==> Spread(p.cap, times))
    && Stepped(p, runs, delays) && (Rising(p.backoff) ==> Patient(p, runs, delays))
  }

  /** Nobody cut short a wait before the last one. */
  ghost predicate Undisturbed(runs: seq<Run>, n: int) { forall k :: 0 <= k < n && k < |runs| ==> !runs[k].interrupted }

  /** The ending is the one this run calls for, the crash loop aside. */
  ghost predicate Calls(run: Run, ending: Ending) {
    match ending
    case DiskFloor => run.lowDisk
    case PinViolation => !run.lowDisk && run.pinBroken
    case OperatorStop => !run.lowDisk && !run.pinBroken && run.stopped
    case FatalSignature => !run.lowDisk && !run.pinBroken && !run.stopped && run.fatal
    case CrashLoop => WentDown(run)
    case _ => false
  }

  /** One more restart now would be one too many within the hour. */
  ghost predicate Overrun(cap: nat, times: seq<real>, now: real) {
    |times| >= cap && (cap > 0 ==> now - times[|times| - cap] <= 3600.0)
  }

  function Step(backoff: seq<real>, k: nat): real
    requires backoff != []
  {
    backoff[if k < |backoff| then k else |backoff| - 1]
  }

  // ---- the loop, as it goes ----

  function Times(runs: seq<Run>, n: nat): seq<real>
    requires n <= |runs|
  {
    seq(n, k requires 0 <= k < n => runs[k].time)
  }

  function Delays(p: Policy, runs: seq<Run>, n: nat): seq<real>
    requires n <= |runs| && p.backoff != []
  {
    seq(n, k requires 0 <= k < n => Step(p.backoff, Since(p, runs, k)))
  }

  /** The restarts of the last hour after n of them. */
  function Window(runs: seq<Run>, n: nat): seq<real>
    requires n <= |runs|
  {
    if n == 0 then [] else Pruned(Window(runs, n - 1) + [runs[n - 1].time], runs[n - 1].time)
  }

  /** The backoff step after n restarts. */
  function Index(p: Policy, runs: seq<Run>, n: nat): nat
    requires n <= |runs|
  {
    if n == 0 then 0 else Since(p, runs, n - 1) + 1
  }

  /** The first n runs went down, within the cap. */
  ghost predicate Restarted(p: Policy, runs: seq<Run>, n: nat)
    requires n <= |runs|
  {
    n == 0 || (Restarted(p, runs, n - 1) && WentDown(runs[n - 1]) && |Window(runs, n)| <= p.cap)
  }

  lemma TimesMore(runs: seq<Run>, n: nat)
    requires n < |runs|
    ensures Times(runs, n + 1) == Times(runs, n) + [runs[n].time]
  {
  }

  lemma DelaysMore(p: Policy, runs: seq<Run>, n: nat)
    requires n < |runs| && p.backoff != []
    ensures Delays(p, runs, n + 1) == Delays(p, runs, n) + [Step(p.backoff, Since(p, runs, n))]
  {
  }

  lemma SinceNext(p: Policy, runs: seq<Run>, n: nat)
    requires n < |runs|
    ensures Since(p, runs, n) == if runs[n].uptime >= p.healthy then 0 else Index(p, runs, n)
  {
  }

  /** The loop of the supervisor over consecutive generations. */
  method Generations(p: Policy, runs: seq<Run>)
    returns (generation: nat, times: seq<real>, delays: seq<real>, ending: Ending, exitCode: nat)
    requires p.backoff != []
    ensures |times| <= |runs| && Restarted(p, runs, |times|) && Undisturbed(runs, |times| - 1)
    ensures times == Times(runs, |times|) && delays == Delays(p, runs, |times|)
    ensures ending == StillRunning ==> |times| == |runs| && Undisturbed(runs, |runs|)
    ensures ending == WaitStopped ==> times != [] && runs[|times| - 1].interrupted
    ensures ending != StillRunning && ending != WaitStopped ==>
      |times| < |runs| && Undisturbed(runs, |times|) && Calls(runs[|times|], ending)
    ensures ending == CrashLoop ==> |times| < |runs| && |Window(runs, |times| + 1)| > p.cap
    ensures generation == |times| + (if ending in {OperatorStop, FatalSignature, CrashLoop} then 1 else 0)
    ensures exitCode == if ending in {DiskFloor, PinViolation, FatalSignature, CrashLoop} then 1 else 0
  {
    var window: seq<real> := [];
    var index := 0;
    generation, times, delays, exitCode := 0, [], [], 0;
    for i := 0 to |runs|
      invariant |times| == generation == i && exitCode == 0 && Undisturbed(runs, i) && Restarted(p, runs, i)
      invariant times == Times(runs, i) && delays == Delays(p, runs, i)
      invariant window == Window(runs, i) && index == Index(p, runs, i)
    {
      var run := runs[i];
      if run.lowDisk { return generation, times, delays, DiskFloor, 1; }
      if run.pinBroken { return generation, times, delays, PinViolation, 1; }
      generation := generation + 1;
      if run.stopped { return generation, times, delays, OperatorStop, 0; }
      if run.fatal { return generation, times, delays, FatalSignature, 1; }
      window := PruneFront(window + [run.time], run.time);
      if |window| > p.cap { return generation, times, delays, CrashLoop, 1; }
      SinceNext(p, runs, i);
      if run.uptime >= p.healthy { index := 0; }
      var delay := Step(p.backoff, index);
      index := index + 1;
      TimesMore(runs, i);
      DelaysMore(p, runs, i);
      times, delays := times + [run.time], delays + [delay];
      if run.interrupted { return generation, times, delays, WaitStopped, 0; }
    }
    return generation, times, delays, StillRunning, 0;
  }

  /** What the loop comes to. */
  method Supervise(p: Policy, runs: seq<Run>)
    returns (generation: nat, times: seq<real>, delays: seq<real>, ending: Ending, exitCode: nat)
    requires p.backoff != []
    ensures Paced(p, runs, times, delays) && Undisturbed(runs, |times| - 1)
    ensures ending == StillRunning ==> |times| == |runs| && Undisturbed(runs, |runs|)
    ensures ending == WaitStopped ==> times != [] && runs[|times| - 1].interrupted
    ensures ending != StillRunning && ending != WaitStopped ==>
      |times| < |runs| && Undisturbed(runs, |times|) && Calls(runs[|times|], ending)
    ensures ending == CrashLoop && Ascending(runs) ==> Overrun(p.cap, times, runs[|times|].time)
    ensures generation == |times| + (if ending in {OperatorStop, FatalSignature, CrashLoop} then 1 else 0)
    ensures exitCode == if ending in {DiskFloor, PinViolation, FatalSignature, CrashLoop} then 1 else 0
  {
    generation, times, delays, ending, exitCode := Generations(p, runs);
    PacedAt(p, runs, |times|);
    if ending == CrashLoop && Ascending(runs) { TooMany(p, runs, |times|); }
  }

  // ---- the first n restarts keep to the policy ----

  lemma {:induction false} DownBefore(p: Policy, runs: seq<Run>, n: nat, k: nat)
    requires k < n <= |runs| && Restarted(p, runs, n)
    ensures WentDown(runs[k]) && |Window(runs, k + 1)| <= p.cap
  {
    if k < n - 1 { DownBefore(p, runs, n - 1, k); }
  }

  lemma FollowsAt(p: Policy, runs: seq<Run>, n: nat)
    requires n <= |runs| && Restarted(p, runs, n)
    ensures Follows(Times(runs, n), runs)
  {
    forall k | 0 <= k < n ensures WentDown(runs[k]) { DownBefore(p, runs, n, k); }
  }

  lemma SteppedAt(p: Policy, runs: seq<Run>, n: nat)
    requires n <= |runs| && p.backoff != []
    ensures Stepped(p, runs, Delays(p, runs, n))
  {
  }

  lemma Rises(backoff: seq<real>, k: nat)
    requires backoff != [] && Rising(backoff)
    ensures Step(backoff, k) <= Step(backoff, k + 1)
  {
  }

  lemma PatientAt(p: Policy, runs: seq<Run>, n: nat)
    requires n <= |runs| && p.backoff != [] && Rising(p.backoff)
    ensures Patient(p, runs, Delays(p, runs, n))
  {
    var delays := Delays(p, runs, n);
    forall j, k | 0 <= j < n && k == j + 1 < n && runs[k].uptime < p.healthy ensures delays[j] <= delays[k] {
      assert Since(p, runs, k) == Since(p, runs, j) + 1;
      Rises(p.backoff, Since(p, runs, j));
    }
  }

  lemma {:induction false} RecentAt(runs: seq<Run>, n: nat)
    requires n <= |runs| && Ascending(runs)
    ensures Recent(Times(runs, n), Window(runs, n))
  {
    if n == 0 {
    } else {
      RecentAt(runs, n - 1);
      TimesMore(runs, n - 1);
      OrderedAt(runs, n);
      WindowMoves(Times(runs, n - 1), Window(runs, n - 1), runs[n - 1].time);
    }
  }

  lemma OrderedAt(runs: seq<Run>, n: nat)
    requires n <= |runs| && Ascending(runs)
    ensures Clocked(Times(runs, n))
  {
  }

  lemma Apart(past: seq<real>, window: seq<real>, j: nat)
    requires Recent(past, window) && j < |past| - |window|
    ensures past[|past| - 1] - past[j] > 3600.0
  {
  }

  lemma GapIn(runs: seq<Run>, k: nat, window: seq<real>, j: nat)
    requires k < |runs| && Recent(Times(runs, k + 1), window) && j + |window| <= k
    ensures runs[k].time - runs[j].time > 3600.0
  {
    var times := Times(runs, k + 1);
    assert times[k] == runs[k].time && times[j] == runs[j].time;
    Apart(times, window, j);
  }

  lemma GapAt(p: Policy, runs: seq<Run>, n: nat, j: nat)
    requires j + p.cap < n <= |runs| && Ascending(runs) && Restarted(p, runs, n)
    ensures runs[j + p.cap].time - runs[j].time > 3600.0
  {
    var k := j + p.cap;
    DownBefore(p, runs, n, k);
    RecentAt(runs, k + 1);
    GapIn(runs, k, Window(runs, k + 1), j);
  }

  lemma SpreadAt(p: Policy, runs: seq<Run>, n: nat)
    requires n <= |runs| && Ascending(runs) && Restarted(p, runs, n)
    ensures Spread(p.cap, Times(runs, n))
  {
    forall j | 0 <= j && j + p.cap < n ensures runs[j + p.cap].time - runs[j].time > 3600.0 { GapAt(p, runs, n, j); }
  }

  lemma PacedAt(p: Policy, runs: seq<Run>, n: nat)
    requires p.backoff != [] && n <= |runs| && Restarted(p, runs, n)
    ensures Paced(p, runs, Times(runs, n), Delays(p, runs, n))
  {
    FollowsAt(p, runs, n);
    if Ascending(runs) { SpreadAt(p, runs, n); }
    SteppedAt(p, runs, n);
    if Rising(p.backoff) { PatientAt(p, runs, n); }
  }

  lemma TooMany(p: Policy, runs: seq<Run>, n: nat)
    requires n < |runs| && Ascending(runs) && Restarted(p, runs, n) && |Window(runs, n + 1)| > p.cap
    ensures Overrun(p.cap, Times(runs, n), runs[n].time)
  {
    RecentAt(runs, n);
    OrderedAt(runs, n + 1);
    TimesMore(runs, n);
    Crowded(p.cap, Times(runs, n), Window(runs, n), runs[n].time);
  }

  // ---- the sliding window ----

  function Pruned(times: seq<real>, now: real): seq<real> {
    if times != [] && now - times[0] > HOUR then Pruned(times[1..], now) else times
  }

  /** Drop what is more than an hour old from the front. */
  method PruneFront(times: seq<real>, now: real) returns (r: seq<real>)
    ensures r == Pruned(times, now)
  {
    r := times;
    while r != [] && now - r[0] > HOUR
      invariant Pruned(r, now) == Pruned(times, now)
    {
      r := r[1..];
    }
  }

  /** Of times in order, pruning keeps exactly those of the last hour. */
  lemma {:induction false} PrunedIs(times: seq<real>, now: real) returns (drop: nat)
    requires Clocked(times)
    ensures drop <= |times| && Pruned(times, now) == times[drop..]
    ensures forall k :: 0 <= k < drop ==> now - times[k] > HOUR
    ensures forall k :: 0 <= k < |Pruned(times, now)| ==> now - Pruned(times, now)[k] <= HOUR
  {
    drop := 0;
    if times != [] && now - times[0] > HOUR {
      drop := PrunedIs(times[1..], now);
      drop := drop + 1;
    }
  }

  /** The window is the part of the past that lies within an hour of its last time. */
  ghost predicate Recent(past: seq<real>, window: seq<real>) {
    && |window| <= |past| && window == past[|past| - |window|..]
    && forall k :: 0 <= k < |past| - |window| ==> past[|past| - 1] - past[k] > HOUR
  }

  lemma Split<T>(s: seq<T>, x: T, i: nat, j: nat)
    requires i <= |s| && i + j <= |s| + 1
    ensures s[i..] + [x] == (s + [x])[i..] && (s + [x])[i..][j..] == (s + [x])[i + j..]
  {
  }

  lemma WindowMoves(past: seq<real>, window: seq<real>, now: real)
    requires Clocked(past + [now]) && Recent(past, window)
    ensures Recent(past + [now], Pruned(window + [now], now))
  {
    var first, more := |past| - |window|, past + [now];
    Split(past, now, first, 0);
    var drop := PrunedIs(more[first..], now);
    Split(past, now, first, drop);
    forall k | 0 <= k < first + drop ensures now - more[k] > HOUR {
      if k < first {
        assert more[k] == past[k] && more[|past| - 1] == past[|past| - 1] && more[|past|] == now;
      } else {
        assert more[k] == more[first..][k - first];
      }
    }
  }

  /** One restart too many: the cap before it all fall within the hour. */
  lemma Crowded(cap: nat, past: seq<real>, window: seq<real>, now: real)
    requires Clocked(past + [now]) && Recent(past, window) && |window| <= cap < |Pruned(window + [now], now)|
    ensures Overrun(cap, past, now)
  {
    var times := window + [now];
    assert times == (past + [now])[|past| - |window|..];
    var drop := PrunedIs(times, now);
    assert drop == 0 && |window| == cap;
    assert cap > 0 ==> times[0] == past[|past| - cap];
  }

  /** In whatever hour one looks, the restarts in it are among at most `cap` consecutive ones. */
  lemma AtMostPerHour(cap: nat, times: seq<real>, from: real) returns (first: nat)
    requires Clocked(times) && Spread(cap, times)
    ensures forall k :: 0 <= k < |times| && from <= times[k] <= from + 3600.0 ==> first <= k < first + cap
  {
    first := 0;
    while first < |times| && times[first] < from
      invariant first <= |times| && forall k :: 0 <= k < first ==> times[k] < from
    {
      first := first + 1;
    }
    var last := first + cap;
    if last < |times| {
      assert times[last] - times[first] > HOUR;
      assert forall k :: last < k < |times| ==> times[last] <= times[k];
    }
  }
}

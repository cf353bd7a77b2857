/** The live NetworkPolicy probe: batches of fresh canaries, retried within a time
    budget, and the verdict drawn from them. Times are in nanoseconds. */
module NetpolProbe {

  datatype Leg = Indeterminate | Connected | Blocked

  // ---------------------------------------------------------------- reading one canary

  const EXIT_CONNECTED := 0
  const EXIT_BLOCKED := 42

  datatype ContainerStatus = Running(name: string) | Terminated(name: string, exitCode: int)

  /** The exit code of the probe container, once it has terminated. */
  function ProbeExit(statuses: seq<ContainerStatus>): (codes: set<int>)
    ensures codes == {} || exists c :: codes == {c}
    ensures codes == {} <==> forall s | s in statuses :: !(s.Terminated? && s.name == "probe")
  {
    if statuses == [] then {}
    else
      assert statuses == [statuses[0]] + statuses[1..];
      if statuses[0].Terminated? && statuses[0].name == "probe" then {statuses[0].exitCode}
      else ProbeExit(statuses[1..])
  }

  /** Only the two codes the canary script emits on purpose are evidence. */
  method ClassifyCanary(statuses: seq<ContainerStatus>) returns (leg: Leg)
    ensures leg == Connected <==> ProbeExit(statuses) == {EXIT_CONNECTED}
    ensures leg == Blocked <==> ProbeExit(statuses) == {EXIT_BLOCKED}
  {
    assert statuses[0..] == statuses;
    for i := 0 to |statuses|
      invariant ProbeExit(statuses) == ProbeExit(statuses[i..])
    {
      var s := statuses[i];
      assert statuses[i..][1..] == statuses[i + 1..];
      if s.Running? || s.name != "probe" { continue; }
      match s.exitCode {
        case 0 => return Connected;
        case 42 => return Blocked;
        case _ => return Indeterminate;
      }
    }
    return Indeterminate;
  }

  // ---------------------------------------------------------------- batches

  datatype Batch = Batch(control: Leg, denyRegistry: Leg, denyEgress: Leg)
  {
    predicate Leaked() { denyRegistry == Connected || denyEgress == Connected }

    predicate Enforced() { denyRegistry == Blocked && denyEgress == Blocked }
  }

  datatype Timing = Timing(waitBudget: int, settleBudget: int, batchReserve: int, minLeakBatches: int, maxBatches: int)

  /** The schedule the doctor ships with. */
  const SHIPPED := Timing(180 * 1_000_000_000, 90 * 1_000_000_000, 70 * 1_000_000_000, 2, 6)

  /** What the probe meets: how each batch ends (or that it could not be run), what
      the clock reads when a batch has ended and when a retry is decided, and
      whether the overall context is done then. Batches are numbered from 0. */
  datatype World = World(
    start: int,
    batches: nat -> Observation,
    ended: nat -> int,
    decided: nat -> int,
    contextDone: nat -> bool,
    policiesKnown: bool,
    policiesPresent: bool)

  datatype Observation = Ran(batch: Batch) | CouldNotRun

  datatype Verdict = Pass | Fail | Unknown

  function Leaks(batches: seq<Batch>): (n: nat)
    ensures n <= |batches|
  {
    if batches == [] then 0
    else Leaks(batches[..|batches| - 1]) + if batches[|batches| - 1].Leaked() then 1 else 0
  }

  /** A batch that neither ends the probe with a pass nor makes it give up. */
  predicate Inconclusive(b: Batch) { b.control == Connected && !b.Enforced() }

  /** The last batch leaked past a working control, and either often enough or with
      no policy there to enforce. */
  predicate Damning(t: Timing, w: World, ran: seq<Batch>) {
    && ran != [] && ran[|ran| - 1].control == Connected && ran[|ran| - 1].Leaked()
    && (Leaks(ran) >= t.minLeakBatches || (w.policiesKnown && !w.policiesPresent))
  }

  /** Whether another batch may follow the first `n`: one is allowed, the settling
      window counted from the end of batch 0 is open, and a whole batch still fits. */
  predicate RoomToRetry(t: Timing, w: World, n: nat)
    requires n > 0
  {
    && n < t.maxBatches && !w.contextDone(n - 1)
    && w.decided(n - 1) < w.ended(0) + t.settleBudget
    && w.decided(n - 1) + t.batchReserve < w.start + t.waitBudget
  }

  function Most(a: int, b: int): int { if a >= b then a else b }

  lemma LeaksStep(ran: seq<Batch>, b: Batch)
    ensures Leaks(ran + [b]) == Leaks(ran) + if b.Leaked() then 1 else 0
  {
    assert (ran + [b])[..|ran|] == ran;
  }

  datatype Step = Ends(verdict: Verdict) | GoesOn

  /** What one batch settles by itself; also how many batches have leaked by then. */
  method Judge(w: World, b: Batch, before: nat) returns (step: Step, leaks: nat)
    ensures step == Ends(Pass) <==> b.control == Connected && b.Enforced()
    ensures step == Ends(Unknown) <==> b.control != Connected
    ensures step == Ends(Fail) <==> Inconclusive(b) && b.Leaked() && w.policiesKnown && !w.policiesPresent
    ensures step.GoesOn? <==> Inconclusive(b) && !(b.Leaked() && w.policiesKnown && !w.policiesPresent)
    ensures Inconclusive(b) ==> leaks == before + if b.Leaked() then 1 else 0
  {
    leaks := before;
    if b.control != Connected { return Ends(Unknown), leaks; }
    if b.denyEgress == Blocked && b.denyRegistry == Blocked { return Ends(Pass), leaks; }
    if b.Leaked() {
      leaks := leaks + 1;
      if w.policiesKnown && !w.policiesPresent { return Ends(Fail), leaks; }
    }
    return GoesOn, leaks;
  }

  /** Which batches ran and when they started: the first at once, each later one when
      it was decided that there was room for it, none after one that was conclusive. */
  ghost predicate HistoryOk(t: Timing, w: World, ran: seq<Batch>, starts: seq<int>) {
    && 1 <= |starts| <= Most(1, t.maxBatches) && |ran| <= |starts|
    && starts[0] == w.start
    && (forall i | 0 < i < |starts| :: starts[i] == w.decided(i - 1) && RoomToRetry(t, w, i))
    && (forall i | 0 <= i < |ran| :: w.batches(i) == Ran(ran[i]))
    && (forall i | 0 <= i < |ran| && i + 1 < |starts| :: Inconclusive(ran[i]))
  }

  /** Between two batches: all so far were inconclusive and there is room for another. */
  ghost predicate Underway(t: Timing, w: World, ran: seq<Batch>, starts: seq<int>, next: int) {
    && |ran| == |starts|
    && if starts == [] then next == w.start else
         && HistoryOk(t, w, ran, starts) && Inconclusive(ran[|ran| - 1])
         && RoomToRetry(t, w, |ran|) && next == w.decided(|ran| - 1)
  }

  lemma BatchStarts(t: Timing, w: World, ran: seq<Batch>, starts: seq<int>, next: int)
    requires Underway(t, w, ran, starts, next)
    ensures HistoryOk(t, w, ran, starts + [next])
  {
  }

  lemma BatchRuns(t: Timing, w: World, ran: seq<Batch>, starts: seq<int>, b: Batch)
    requires HistoryOk(t, w, ran, starts) && |ran| + 1 == |starts| && w.batches(|ran|) == Ran(b)
    ensures HistoryOk(t, w, ran + [b], starts)
    ensures Leaks(ran + [b]) == Leaks(ran) + if b.Leaked() then 1 else 0
  {
    LeaksStep(ran, b);
  }

  /** Runs batches until one passes, damns or breaks, or the window closes. `ran` are
      the batches that ran, `starts` when each was started, `broke` that the last
      one could not be run. */
  method Probe(t: Timing, w: World) returns (verdict: Verdict, ran: seq<Batch>, starts: seq<int>, broke: bool)
    ensures HistoryOk(t, w, ran, starts)
    ensures |ran| == if broke then |starts| - 1 else |starts|
    ensures broke ==> w.batches(|ran|).CouldNotRun?
    ensures !broke && Inconclusive(ran[|ran| - 1]) && !(ran[|ran| - 1].Leaked() && w.policiesKnown && !w.policiesPresent) ==>
              !RoomToRetry(t, w, |ran|)
    ensures verdict == Pass <==> !broke && ran[|ran| - 1].control == Connected && ran[|ran| - 1].Enforced()
    ensures verdict == Fail <==> !broke && Damning(t, w, ran)
  {
    ran, starts, broke := [], [], false;
    var ceiling := w.start + t.waitBudget;
    var settle, settled := 0, false;
    var leaks := 0;
    var next := w.start;
    while true
      invariant !broke && Underway(t, w, ran, starts, next)
      invariant leaks == Leaks(ran)
      invariant settled <==> |ran| > 0
      invariant settled ==> settle == w.ended(0) + t.settleBudget
      decreases Most(1, t.maxBatches) - |starts|
    {
      var n := |starts|;
      BatchStarts(t, w, ran, starts, next);
      starts := starts + [next];
      var observed := w.batches(n);
      if observed.CouldNotRun? {
        broke := true;
        return Unknown, ran, starts, broke;
      }
      var b := observed.batch;
      BatchRuns(t, w, ran, starts, b);
      ran := ran + [b];
      var step;
      step, leaks := Judge(w, b, leaks);
      if step.Ends? { return step.verdict, ran, starts, broke; }
      if !settled { settle, settled := w.ended(n) + t.settleBudget, true; }
      var now := w.decided(n);
      if !(n + 1 < t.maxBatches && now < settle && now + t.batchReserve < ceiling && !w.contextDone(n)) { break; }
      next := now;
    }
    if leaks >= t.minLeakBatches && ran[|ran| - 1].Leaked() {
      return Fail, ran, starts, broke;
    }
    return Unknown, ran, starts, broke;
  }
}

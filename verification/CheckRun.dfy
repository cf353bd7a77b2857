/** Running the checks of a registry in dependency order, and running them again
    around automatic fixes. */
module CheckRun {
  import opened Wrappers
  import opened Slices
  import opened Sorting
  import opened CheckGraph
  import opened CheckRegistry

  datatype Outcome = Pass | Fail | Skip | Error | Blocked

  datatype Status = StatusPass | StatusFail | StatusSkip | OtherStatus(name: string)

  /** What handing a check to its probe can come to. A probe is code: it may
      answer, return an error or panic, and it is not called at all once the
      context is cancelled. */
  datatype ProbeEvent = ContextDone | Panicked | Failed | Answered(status: Status)

  /** What the probes of one run would come to: by place in the run and by check. */
  type Probes = (nat, Id) -> ProbeEvent

  function Observed(e: ProbeEvent): Outcome {
    match e
    case Answered(StatusPass) => Pass
    case Answered(StatusFail) => Fail
    case Answered(StatusSkip) => Skip
    case _ => Error
  }

  predicate Hard(o: Outcome) { o != Pass && o != Skip }

  // ---------------------------------------------------------------- one check

  type Outcomes = map<Id, Outcome>

  /** Go's lookup in the map of results so far; an absent result has the empty
      outcome, which blocks like any other that is neither pass nor skip. */
  function At(o: Outcomes, x: Id): Outcome { if x in o then o[x] else Error }

  predicate AnyHard(needs: seq<Id>, o: Outcomes) { exists r | r in needs :: Hard(At(o, r)) }

  predicate AnySkipped(needs: seq<Id>, o: Outcomes) { exists r | r in needs :: At(o, r) == Skip }

  predicate AllPassed(needs: seq<Id>, o: Outcomes) { forall r | r in needs :: At(o, r) == Pass }

  function Decide(needs: seq<Id>, o: Outcomes, e: ProbeEvent): Outcome {
    if AnyHard(needs, o) then Blocked
    else if AnySkipped(needs, o) then Skip
    else Observed(e)
  }

  // ---------------------------------------------------------------- a whole run

  /** The outcomes of running `s` in this order. */
  function RunOutcomes(s: seq<Id>, g: Graph, probes: Probes): (o: Outcomes)
    requires forall x | x in s :: x in g
    ensures forall x :: x in o <==> x in s
  {
    if s == [] then map[] else
      var init, last := s[..|s| - 1], s[|s| - 1];
      assert s == init + [last];
      var o := RunOutcomes(init, g, probes);
      o[last := Decide(g[last], o, probes(|init|, last))]
  }

  lemma OutcomesStep(init: seq<Id>, last: Id, g: Graph, probes: Probes)
    requires (forall x | x in init :: x in g) && last in g
    ensures RunOutcomes(init + [last], g, probes)
         == RunOutcomes(init, g, probes)[last := Decide(g[last], RunOutcomes(init, g, probes), probes(|init|, last))]
  {
    assert (init + [last])[..|init|] == init;
  }

  /** Every outcome is the one its check's requirements and its own probe call for. */
  ghost predicate Settled(g: Graph, o: Outcomes, events: map<Id, ProbeEvent>) {
    && (forall x | x in o :: x in g && x in events)
    && (forall x {:trigger SettledAt(g, o, events, x)} | x in o :: SettledAt(g, o, events, x))
  }

  ghost predicate SettledAt(g: Graph, o: Outcomes, events: map<Id, ProbeEvent>, x: Id) {
    x in o && x in g && x in events && o[x] == Decide(g[x], o, events[x])
  }

  function Events(s: seq<Id>, probes: Probes): (m: map<Id, ProbeEvent>)
    requires Distinct(s)
    ensures forall x :: x in m <==> x in s
    ensures forall i | 0 <= i < |s| :: m[s[i]] == probes(i, s[i])
  {
    map x | x in s :: probes(IndexOf(s, x), x)
  }

  lemma DecideDependsOnNeeds(needs: seq<Id>, o: Outcomes, o': Outcomes, e: ProbeEvent)
    requires forall r | r in needs :: At(o, r) == At(o', r)
    ensures Decide(needs, o, e) == Decide(needs, o', e)
  {
  }

  ghost predicate NeedsWithin(g: Graph, o: Outcomes) {
    forall x, r | x in o && x in g && r in g[x] :: r in o
  }

  lemma SettleOneMore(g: Graph, o: Outcomes, events: map<Id, ProbeEvent>, last: Id, e: ProbeEvent)
    requires Settled(g, o, events) && NeedsWithin(g, o)
    requires last in g && last !in o && forall r | r in g[last] :: r in o
    ensures Settled(g, o[last := Decide(g[last], o, e)], events[last := e])
    ensures NeedsWithin(g, o[last := Decide(g[last], o, e)])
  {
    var o' := o[last := Decide(g[last], o, e)];
    forall x | x in o' ensures SettledAt(g, o', events[last := e], x) {
      assert x != last ==> SettledAt(g, o, events, x);
      DecideDependsOnNeeds(g[x], o, o', if x == last then e else events[x]);
    }
  }

  lemma EventsOneMore(init: seq<Id>, last: Id, probes: Probes)
    requires Distinct(init) && Distinct(init + [last])
    ensures Events(init + [last], probes) == Events(init, probes)[last := probes(|init|, last)]
  {
    var s := init + [last];
    forall x | x in s ensures Events(s, probes)[x] == Events(init, probes)[last := probes(|init|, last)][x] {
      var k := IndexOf(s, x);
      assert Events(s, probes)[s[k]] == probes(k, s[k]);
      if k < |init| {
        assert init[k] == x && s[k] != s[|init|];
        assert Events(init, probes)[init[k]] == probes(k, init[k]);
      }
    }
  }

  lemma {:induction false} RunSettles(s: seq<Id>, g: Graph, probes: Probes)
    requires Distinct(s) && RequirementsFirst(g, s) && forall x | x in s :: x in g
    ensures Settled(g, RunOutcomes(s, g, probes), Events(s, probes))
    ensures NeedsWithin(g, RunOutcomes(s, g, probes))
  {
    if s != [] {
      var init, last := s[..|s| - 1], s[|s| - 1];
      assert s == init + [last];
      RequirementsFirstPrefix(g, init, last);
      RunSettles(init, g, probes);
      assert MetAt(g, s, |init|);
      EventsOneMore(init, last, probes);
      SettleOneMore(g, RunOutcomes(init, g, probes), Events(init, probes), last, probes(|init|, last));
    }
  }

  lemma RequirementsFirstPrefix(g: Graph, init: seq<Id>, last: Id)
    requires RequirementsFirst(g, init + [last])
    ensures RequirementsFirst(g, init)
  {
    forall k | 0 <= k < |init| ensures MetAt(g, init, k) {
      assert MetAt(g, init + [last], k);
      assert (init + [last])[..k] == init[..k];
    }
  }

  // ---------------------------------------------------------------- what an outcome says about the graph

  ghost predicate Probed(g: Graph, o: Outcomes, x: Id) {
    x in g && AllPassed(g[x], o)
  }

  /** An order of all the checks, requirements first: what the next lemmas recur on. */
  ghost predicate Ordered(g: Graph, s: seq<Id>, o: Outcomes) {
    && Distinct(s) && RequirementsFirst(g, s)
    && (forall x :: x in s <==> x in g)
    && (forall x :: x in o <==> x in g)
  }

  lemma RequirementIsEarlier(g: Graph, s: seq<Id>, o: Outcomes, x: Id, r: Id)
    requires Ordered(g, s, o) && x in g && r in g[x]
    ensures r in g && r in s && x in s && IndexOf(s, r) < IndexOf(s, x)
    ensures DependsOn(g, x, r)
  {
    var k := IndexOf(s, x);
    assert MetAt(g, s, k);
    assert r in s[..k] && r in s;
    DirectDependsOn(g, x, r);
  }

  /** A check is handed to its probe exactly when everything it requires, directly
      or not, passed. */
  lemma {:induction false} ProbedIffAllPassed(g: Graph, s: seq<Id>, o: Outcomes, events: map<Id, ProbeEvent>, x: Id)
    requires Ordered(g, s, o) && Settled(g, o, events) && x in g
    ensures Probed(g, o, x) <==> forall d | DependsOn(g, x, d) :: At(o, d) == Pass
    decreases if x in s then IndexOf(s, x) else 0
  {
    if Probed(g, o, x) {
      forall d | DependsOn(g, x, d) ensures At(o, d) == Pass {
        var r := FirstStep(g, x, d);
        RequirementIsEarlier(g, s, o, x, r);
        assert SettledAt(g, o, events, r) && o[r] == Pass;
        PassMeansProbed(g[r], o, events[r]);
        ProbedIffAllPassed(g, s, o, events, r);
      }
    } else {
      var r :| r in g[x] && At(o, r) != Pass;
      RequirementIsEarlier(g, s, o, x, r);
    }
  }

  lemma PassMeansProbed(needs: seq<Id>, o: Outcomes, e: ProbeEvent)
    requires Decide(needs, o, e) != Blocked && Decide(needs, o, e) != Skip
    ensures AllPassed(needs, o)
  {
    forall r | r in needs ensures At(o, r) == Pass {
      assert !Hard(At(o, r));
    }
  }

  /** The probe of `d` was run and did not let anything behind it run. */
  ghost predicate ProbeRefused(g: Graph, o: Outcomes, d: Id) {
    Probed(g, o, d) && (At(o, d) == Fail || At(o, d) == Error)
  }

  /** A check is blocked exactly when something it requires, directly or not, was
      probed and failed or could not be determined. */
  lemma {:induction false} BlockedIffRefusedBehind(g: Graph, s: seq<Id>, o: Outcomes, events: map<Id, ProbeEvent>, x: Id)
    requires Ordered(g, s, o) && Settled(g, o, events) && x in g
    ensures o[x] == Blocked <==> exists d :: DependsOn(g, x, d) && ProbeRefused(g, o, d)
    decreases if x in s then IndexOf(s, x) else 0
  {
    assert SettledAt(g, o, events, x);
    if o[x] == Blocked {
      var r :| r in g[x] && Hard(At(o, r));
      RequirementIsEarlier(g, s, o, x, r);
      assert SettledAt(g, o, events, r);
      if o[r] == Blocked {
        BlockedIffRefusedBehind(g, s, o, events, r);
        var d :| DependsOn(g, r, d) && ProbeRefused(g, o, d);
        DependsOnTransitive(g, x, r, d);
      } else {
        PassMeansProbed(g[r], o, events[r]);
      }
    }
    if d :| DependsOn(g, x, d) && ProbeRefused(g, o, d) {
      var r := FirstStep(g, x, d);
      RequirementIsEarlier(g, s, o, x, r);
      if r != d { BlockedIffRefusedBehind(g, s, o, events, r); }
      assert Hard(At(o, r));
    }
  }

  ghost predicate ProbeSkipped(g: Graph, o: Outcomes, d: Id) {
    Probed(g, o, d) && At(o, d) == Skip
  }

  /** A check is skipped without being probed exactly when something it requires
      does not apply and nothing it requires failed or is unknown. */
  lemma {:induction false} PassedOverIff(g: Graph, s: seq<Id>, o: Outcomes, events: map<Id, ProbeEvent>, x: Id)
    requires Ordered(g, s, o) && Settled(g, o, events) && x in g
    ensures o[x] == Skip && !Probed(g, o, x) <==>
            o[x] != Blocked && exists d :: DependsOn(g, x, d) && ProbeSkipped(g, o, d)
    decreases if x in s then IndexOf(s, x) else 0
  {
    assert SettledAt(g, o, events, x);
    if o[x] == Skip && !Probed(g, o, x) {
      var r :| r in g[x] && At(o, r) != Pass;
      assert !Hard(At(o, r));
      RequirementIsEarlier(g, s, o, x, r);
      if !Probed(g, o, r) {
        PassedOverIff(g, s, o, events, r);
        var d :| DependsOn(g, r, d) && ProbeSkipped(g, o, d);
        DependsOnTransitive(g, x, r, d);
      }
    }
    if o[x] != Blocked {
      if d :| DependsOn(g, x, d) && ProbeSkipped(g, o, d) {
        var r := FirstStep(g, x, d);
        RequirementIsEarlier(g, s, o, x, r);
        assert !Hard(At(o, r));
        assert SettledAt(g, o, events, r);
        if r != d { PassedOverIff(g, s, o, events, r); }
        assert At(o, r) == Skip;
      }
    }
  }

  // ---------------------------------------------------------------- the order does not matter

  lemma {:induction false} SettledUnique(g: Graph, s: seq<Id>, o: Outcomes, o': Outcomes, events: map<Id, ProbeEvent>, x: Id)
    requires Ordered(g, s, o) && Ordered(g, s, o')
    requires Settled(g, o, events) && Settled(g, o', events) && x in g
    ensures o[x] == o'[x]
    decreases if x in s then IndexOf(s, x) else 0
  {
    forall r | r in g[x] ensures At(o, r) == At(o', r) {
      RequirementIsEarlier(g, s, o, x, r);
      SettledUnique(g, s, o, o', events, r);
    }
    assert SettledAt(g, o, events, x) && SettledAt(g, o', events, x);
  }

  lemma OrderedRun(order: seq<Id>, g: Graph, s: seq<Id>, probes: Probes)
    requires Lists(order, g) && Topological(order, g, s)
    ensures Distinct(s) && forall x | x in s :: x in g
    ensures Ordered(g, s, RunOutcomes(s, g, probes))
    ensures Settled(g, RunOutcomes(s, g, probes), Events(s, probes))
  {
    PermutationDistinct(s, order);
    forall x ensures x in s <==> x in g {
      assert x in s <==> x in multiset(s);
      assert x in order <==> x in multiset(order);
    }
    RunSettles(s, g, probes);
  }

  lemma SameEvents(s: seq<Id>, t: seq<Id>, probes: Probes)
    requires Distinct(s) && Distinct(t) && forall x :: x in s <==> x in t
    requires forall i, j, x :: probes(i, x) == probes(j, x)
    ensures Events(s, probes) == Events(t, probes)
  {
    forall x | x in s ensures Events(s, probes)[x] == Events(t, probes)[x] {
      var i, j := IndexOf(s, x), IndexOf(t, x);
      assert Events(s, probes)[s[i]] == probes(i, s[i]);
      assert Events(t, probes)[t[j]] == probes(j, t[j]);
      assert probes(i, x) == probes(j, x);
    }
  }

  /** Probes that answer the same whenever they are asked give the same outcomes
      under every topological order. */
  lemma OrderDoesNotMatter(order: seq<Id>, g: Graph, s: seq<Id>, t: seq<Id>, probes: Probes)
    requires Lists(order, g) && Topological(order, g, s) && Topological(order, g, t)
    requires forall i, j, x :: probes(i, x) == probes(j, x)
    ensures forall x | x in s :: x in g
    ensures forall x | x in t :: x in g
    ensures RunOutcomes(s, g, probes) == RunOutcomes(t, g, probes)
  {
    OrderedRun(order, g, s, probes);
    OrderedRun(order, g, t, probes);
    SameEvents(s, t, probes);
    SameOutcomes(g, s, RunOutcomes(s, g, probes), RunOutcomes(t, g, probes), Events(s, probes));
  }

  lemma SameOutcomes(g: Graph, s: seq<Id>, o: Outcomes, o': Outcomes, events: map<Id, ProbeEvent>)
    requires Ordered(g, s, o) && (forall x :: x in o' <==> x in g)
    requires Settled(g, o, events) && Settled(g, o', events)
    ensures o == o'
  {
    forall x | x in g ensures o[x] == o'[x] {
      SettledUnique(g, s, o, o', events, x);
    }
  }

  // ---------------------------------------------------------------- Run

  datatype CheckResult = CheckResult(
    id: Id, severity: Severity, summary: string, remediation: string, fixable: bool,
    outcome: Outcome, blockers: seq<Id>)

  datatype RunReply = Ran(results: seq<CheckResult>) | NotPlanned(why: PlanResult)

  /** The requirements among `needs` that hard-block, in the order listed. */
  function HardOnes(needs: seq<Id>, o: Outcomes): (s: seq<Id>)
    ensures forall r :: r in s <==> r in needs && Hard(At(o, r))
  {
    if needs == [] then [] else
      var init, last := needs[..|needs| - 1], needs[|needs| - 1];
      assert needs == init + [last];
      HardOnes(init, o) + if Hard(At(o, last)) then [last] else []
  }

  method ScanNeeds(needs: seq<Id>, o: Outcomes) returns (hard: seq<Id>, skipped: seq<Id>)
    ensures hard == HardOnes(needs, o)
    ensures forall r :: r in skipped <==> r in needs && At(o, r) == Skip
  {
    hard, skipped := [], [];
    for i := 0 to |needs|
      invariant hard == HardOnes(needs[..i], o)
      invariant forall r :: r in skipped <==> r in needs[..i] && At(o, r) == Skip
    {
      assert needs[..i + 1] == needs[..i] + [needs[i]] && needs[..i + 1][..i] == needs[..i];
      match At(o, needs[i])
      case Pass =>
      case Skip => skipped := skipped + [needs[i]];
      case _ => hard := hard + [needs[i]];
    }
    assert needs[..|needs|] == needs;
  }

  /** The report of one check, given the outcomes before it. */
  function Report(c: Check, o: Outcomes, e: ProbeEvent): CheckResult {
    CheckResult(c.id, c.severity, c.summary, c.remediation, c.hasFix,
                Decide(c.needs, o, e), HardOnes(c.needs, o))
  }

  function Recorded(results: seq<CheckResult>): (o: Outcomes) {
    if results == [] then map[] else
      var init, last := results[..|results| - 1], results[|results| - 1];
      Recorded(init)[last.id := last.outcome]
  }

  function ResultIds(results: seq<CheckResult>): (s: seq<Id>)
    ensures |s| == |results| && forall i | 0 <= i < |s| :: s[i] == results[i].id
  {
    seq(|results|, i requires 0 <= i < |results| => results[i].id)
  }

  /** The reports of running these checks in this order. */
  function Reports(checks: seq<Check>, probes: Probes): (results: seq<CheckResult>)
    ensures |results| == |checks|
  {
    if checks == [] then [] else
      var init, last := checks[..|checks| - 1], checks[|checks| - 1];
      var before := Reports(init, probes);
      before + [Report(last, Recorded(before), probes(|init|, last.id))]
  }

  /** The result carries what was registered of its check. */
  predicate Describes(res: CheckResult, c: Check) {
    && res.id == c.id && res.severity == c.severity && res.summary == c.summary
    && res.remediation == c.remediation && res.fixable == c.hasFix
  }

  lemma {:induction false} ReportsName(checks: seq<Check>, probes: Probes)
    ensures forall i | 0 <= i < |checks| :: Describes(Reports(checks, probes)[i], checks[i])
  {
    if checks != [] { ReportsName(checks[..|checks| - 1], probes); }
  }

  /** The checks handed to their probes, in the order that happens. */
  function HandedToProbe(checks: seq<Check>, probes: Probes): seq<Id> {
    if checks == [] then [] else
      var init, last := checks[..|checks| - 1], checks[|checks| - 1];
      HandedToProbe(init, probes) + if AllPassed(last.needs, Recorded(Reports(init, probes))) then [last.id] else []
  }

  lemma ReportsStep(init: seq<Check>, last: Check, probes: Probes)
    ensures Reports(init + [last], probes)
         == Reports(init, probes) + [Report(last, Recorded(Reports(init, probes)), probes(|init|, last.id))]
  {
    assert (init + [last])[..|init|] == init;
  }

  lemma HandedToProbeStep(init: seq<Check>, last: Check, probes: Probes)
    ensures HandedToProbe(init + [last], probes)
         == HandedToProbe(init, probes) + if AllPassed(last.needs, Recorded(Reports(init, probes))) then [last.id] else []
  {
    assert (init + [last])[..|init|] == init;
  }

  lemma PrefixStep(checks: seq<Check>, i: nat, probes: Probes)
    requires i < |checks|
    ensures Reports(checks[..i + 1], probes)
         == Reports(checks[..i], probes) + [Report(checks[i], Recorded(Reports(checks[..i], probes)), probes(i, checks[i].id))]
    ensures HandedToProbe(checks[..i + 1], probes)
         == HandedToProbe(checks[..i], probes)
            + if AllPassed(checks[i].needs, Recorded(Reports(checks[..i], probes))) then [checks[i].id] else []
  {
    assert checks[..i + 1] == checks[..i] + [checks[i]];
    ReportsStep(checks[..i], checks[i], probes);
    HandedToProbeStep(checks[..i], checks[i], probes);
  }

  lemma RecordedStep(init: seq<CheckResult>, last: CheckResult)
    ensures Recorded(init + [last]) == Recorded(init)[last.id := last.outcome]
  {
    assert (init + [last])[..|init|] == init;
  }

  method RunOne(c: Check, o: Outcomes, e: ProbeEvent) returns (res: CheckResult, probed: bool)
    ensures res == Report(c, o, e)
    ensures probed == AllPassed(c.needs, o)
  {
    var hard, skipped := ScanNeeds(c.needs, o);
    res := CheckResult(c.id, c.severity, c.summary, c.remediation, c.hasFix, Pass, []);
    probed := false;
    if |hard| > 0 {
      assert hard[0] in hard;
      res := res.(outcome := Blocked, blockers := hard);
    } else if |skipped| > 0 {
      assert skipped[0] in skipped;
      res := res.(outcome := Skip);
    } else {
      res := res.(outcome := Observed(e));
      probed := true;
      NothingInTheWay(c.needs, o, hard, skipped);
    }
  }

  lemma NothingInTheWay(needs: seq<Id>, o: Outcomes, hard: seq<Id>, skipped: seq<Id>)
    requires hard == [] && skipped == []
    requires hard == HardOnes(needs, o)
    requires forall r :: r in skipped <==> r in needs && At(o, r) == Skip
    ensures AllPassed(needs, o)
  {
    forall r | r in needs ensures At(o, r) == Pass {
      assert r !in hard && r !in skipped;
    }
  }

  /** Walk an execution order, deciding each check from the results so far. */
  method RunInOrder(checks: seq<Check>, probes: Probes) returns (results: seq<CheckResult>, probed: seq<Id>)
    ensures results == Reports(checks, probes)
    ensures probed == HandedToProbe(checks, probes)
  {
    var o: Outcomes := map[];
    results, probed := [], [];
    for i := 0 to |checks|
      invariant results == Reports(checks[..i], probes) && o == Recorded(results)
      invariant probed == HandedToProbe(checks[..i], probes)
    {
      var c := checks[i];
      var res, run := RunOne(c, o, probes(i, c.id));
      PrefixStep(checks, i, probes);
      RecordedStep(results, res);
      if run { probed := probed + [c.id]; }
      o := o[c.id := res.outcome];
      results := results + [res];
    }
    assert checks[..|checks|] == checks;
  }

  ghost predicate Matches(checks: seq<Check>, g: Graph) {
    forall i | 0 <= i < |checks| :: checks[i].id in g && g[checks[i].id] == checks[i].needs
  }

  lemma MatchesListed(checks: seq<Check>, g: Graph)
    requires Matches(checks, g)
    ensures forall x | x in Ids(checks) :: x in g
  {
  }

  lemma SplitLast(checks: seq<Check>)
    requires checks != []
    ensures checks == checks[..|checks| - 1] + [checks[|checks| - 1]]
    ensures Ids(checks) == Ids(checks[..|checks| - 1]) + [checks[|checks| - 1].id]
  {
  }

  lemma OneMoreOutcome(init: seq<Check>, last: Check, g: Graph, probes: Probes)
    requires (forall x | x in Ids(init) :: x in g) && last.id in g && g[last.id] == last.needs
    requires Recorded(Reports(init, probes)) == RunOutcomes(Ids(init), g, probes)
    ensures Recorded(Reports(init + [last], probes)) == RunOutcomes(Ids(init) + [last.id], g, probes)
  {
    var before := Reports(init, probes);
    ReportsStep(init, last, probes);
    RecordedStep(before, Report(last, Recorded(before), probes(|init|, last.id)));
    OutcomesStep(Ids(init), last.id, g, probes);
  }

  /** The recorded outcomes are those of running the identifiers over the graph. */
  lemma {:induction false} ReportsAreOutcomes(checks: seq<Check>, g: Graph, probes: Probes)
    requires Matches(checks, g)
    ensures forall x | x in Ids(checks) :: x in g
    ensures Recorded(Reports(checks, probes)) == RunOutcomes(Ids(checks), g, probes)
  {
    MatchesListed(checks, g);
    if checks != [] {
      var init, last := checks[..|checks| - 1], checks[|checks| - 1];
      SplitLast(checks);
      ReportsAreOutcomes(init, g, probes);
      OneMoreOutcome(init, last, g, probes);
    }
  }

  /** Running one more check does not change whether an earlier one, or itself,
      has all its requirements passed. */
  lemma LastDecidesNothingElse(g: Graph, init: seq<Id>, last: Id, probes: Probes, x: Id)
    requires (forall y | y in init :: y in g) && last in g
    requires Distinct(init + [last]) && RequirementsFirst(g, init + [last]) && x in init + [last]
    ensures Probed(g, RunOutcomes(init, g, probes), x) <==> Probed(g, RunOutcomes(init + [last], g, probes), x)
  {
    var s := init + [last];
    assert s[..|s| - 1] == init;
    var k := IndexOf(s, x);
    assert MetAt(g, s, k);
    assert s[..k] == init[..k];
    forall r | r in g[x] ensures r in init && r != last {
      var j :| 0 <= j < k && s[..k][j] == r;
      assert s[j] == r && s[j] != s[|init|];
    }
  }

  /** The same, over identifiers and the graph. */
  function Handed(s: seq<Id>, g: Graph, probes: Probes): (h: seq<Id>)
    requires forall x | x in s :: x in g
  {
    if s == [] then [] else
      var init, last := s[..|s| - 1], s[|s| - 1];
      Handed(init, g, probes) + if AllPassed(g[last], RunOutcomes(init, g, probes)) then [last] else []
  }

  lemma HandedStep(init: seq<Id>, last: Id, g: Graph, probes: Probes)
    requires (forall x | x in init :: x in g) && last in g
    ensures Handed(init + [last], g, probes)
         == Handed(init, g, probes) + if AllPassed(g[last], RunOutcomes(init, g, probes)) then [last] else []
  {
    assert (init + [last])[..|init|] == init;
  }

  lemma {:induction false} HandedAreListed(s: seq<Id>, g: Graph, probes: Probes)
    requires forall x | x in s :: x in g
    ensures forall x | x in Handed(s, g, probes) :: x in s
  {
    if s != [] { HandedAreListed(s[..|s| - 1], g, probes); }
  }

  lemma OneMoreHanded(init: seq<Check>, last: Check, g: Graph, probes: Probes)
    requires (forall x | x in Ids(init) :: x in g) && last.id in g && g[last.id] == last.needs
    requires Recorded(Reports(init, probes)) == RunOutcomes(Ids(init), g, probes)
    requires HandedToProbe(init, probes) == Handed(Ids(init), g, probes)
    ensures HandedToProbe(init + [last], probes) == Handed(Ids(init) + [last.id], g, probes)
  {
    HandedToProbeStep(init, last, probes);
    HandedStep(Ids(init), last.id, g, probes);
  }

  lemma {:induction false} HandedOverGraph(checks: seq<Check>, g: Graph, probes: Probes)
    requires Matches(checks, g)
    ensures forall x | x in Ids(checks) :: x in g
    ensures HandedToProbe(checks, probes) == Handed(Ids(checks), g, probes)
  {
    MatchesListed(checks, g);
    if checks != [] {
      var init, last := checks[..|checks| - 1], checks[|checks| - 1];
      SplitLast(checks);
      HandedOverGraph(init, g, probes);
      ReportsAreOutcomes(init, g, probes);
      OneMoreHanded(init, last, g, probes);
    }
  }

  /** Handing over one more check settles that check, and changes nothing for the others. */
  lemma HandedIffProbedStep(init: seq<Id>, last: Id, g: Graph, probes: Probes, x: Id)
    requires Distinct(init + [last]) && RequirementsFirst(g, init + [last])
    requires (forall y | y in init :: y in g) && last in g && x in init + [last]
    ensures x == last <==> x !in init
    ensures x in init ==> (x in Handed(init + [last], g, probes) <==> x in Handed(init, g, probes))
    ensures x in init ==> (Probed(g, RunOutcomes(init + [last], g, probes), x) <==> Probed(g, RunOutcomes(init, g, probes), x))
    ensures x == last ==> (x in Handed(init + [last], g, probes) <==> Probed(g, RunOutcomes(init + [last], g, probes), x))
  {
    LastIsNew(init, last);
    HandedStep(init, last, g, probes);
    HandedAreListed(init, g, probes);
    LastDecidesNothingElse(g, init, last, probes, x);
  }

  lemma LastIsNew<T>(init: seq<T>, last: T)
    requires Distinct(init + [last])
    ensures last !in init
  {
    forall i | 0 <= i < |init| ensures init[i] != last {
      assert (init + [last])[i] != (init + [last])[|init|];
    }
  }

  /** A check was handed to its probe exactly when its direct requirements ended
      as passed. */
  lemma {:induction false} HandedIffProbed(s: seq<Id>, g: Graph, probes: Probes, x: Id)
    requires Distinct(s) && RequirementsFirst(g, s) && (forall y | y in s :: y in g) && x in s
    ensures x in Handed(s, g, probes) <==> Probed(g, RunOutcomes(s, g, probes), x)
  {
    var init, last := s[..|s| - 1], s[|s| - 1];
    SplitEnd(s);
    HandedIffProbedStep(init, last, g, probes, x);
    if x in init {
      RequirementsFirstPrefix(g, init, last);
      HandedIffProbed(init, g, probes, x);
    }
  }

  /** What a run's outcomes mean over the whole requirement graph. */
  ghost predicate Meaning(g: Graph, o: Outcomes, probed: seq<Id>) {
    forall x | x in g :: x in o && MeaningAt(g, o, probed, x)
  }

  ghost predicate MeaningAt(g: Graph, o: Outcomes, probed: seq<Id>, x: Id)
    requires x in o
  {
    && (x in probed <==> forall d | DependsOn(g, x, d) :: At(o, d) == Pass)
    && (o[x] == Blocked <==> exists d :: DependsOn(g, x, d) && d in probed && At(o, d) in {Fail, Error})
    && (o[x] == Skip && x !in probed <==>
        o[x] != Blocked && exists d :: DependsOn(g, x, d) && d in probed && At(o, d) == Skip)
  }

  lemma RunMeans(order: seq<Id>, g: Graph, s: seq<Id>, probes: Probes, x: Id)
    requires Lists(order, g) && Topological(order, g, s) && x in g
    requires forall y | y in s :: y in g
    ensures var o := RunOutcomes(s, g, probes); x in o && MeaningAt(g, o, Handed(s, g, probes), x)
  {
    OrderedRun(order, g, s, probes);
    var o, events := RunOutcomes(s, g, probes), Events(s, probes);
    ProbedIffAllPassed(g, s, o, events, x);
    BlockedIffRefusedBehind(g, s, o, events, x);
    PassedOverIff(g, s, o, events, x);
    forall d | d in g ensures d in Handed(s, g, probes) <==> Probed(g, o, d) {
      HandedIffProbed(s, g, probes, d);
    }
    MeaningFromProbed(g, o, Handed(s, g, probes), x);
  }

  lemma MeaningFromProbed(g: Graph, o: Outcomes, probed: seq<Id>, x: Id)
    requires x in g && x in o
    requires forall d | d in g :: d in probed <==> Probed(g, o, d)
    requires Probed(g, o, x) <==> forall d | DependsOn(g, x, d) :: At(o, d) == Pass
    requires o[x] == Blocked <==> exists d :: DependsOn(g, x, d) && ProbeRefused(g, o, d)
    requires o[x] == Skip && !Probed(g, o, x) <==> o[x] != Blocked && exists d :: DependsOn(g, x, d) && ProbeSkipped(g, o, d)
    ensures MeaningAt(g, o, probed, x)
  {
    forall d | DependsOn(g, x, d) ensures d in g {
      var p :| PathBetween(g, p, x, d);
    }
    forall d | DependsOn(g, x, d) ensures d in probed && At(o, d) in {Fail, Error} <==> ProbeRefused(g, o, d) {}
    forall d | DependsOn(g, x, d) ensures d in probed && At(o, d) == Skip <==> ProbeSkipped(g, o, d) {}
  }

  /** The checks in plan order, as `Plan` hands them over. */
  ghost function PlanOrder(r: Registry): seq<Id>
    requires r.Valid()
    reads r
  {
    Greedy(r.order, r.Requirements(), [])
  }

  lemma RunExplained(order: seq<Id>, g: Graph, checks: seq<Check>, probes: Probes)
    requires Lists(order, g) && Topological(order, g, Ids(checks)) && Matches(checks, g)
    ensures forall x | x in Ids(checks) :: x in g
    ensures ResultIds(Reports(checks, probes)) == Ids(checks)
    ensures Recorded(Reports(checks, probes)) == RunOutcomes(Ids(checks), g, probes)
    ensures Meaning(g, Recorded(Reports(checks, probes)), HandedToProbe(checks, probes))
  {
    ReportsName(checks, probes);
    ReportsAreOutcomes(checks, g, probes);
    HandedOverGraph(checks, g, probes);
    RunMeansThroughout(order, g, Ids(checks), probes);
  }

  lemma RunMeansThroughout(order: seq<Id>, g: Graph, s: seq<Id>, probes: Probes)
    requires Lists(order, g) && Topological(order, g, s) && forall y | y in s :: y in g
    ensures Meaning(g, RunOutcomes(s, g, probes), Handed(s, g, probes))
  {
    forall x | x in g ensures x in RunOutcomes(s, g, probes) && MeaningAt(g, RunOutcomes(s, g, probes), Handed(s, g, probes), x) {
      RunMeans(order, g, s, probes, x);
    }
  }

  predicate AsRegistered(r: Registry, results: seq<CheckResult>)
    reads r
  {
    forall i | 0 <= i < |results| :: results[i].id in r.byId && Describes(results[i], r.byId[results[i].id])
  }

  /** Every result names, in the order required, the requirements that hold it up. */
  ghost predicate BlockersNamed(g: Graph, results: seq<CheckResult>) {
    forall i {:trigger results[i].blockers} | 0 <= i < |results| ::
      results[i].id in g && results[i].blockers == HardOnes(g[results[i].id], Recorded(results))
  }

  lemma {:induction false} HardOnesSame(needs: seq<Id>, o: Outcomes, o': Outcomes)
    requires forall i | 0 <= i < |needs| :: At(o, needs[i]) == At(o', needs[i])
    ensures HardOnes(needs, o) == HardOnes(needs, o')
  {
    if needs != [] { HardOnesSame(needs[..|needs| - 1], o, o'); }
  }

  /** An outcome recorded later changes nobody's blockers: nothing before requires it. */
  lemma BlockersStay(init: seq<Check>, last: Check, g: Graph, probes: Probes, i: nat)
    requires Matches(init + [last], g) && Distinct(Ids(init + [last])) && RequirementsFirst(g, Ids(init + [last]))
    requires i <= |init|
    ensures var c := (init + [last])[i];
            HardOnes(c.needs, Recorded(Reports(init, probes))) == HardOnes(c.needs, Recorded(Reports(init + [last], probes)))
  {
    var all := init + [last];
    var before := Reports(init, probes);
    var rep := Report(last, Recorded(before), probes(|init|, last.id));
    ReportsStep(init, last, probes);
    RecordedStep(before, rep);
    NeedsNotLast(init, last, g, i);
    HardOnesSame(all[i].needs, Recorded(before), Recorded(Reports(all, probes)));
  }

  lemma NeedsNotLast(init: seq<Check>, last: Check, g: Graph, i: nat)
    requires Matches(init + [last], g) && Distinct(Ids(init + [last])) && RequirementsFirst(g, Ids(init + [last]))
    requires i <= |init|
    ensures forall k | 0 <= k < |(init + [last])[i].needs| :: (init + [last])[i].needs[k] != last.id
  {
    var all := init + [last];
    var ids := Ids(all);
    assert MetAt(g, ids, i) && g[ids[i]] == all[i].needs;
    forall k | 0 <= k < |all[i].needs| ensures all[i].needs[k] != last.id {
      var r := all[i].needs[k];
      assert r in ids[..i];
      var j :| 0 <= j < i && ids[..i][j] == r;
      assert ids[j] != ids[|init|];
    }
  }

  lemma {:induction false} ReportsBlockers(checks: seq<Check>, g: Graph, probes: Probes, i: nat)
    requires Matches(checks, g) && Distinct(Ids(checks)) && RequirementsFirst(g, Ids(checks)) && i < |checks|
    ensures Reports(checks, probes)[i].blockers == HardOnes(checks[i].needs, Recorded(Reports(checks, probes)))
  {
    var init, last := checks[..|checks| - 1], checks[|checks| - 1];
    SplitLast(checks);
    if i < |init| {
      RequirementsFirstPrefix(g, Ids(init), last.id);
      PrefixDistinct(Ids(init), last.id);
      ReportsBlockers(init, g, probes, i);
    }
    BlockersOneMore(init, last, g, probes, i);
  }

  lemma BlockersOneMore(init: seq<Check>, last: Check, g: Graph, probes: Probes, i: nat)
    requires Matches(init + [last], g) && Distinct(Ids(init + [last])) && RequirementsFirst(g, Ids(init + [last]))
    requires i <= |init|
    requires i < |init| ==> Reports(init, probes)[i].blockers == HardOnes(init[i].needs, Recorded(Reports(init, probes)))
    ensures Reports(init + [last], probes)[i].blockers
         == HardOnes((init + [last])[i].needs, Recorded(Reports(init + [last], probes)))
  {
    ReportsStep(init, last, probes);
    BlockersStay(init, last, g, probes, i);
  }

  lemma PrefixDistinct<T>(init: seq<T>, last: T)
    requires Distinct(init + [last])
    ensures Distinct(init)
  {
    forall i, j | 0 <= i < j < |init| ensures init[i] != init[j] {
      assert (init + [last])[i] != (init + [last])[j];
    }
  }

  lemma BlockersOfPlan(order: seq<Id>, g: Graph, checks: seq<Check>, probes: Probes)
    requires Lists(order, g) && Topological(order, g, Ids(checks)) && Matches(checks, g)
    ensures BlockersNamed(g, Reports(checks, probes))
  {
    PermutationDistinct(Ids(checks), order);
    ReportsName(checks, probes);
    forall i | 0 <= i < |checks|
      ensures Reports(checks, probes)[i].id in g
      ensures Reports(checks, probes)[i].blockers == HardOnes(g[Reports(checks, probes)[i].id], Recorded(Reports(checks, probes)))
    {
      assert Describes(Reports(checks, probes)[i], checks[i]);
      ReportsBlockers(checks, g, probes, i);
    }
  }

  /** Runs every check, or none when the graph cannot be walked. Also returned is
      which checks were handed to their probes. */
  method Run(r: Registry, probes: Probes) returns (reply: RunReply, probed: seq<Id>)
    requires r.Valid()
    ensures reply.Ran? <==> Closed(r.Requirements()) && Acyclic(r.Requirements())
    ensures reply.NotPlanned? ==> probed == []
    ensures reply.NotPlanned? ==> !reply.why.Planned?
    ensures reply.Ran? ==> ResultIds(reply.results) == PlanOrder(r)
    ensures reply.Ran? ==> forall x | x in PlanOrder(r) :: x in r.Requirements()
    ensures reply.Ran? ==> Recorded(reply.results) == RunOutcomes(PlanOrder(r), r.Requirements(), probes)
    ensures reply.Ran? ==> Meaning(r.Requirements(), Recorded(reply.results), probed)
    ensures reply.Ran? ==> AsRegistered(r, reply.results)
    ensures reply.Ran? ==> BlockersNamed(r.Requirements(), reply.results)
  {
    var plan := r.Plan();
    if !plan.Planned? {
      return NotPlanned(plan), [];
    }
    var results;
    results, probed := RunInOrder(plan.checks, probes);
    RunExplained(r.order, r.Requirements(), plan.checks, probes);
    BlockersOfPlan(r.order, r.Requirements(), plan.checks, probes);
    ReportsName(plan.checks, probes);
    reply := Ran(results);
  }

  // ---------------------------------------------------------------- RunAndFix

  /** What calling a check's Fix can come to. */
  datatype FixEvent = FixContextDone | FixPanicked | FixFailed | Fixed

  datatype Attempt = Attempt(id: Id, failed: bool, resolved: bool)

  datatype FixReply = Done(results: seq<CheckResult>, attempts: seq<Attempt>) | Refused(why: PlanResult)

  /** The results that get a fix: failed, and with a Fix to call. */
  function ToFix(results: seq<CheckResult>): (ids: seq<Id>)
    ensures forall x | x in ids :: exists res :: res in results && res.id == x && res.outcome == Fail && res.fixable
  {
    if results == [] then [] else
      var init, last := results[..|results| - 1], results[|results| - 1];
      assert results == init + [last];
      ToFix(init) + if last.outcome == Fail && last.fixable then [last.id] else []
  }

  method ApplyFixes(r: Registry, results: seq<CheckResult>, fixes: Id -> FixEvent) returns (attempts: seq<Attempt>)
    requires r.Valid()
    requires AsRegistered(r, results)
    ensures AttemptIds(attempts) == ToFix(results)
    ensures forall a | a in attempts :: a.failed == !fixes(a.id).Fixed?
  {
    attempts := [];
    for i := 0 to |results|
      invariant AttemptIds(attempts) == ToFix(results[..i])
      invariant forall a | a in attempts :: a.failed == !fixes(a.id).Fixed?
    {
      assert results[..i + 1][..i] == results[..i];
      var res := results[i];
      if res.outcome == Fail && r.byId[res.id].hasFix {
        attempts := attempts + [Attempt(res.id, !fixes(res.id).Fixed?, false)];
      }
    }
    assert results[..|results|] == results;
  }

  function AttemptIds(attempts: seq<Attempt>): (s: seq<Id>)
    ensures |s| == |attempts| && forall i | 0 <= i < |s| :: s[i] == attempts[i].id
  {
    seq(|attempts|, i requires 0 <= i < |attempts| => attempts[i].id)
  }

  lemma {:induction false} RecordedAt(results: seq<CheckResult>, i: nat)
    requires Distinct(ResultIds(results)) && i < |results|
    ensures At(Recorded(results), results[i].id) == results[i].outcome
  {
    var init, last := results[..|results| - 1], results[|results| - 1];
    assert results == init + [last];
    assert ResultIds(results) == ResultIds(init) + [last.id];
    if i < |init| {
      RecordedAt(init, i);
      assert ResultIds(results)[i] != ResultIds(results)[|init|];
    }
  }

  /** A failure is the answer of a probe, so everything behind the check had passed. */
  lemma FailureBehindPasses(order: seq<Id>, g: Graph, s: seq<Id>, probes: Probes, x: Id)
    requires Lists(order, g) && Topological(order, g, s) && x in g
    requires forall y | y in s :: y in g
    requires At(RunOutcomes(s, g, probes), x) == Fail
    ensures forall d | DependsOn(g, x, d) :: At(RunOutcomes(s, g, probes), d) == Pass
  {
    OrderedRun(order, g, s, probes);
    var o, events := RunOutcomes(s, g, probes), Events(s, probes);
    assert SettledAt(g, o, events, x);
    PassMeansProbed(g[x], o, events[x]);
    ProbedIffAllPassed(g, s, o, events, x);
  }

  lemma FixesAreSound(order: seq<Id>, g: Graph, s: seq<Id>, probes: Probes, results: seq<CheckResult>)
    requires Lists(order, g) && Topological(order, g, s) && (forall y | y in s :: y in g)
    requires ResultIds(results) == s && Recorded(results) == RunOutcomes(s, g, probes)
    ensures OnlySoundFixes(g, RunOutcomes(s, g, probes), ToFix(results))
  {
    PermutationDistinct(s, order);
    forall x | x in ToFix(results)
      ensures At(Recorded(results), x) == Fail && forall d | DependsOn(g, x, d) :: At(Recorded(results), d) == Pass
    {
      var res :| res in results && res.id == x && res.outcome == Fail && res.fixable;
      var i :| 0 <= i < |results| && results[i] == res;
      RecordedAt(results, i);
      assert s[i] == x;
      FailureBehindPasses(order, g, s, probes, x);
    }
  }

  lemma {:induction false} ToFixHas(results: seq<CheckResult>, i: nat)
    requires i < |results| && results[i].outcome == Fail && results[i].fixable
    ensures results[i].id in ToFix(results)
  {
    if i < |results| - 1 { ToFixHas(results[..|results| - 1], i); }
  }

  lemma FixesAreAll(r: Registry, results: seq<CheckResult>)
    requires r.Valid() && Distinct(ResultIds(results))
    requires forall x | x in r.byId :: x in ResultIds(results)
    requires AsRegistered(r, results)
    ensures AllFailuresTried(r, Recorded(results), ToFix(results))
  {
    forall x | x in r.byId && r.byId[x].hasFix && At(Recorded(results), x) == Fail ensures x in ToFix(results) {
      var i :| 0 <= i < |results| && ResultIds(results)[i] == x;
      RecordedAt(results, i);
      ToFixHas(results, i);
    }
  }

  lemma PlanIsOrder(r: Registry)
    requires r.Valid() && Closed(r.Requirements()) && Acyclic(r.Requirements())
    ensures Topological(r.order, r.Requirements(), PlanOrder(r))
    ensures Distinct(PlanOrder(r)) && forall x :: x in PlanOrder(r) <==> x in r.byId
  {
    GreedyCompleteIffAcyclic(r.order, r.Requirements());
    PermutationDistinct(PlanOrder(r), r.order);
    forall x ensures x in PlanOrder(r) <==> x in r.byId {
      assert x in PlanOrder(r) <==> x in multiset(PlanOrder(r));
      assert x in r.order <==> x in multiset(r.order);
    }
  }

  /** The first run and the fixes tried after it. */
  method RunThenFix(r: Registry, probes: Probes, fixes: Id -> FixEvent) returns (first: RunReply, attempts: seq<Attempt>)
    requires r.Valid()
    ensures first.Ran? <==> Closed(r.Requirements()) && Acyclic(r.Requirements())
    ensures first.Ran? ==> forall x | x in PlanOrder(r) :: x in r.Requirements()
    ensures first.Ran? ==> Recorded(first.results) == RunOutcomes(PlanOrder(r), r.Requirements(), probes)
    ensures first.Ran? ==> OnlySoundFixes(r.Requirements(), Recorded(first.results), AttemptIds(attempts))
    ensures first.Ran? ==> AllFailuresTried(r, Recorded(first.results), AttemptIds(attempts))
    ensures first.Ran? ==> forall a | a in attempts :: a.failed == !fixes(a.id).Fixed?
  {
    var probed;
    first, probed := Run(r, probes);
    attempts := [];
    if first.Ran? {
      attempts := ApplyFixes(r, first.results, fixes);
      PlanIsOrder(r);
      FixesAreSound(r.order, r.Requirements(), PlanOrder(r), probes, first.results);
      FixesAreAll(r, first.results);
    }
  }

  method MarkResolved(attempts: seq<Attempt>, o: Outcomes) returns (marked: seq<Attempt>)
    ensures AttemptIds(marked) == AttemptIds(attempts)
    ensures forall i | 0 <= i < |attempts| :: marked[i] == attempts[i].(resolved := At(o, attempts[i].id) == Pass)
  {
    marked := [];
    for i := 0 to |attempts|
      invariant |marked| == i
      invariant forall j | 0 <= j < i :: marked[j] == attempts[j].(resolved := At(o, attempts[j].id) == Pass)
    {
      marked := marked + [attempts[i].(resolved := At(o, attempts[i].id) == Pass)];
    }
  }

  /** Run, fix what failed, run again. `before` are the probes of the first run,
      `after` those of the second, once the fixes have been applied. */
  method RunAndFix(r: Registry, before: Probes, fixes: Id -> FixEvent, after: Probes) returns (reply: FixReply)
    requires r.Valid()
    ensures reply.Done? <==> Closed(r.Requirements()) && Acyclic(r.Requirements())
    ensures reply.Done? ==> forall x | x in PlanOrder(r) :: x in r.Requirements()
    ensures reply.Done? ==> OnlySoundFixes(r.Requirements(), RunOutcomes(PlanOrder(r), r.Requirements(), before), AttemptIds(reply.attempts))
    ensures reply.Done? ==> AllFailuresTried(r, RunOutcomes(PlanOrder(r), r.Requirements(), before), AttemptIds(reply.attempts))
    ensures reply.Done? ==>
      Recorded(reply.results) == RunOutcomes(PlanOrder(r), r.Requirements(), if reply.attempts == [] then before else after)
    ensures reply.Done? ==> forall a | a in reply.attempts ::
      a.failed == !fixes(a.id).Fixed? && a.resolved == (At(Recorded(reply.results), a.id) == Pass)
  {
    var first, attempts := RunThenFix(r, before, fixes);
    if first.NotPlanned? {
      return Refused(first.why);
    }
    if |attempts| == 0 {
      return Done(first.results, []);
    }
    var second, _ := Run(r, after);
    // The graph was walked once already, so the second run cannot be refused.
    assert second.Ran?;
    attempts := MarkResolved(attempts, Recorded(second.results));
    return Done(second.results, attempts);
  }

  /** Every fix was for a check that failed while everything it requires, directly
      or not, had passed. */
  ghost predicate OnlySoundFixes(g: Graph, o: Outcomes, fixed: seq<Id>) {
    forall x | x in fixed :: At(o, x) == Fail && forall d | DependsOn(g, x, d) :: At(o, d) == Pass
  }

  ghost predicate AllFailuresTried(r: Registry, o: Outcomes, fixed: seq<Id>)
    reads r
  {
    forall x | x in r.byId && r.byId[x].hasFix && At(o, x) == Fail :: x in fixed
  }
}

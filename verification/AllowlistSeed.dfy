/** How the installer seeds the runtime repository allowlist exactly once, and
    carries over the policy of a receiver from before that allowlist existed.

    The cluster and the node are the state; every command of an installer run, and
    every action of the k3s controller beside it, is one step. A run may stop
    before any of its commands. */
module AllowlistSeed {
  import opened Wrappers
  import opened Text
  import opened RepoAllowlist

  const LEGACY_ENV := "ORKANO_REPO_ALLOWLIST"
  const RECEIVER_NAME := "orkano-receiver"

  datatype EnvVar = EnvVar(name: string, value: string, literal: bool)

  datatype Deployment = Deployment(name: string, containers: seq<seq<EnvVar>>)

  // ---------------------------------------------------------------- the legacy policy

  datatype Legacy =
    | NoReceiver
    | Policy(repositories: seq<string>)
    | Unreadable | Unparsable | WrongName | NotLiteral | Duplicate | InvalidPolicy

  /** What `kubectl get --ignore-not-found -o json` can come to. */
  datatype Answer = NoAnswer | Garbled | Read(deployment: Option<Deployment>)

  function NamedIn(vars: seq<EnvVar>): seq<EnvVar> {
    if vars == [] then [] else
      var last := vars[|vars| - 1];
      NamedIn(vars[..|vars| - 1]) + if last.name == LEGACY_ENV then [last] else []
  }

  /** The legacy variables of all containers, in order. */
  function Named(containers: seq<seq<EnvVar>>): seq<EnvVar> {
    if containers == [] then []
    else Named(containers[..|containers| - 1]) + NamedIn(containers[|containers| - 1])
  }

  /** What the scan has found after seeing these variables. */
  datatype Scan = Nothing | Value(raw: string) | Failed(error: Legacy)

  function ScanOf(vars: seq<EnvVar>): Scan {
    if vars == [] then Nothing
    else if !vars[0].literal then Failed(NotLiteral)
    else if |vars| > 1 then Failed(Duplicate)
    else Value(vars[0].value)
  }

  method ScanContainer(vars: seq<EnvVar>, before: Scan, ghost seen: seq<EnvVar>) returns (scan: Scan)
    requires before == ScanOf(seen) && !before.Failed?
    ensures scan == ScanOf(seen + NamedIn(vars))
  {
    scan := before;
    assert seen + NamedIn([]) == seen;
    for i := 0 to |vars|
      invariant scan == ScanOf(seen + NamedIn(vars[..i])) && !scan.Failed?
    {
      assert vars[..i + 1][..i] == vars[..i];
      var v := vars[i];
      ghost var now := seen + NamedIn(vars[..i]);
      if v.name != LEGACY_ENV {
        assert NamedIn(vars[..i + 1]) == NamedIn(vars[..i]);
        continue;
      }
      assert seen + NamedIn(vars[..i + 1]) == now + [v];
      if scan.Value? || !v.literal {
        scan := Failed(if scan.Value? then Duplicate else NotLiteral);
        FailureStays(seen, vars, i + 1);
        return;
      }
      scan := Value(v.value);
    }
    assert vars[..|vars|] == vars;
  }

  /** Once the scan has failed, further variables do not change how. */
  lemma {:induction false} FailureStays(seen: seq<EnvVar>, vars: seq<EnvVar>, i: nat)
    requires i <= |vars| && ScanOf(seen + NamedIn(vars[..i])).Failed?
    ensures ScanOf(seen + NamedIn(vars)) == ScanOf(seen + NamedIn(vars[..i]))
    decreases |vars| - i
  {
    if i < |vars| {
      assert vars[..i + 1][..i] == vars[..i];
      var a, b := seen + NamedIn(vars[..i]), seen + NamedIn(vars[..i + 1]);
      assert a <= b;
      FailureStays(seen, vars, i + 1);
    } else {
      assert vars[..i] == vars;
    }
  }

  lemma {:induction false} FailureStaysAcross(containers: seq<seq<EnvVar>>, i: nat)
    requires i <= |containers| && ScanOf(Named(containers[..i])).Failed?
    ensures ScanOf(Named(containers)) == ScanOf(Named(containers[..i]))
    decreases |containers| - i
  {
    if i < |containers| {
      assert containers[..i + 1][..i] == containers[..i];
      assert Named(containers[..i]) <= Named(containers[..i + 1]);
      FailureStaysAcross(containers, i + 1);
    } else {
      assert containers[..i] == containers;
    }
  }

  /** The policy carried by a receiver Deployment: its one literal legacy variable,
      normalized; nothing when it has none. */
  ghost function LegacyPolicy(deployment: Option<Deployment>): Legacy {
    match deployment
    case None => NoReceiver
    case Some(d) =>
      if d.name != RECEIVER_NAME then WrongName else
        match ScanOf(Named(d.containers))
        case Failed(error) => error
        case Nothing => Policy([])
        case Value(raw) =>
          var pieces := Split(raw, ',');
          if Accepted(pieces) then Policy(NormalForm(pieces)) else InvalidPolicy
  }

  ghost function LegacyFrom(answer: Answer): Legacy {
    match answer
    case NoAnswer => Unreadable
    case Garbled => Unparsable
    case Read(deployment) => LegacyPolicy(deployment)
  }

  method ReadLegacyPolicy(answer: Answer) returns (legacy: Legacy)
    ensures legacy == LegacyFrom(answer)
  {
    if answer.NoAnswer? { return Unreadable; }
    if answer.Garbled? { return Unparsable; }
    if answer.deployment.None? { return NoReceiver; }
    var d := answer.deployment.value;
    if d.name != RECEIVER_NAME { return WrongName; }
    var scan := Nothing;
    for i := 0 to |d.containers|
      invariant scan == ScanOf(Named(d.containers[..i])) && !scan.Failed?
    {
      assert d.containers[..i + 1][..i] == d.containers[..i];
      scan := ScanContainer(d.containers[i], scan, Named(d.containers[..i]));
      if scan.Failed? {
        FailureStaysAcross(d.containers, i + 1);
        return scan.error;
      }
    }
    assert d.containers[..|d.containers|] == d.containers;
    if scan.Nothing? { return Policy([]); }
    var repositories := Normalize(Split(scan.raw, ','));
    if repositories.Err? { return InvalidPolicy; }
    NormalFormUnique(Split(scan.raw, ','), repositories.value);
    return Policy(repositories.value);
  }

  // ---------------------------------------------------------------- installer runs

  /** Where a run stands. `seed` is what it will create the allowlist from. */
  datatype Run =
    | Idle
    | Inspecting                                  // about to read the receiver Deployment
    | SeedingEarly(seed: seq<string>)             // about to create the allowlist, before anything else
    | Writing(seed: seq<string>, ready: bool)     // about to write the new receiver manifest
    | Written(seed: seq<string>, ready: bool)
    | SeedingLate(seed: seq<string>)              // about to create the allowlist, last
    | Completed

  datatype State = State(
    deployment: Option<Deployment>,
    manifest: Option<Deployment>,       // the receiver manifest in the auto-deploy directory
    configMap: Option<string>,
    run: Run)

  datatype Step =
    | Start(explicitSeed: seq<string>)
    | Inspect(answer: Answer)
    | Create(applied: bool, reported: bool)
    | WriteManifest(receiver: Deployment)
    | Finish
    | Stop
    | ControllerApplies
    | SettingsEdit(text: string)        // the dashboard replaces the live allowlist

  predicate Creating(r: Run) { r.SeedingEarly? || r.SeedingLate? }

  ghost predicate Enabled(s: State, step: Step) {
    match step
    case Start(seed) => s.run.Idle? && Accepted(seed)
    case Inspect(answer) => s.run.Inspecting? && (answer.Read? ==> answer.deployment == s.deployment)
    case Create(applied, reported) =>
      // The API server refuses to create what is there.
      Creating(s.run) && (reported ==> applied) && (applied ==> s.configMap.None?)
    case WriteManifest(receiver) => s.run.Writing? && Named(receiver.containers) == []
    case Finish => s.run.Written? || s.run.Completed?
    case Stop => !s.run.Idle?
    case ControllerApplies => s.manifest.Some?
    case SettingsEdit(_) => s.configMap.Some?
  }

  /** The receiver was read: seed from its policy at once, or go on without. */
  ghost function AfterInspect(answer: Answer): Run {
    match LegacyFrom(answer)
    case NoReceiver => Writing([], false)
    case Policy(repositories) => SeedingEarly(repositories)
    case _ => Idle
  }

  function AfterCreate(r: Run): Run
    requires Creating(r)
  {
    match r
    case SeedingEarly(seed) => Writing(seed, true)
    case SeedingLate(_) => Completed
  }

  ghost function After(s: State, step: Step): State
    requires Enabled(s, step)
  {
    match step
    case Start(seed) =>
      s.(run := if NormalForm(seed) == [] then Inspecting else Writing(NormalForm(seed), false))
    case Inspect(answer) => s.(run := AfterInspect(answer))
    case Create(applied, reported) =>
      // A create that failed is followed by a read: the allowlist being there is success.
      var configMap := if applied then Some(FormatText(NormalForm(s.run.seed))) else s.configMap;
      s.(configMap := configMap, run := if reported || configMap.Some? then AfterCreate(s.run) else Idle)
    case WriteManifest(receiver) => s.(manifest := Some(receiver), run := Written(s.run.seed, s.run.ready))
    case Finish =>
      s.(run := if s.run.Completed? then Idle else if s.run.ready then Completed else SeedingLate(s.run.seed))
    case Stop => s.(run := Idle)
    case ControllerApplies => s.(deployment := s.manifest)
    case SettingsEdit(text) => s.(configMap := Some(text))
  }

  ghost predicate Leads(s: State, steps: seq<Step>, t: State)
    decreases |steps|
  {
    if steps == [] then s == t
    else Enabled(s, steps[0]) && Leads(After(s, steps[0]), steps[1..], t)
  }

  // ---------------------------------------------------------------- nothing but Settings changes a live allowlist

  /** No step of an installer run, however it ends, alters an existing allowlist. */
  lemma {:induction false} LiveAllowlistStays(s: State, steps: seq<Step>, t: State)
    requires Leads(s, steps, t) && s.configMap.Some?
    requires forall step | step in steps :: !step.SettingsEdit?
    ensures t.configMap == s.configMap
    decreases |steps|
  {
    if steps != [] {
      assert steps[0] in steps;
      LiveAllowlistStays(After(s, steps[0]), steps[1..], t);
    }
  }

  // ---------------------------------------------------------------- the legacy policy survives

  /** A receiver that carries this policy as its one literal variable. */
  ghost predicate Carries(deployment: Option<Deployment>, raw: string) {
    && deployment.Some? && deployment.value.name == RECEIVER_NAME
    && ScanOf(Named(deployment.value.containers)) == Value(raw)
  }

  ghost predicate LegacyStart(s: State, raw: string) {
    && Accepted(Split(raw, ','))
    && Carries(s.deployment, raw)
    && (s.manifest.Some? ==> Carries(s.manifest, raw))
    && s.configMap.None? && s.run.Idle?
  }

  ghost function CanonicalText(raw: string): string { FormatText(NormalForm(Split(raw, ','))) }

  /** The policy is still on the receiver, which nothing can have replaced yet, or
      it is in the allowlist in canonical form. */
  ghost predicate Survives(s: State, raw: string) {
    || s.configMap == Some(CanonicalText(raw))
    || ( && s.configMap.None? && Carries(s.deployment, raw)
         && (s.manifest.Some? ==> Carries(s.manifest, raw))
         && (s.run.Idle? || s.run.Inspecting? || s.run == SeedingEarly(NormalForm(Split(raw, ',')))))
  }

  lemma EmptyNormalForm(seed: seq<string>)
    requires forall x | x in seed :: TrimSpace(x) == ""
    ensures Accepted(seed) && NormalForm(seed) == []
  {
    NoEntries(seed);
    assert Names(seed) == {};
    NormalFormUnique(seed, []);
  }

  lemma {:induction false} NoEntries(seed: seq<string>)
    requires forall x | x in seed :: TrimSpace(x) == ""
    ensures Entries(seed) == []
  {
    if seed != [] {
      assert seed[|seed| - 1] in seed;
      NoEntries(seed[..|seed| - 1]);
    }
  }

  /** Installer runs without an explicit seed (blank entries are none), and the
      controller; Settings are not used yet. */
  ghost predicate Unseeded(step: Step) {
    !step.SettingsEdit? && (step.Start? ==> Accepted(step.explicitSeed) && NormalForm(step.explicitSeed) == [])
  }

  lemma SurvivesStep(s: State, step: Step, raw: string)
    requires Accepted(Split(raw, ',')) && Survives(s, raw)
    requires Enabled(s, step) && Unseeded(step)
    ensures Survives(After(s, step), raw)
  {
    if s.configMap.None? {
      match step
      case Create(_, _) => NormalizeIdempotent(Split(raw, ','));
      case _ =>
    }
  }

  /** For any sequence of installer runs, each stopped anywhere, interleaved with the
      controller in any way: at every moment the policy is on the receiver or in the
      allowlist, and whenever a run has completed it is in the allowlist. */
  lemma {:induction false} LegacyPolicySurvives(s: State, steps: seq<Step>, t: State, raw: string)
    requires Accepted(Split(raw, ',')) && Survives(s, raw)
    requires Leads(s, steps, t) && forall step | step in steps :: Unseeded(step)
    ensures Survives(t, raw)
    ensures Carries(t.deployment, raw) || t.configMap == Some(CanonicalText(raw))
    ensures t.run.Completed? ==> t.configMap == Some(CanonicalText(raw))
    decreases |steps|
  {
    if steps != [] {
      assert steps[0] in steps;
      SurvivesStep(s, steps[0], raw);
      LegacyPolicySurvives(After(s, steps[0]), steps[1..], t, raw);
    }
  }

  /** From a receiver of before, with no allowlist yet and no run under way. */
  lemma LegacyPolicyCarriedOver(s: State, steps: seq<Step>, t: State, raw: string)
    requires LegacyStart(s, raw)
    requires Leads(s, steps, t) && forall step | step in steps :: Unseeded(step)
    ensures Carries(t.deployment, raw) || t.configMap == Some(CanonicalText(raw))
    ensures t.run.Completed? ==> t.configMap == Some(CanonicalText(raw))
  {
    LegacyPolicySurvives(s, steps, t, raw);
  }

  /** What the allowlist then holds reads back as the policy. */
  lemma SeededTextReadsBack(raw: string)
    requires Accepted(Split(raw, ','))
    ensures var pieces := Split(CanonicalText(raw), '\n');
            Accepted(pieces) && NormalForm(pieces) == NormalForm(Split(raw, ','))
  {
    ParseFormat(Split(raw, ','));
  }
}

/** Replacing the live repository allowlist from the dashboard: an audited intent,
    a read, a conditional update and, when its result is unclear, a read-back.

    Any number of requests run at once, beside anyone else who writes the
    ConfigMap. What happened is one log, in order, of audit entries and writes; the
    ConfigMap is what that log left. Policies stand for their own SHA-256 hashes,
    which assumes that different policies have different hashes. */
module AllowlistUpdate {
  import opened Wrappers
  import opened Text
  import opened RepoAllowlist

  datatype Outcome = Attempt | Success | Failure | Indeterminate

  /** The ConfigMap: its data under the allowlist key, and its resource version. */
  datatype Store = Missing | Present(data: Option<string>, version: nat)

  datatype Entry =
    | Audit(request: nat, outcome: Outcome, policy: string)
    | Wrote(request: nat, text: string, version: nat)
    | Outside(store: Store)

  // ---------------------------------------------------------------- the log and the store it leaves

  function StoreAfter(init: Store, log: seq<Entry>): Store {
    if log == [] then init else
      match log[|log| - 1]
      case Audit(_, _, _) => StoreAfter(init, log[..|log| - 1])
      case Wrote(_, text, version) => Present(Some(text), version)
      case Outside(store) => store
  }

  function VersionOf(store: Store): nat { if store.Present? then store.version else 0 }

  /** The highest resource version handed out so far. */
  function Highest(init: Store, log: seq<Entry>): (v: nat)
    ensures v >= VersionOf(StoreAfter(init, log))
  {
    if log == [] then VersionOf(init) else
      var before := Highest(init, log[..|log| - 1]);
      var now := match log[|log| - 1]
        case Audit(_, _, _) => 0
        case Wrote(_, _, version) => version
        case Outside(store) => VersionOf(store);
      if now > before then now else before
  }

  /** The policy a stored ConfigMap stands for, as canonical text. */
  ghost function PolicyOf(store: Store): Option<string> {
    if store.Present? && store.data.Some? && Accepted(Split(store.data.value, '\n'))
    then Some(FormatText(NormalForm(Split(store.data.value, '\n'))))
    else None
  }

  // ---------------------------------------------------------------- requests

  /** Where a request stands. `attempt` is the log position of its intent, `fetched`
      the version of the object it has read and will send back, `seen` a position
      after which the store held its policy, `success` that of its success entry. */
  datatype Phase =
    | Attempting
    | Reading(attempt: nat)
    | Updating(attempt: nat, fetched: nat)
    | ReadingBack(attempt: nat)
    | Confirming(attempt: nat, seen: nat)
    | Failing(outcome: Outcome)
    | Answered200(attempt: nat, seen: nat, success: nat)
    | AnsweredError

  /** `text` is the canonical policy asked for, `version` the one the client named. */
  datatype Request = Request(text: string, version: nat, phase: Phase)

  datatype State = State(init: Store, log: seq<Entry>, requests: map<nat, Request>)
  {
    function Current(): Store { StoreAfter(init, log) }
  }

  datatype Step =
    | Receive(r: nat, wellFormed: bool, repositories: seq<string>, version: nat)
    | AppendAttempt(r: nat, ok: bool)
    | Get(r: nat, ok: bool)
    | Update(r: nat, applied: bool, reported: bool, newVersion: nat)
    | ReadBack(r: nat, ok: bool)
    | AppendSuccess(r: nat, ok: bool)
    | Fail(r: nat, appended: bool)
    | OutsideWrite(store: Store)

  predicate At(s: State, r: nat, p: Phase -> bool) { r in s.requests && p(s.requests[r].phase) }

  predicate Enabled(s: State, step: Step) {
    match step
    case Receive(r, _, _, _) => r !in s.requests
    case AppendAttempt(r, _) => At(s, r, (p: Phase) => p.Attempting?)
    case Get(r, _) => At(s, r, (p: Phase) => p.Reading?)
    case Update(r, applied, reported, newVersion) =>
      // The API server refuses an object whose resource version is not the current one.
      && At(s, r, (p: Phase) => p.Updating?) && (reported ==> applied)
      && (applied ==> s.Current().Present? && s.Current().version == s.requests[r].phase.fetched
                      && newVersion > Highest(s.init, s.log))
    case ReadBack(r, _) => At(s, r, (p: Phase) => p.ReadingBack?)
    case AppendSuccess(r, _) => At(s, r, (p: Phase) => p.Confirming?)
    case Fail(r, _) => At(s, r, (p: Phase) => p.Failing?)
    case OutsideWrite(store) => store.Present? ==> store.version > Highest(s.init, s.log)
  }

  function Move(s: State, r: nat, phase: Phase): State
    requires r in s.requests
  {
    s.(requests := s.requests[r := s.requests[r].(phase := phase)])
  }

  function Log(s: State, e: Entry): State { s.(log := s.log + [e]) }

  ghost function After(s: State, step: Step): State
    requires Enabled(s, step)
  {
    match step
    case Receive(r, wellFormed, repositories, version) =>
      var ok := wellFormed && Accepted(repositories);
      s.(requests := s.requests[r := Request(
        if ok then FormatText(NormalForm(repositories)) else "", version,
        if ok then Attempting else Failing(Failure))])
    case AppendAttempt(r, ok) =>
      if ok then Log(Move(s, r, Reading(|s.log|)), Audit(r, Attempt, s.requests[r].text))
      else Move(s, r, AnsweredError)
    case Get(r, ok) =>
      if !ok || s.Current().Missing? then Move(s, r, Failing(Failure))
      else if s.Current().version != s.requests[r].version then Move(s, r, Failing(Failure))
      else Move(s, r, Updating(s.requests[r].phase.attempt, s.Current().version))
    case Update(r, applied, reported, newVersion) =>
      var req := s.requests[r];
      var phase := if reported then Confirming(req.phase.attempt, |s.log| + 1) else ReadingBack(req.phase.attempt);
      if applied then Log(Move(s, r, phase), Wrote(r, req.text, newVersion)) else Move(s, r, phase)
    case ReadBack(r, ok) =>
      var req := s.requests[r];
      if !ok || PolicyOf(s.Current()).None? then Move(s, r, Failing(Indeterminate))
      else if PolicyOf(s.Current()).value == req.text then Move(s, r, Confirming(req.phase.attempt, |s.log|))
      else Move(s, r, Failing(Failure))
    case AppendSuccess(r, ok) =>
      var req := s.requests[r];
      if ok then Log(Move(s, r, Answered200(req.phase.attempt, req.phase.seen, |s.log|)), Audit(r, Success, req.text))
      else Move(s, r, AnsweredError)
    case Fail(r, appended) =>
      var s' := Move(s, r, AnsweredError);
      if appended then Log(s', Audit(r, s.requests[r].phase.outcome, s.requests[r].text)) else s'
    case OutsideWrite(store) => Log(s, Outside(store))
  }

  ghost predicate Leads(s: State, steps: seq<Step>, t: State)
    decreases |steps|
  {
    if steps == [] then s == t
    else Enabled(s, steps[0]) && Leads(After(s, steps[0]), steps[1..], t)
  }

  // ---------------------------------------------------------------- what every step keeps

  ghost predicate CanonicalPolicy(text: string) {
    exists repositories :: Accepted(repositories) && text == FormatText(NormalForm(repositories))
  }

  ghost predicate Intended(log: seq<Entry>, r: nat, text: string, a: nat) {
    a < |log| && log[a] == Audit(r, Attempt, text)
  }

  /** The store held this policy once the first `k` entries had happened. */
  ghost predicate Held(init: Store, log: seq<Entry>, text: string, k: nat) {
    k <= |log| && PolicyOf(StoreAfter(init, log[..k])) == Some(text)
  }

  ghost predicate RequestOk(init: Store, log: seq<Entry>, r: nat, req: Request) {
    && (!req.phase.Failing? && !req.phase.AnsweredError? ==> CanonicalPolicy(req.text))
    && match req.phase
       case Reading(a) => Intended(log, r, req.text, a)
       case Updating(a, fetched) => Intended(log, r, req.text, a) && fetched == req.version
       case ReadingBack(a) => Intended(log, r, req.text, a)
       case Confirming(a, k) => Intended(log, r, req.text, a) && a < k && Held(init, log, req.text, k)
       case Answered200(a, k, c) =>
         && Intended(log, r, req.text, a) && a < k <= c && Held(init, log, req.text, k)
         && c < |log| && log[c] == Audit(r, Success, req.text)
       case _ => true
  }

  /** A write by a request: intended before, of the policy asked for, over exactly
      the version the client named. */
  ghost predicate WriteOk(s: State, k: nat)
    requires k < |s.log| && s.log[k].Wrote?
  {
    var e := s.log[k];
    && e.request in s.requests
    && e.text == s.requests[e.request].text
    && (exists a: nat :: a < k && Intended(s.log, e.request, e.text, a))
    && StoreAfter(s.init, s.log[..k]).Present?
    && StoreAfter(s.init, s.log[..k]).version == s.requests[e.request].version
  }

  /** Every change of the store carries a version never handed out before. */
  ghost predicate FreshAt(init: Store, log: seq<Entry>, k: nat)
    requires k < |log|
  {
    match log[k]
    case Audit(_, _, _) => true
    case Wrote(_, _, version) => version > Highest(init, log[..k])
    case Outside(store) => store.Present? ==> store.version > Highest(init, log[..k])
  }

  ghost predicate RequestsOk(s: State) {
    forall r {:trigger RequestOk(s.init, s.log, r, s.requests[r])} | r in s.requests :: RequestOk(s.init, s.log, r, s.requests[r])
  }

  ghost predicate WritesOk(s: State) {
    forall k {:trigger WriteOk(s, k)} | 0 <= k < |s.log| && s.log[k].Wrote? :: WriteOk(s, k)
  }

  ghost predicate Fresh(init: Store, log: seq<Entry>) {
    forall k {:trigger FreshAt(init, log, k)} | 0 <= k < |log| :: FreshAt(init, log, k)
  }

  ghost predicate Inv(s: State) {
    RequestsOk(s) && WritesOk(s) && Fresh(s.init, s.log)
  }

  lemma RequestOkGrows(init: Store, log: seq<Entry>, e: Entry, r: nat, req: Request)
    requires RequestOk(init, log, r, req)
    ensures RequestOk(init, log + [e], r, req)
  {
    forall k | 0 <= k <= |log| ensures (log + [e])[..k] == log[..k] {}
  }

  lemma WriteOkGrows(s: State, s': State, k: nat)
    requires k < |s.log| && s.log[k].Wrote? && WriteOk(s, k)
    requires Extends(s, s')
    ensures WriteOk(s', k)
  {
    assert s'.log[..k] == s.log[..k];
    var e := s.log[k];
    var a: nat :| a < k && Intended(s.log, e.request, e.text, a);
    assert Intended(s'.log, e.request, e.text, a);
  }

  lemma CanonicalPolicyHeld(text: string, version: nat)
    requires CanonicalPolicy(text)
    ensures PolicyOf(Present(Some(text), version)) == Some(text)
  {
    var repositories :| Accepted(repositories) && text == FormatText(NormalForm(repositories));
    ParseFormat(repositories);
  }

  lemma UpdateKeeps(s: State, r: nat, applied: bool, reported: bool, newVersion: nat)
    requires Enabled(s, Update(r, applied, reported, newVersion)) && RequestOk(s.init, s.log, r, s.requests[r])
    ensures var s' := After(s, Update(r, applied, reported, newVersion)); RequestOk(s.init, s'.log, r, s'.requests[r])
  {
    var s', req := After(s, Update(r, applied, reported, newVersion)), s.requests[r];
    if applied {
      assert s'.log == s.log + [Wrote(r, req.text, newVersion)];
      RequestOkGrows(s.init, s.log, Wrote(r, req.text, newVersion), r, req);
      CanonicalPolicyHeld(req.text, newVersion);
      assert s'.log[..|s.log| + 1] == s'.log && s'.log[..|s.log|] == s.log;
    }
  }

  lemma SuccessKeeps(s: State, r: nat, ok: bool)
    requires Enabled(s, AppendSuccess(r, ok)) && RequestOk(s.init, s.log, r, s.requests[r])
    ensures var s' := After(s, AppendSuccess(r, ok)); RequestOk(s.init, s'.log, r, s'.requests[r])
  {
    var e := Audit(r, Success, s.requests[r].text);
    RequestOkGrows(s.init, s.log, e, r, s.requests[r]);
  }

  lemma ReadBackKeeps(s: State, r: nat, ok: bool)
    requires Enabled(s, ReadBack(r, ok)) && RequestOk(s.init, s.log, r, s.requests[r])
    ensures var s' := After(s, ReadBack(r, ok)); RequestOk(s.init, s'.log, r, s'.requests[r])
  {
    assert s.log[..|s.log|] == s.log;
  }

  /** The steps up to the update, and the answer to a failure. */
  lemma OtherStepsKeep(s: State, step: Step, r: nat)
    requires Enabled(s, step) && (step.Receive? || step.AppendAttempt? || step.Get? || step.Fail?) && step.r == r
    requires r in s.requests ==> RequestOk(s.init, s.log, r, s.requests[r])
    ensures RequestOk(s.init, After(s, step).log, r, After(s, step).requests[r])
  {
  }

  /** The request a step belongs to, after that step. */
  lemma OwnRequestKeeps(s: State, step: Step, r: nat)
    requires Inv(s) && Enabled(s, step) && !step.OutsideWrite? && step.r == r
    ensures RequestOk(s.init, After(s, step).log, r, After(s, step).requests[r])
  {
    if r in s.requests { assert RequestOk(s.init, s.log, r, s.requests[r]); }
    match step
    case Update(_, applied, reported, newVersion) => UpdateKeeps(s, r, applied, reported, newVersion);
    case AppendSuccess(_, ok) => SuccessKeeps(s, r, ok);
    case ReadBack(_, ok) => ReadBackKeeps(s, r, ok);
    case _ => OtherStepsKeep(s, step, r);
  }

  lemma OtherRequestKeeps(s: State, step: Step, r: nat)
    requires Inv(s) && Enabled(s, step) && r in s.requests && (step.OutsideWrite? || step.r != r)
    ensures r in After(s, step).requests && After(s, step).requests[r] == s.requests[r]
    ensures RequestOk(s.init, After(s, step).log, r, s.requests[r])
  {
    var s' := After(s, step);
    assert RequestOk(s.init, s.log, r, s.requests[r]);
    if s'.log != s.log {
      var e := s'.log[|s.log|];
      assert s'.log == s.log + [e];
      RequestOkGrows(s.init, s.log, e, r, s.requests[r]);
    }
  }

  lemma NewWriteOk(s: State, step: Step)
    requires Inv(s) && Enabled(s, step) && step.Update? && step.applied
    ensures |After(s, step).log| == |s.log| + 1 && After(s, step).log[|s.log|].Wrote?
    ensures WriteOk(After(s, step), |s.log|)
  {
    var s', r := After(s, step), step.r;
    assert RequestOk(s.init, s.log, r, s.requests[r]);
    assert s'.log[..|s.log|] == s.log;
    assert Intended(s'.log, r, s.requests[r].text, s.requests[r].phase.attempt);
  }

  /** What a step leaves alone: what is logged, and what was asked. */
  ghost predicate Extends(s: State, s': State) {
    && s'.init == s.init && s.log <= s'.log
    && forall r | r in s.requests ::
         && r in s'.requests && s'.requests[r].text == s.requests[r].text
         && s'.requests[r].version == s.requests[r].version
  }

  lemma StepExtends(s: State, step: Step)
    requires Enabled(s, step)
    ensures Extends(s, After(s, step)) && |After(s, step).log| <= |s.log| + 1
    ensures |After(s, step).log| == |s.log| + 1 ==>
      (After(s, step).log[|s.log|].Wrote? <==> step.Update? && step.applied)
  {
  }

  lemma RequestsKeep(s: State, step: Step)
    requires Inv(s) && Enabled(s, step)
    ensures RequestsOk(After(s, step))
  {
    var s' := After(s, step);
    StepExtends(s, step);
    forall r | r in s'.requests ensures RequestOk(s'.init, s'.log, r, s'.requests[r]) {
      if !step.OutsideWrite? && step.r == r { OwnRequestKeeps(s, step, r); } else { OtherRequestKeeps(s, step, r); }
    }
  }

  lemma WritesKeep(s: State, step: Step)
    requires Inv(s) && Enabled(s, step)
    ensures WritesOk(After(s, step))
  {
    var s' := After(s, step);
    StepExtends(s, step);
    forall k | 0 <= k < |s'.log| && s'.log[k].Wrote? ensures WriteOk(s', k) {
      if k < |s.log| {
        assert WriteOk(s, k);
        WriteOkGrows(s, s', k);
      } else {
        NewWriteOk(s, step);
      }
    }
  }

  lemma FreshKeeps(s: State, step: Step)
    requires Inv(s) && Enabled(s, step)
    ensures Fresh(s.init, After(s, step).log)
  {
    var s' := After(s, step);
    StepExtends(s, step);
    forall k | 0 <= k < |s'.log| ensures FreshAt(s.init, s'.log, k) {
      assert s'.log[..k] == s.log[..k];
      if k < |s.log| { assert FreshAt(s.init, s.log, k); } else { assert s.log[..k] == s.log; }
    }
  }

  lemma StepKeeps(s: State, step: Step)
    requires Inv(s) && Enabled(s, step)
    ensures Inv(After(s, step)) && After(s, step).init == s.init
  {
    StepExtends(s, step);
    RequestsKeep(s, step);
    WritesKeep(s, step);
    FreshKeeps(s, step);
  }

  lemma {:induction false} RunKeeps(s: State, steps: seq<Step>, t: State)
    requires Inv(s) && Leads(s, steps, t)
    ensures Inv(t) && t.init == s.init
    decreases |steps|
  {
    if steps != [] {
      StepKeeps(s, steps[0]);
      RunKeeps(After(s, steps[0]), steps[1..], t);
    }
  }

  function Init(store: Store): State { State(store, [], map[]) }

  // ---------------------------------------------------------------- what holds of every interleaving

  /** Every dashboard write comes after an "attempt" entry for its policy, and
      replaces exactly the version its client named. */
  lemma WritesAreIntendedAndExact(store: Store, steps: seq<Step>, t: State, k: nat)
    requires Leads(Init(store), steps, t) && k < |t.log| && t.log[k].Wrote?
    ensures var e := t.log[k];
            && (exists a: nat :: a < k && t.log[a] == Audit(e.request, Attempt, e.text))
            && e.request in t.requests && e.text == t.requests[e.request].text
            && StoreAfter(store, t.log[..k]).Present?
            && StoreAfter(store, t.log[..k]).version == t.requests[e.request].version
  {
    RunKeeps(Init(store), steps, t);
    assert WriteOk(t, k);
    var e := t.log[k];
    var a: nat :| a < k && Intended(t.log, e.request, e.text, a);
    assert t.log[a] == Audit(e.request, Attempt, e.text);
  }

  /** After a write, the store never again holds an older version. */
  lemma {:induction false} StoreNewerThan(init: Store, log: seq<Entry>, j: nat, k: nat)
    requires j < k <= |log| && log[j].Wrote? && Fresh(init, log)
    ensures var store := StoreAfter(init, log[..k]); store.Present? ==> store.version >= log[j].version
    ensures Highest(init, log[..k]) >= log[j].version
    decreases k - j
  {
    assert log[..k][..k - 1] == log[..k - 1];
    if k > j + 1 {
      StoreNewerThan(init, log, j, k - 1);
      assert FreshAt(init, log, k - 1);
    }
  }

  /** No lost update: of the requests that named one version, at most one write was
      ever applied. */
  lemma AtMostOneWritePerVersion(store: Store, steps: seq<Step>, t: State, j: nat, k: nat)
    requires Leads(Init(store), steps, t) && j < k < |t.log| && t.log[j].Wrote? && t.log[k].Wrote?
    ensures t.log[j].request in t.requests && t.log[k].request in t.requests
    ensures t.requests[t.log[j].request].version != t.requests[t.log[k].request].version
  {
    RunKeeps(Init(store), steps, t);
    assert WriteOk(t, j) && WriteOk(t, k) && FreshAt(t.init, t.log, j);
    StoreNewerThan(t.init, t.log, j, k);
  }

  /** An answer of 200 means: the intent and then a success entry for that policy are
      in the audit log, and at some moment between them the store held it. */
  lemma Answer200MeansStored(store: Store, steps: seq<Step>, t: State, r: nat)
    requires Leads(Init(store), steps, t) && r in t.requests && t.requests[r].phase.Answered200?
    ensures exists a: nat, k: nat, c: nat :: && a < k <= c < |t.log|
                              && t.log[a] == Audit(r, Attempt, t.requests[r].text)
                              && PolicyOf(StoreAfter(store, t.log[..k])) == Some(t.requests[r].text)
                              && t.log[c] == Audit(r, Success, t.requests[r].text)
  {
    RunKeeps(Init(store), steps, t);
    assert RequestOk(t.init, t.log, r, t.requests[r]);
    var Answered200(a, k, c) := t.requests[r].phase;
    assert a < k <= c < |t.log|;
  }
}

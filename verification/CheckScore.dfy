/** The hardening score of a run and the exit codes gated on it. */
module CheckScore {
  import opened Slices
  import opened CheckRegistry
  import opened CheckRun

  datatype Score = Score(value: int, earned: int, possible: int, passed: int, scored: int)

  function SeverityWeight(s: Severity): (w: int)
    ensures 1 <= w <= 10
  {
    match s
    case Critical => 10
    case Warning => 3
    case _ => 1
  }

  function ScorePercent(earned: int, possible: int): (v: int)
    requires 0 <= earned <= possible
    ensures 0 <= v <= 100
    ensures v == 100 <==> earned == possible
    ensures v == 0 <==> earned == 0 < possible
  {
    if possible == 0 then 100
    else if earned == possible then 100
    else if earned == 0 then 0
    else
      var p := (earned * 100 + possible / 2) / possible;
      if p >= 100 then 99 else if p <= 0 then 1 else p
  }

  // ---------------------------------------------------------------- sums over a run

  function EarnedBy(r: CheckResult): nat { if r.outcome == Pass then SeverityWeight(r.severity) else 0 }

  function PossibleBy(r: CheckResult): nat { if r.outcome == Skip then 0 else SeverityWeight(r.severity) }

  function Earned(rs: seq<CheckResult>): (n: nat)
    ensures n == 0 <==> forall r | r in rs :: r.outcome != Pass
  {
    if rs == [] then 0 else
      assert rs == rs[..|rs| - 1] + [rs[|rs| - 1]];
      Earned(rs[..|rs| - 1]) + EarnedBy(rs[|rs| - 1])
  }

  function Possible(rs: seq<CheckResult>): (n: nat)
    ensures n == 0 <==> forall r | r in rs :: r.outcome == Skip
    ensures n >= Earned(rs)
    ensures n == Earned(rs) <==> forall r | r in rs :: r.outcome == Skip || r.outcome == Pass
  {
    if rs == [] then 0 else
      assert rs == rs[..|rs| - 1] + [rs[|rs| - 1]];
      Possible(rs[..|rs| - 1]) + PossibleBy(rs[|rs| - 1])
  }

  function CountIf(rs: seq<CheckResult>, p: Outcome -> bool): nat {
    if rs == [] then 0 else CountIf(rs[..|rs| - 1], p) + if p(rs[|rs| - 1].outcome) then 1 else 0
  }

  function Value(rs: seq<CheckResult>): int { ScorePercent(Earned(rs), Possible(rs)) }

  method ComputeScore(rs: seq<CheckResult>) returns (s: Score)
    ensures s.earned == Earned(rs) && s.possible == Possible(rs)
    ensures s.passed == CountIf(rs, o => o == Pass) && s.scored == CountIf(rs, o => o != Skip)
    ensures s.value == Value(rs)
  {
    s := Score(0, 0, 0, 0, 0);
    for i := 0 to |rs|
      invariant s.earned == Earned(rs[..i]) && s.possible == Possible(rs[..i])
      invariant s.passed == CountIf(rs[..i], o => o == Pass) && s.scored == CountIf(rs[..i], o => o != Skip)
    {
      PrefixOfPrefix(rs, i);
      if rs[i].outcome != Skip {
        var w := SeverityWeight(rs[i].severity);
        s := s.(possible := s.possible + w, scored := s.scored + 1);
        if rs[i].outcome == Pass {
          s := s.(earned := s.earned + w, passed := s.passed + 1);
        }
      }
    }
    assert rs[..|rs|] == rs;
    s := s.(value := ScorePercent(s.earned, s.possible));
  }

  // ---------------------------------------------------------------- honest extremes, nearest in between

  function Abs(x: int): nat { if x < 0 then -x else x }

  /** 100 only for a run in which everything that applies passed; 0 only for one in
      which nothing did. */
  lemma {:induction false} ScoreExtremes(rs: seq<CheckResult>)
    ensures Value(rs) == 100 <==> forall r | r in rs :: r.outcome == Skip || r.outcome == Pass
    ensures Value(rs) == 0 <==> (exists r | r in rs :: r.outcome != Skip) && forall r | r in rs :: r.outcome != Pass
    ensures 0 <= Value(rs) <= 100
  {
  }

  /** Otherwise the score is, among 1 to 99, a nearest one to the exact percentage. */
  lemma {:induction false} ScoreNearest(rs: seq<CheckResult>, v: int)
    requires Value(rs) != 0 && Value(rs) != 100 && 1 <= v <= 99
    ensures 1 <= Value(rs) <= 99
    ensures Abs(Value(rs) * Possible(rs) - 100 * Earned(rs)) <= Abs(v * Possible(rs) - 100 * Earned(rs))
  {
    var e, p := Earned(rs), Possible(rs);
    assert 0 < e < p;
    PercentNearest(e, p, v);
  }

  lemma PercentNearest(e: int, p: int, v: int)
    requires 0 < e < p && 1 <= v <= 99
    ensures 1 <= ScorePercent(e, p) <= 99
    ensures Abs(ScorePercent(e, p) * p - 100 * e) <= Abs(v * p - 100 * e)
  {
    var q := (e * 100 + p / 2) / p;
    Rounding(e, p, q);
    NearestOfRange(100 * e, p, q, ScorePercent(e, p), v);
  }

  lemma Rounding(e: int, p: int, q: int)
    requires 0 <= e < p && q == (e * 100 + p / 2) / p
    ensures 2 * (q * p) - p <= 2 * (100 * e) < 2 * (q * p) + p
  {
    var n := e * 100 + p / 2;
    assert n == q * p + n % p;
  }

  lemma Scale(a: int, b: int, p: int)
    requires a <= b && p >= 0
    ensures a * p <= b * p
  {
  }

  lemma ScaleStrict(a: int, b: int, p: int)
    requires a < b && p >= 0
    ensures a * p + p <= b * p
  {
    assert (a + 1) * p == a * p + p;
    Scale(a + 1, b, p);
  }

  lemma NearestOfRange(x: int, p: int, q: int, value: int, v: int)
    requires p > 0 && 2 * (q * p) - p <= 2 * x < 2 * (q * p) + p
    requires value == (if q >= 100 then 99 else if q <= 0 then 1 else q) && 1 <= v <= 99
    ensures Abs(value * p - x) <= Abs(v * p - x)
  {
    if v > value {
      ScaleStrict(value, v, p);
      Scale(q, value, p);
    } else if v < value {
      ScaleStrict(v, value, p);
      Scale(value, q, p);
    }
    if q < value { ScaleStrict(q, value, p); }
    if value < q { ScaleStrict(value, q, p); }
    NearestLinear(x, p, q * p, value * p, v * p);
  }

  /** The same on the three products, where it is linear. */
  lemma NearestLinear(x: int, p: int, a: int, b: int, c: int)
    requires p > 0 && 2 * a - p <= 2 * x < 2 * a + p
    requires c == b || (c >= b + p && a <= b) || (c + p <= b && b <= a)
    requires a == b || a + p <= b || b + p <= a
    ensures Abs(b - x) <= Abs(c - x)
  {
  }

  // ---------------------------------------------------------------- improving never lowers the score

  /** A greater share of the weight never gives a lower percentage. */
  lemma PercentMonotone(e: int, p: int, e': int, p': int)
    requires 0 <= e <= p && 0 <= e' <= p' && p > 0
    requires p' > 0 ==> e * p' <= e' * p
    ensures ScorePercent(e, p) <= ScorePercent(e', p')
  {
    if p' > 0 && e' < p' && e > 0 {
      assert e < p by { ScaleStrict(e', p', p); }
      assert e' > 0 by { Scale(1, e, p'); }
      RoundedMonotone(e, p, e', p', (e * 100 + p / 2) / p, (e' * 100 + p' / 2) / p');
    }
  }

  lemma RoundedMonotone(e: int, p: int, e': int, p': int, q: int, q': int)
    requires 0 < e < p && 0 < e' < p' && e * p' <= e' * p
    requires q == (e * 100 + p / 2) / p && q' == (e' * 100 + p' / 2) / p'
    ensures q <= q'
  {
    Rounding(e, p, q);
    Rounding(e', p', q');
    assert (100 * e) * p' == 100 * (e * p') && (100 * e') * p == 100 * (e' * p);
    if q' < q {
      RoundsApart(100 * e, p, q, 100 * e', p', q');
    }
  }

  lemma RoundsApart(x: int, p: int, q: int, x': int, p': int, q': int)
    requires p > 0 && p' > 0 && q' < q
    requires 2 * (q * p) - p <= 2 * x
    requires 2 * x' < 2 * (q' * p') + p'
    ensures x' * p < x * p'
  {
    ScaleStrict(q', q, p');
    var h := 2 * q - 1;
    assert h * p' == 2 * (q * p') - p';
    assert h * p == 2 * (q * p) - p;
    ScaleStrict(2 * x', h * p', p);
    Scale(h * p, 2 * x, p');
    assert (h * p') * p == (h * p) * p';
    assert (2 * x') * p == 2 * (x' * p) && (2 * x) * p' == 2 * (x * p');
  }

  lemma {:induction false} SumsAfter(rs: seq<CheckResult>, i: nat, r: CheckResult)
    requires i < |rs|
    ensures Earned(rs[i := r]) == Earned(rs) - EarnedBy(rs[i]) + EarnedBy(r)
    ensures Possible(rs[i := r]) == Possible(rs) - PossibleBy(rs[i]) + PossibleBy(r)
  {
    var init := rs[..|rs| - 1];
    UpdatedPrefix(rs, i, r);
    if i < |init| { SumsAfter(init, i, r); }
  }

  /** Turning a scored check that did not pass into one that passes, or into one
      that does not apply, never lowers the score. */
  lemma {:induction false} ImprovingNeverLowers(rs: seq<CheckResult>, i: nat, better: Outcome)
    requires i < |rs| && rs[i].outcome != Pass && rs[i].outcome != Skip
    requires better == Pass || better == Skip
    ensures Value(rs) <= Value(rs[i := rs[i].(outcome := better)])
  {
    var r := rs[i].(outcome := better);
    SumsAfter(rs, i, r);
    var w := SeverityWeight(rs[i].severity);
    ImprovedSums(Earned(rs), Possible(rs), Earned(rs[i := r]), Possible(rs[i := r]), w, better == Pass);
  }

  lemma ImprovedSums(e: int, p: int, e': int, p': int, w: int, passes: bool)
    requires 0 <= e <= p && 0 <= e' <= p' && 0 < w
    requires passes ==> e' == e + w && p' == p
    requires !passes ==> e' == e && p' == p - w
    ensures ScorePercent(e, p) <= ScorePercent(e', p')
  {
    if passes { MoreEarned(e, p, w); } else { LessPossible(e, p, w); }
  }

  lemma MoreEarned(e: int, p: int, w: int)
    requires 0 <= e && 0 < w && e + w <= p
    ensures ScorePercent(e, p) <= ScorePercent(e + w, p)
  {
    Scale(e, e + w, p);
    PercentMonotone(e, p, e + w, p);
  }

  lemma LessPossible(e: int, p: int, w: int)
    requires 0 <= e && 0 < w && e + w <= p
    ensures ScorePercent(e, p) <= ScorePercent(e, p - w)
  {
    Scale(p - w, p, e);
    PercentMonotone(e, p, e, p - w);
  }

  // ---------------------------------------------------------------- exit codes

  const EXIT_OK := 0
  const EXIT_CRITICAL := 1
  const EXIT_INDETERMINATE := 2

  predicate CriticalFail(r: CheckResult) { r.severity == Critical && r.outcome == Fail }

  predicate CriticalUnknown(r: CheckResult) { r.severity == Critical && (r.outcome == Error || r.outcome == Blocked) }

  method ExitCode(rs: seq<CheckResult>) returns (code: int)
    ensures code == EXIT_CRITICAL <==> exists r | r in rs :: CriticalFail(r)
    ensures code == EXIT_INDETERMINATE <==> (exists r | r in rs :: CriticalUnknown(r)) && forall r | r in rs :: !CriticalFail(r)
    ensures code == EXIT_OK <==> forall r | r in rs :: !CriticalFail(r) && !CriticalUnknown(r)
  {
    code := EXIT_OK;
    for i := 0 to |rs|
      invariant forall r | r in rs[..i] :: !CriticalFail(r)
      invariant code == EXIT_OK || code == EXIT_INDETERMINATE
      invariant code == EXIT_INDETERMINATE <==> exists r | r in rs[..i] :: CriticalUnknown(r)
    {
      assert rs[..i + 1] == rs[..i] + [rs[i]];
      assert rs[i] in rs && rs[i] in rs[..i + 1];
      if rs[i].severity == Critical {
        match rs[i].outcome {
          case Fail => return EXIT_CRITICAL;
          case Error => code := EXIT_INDETERMINATE;
          case Blocked => code := EXIT_INDETERMINATE;
          case _ =>
        }
      }
    }
    assert rs[..|rs|] == rs;
  }

  /** doctor's exit code: a score below the threshold is a definitive failure.
      Asking for 100 asks that everything that applies pass. */
  method GateExitCode(rs: seq<CheckResult>, minScore: int) returns (code: int)
    ensures minScore > 0 && Value(rs) < minScore ==> code == EXIT_CRITICAL
    ensures code == EXIT_OK <==>
      (minScore > 0 ==> Value(rs) >= minScore) && forall r | r in rs :: !CriticalFail(r) && !CriticalUnknown(r)
    ensures (minScore > 0 ==> Value(rs) >= minScore) ==> (code == EXIT_CRITICAL <==> exists r | r in rs :: CriticalFail(r))
    ensures code == EXIT_INDETERMINATE <==>
      && (minScore > 0 ==> Value(rs) >= minScore)
      && (exists r | r in rs :: CriticalUnknown(r)) && forall r | r in rs :: !CriticalFail(r)
    ensures minScore == 100 ==> (code == EXIT_OK <==> forall r | r in rs :: r.outcome == Pass || r.outcome == Skip)
  {
    ScoreExtremes(rs);
    if minScore > 0 {
      var s := ComputeScore(rs);
      if s.value < minScore {
        return EXIT_CRITICAL;
      }
    }
    code := ExitCode(rs);
  }
}

/** The registry of checks: registration, and the execution order `Plan`
    computes by counting unmet requirements. */
module CheckRegistry {
  import opened Wrappers
  import opened Sorting
  import opened CheckGraph

  datatype Severity = Critical | Warning | Info | OtherSeverity(name: string)

  /** A check as its contributor writes it. `Probe` and `Fix` are code; here only
      whether they are present is recorded. */
  datatype Check = Check(
    id: Id, severity: Severity, summary: string, remediation: string,
    needs: seq<Id>, hasProbe: bool, hasFix: bool)

  datatype RegisterError = EmptyId | NoProbe | InvalidSeverity | DuplicateId

  datatype PlanResult =
    | Planned(checks: seq<Check>)
    | MissingRequirement(id: Id, requirement: Id)
    | Cycle(stuck: seq<Id>)

  // ---------------------------------------------------------------- removing duplicates

  /** Each identifier once, at its first occurrence. */
  function FirstOccurrences(ids: seq<Id>): (r: seq<Id>)
    ensures Distinct(r)
    ensures forall x :: x in r <==> x in ids
  {
    if ids == [] then [] else
      var init, last := ids[..|ids| - 1], ids[|ids| - 1];
      assert ids == init + [last];
      FirstOccurrences(init) + if last in init then [] else [last]
  }

  /** First occurrences keep their relative order. */
  lemma {:induction false} FirstOccurrencesKeepOrder(ids: seq<Id>, i: nat, j: nat)
    requires i < j < |FirstOccurrences(ids)|
    ensures IndexOf(ids, FirstOccurrences(ids)[i]) < IndexOf(ids, FirstOccurrences(ids)[j])
  {
    var init, last := ids[..|ids| - 1], ids[|ids| - 1];
    assert ids == init + [last];
    var r := FirstOccurrences(init);
    IndexOfPrefix(init, [last], r[i]);
    if j < |r| {
      FirstOccurrencesKeepOrder(init, i, j);
      IndexOfPrefix(init, [last], r[j]);
    } else {
      assert ids[IndexOf(ids, last)] == last && last !in init;
    }
  }

  lemma IndexOfPrefix(a: seq<Id>, b: seq<Id>, x: Id)
    requires x in a
    ensures IndexOf(a + b, x) == IndexOf(a, x)
  {
    var i, j := IndexOf(a + b, x), IndexOf(a, x);
    assert (a + b)[j] == x;
  }

  method Dedupe(ids: seq<Id>) returns (out: seq<Id>)
    ensures out == FirstOccurrences(ids)
  {
    if |ids| < 2 {
      return ids;
    }
    var seen: set<Id> := {};
    out := [];
    for i := 0 to |ids|
      invariant seen == set x | x in ids[..i]
      invariant out == FirstOccurrences(ids[..i])
    {
      assert ids[..i + 1][..i] == ids[..i];
      if ids[i] !in seen {
        seen := seen + {ids[i]};
        out := out + [ids[i]];
      }
    }
    assert ids[..|ids|] == ids;
  }

  // ---------------------------------------------------------------- counting unmet requirements

  /** Go's map lookup: the zero value for an absent key. */
  function Count(m: map<Id, int>, x: Id): int { if x in m then m[x] else 0 }

  function Listed(m: map<Id, seq<Id>>, x: Id): seq<Id> { if x in m then m[x] else [] }

  /** How many of these requirements are not done. */
  function Unmet(needs: seq<Id>, done: seq<Id>): (n: nat)
    ensures n == 0 <==> forall r | r in needs :: r in done
  {
    if needs == [] then 0
    else
      assert needs == [needs[0]] + needs[1..];
      (if needs[0] in done then 0 else 1) + Unmet(needs[1..], done)
  }

  lemma {:induction false} UnmetAtStart(needs: seq<Id>)
    ensures Unmet(needs, []) == |needs|
  {
    if needs != [] { UnmetAtStart(needs[1..]); }
  }

  /** Finishing `x` meets one requirement of each check that lists it (once). */
  lemma {:induction false} UnmetAfter(needs: seq<Id>, done: seq<Id>, x: Id)
    requires Distinct(needs) && x !in done
    ensures Unmet(needs, done + [x]) == Unmet(needs, done) - if x in needs then 1 else 0
  {
    if needs != [] {
      var h, t := needs[0], needs[1..];
      assert needs == [h] + t;
      UnmetAfter(t, done, x);
      assert h == x ==> x !in t;
    }
  }

  /** The checks of `order` that list `r`, in registration order. */
  function Dependents(order: seq<Id>, g: Graph, r: Id): (s: seq<Id>)
    requires forall x | x in order :: x in g
    ensures forall x :: x in s <==> x in order && r in g[x]
    ensures Distinct(order) ==> Distinct(s)
  {
    if order == [] then [] else
      var init, last := order[..|order| - 1], order[|order| - 1];
      assert order == init + [last];
      assert Distinct(order) ==> Distinct(init) && last !in init;
      Dependents(init, g, r) + if r in g[last] then [last] else []
  }

  /** Under every check, the table lists the checks of `order` that require it. */
  ghost predicate Tabled(dependents: map<Id, seq<Id>>, order: seq<Id>, g: Graph) {
    (forall x | x in order :: x in g) && forall r :: Listed(dependents, r) == Dependents(order, g, r)
  }

  lemma TabledOneMore(dependents: map<Id, seq<Id>>, dependents': map<Id, seq<Id>>, init: seq<Id>, last: Id, g: Graph)
    requires Tabled(dependents, init, g) && last in g
    requires forall r :: Listed(dependents', r) == Listed(dependents, r) + if r in g[last] then [last] else []
    ensures Tabled(dependents', init + [last], g)
  {
    assert (init + [last])[..|init|] == init;
  }

  predicate MissingAt(g: Graph, id: Id, r: Id) {
    id in g && r in g[id] && r !in g
  }

  // ---------------------------------------------------------------- the registry

  class Registry {
    var byId: map<Id, Check>
    var order: seq<Id>

    ghost predicate Valid()
      reads this
    {
      && Distinct(order)
      && (forall x :: x in order <==> x in byId)
      && (forall x | x in byId :: ValidCheck(x, byId[x]))
    }

    static ghost predicate ValidCheck(x: Id, c: Check) {
      && x.name != "" && c.id == x && c.hasProbe && !c.severity.OtherSeverity?
      && Distinct(c.needs)
    }

    function Requirements(): (g: Graph)
      reads this
      ensures g.Keys == byId.Keys
      ensures forall x | x in g :: g[x] == byId[x].needs
    {
      map x | x in byId :: byId[x].needs
    }

    constructor ()
      ensures Valid() && byId == map[] && order == []
    {
      byId, order := map[], [];
    }

    /** Accepts a check whose identifier is new and which is complete; stores it
        with each requirement listed once. A refusal changes nothing. */
    method Register(c: Check) returns (err: Option<RegisterError>)
      requires Valid()
      modifies this
      ensures Valid()
      ensures err.None? <==> c.id.name != "" && c.hasProbe && !c.severity.OtherSeverity? && c.id !in old(byId)
      ensures err.None? ==> byId == old(byId)[c.id := c.(needs := FirstOccurrences(c.needs))]
      ensures err.None? ==> order == old(order) + [c.id]
      ensures err.Some? ==> byId == old(byId) && order == old(order)
      ensures err == Some(EmptyId) <==> c.id.name == ""
      ensures err == Some(NoProbe) <==> c.id.name != "" && !c.hasProbe
      ensures err == Some(DuplicateId) <==> c.id in old(byId) && c.hasProbe && !c.severity.OtherSeverity?
    {
      if c.id.name == "" { return Some(EmptyId); }
      if !c.hasProbe { return Some(NoProbe); }
      if c.severity.OtherSeverity? { return Some(InvalidSeverity); }
      if c.id in byId { return Some(DuplicateId); }
      var needs := Dedupe(c.needs);
      byId := byId[c.id := c.(needs := needs)];
      order := order + [c.id];
      return None;
    }

    /** Count one check's requirements, up to the first that is not registered. */
    method CountOne(id: Id, needs: seq<Id>, indegree: map<Id, int>, dependents: map<Id, seq<Id>>)
      returns (missing: Option<Id>, indegree': map<Id, int>, dependents': map<Id, seq<Id>>)
      requires Distinct(needs)
      requires Count(indegree, id) == 0
      ensures missing.None? <==> forall r | r in needs :: r in byId
      ensures missing.Some? ==> FirstOutside(needs, byId.Keys, missing.value)
      ensures missing.None? ==> Count(indegree', id) == |needs|
      ensures forall x | x != id :: Count(indegree', x) == Count(indegree, x)
      ensures missing.None? ==>
        forall r :: Listed(dependents', r) == Listed(dependents, r) + if r in needs then [id] else []
    {
      indegree', dependents' := indegree, dependents;
      for j := 0 to |needs|
        invariant forall q | q in needs[..j] :: q in byId
        invariant Count(indegree', id) == j
        invariant forall x | x != id :: Count(indegree', x) == Count(indegree, x)
        invariant forall r :: Listed(dependents', r) == Listed(dependents, r) + if r in needs[..j] then [id] else []
      {
        var req := needs[j];
        assert needs[..j + 1] == needs[..j] + [req];
        assert req !in needs[..j];
        if req !in byId {
          assert FirstOutside(needs, byId.Keys, req);
          return Some(req), indegree', dependents';
        }
        indegree' := indegree'[id := Count(indegree', id) + 1];
        dependents' := dependents'[req := Listed(dependents', req) + [id]];
      }
      assert needs[..|needs|] == needs;
      missing := None;
    }

    /** Go over the requirements once: count them per check, and list per check
        who requires it; stop at the first one that is not registered. */
    method CountRequirements()
      returns (missing: Option<(Id, Id)>, indegree: map<Id, int>, dependents: map<Id, seq<Id>>)
      requires Valid()
      ensures missing.None? <==> Closed(Requirements())
      ensures missing.Some? ==> FirstMissing(order, Requirements(), missing.value.0, missing.value.1)
      ensures missing.None? ==> forall x | x in order :: Count(indegree, x) == |Requirements()[x]|
      ensures missing.None? ==> forall r :: Listed(dependents, r) == Dependents(order, Requirements(), r)
    {
      indegree, dependents := map[], map[];
      for i := 0 to |order|
        invariant forall x, q | x in order[..i] :: !MissingAt(Requirements(), x, q)
        invariant forall x | x in order[..i] :: Count(indegree, x) == |byId[x].needs|
        invariant forall x | x !in order[..i] :: Count(indegree, x) == 0
        invariant Tabled(dependents, order[..i], Requirements())
      {
        assert order[..i + 1] == order[..i] + [order[i]];
        assert order[i] !in order[..i];
        var req;
        ghost var before := dependents;
        req, indegree, dependents := CountOne(order[i], byId[order[i]].needs, indegree, dependents);
        if req.Some? {
          assert IndexOf(order, order[i]) == i;
          assert MissingAt(Requirements(), order[i], req.value);
          return Some((order[i], req.value)), indegree, dependents;
        }
        TabledOneMore(before, dependents, order[..i], order[i], Requirements());
      }
      assert order[..|order|] == order;
      missing := None;
      assert Closed(Requirements()) by {
        forall a, b | a in byId && b in Requirements()[a] ensures b in byId {
          assert !MissingAt(Requirements(), a, b);
        }
      }
    }

    /** Finishing a check: each of its dependents has one requirement fewer, and
        those with none left become ready. */
    static method Release(deps: seq<Id>, indegree: map<Id, int>, ready: seq<Id>)
      returns (indegree': map<Id, int>, ready': seq<Id>)
      requires Distinct(deps) && Distinct(ready)
      requires forall x | x in deps :: x !in ready
      ensures forall x :: Count(indegree', x) == Count(indegree, x) - if x in deps then 1 else 0
      ensures Distinct(ready')
      ensures forall x :: x in ready' <==> x in ready || (x in deps && Count(indegree, x) == 1)
    {
      indegree', ready' := indegree, ready;
      for i := 0 to |deps|
        invariant forall x :: Count(indegree', x) == Count(indegree, x) - if x in deps[..i] then 1 else 0
        invariant Distinct(ready')
        invariant forall x :: x in ready' <==> x in ready || (x in deps[..i] && Count(indegree, x) == 1)
      {
        var dep := deps[i];
        assert dep !in deps[..i];
        assert deps[..i + 1] == deps[..i] + [dep];
        indegree' := indegree'[dep := Count(indegree', dep) - 1];
        if Count(indegree', dep) == 0 {
          ready' := ready' + [dep];
        }
      }
      assert deps[..|deps|] == deps;
    }

    static method IndexTable(order: seq<Id>) returns (idx: map<Id, int>)
      requires Distinct(order)
      ensures forall j | 0 <= j < |order| :: Count(idx, order[j]) == j
    {
      idx := map[];
      for i := 0 to |order|
        invariant forall j | 0 <= j < i :: Count(idx, order[j]) == j
      {
        idx := idx[order[i] := i];
      }
    }

    static method InitiallyReady(order: seq<Id>, indegree: map<Id, int>) returns (ready: seq<Id>)
      requires Distinct(order)
      ensures Distinct(ready)
      ensures forall x :: x in ready <==> x in order && Count(indegree, x) == 0
    {
      ready := [];
      for i := 0 to |order|
        invariant Distinct(ready)
        invariant forall x :: x in ready <==> x in order[..i] && Count(indegree, x) == 0
      {
        assert order[i] !in order[..i] && order[..i + 1] == order[..i] + [order[i]];
        if Count(indegree, order[i]) == 0 {
          ready := ready + [order[i]];
        }
      }
      assert order[..|order|] == order;
    }

    /** One round of Kahn's algorithm: emit the earliest-registered ready check. */
    static method EmitNext(order: seq<Id>, ghost g: Graph, ghost done: seq<Id>, idx: map<Id, int>,
                           dependents: map<Id, seq<Id>>, indegree: map<Id, int>, ready: seq<Id>)
      returns (id: Id, indegree': map<Id, int>, ready': seq<Id>)
      requires |ready| > 0 && Progress(order, g, done, indegree, ready)
      requires forall j | 0 <= j < |order| :: Count(idx, order[j]) == j
      requires forall r :: Listed(dependents, r) == Dependents(order, g, r)
      ensures id in order && Progress(order, g, done + [id], indegree', ready')
      ensures Greedy(order, g, done + [id]) == Greedy(order, g, done)
      ensures |done| < |order|
    {
      var sorted := Sort(ready, ByIndex(idx));
      EarliestReady(order, g, done, ready, idx);
      SortedTail(ready, ByIndex(idx));
      id := sorted[0];
      WaitingNotReady(order, g, done, sorted[1..], id);
      indegree', ready' := Release(Listed(dependents, id), indegree, sorted[1..]);
      ProgressAfter(order, g, done, indegree, ready, id, sorted[1..], indegree', ready');
    }

    /** Kahn's algorithm: emit until nothing is ready. */
    static method EmitAll(order: seq<Id>, ghost g: Graph, idx: map<Id, int>,
                          dependents: map<Id, seq<Id>>, indegree: map<Id, int>, ready: seq<Id>)
      returns (out: seq<Id>, indegree': map<Id, int>)
      requires Progress(order, g, [], indegree, ready)
      requires forall j | 0 <= j < |order| :: Count(idx, order[j]) == j
      requires forall r :: Listed(dependents, r) == Dependents(order, g, r)
      ensures Progress(order, g, out, indegree', [])
      ensures Greedy(order, g, out) == Greedy(order, g, [])
    {
      var ready' := ready;
      indegree', out := indegree, [];
      while |ready'| > 0
        invariant Progress(order, g, out, indegree', ready')
        invariant Greedy(order, g, out) == Greedy(order, g, [])
        decreases |order| - |out|
      {
        var id;
        id, indegree', ready' := EmitNext(order, g, out, idx, dependents, indegree', ready');
        out := out + [id];
      }
      assert ready' == [];
    }

    static method StuckIds(order: seq<Id>, indegree: map<Id, int>) returns (stuck: seq<Id>)
      ensures stuck == Keep(order, set x | x in order && Count(indegree, x) > 0)
    {
      stuck := [];
      ghost var unmet := set x | x in order && Count(indegree, x) > 0;
      for i := 0 to |order|
        invariant stuck == Keep(order[..i], unmet)
      {
        assert order[..i + 1][..i] == order[..i];
        if Count(indegree, order[i]) > 0 {
          stuck := stuck + [order[i]];
        }
      }
      assert order[..|order|] == order;
    }

    /** From the counters to a complete order, or to the checks that are stuck. */
    static method OrderOrStuck(order: seq<Id>, ghost g: Graph, indegree: map<Id, int>, dependents: map<Id, seq<Id>>)
      returns (out: seq<Id>, stuck: seq<Id>)
      requires Lists(order, g) && Closed(g) && forall x | x in g :: Distinct(g[x])
      requires forall x | x in order :: Count(indegree, x) == |g[x]|
      requires forall r :: Listed(dependents, r) == Dependents(order, g, r)
      ensures |out| <= |order| && (|out| == |order| <==> Acyclic(g))
      ensures |out| == |order| ==> out == Greedy(order, g, []) && Topological(order, g, out)
      ensures forall x | x in out :: x in g
      ensures |out| < |order| ==> stuck == Keep(order, set x | x in order && ReachesCycle(g, x))
    {
      var idx := IndexTable(order);
      var ready := InitiallyReady(order, indegree);
      InvariantAtStart(order, g, indegree, ready);
      var indegree';
      out, indegree' := EmitAll(order, g, idx, dependents, indegree, ready);
      NothingReady(order, g, out, indegree');
      stuck := [];
      if |out| < |order| {
        stuck := StuckIds(order, indegree');
        SameStuck(order, g, indegree');
      }
    }

    /** The order in which the checks run: refused when a requirement is not
        registered, or when requirements form a cycle; otherwise the least of all
        topological orders by registration index. */
    method Plan() returns (r: PlanResult)
      requires Valid()
      ensures r.MissingRequirement? <==> !Closed(Requirements())
      ensures r.MissingRequirement? ==> FirstMissing(order, Requirements(), r.id, r.requirement)
      ensures r.Planned? <==> Closed(Requirements()) && Acyclic(Requirements())
      ensures r.Planned? ==> Lists(order, Requirements()) && Ids(r.checks) == Greedy(order, Requirements(), [])
      ensures r.Planned? ==> Topological(order, Requirements(), Ids(r.checks))
      ensures r.Planned? ==> forall t | Topological(order, Requirements(), t) :: NoLaterThan(order, Ids(r.checks), t)
      ensures r.Planned? ==> forall i | 0 <= i < |r.checks| :: r.checks[i].id in byId && byId[r.checks[i].id] == r.checks[i]
      ensures r.Cycle? ==> r.stuck == Keep(order, set x | x in order && ReachesCycle(Requirements(), x))
    {
      var missing, indegree, dependents := CountRequirements();
      if missing.Some? {
        return MissingRequirement(missing.value.0, missing.value.1);
      }
      var out, stuck := OrderOrStuck(order, Requirements(), indegree, dependents);
      if |out| < |order| {
        return Cycle(stuck);
      }
      LeastOrder(order, Requirements());
      var checks := Lookup(out, byId);
      assert Ids(checks) == out;
      return Planned(checks);
    }
  }

  function Lookup(ids: seq<Id>, byId: map<Id, Check>): (s: seq<Check>)
    requires forall x | x in ids :: x in byId
    ensures |s| == |ids| && forall i | 0 <= i < |s| :: s[i] == byId[ids[i]]
  {
    seq(|ids|, i requires 0 <= i < |ids| => byId[ids[i]])
  }

  // ---------------------------------------------------------------- why the loop is right

  function Ids(checks: seq<Check>): (s: seq<Id>)
    ensures |s| == |checks|
    ensures forall i | 0 <= i < |s| :: s[i] == checks[i].id
  {
    seq(|checks|, i requires 0 <= i < |checks| => checks[i].id)
  }

  /** The members of `order` that are in `which`, in order. */
  ghost function Keep(order: seq<Id>, which: set<Id>): seq<Id> {
    if order == [] then [] else
      var last := order[|order| - 1];
      Keep(order[..|order| - 1], which) + if last in which then [last] else []
  }

  /** `r` is the first unregistered requirement of the first check that has one. */
  ghost predicate FirstMissing(order: seq<Id>, g: Graph, id: Id, r: Id) {
    && MissingAt(g, id, r) && id in order
    && (forall x, q | x in order[..IndexOf(order, id)] :: !MissingAt(g, x, q))
    && FirstOutside(g[id], g.Keys, r)
  }

  /** `r` is the first member of `s` that is not in `known`. */
  ghost predicate FirstOutside(s: seq<Id>, known: set<Id>, r: Id) {
    exists j :: 0 <= j < |s| && s[j] == r && r !in known && forall q | q in s[..j] :: q in known
  }

  /** Between two iterations: the counters hold the unmet requirements of every
      check not yet emitted, and the ready list is exactly what is available. */
  ghost predicate Progress(order: seq<Id>, g: Graph, done: seq<Id>, indegree: map<Id, int>, ready: seq<Id>) {
    && Lists(order, g) && Closed(g) && (forall x | x in g :: Distinct(g[x]))
    && Emitted(order, g, done)
    && Counted(order, g, done, indegree)
    && Distinct(ready)
    && (forall x :: x in ready <==> x in order && Available(g, done, x))
  }

  ghost predicate Counted(order: seq<Id>, g: Graph, done: seq<Id>, indegree: map<Id, int>)
    requires forall x | x in order :: x in g
  {
    forall x | x in order :: Count(indegree, x) == Unmet(g[x], done)
  }

  lemma InvariantAtStart(order: seq<Id>, g: Graph, indegree: map<Id, int>, ready: seq<Id>)
    requires Lists(order, g) && Closed(g) && forall x | x in g :: Distinct(g[x])
    requires forall x | x in order :: Count(indegree, x) == |g[x]|
    requires Distinct(ready) && forall x :: x in ready <==> x in order && Count(indegree, x) == 0
    ensures Progress(order, g, [], indegree, ready)
  {
    forall x | x in order ensures Count(indegree, x) == Unmet(g[x], []) { UnmetAtStart(g[x]); }
  }

  function ByIndex(idx: map<Id, int>): (Id, Id) -> bool {
    (a, b) => Count(idx, a) <= Count(idx, b)
  }

  /** The head of the sorted ready list is the check the simple specification picks. */
  lemma EarliestReady(order: seq<Id>, g: Graph, done: seq<Id>, ready: seq<Id>, idx: map<Id, int>)
    requires |ready| > 0 && Distinct(ready)
    requires forall x :: x in ready <==> x in order && Available(g, done, x)
    requires forall j | 0 <= j < |order| :: Count(idx, order[j]) == j
    ensures FirstAvailable(order, g, done) == Some(Sort(ready, ByIndex(idx))[0])
  {
    var s := Sort(ready, ByIndex(idx));
    SortSorts(ready, ByIndex(idx));
    SortMembers(ready, ByIndex(idx));
    forall y | y in order && Available(g, done, y) ensures IndexOf(order, s[0]) <= IndexOf(order, y) {
      SortedHead(s, ByIndex(idx), y);
      assert Count(idx, order[IndexOf(order, y)]) == IndexOf(order, y);
      assert Count(idx, order[IndexOf(order, s[0])]) == IndexOf(order, s[0]);
    }
    FirstAvailableIs(order, g, done, s[0]);
  }

  lemma SortedTail(ready: seq<Id>, leq: (Id, Id) -> bool)
    requires |ready| > 0 && Distinct(ready)
    ensures var s := Sort(ready, leq);
            Distinct(s[1..]) && forall x :: x in s[1..] <==> x in ready && x != s[0]
  {
    var s := Sort(ready, leq);
    SortMembers(ready, leq);
    PermutationDistinct(s, ready);
    DistinctTail(s);
  }

  lemma SortedHead(s: seq<Id>, leq: (Id, Id) -> bool, y: Id)
    requires SortedBy(s, leq) && TotalPreorder(leq) && y in s
    ensures leq(s[0], y)
  {
    var k :| 0 <= k < |s| && s[k] == y;
    assert k > 0 ==> leq(s[0], s[k]);
  }

  /** What requires a check that was not done until now cannot be ready yet. */
  lemma WaitingNotReady(order: seq<Id>, g: Graph, done: seq<Id>, rest: seq<Id>, id: Id)
    requires forall x | x in order :: x in g
    requires id !in done && forall x | x in rest :: Available(g, done, x)
    ensures forall x | x in Dependents(order, g, id) :: x !in rest
  {
  }

  lemma ProgressAfter(order: seq<Id>, g: Graph, done: seq<Id>, indegree: map<Id, int>, ready: seq<Id>,
                      id: Id, rest: seq<Id>, indegree': map<Id, int>, ready': seq<Id>)
    requires Progress(order, g, done, indegree, ready)
    requires FirstAvailable(order, g, done) == Some(id)
    requires forall x :: x in rest <==> x in ready && x != id
    requires forall x :: Count(indegree', x) == Count(indegree, x) - if x in Dependents(order, g, id) then 1 else 0
    requires Distinct(ready')
    requires forall x :: x in ready' <==> x in rest || (x in Dependents(order, g, id) && Count(indegree, x) == 1)
    ensures Progress(order, g, done + [id], indegree', ready')
    ensures Greedy(order, g, done + [id]) == Greedy(order, g, done)
    ensures |done| < |order|
  {
    DistinctLength(done + [id], order);
    EmitOne(order, g, done, id);
    CountedAfter(order, g, done, indegree, id, indegree');
    ReadySetAfter(order, g, done, indegree, ready, id, rest, ready');
  }

  lemma ReadySetAfter(order: seq<Id>, g: Graph, done: seq<Id>, indegree: map<Id, int>, ready: seq<Id>,
                      id: Id, rest: seq<Id>, ready': seq<Id>)
    requires (forall x | x in order :: x in g) && Counted(order, g, done, indegree)
    requires (forall x | x in g :: Distinct(g[x])) && id !in done
    requires forall x :: x in ready <==> x in order && Available(g, done, x)
    requires forall x :: x in rest <==> x in ready && x != id
    requires forall x :: x in ready' <==> x in rest || (x in Dependents(order, g, id) && Count(indegree, x) == 1)
    requires Available(g, done, id) && RequirementsFirst(g, done)
    ensures forall x :: x in ready' <==> x in order && Available(g, done + [id], x)
  {
    forall x ensures x in ready' <==> x in order && Available(g, done + [id], x) {
      if x in order { ReadyAfter(g, done, id, x); }
      if x in done { DoneHasNoneUnmet(g, done, x); }
    }
  }

  lemma CountedAfter(order: seq<Id>, g: Graph, done: seq<Id>, indegree: map<Id, int>, id: Id, indegree': map<Id, int>)
    requires (forall x | x in order :: x in g) && Counted(order, g, done, indegree)
    requires (forall x | x in g :: Distinct(g[x])) && id !in done
    requires forall x :: Count(indegree', x) == Count(indegree, x) - if x in Dependents(order, g, id) then 1 else 0
    ensures Counted(order, g, done + [id], indegree')
  {
    forall x | x in order ensures Count(indegree', x) == Unmet(g[x], done + [id]) {
      UnmetAfter(g[x], done, id);
    }
  }

  lemma DoneHasNoneUnmet(g: Graph, done: seq<Id>, x: Id)
    requires RequirementsFirst(g, done) && x in done
    ensures x in g && Unmet(g[x], done) == 0
  {
    var k := IndexOf(done, x);
    assert MetAt(g, done, k);
  }

  lemma ReadyAfter(g: Graph, done: seq<Id>, id: Id, x: Id)
    requires x in g && Distinct(g[x]) && id !in done
    ensures Available(g, done + [id], x)
       <==> x != id && (Available(g, done, x) || (x !in done && id in g[x] && Unmet(g[x], done) == 1))
  {
    UnmetAfter(g[x], done, id);
    assert Available(g, done + [id], x) <==> x !in done + [id] && Unmet(g[x], done + [id]) == 0;
    assert Available(g, done, x) <==> x !in done && Unmet(g[x], done) == 0;
  }

  lemma LeastOrder(order: seq<Id>, g: Graph)
    requires Lists(order, g) && |Greedy(order, g, [])| == |order|
    ensures forall t | Topological(order, g, t) :: NoLaterThan(order, Greedy(order, g, []), t)
  {
    forall t | Topological(order, g, t) ensures NoLaterThan(order, Greedy(order, g, []), t) {
      GreedyIsLeast(order, g, t);
    }
  }

  lemma SameStuck(order: seq<Id>, g: Graph, indegree: map<Id, int>)
    requires forall x | x in order :: Count(indegree, x) > 0 <==> ReachesCycle(g, x)
    ensures Keep(order, set x | x in order && Count(indegree, x) > 0) == Keep(order, set x | x in order && ReachesCycle(g, x))
  {
    assert (set x | x in order && Count(indegree, x) > 0) == set x | x in order && ReachesCycle(g, x);
  }

  /** When nothing is ready, what was emitted is the whole greedy order, and the
      checks with a positive counter are those caught in or behind a cycle. */
  lemma NothingReady(order: seq<Id>, g: Graph, done: seq<Id>, indegree: map<Id, int>)
    requires Progress(order, g, done, indegree, [])
    requires Greedy(order, g, done) == Greedy(order, g, [])
    ensures done == Greedy(order, g, [])
    ensures |done| <= |order| && forall x | x in done :: x in order
    ensures |done| == |order| <==> Acyclic(g)
    ensures |done| == |order| <==> Topological(order, g, done)
    ensures forall x | x in order :: Count(indegree, x) > 0 <==> ReachesCycle(g, x)
  {
    assert FirstAvailable(order, g, done).None?;
    GreedyCompleteIffAcyclic(order, g);
    DistinctLength(done, order);
    forall x | x in order ensures Count(indegree, x) > 0 <==> ReachesCycle(g, x) {
      LeftOutExactlyCyclic(order, g, x);
      if x in done {
        var k := IndexOf(done, x);
        assert MetAt(g, done, k);
      } else {
        assert !Available(g, done, x);
      }
    }
  }
}

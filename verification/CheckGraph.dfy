/** The requirement graph of a check registry, and what an execution order of it
    ought to be, stated without reference to how `Plan` computes one. */
module CheckGraph {
  import opened Wrappers
  import opened Sorting

  /** A check is named by a string; only equality of names matters to the graph. */
  datatype Id = Id(name: string)

  /** Every registered check, mapped to the checks it requires. */
  type Graph = map<Id, seq<Id>>

  // ---------------------------------------------------------------- paths

  ghost predicate Closed(g: Graph) {
    forall a, b | a in g && b in g[a] :: b in g
  }

  /** A walk along requirement edges: each check requires the next. */
  ghost predicate IsPath(g: Graph, p: seq<Id>) {
    && |p| > 0
    && (forall i | 0 <= i < |p| :: p[i] in g)
    && (forall i | 0 < i < |p| :: p[i] in g[p[i - 1]])
  }

  ghost predicate PathBetween(g: Graph, p: seq<Id>, a: Id, b: Id) {
    IsPath(g, p) && |p| >= 2 && p[0] == a && p[|p| - 1] == b
  }

  /** `a` requires `b`, directly or through other checks. */
  ghost predicate DependsOn(g: Graph, a: Id, b: Id) {
    exists p :: PathBetween(g, p, a, b)
  }

  ghost predicate Acyclic(g: Graph) {
    forall a :: !DependsOn(g, a, a)
  }

  /** `a` lies on a cycle, or some requirement path of `a` leads to one. */
  ghost predicate ReachesCycle(g: Graph, a: Id) {
    exists b :: (a == b || DependsOn(g, a, b)) && DependsOn(g, b, b)
  }

  lemma DirectDependsOn(g: Graph, a: Id, b: Id)
    requires a in g && b in g[a] && b in g
    ensures DependsOn(g, a, b)
  {
    assert PathBetween(g, [a, b], a, b);
  }

  lemma DependsOnTransitive(g: Graph, a: Id, b: Id, c: Id)
    requires DependsOn(g, a, b) && DependsOn(g, b, c)
    ensures DependsOn(g, a, c)
  {
    var p :| PathBetween(g, p, a, b);
    var q :| PathBetween(g, q, b, c);
    var r := p + q[1..];
    forall i | 0 < i < |r| ensures r[i] in g[r[i - 1]] {
      if i >= |p| {
        assert r[i] == q[i - |p| + 1];
        assert r[i - 1] == q[i - |p|];
      }
    }
    assert PathBetween(g, r, a, c);
  }

  /** Depending on something means requiring some check directly that either is
      that thing or depends on it. */
  lemma FirstStep(g: Graph, a: Id, b: Id) returns (r: Id)
    requires DependsOn(g, a, b)
    ensures a in g && r in g[a] && r in g
    ensures r == b || DependsOn(g, r, b)
  {
    var p :| PathBetween(g, p, a, b);
    r := p[1];
    if |p| > 2 {
      var q := p[1..];
      assert IsPath(g, q) by {
        forall i | 0 < i < |q| ensures q[i] in g[q[i - 1]] {
          assert q[i] == p[i + 1] && q[i - 1] == p[i];
        }
      }
      assert PathBetween(g, q, r, b);
    }
  }

  // ---------------------------------------------------------------- orders

  ghost predicate Lists(order: seq<Id>, g: Graph) {
    Distinct(order) && forall x :: x in order <==> x in g
  }

  /** Every check stands after everything it requires. */
  ghost predicate RequirementsFirst(g: Graph, s: seq<Id>) {
    forall k {:trigger MetAt(g, s, k)} | 0 <= k < |s| :: MetAt(g, s, k)
  }

  ghost predicate MetAt(g: Graph, s: seq<Id>, k: nat)
    requires k < |s|
  {
    s[k] in g && forall r | r in g[s[k]] :: r in s[..k]
  }

  ghost predicate Topological(order: seq<Id>, g: Graph, s: seq<Id>) {
    && multiset(s) == multiset(order)
    && RequirementsFirst(g, s)
  }

  function IndexOf(order: seq<Id>, x: Id): (i: nat)
    requires x in order
    ensures i < |order| && order[i] == x && x !in order[..i]
  {
    if order[0] == x then 0 else
      assert order == [order[0]] + order[1..];
      var j := IndexOf(order[1..], x);
      assert order[..j + 1] == [order[0]] + order[1..][..j];
      j + 1
  }

  /** `s` precedes `t` when, at the first place where they differ, `s` has the
      check that was registered earlier. */
  ghost predicate NoLaterThan(order: seq<Id>, s: seq<Id>, t: seq<Id>) {
    s == t ||
    exists k :: && 0 <= k < |s| && k < |t| && s[..k] == t[..k]
                && s[k] in order && t[k] in order
                && IndexOf(order, s[k]) < IndexOf(order, t[k])
  }

  // ---------------------------------------------------------------- the simple specification

  predicate Available(g: Graph, done: seq<Id>, x: Id) {
    x in g && x !in done && forall r | r in g[x] :: r in done
  }

  /** The earliest-registered check that is not done and whose requirements all are. */
  function FirstAvailable(order: seq<Id>, g: Graph, done: seq<Id>): (r: Option<Id>)
    ensures r.None? ==> forall x | x in order :: !Available(g, done, x)
    ensures r.Some? ==> r.value in order && Available(g, done, r.value)
    ensures r.Some? ==> forall x | x in order && Available(g, done, x) :: IndexOf(order, r.value) <= IndexOf(order, x)
  {
    if order == [] then None
    else if Available(g, done, order[0]) then Some(order[0])
    else FirstAvailable(order[1..], g, done)
  }

  /** Repeatedly emit the earliest-registered available check, until none is. */
  ghost function Greedy(order: seq<Id>, g: Graph, done: seq<Id>): (s: seq<Id>)
    requires Lists(order, g) && Distinct(done) && forall x | x in done :: x in order
    decreases |order| - |done|
  {
    match FirstAvailable(order, g, done)
    case None => done
    case Some(x) =>
      DistinctLength(done + [x], order);
      Greedy(order, g, done + [x])
  }

  lemma FirstAvailableIs(order: seq<Id>, g: Graph, done: seq<Id>, x: Id)
    requires x in order && Available(g, done, x)
    requires forall y | y in order && Available(g, done, y) :: IndexOf(order, x) <= IndexOf(order, y)
    ensures FirstAvailable(order, g, done) == Some(x)
  {
    var r := FirstAvailable(order, g, done);
    assert r.Some?;
    assert IndexOf(order, r.value) == IndexOf(order, x);
  }

  /** What holds of every sequence the simple specification passes through. */
  ghost predicate Emitted(order: seq<Id>, g: Graph, s: seq<Id>) {
    && Distinct(s)
    && RequirementsFirst(g, s)
    && (forall x | x in s :: x in order)
    && (forall k | 0 <= k < |s| :: FirstAvailable(order, g, s[..k]) == Some(s[k]))
  }

  lemma EmitOne(order: seq<Id>, g: Graph, done: seq<Id>, x: Id)
    requires Emitted(order, g, done)
    requires FirstAvailable(order, g, done) == Some(x)
    ensures Emitted(order, g, done + [x])
  {
    var s := done + [x];
    forall k | 0 <= k < |s|
      ensures MetAt(g, s, k)
      ensures FirstAvailable(order, g, s[..k]) == Some(s[k])
    {
      if k < |done| {
        assert s[..k] == done[..k] && MetAt(g, done, k);
      } else {
        assert s[..k] == done;
      }
    }
  }

  lemma {:induction false} GreedyEmits(order: seq<Id>, g: Graph, done: seq<Id>)
    requires Lists(order, g) && Emitted(order, g, done)
    ensures Emitted(order, g, Greedy(order, g, done))
    ensures FirstAvailable(order, g, Greedy(order, g, done)).None?
    decreases |order| - |done|
  {
    match FirstAvailable(order, g, done)
    case None =>
    case Some(x) =>
      DistinctLength(done + [x], order);
      EmitOne(order, g, done, x);
      GreedyEmits(order, g, done + [x]);
  }

  // ---------------------------------------------------------------- what is never emitted

  /** Along a requirement path that starts inside an emitted sequence, positions
      go strictly down, so such a path never returns to where it was. */
  lemma {:induction false} PathsDescend(g: Graph, s: seq<Id>, p: seq<Id>)
    requires Distinct(s) && RequirementsFirst(g, s) && IsPath(g, p) && p[0] in s
    ensures forall i | 0 <= i < |p| :: p[i] in s
    ensures forall i | 0 < i < |p| :: IndexOf(s, p[i]) < IndexOf(s, p[0])
  {
    if |p| > 1 {
      var k := IndexOf(s, p[0]);
      assert MetAt(g, s, k);
      var j :| 0 <= j < k && s[j] == p[1];
      assert IndexOf(s, p[1]) == j;
      var q := p[1..];
      assert IsPath(g, q) by {
        forall i | 0 < i < |q| ensures q[i] in g[q[i - 1]] {
          assert q[i] == p[i + 1] && q[i - 1] == p[i];
        }
      }
      PathsDescend(g, s, q);
      forall i | 0 < i < |p| ensures p[i] in s && IndexOf(s, p[i]) < k {
        assert p[i] == q[i - 1];
      }
    }
  }

  lemma EmittedReachNoCycle(g: Graph, s: seq<Id>, a: Id)
    requires Distinct(s) && RequirementsFirst(g, s) && a in s
    ensures !ReachesCycle(g, a)
  {
    if ReachesCycle(g, a) {
      var b :| (a == b || DependsOn(g, a, b)) && DependsOn(g, b, b);
      if a != b {
        var p :| PathBetween(g, p, a, b);
        PathsDescend(g, s, p);
      }
      var q :| PathBetween(g, q, b, b);
      PathsDescend(g, s, q);
    }
  }

  /** Each of these checks waits for another of them. */
  ghost predicate AllWaiting(g: Graph, stuck: set<Id>) {
    forall x {:trigger Waiting(g, stuck, x)} | x in stuck :: Waiting(g, stuck, x)
  }

  ghost predicate Waiting(g: Graph, stuck: set<Id>, x: Id) {
    x in g && exists r :: r in g[x] && r in stuck
  }

  /** Inside such a set there are requirement paths of every length. */
  lemma {:induction false} EndlessWalk(g: Graph, stuck: set<Id>, a: Id, n: nat) returns (p: seq<Id>)
    requires a in stuck && AllWaiting(g, stuck)
    ensures |p| == n + 1 && IsPath(g, p) && p[0] == a
    ensures forall i | 0 <= i < |p| :: p[i] in stuck
    decreases n
  {
    if n == 0 {
      assert Waiting(g, stuck, a);
      p := [a];
    } else {
      assert Waiting(g, stuck, a);
      var r :| r in g[a] && r in stuck;
      var q := EndlessWalk(g, stuck, r, n - 1);
      p := [a] + q;
      forall i | 0 < i < |p| ensures p[i] in g[p[i - 1]] {
        assert p[i] == q[i - 1];
        assert i > 1 ==> p[i - 1] == q[i - 2];
      }
    }
  }

  lemma WalkRepeats(p: seq<Id>, stuck: set<Id>) returns (i: nat, j: nat)
    requires |p| > |stuck| && forall k | 0 <= k < |p| :: p[k] in stuck
    ensures i < j < |p| && p[i] == p[j]
  {
    if Distinct(p) {
      DistinctSetSize(p);
      SubsetSize((set x | x in p), stuck);
    }
    i, j :| 0 <= i < j < |p| && p[i] == p[j];
  }

  lemma SubPath(g: Graph, p: seq<Id>, i: nat, j: nat)
    requires IsPath(g, p) && i < j < |p|
    ensures DependsOn(g, p[i], p[j])
  {
    var q := p[i..j + 1];
    forall k | 0 < k < |q| ensures q[k] in g[q[k - 1]] {
      assert q[k] == p[i + k] && q[k - 1] == p[i + k - 1];
    }
    assert PathBetween(g, q, p[i], p[j]);
  }

  lemma StuckReachesCycle(g: Graph, stuck: set<Id>, a: Id)
    requires a in stuck && AllWaiting(g, stuck)
    ensures ReachesCycle(g, a)
  {
    var p := EndlessWalk(g, stuck, a, |stuck|);
    var i, j := WalkRepeats(p, stuck);
    SubPath(g, p, i, j);
    var b := p[i];
    assert a == b || DependsOn(g, a, b) by {
      if i > 0 { SubPath(g, p, 0, i); }
    }
  }

  /** The checks left out of the greedy order are exactly those that lie on a
      cycle or require one. */
  lemma LeftOutExactlyCyclic(order: seq<Id>, g: Graph, a: Id)
    requires Lists(order, g) && Closed(g) && a in order
    ensures a !in Greedy(order, g, []) <==> ReachesCycle(g, a)
  {
    var s := Greedy(order, g, []);
    GreedyEmits(order, g, []);
    if a in s {
      EmittedReachNoCycle(g, s, a);
    } else {
      var stuck := set x | x in order && x !in s;
      forall x | x in stuck ensures Waiting(g, stuck, x) {
        assert !Available(g, s, x);
        var r :| r in g[x] && r !in s;
        assert r in g;
      }
      StuckReachesCycle(g, stuck, a);
    }
  }

  lemma SameMembers(s: seq<Id>, order: seq<Id>)
    requires Distinct(s) && Distinct(order)
    requires forall x :: x in s <==> x in order
    ensures multiset(s) == multiset(order)
  {
    DistinctCounts(s);
    DistinctCounts(order);
    forall x ensures multiset(s)[x] == multiset(order)[x] {
      assert x in s <==> x in multiset(s);
      assert x in order <==> x in multiset(order);
    }
  }

  /** The greedy order takes in every check exactly when the graph has no cycle. */
  lemma GreedyCompleteIffAcyclic(order: seq<Id>, g: Graph)
    requires Lists(order, g) && Closed(g)
    ensures |Greedy(order, g, [])| == |order| <==> Acyclic(g)
    ensures |Greedy(order, g, [])| == |order| <==> Topological(order, g, Greedy(order, g, []))
  {
    var s := Greedy(order, g, []);
    GreedyEmits(order, g, []);
    DistinctLength(s, order);
    if |s| == |order| {
      SameMembers(s, order);
      forall a ensures !DependsOn(g, a, a) {
        if DependsOn(g, a, a) {
          var r := FirstStep(g, a, a);
          assert ReachesCycle(g, a);
          LeftOutExactlyCyclic(order, g, a);
        }
      }
    } else {
      if multiset(s) == multiset(order) { SameSize(s, order); }
      assert exists a :: a in order && a !in s by { if forall x | x in order :: x in s { DistinctLength(order, s); } }
      var a :| a in order && a !in s;
      LeftOutExactlyCyclic(order, g, a);
    }
  }

  lemma {:induction false} FirstDifference(s: seq<Id>, t: seq<Id>) returns (k: nat)
    requires |s| == |t| && s != t
    ensures k < |s| && s[..k] == t[..k] && s[k] != t[k]
  {
    if s[0] != t[0] {
      k := 0;
    } else {
      assert s[1..] != t[1..] by { assert s == [s[0]] + s[1..] && t == [t[0]] + t[1..]; }
      var j := FirstDifference(s[1..], t[1..]);
      k := j + 1;
      assert s[..k] == [s[0]] + s[1..][..j];
      assert t[..k] == [t[0]] + t[1..][..j];
    }
  }

  /** A complete greedy order is the least topological order there is, comparing
      by registration index. */
  lemma GreedyIsLeast(order: seq<Id>, g: Graph, t: seq<Id>)
    requires Lists(order, g)
    requires |Greedy(order, g, [])| == |order|
    requires Topological(order, g, t)
    ensures NoLaterThan(order, Greedy(order, g, []), t)
  {
    var s := Greedy(order, g, []);
    GreedyEmits(order, g, []);
    SameSize(t, order);
    PermutationDistinct(t, order);
    if s != t {
      var k := FirstDifference(s, t);
      LeastAt(order, g, s, t, k);
    }
  }

  lemma LeastAt(order: seq<Id>, g: Graph, s: seq<Id>, t: seq<Id>, k: nat)
    requires k < |s| && k < |t| && s[..k] == t[..k] && s[k] != t[k]
    requires Emitted(order, g, s)
    requires Distinct(t) && Topological(order, g, t)
    ensures NoLaterThan(order, s, t)
  {
    NextIsAvailable(order, g, t, k);
    assert FirstAvailable(order, g, s[..k]) == Some(s[k]);
    FirstIsEarlier(order, g, s[..k], s[k], t[k]);
  }

  lemma FirstIsEarlier(order: seq<Id>, g: Graph, done: seq<Id>, x: Id, y: Id)
    requires FirstAvailable(order, g, done) == Some(x)
    requires y in order && Available(g, done, y) && x != y
    ensures x in order && IndexOf(order, x) < IndexOf(order, y)
  {
    assert order[IndexOf(order, x)] == x && order[IndexOf(order, y)] == y;
  }

  lemma NextIsAvailable(order: seq<Id>, g: Graph, t: seq<Id>, k: nat)
    requires k < |t| && Distinct(t) && Topological(order, g, t)
    ensures t[k] in order && Available(g, t[..k], t[k])
  {
    assert t[k] in multiset(t);
    assert MetAt(g, t, k);
  }
}

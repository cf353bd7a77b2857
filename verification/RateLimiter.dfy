/** The per-address fixed-window limiter guarding the auth endpoints, with lazy
    eviction of elapsed windows. Times and the window length are in nanoseconds. */
module RateLimiter {

  datatype Window = Window(count: int, start: int)

  type Counts = map<string, Window>

  // ---------------------------------------------------------------- one call

  predicate Elapsed(w: Window, length: int, now: int) { now - w.start >= length }

  function Evict(counts: Counts, length: int, now: int): Counts {
    map ip | ip in counts && !Elapsed(counts[ip], length, now) :: counts[ip]
  }

  /** A call without eviction: open a window, refuse, or count one more. */
  function Admit(counts: Counts, max: int, length: int, ip: string, now: int): (bool, Counts) {
    if ip !in counts || Elapsed(counts[ip], length, now) then (true, counts[ip := Window(1, now)])
    else if counts[ip].count >= max then (false, counts)
    else (true, counts[ip := counts[ip].(count := counts[ip].count + 1)])
  }

  class Limiter {
    const max: int
    const length: int
    var counts: Counts

    constructor (max: int, length: int)
      ensures this.max == max && this.length == length && counts == map[]
    {
      this.max, this.length, counts := max, length, map[];
    }

    method EvictElapsed(now: int)
      modifies this
      ensures counts == Evict(old(counts), length, now)
    {
      var todo := counts.Keys;
      while todo != {}
        invariant todo <= old(counts).Keys && counts.Keys <= old(counts).Keys
        invariant forall ip | ip in counts :: counts[ip] == old(counts)[ip]
        invariant forall ip | ip in old(counts) && ip in todo :: ip in counts
        invariant forall ip | ip in old(counts) && ip !in todo :: ip in counts <==> !Elapsed(old(counts)[ip], length, now)
        decreases todo
      {
        var ip :| ip in todo;
        todo := todo - {ip};
        if Elapsed(counts[ip], length, now) {
          counts := counts - {ip};
        }
      }
    }

    /** Whether `ip` may make another request now; no elapsed window survives the
        call (for a positive window length). */
    method Allow(ip: string, now: int) returns (ok: bool)
      modifies this
      ensures (ok, counts) == Admit(Evict(old(counts), length, now), max, length, ip, now)
      ensures length > 0 ==> forall x | x in counts :: !Elapsed(counts[x], length, now)
    {
      EvictElapsed(now);
      if ip !in counts || Elapsed(counts[ip], length, now) {
        counts := counts[ip := Window(1, now)];
        return true;
      }
      if counts[ip].count >= max {
        return false;
      }
      counts := counts[ip := counts[ip].(count := counts[ip].count + 1)];
      return true;
    }
  }

  // ---------------------------------------------------------------- runs

  datatype Call = Call(ip: string, now: int)

  ghost predicate ClockNeverGoesBack(calls: seq<Call>) {
    forall i, j | 0 <= i < j < |calls| :: calls[i].now <= calls[j].now
  }

  datatype Run = Run(counts: Counts, decisions: seq<bool>)

  /** The limiter as it is, over a sequence of calls. */
  function Evicting(max: int, length: int, calls: seq<Call>): (r: Run)
    ensures |r.decisions| == |calls|
  {
    if calls == [] then Run(map[], []) else
      var before, c := Evicting(max, length, calls[..|calls| - 1]), calls[|calls| - 1];
      var (ok, counts) := Admit(Evict(before.counts, length, c.now), max, length, c.ip, c.now);
      Run(counts, before.decisions + [ok])
  }

  /** A limiter that forgets nothing. */
  function Keeping(max: int, length: int, calls: seq<Call>): (r: Run)
    ensures |r.decisions| == |calls|
  {
    if calls == [] then Run(map[], []) else
      var before, c := Keeping(max, length, calls[..|calls| - 1]), calls[|calls| - 1];
      var (ok, counts) := Admit(before.counts, max, length, c.ip, c.now);
      Run(counts, before.decisions + [ok])
  }

  /** What eviction dropped had elapsed. */
  ghost predicate DropsOnlyElapsed(kept: Counts, all: Counts, length: int, now: int) {
    && (forall ip | ip in kept :: ip in all && kept[ip] == all[ip])
    && (forall ip | ip in all && ip !in kept :: Elapsed(all[ip], length, now))
  }

  lemma AdmitSame(kept: Counts, all: Counts, max: int, length: int, last: int, ip: string, now: int)
    requires DropsOnlyElapsed(kept, all, length, last) && last <= now
    ensures var a, b := Admit(Evict(kept, length, now), max, length, ip, now), Admit(all, max, length, ip, now);
            a.0 == b.0 && DropsOnlyElapsed(a.1, b.1, length, now)
  {
  }

  lemma {:induction false} RunsAgree(max: int, length: int, calls: seq<Call>)
    requires ClockNeverGoesBack(calls)
    ensures Evicting(max, length, calls).decisions == Keeping(max, length, calls).decisions
    ensures calls != [] ==>
      DropsOnlyElapsed(Evicting(max, length, calls).counts, Keeping(max, length, calls).counts, length, calls[|calls| - 1].now)
  {
    if calls != [] {
      var init, c := calls[..|calls| - 1], calls[|calls| - 1];
      RunsAgree(max, length, init);
      var last := if init == [] then c.now else init[|init| - 1].now;
      AdmitSame(Evicting(max, length, init).counts, Keeping(max, length, init).counts, max, length, last, c.ip, c.now);
    }
  }

  /** Eviction is invisible: with a clock that never goes back, every decision is
      the one a limiter that never forgets would make. */
  lemma EvictionIsInvisible(max: int, length: int, calls: seq<Call>)
    requires ClockNeverGoesBack(calls)
    ensures Evicting(max, length, calls).decisions == Keeping(max, length, calls).decisions
  {
    RunsAgree(max, length, calls);
  }

  /** With a clock that goes back it is not: one address, at most one request per
      window of length 2, called at 0, 2 (by another address) and 1. */
  lemma EvictionShowsWhenTheClockGoesBack()
    ensures var calls := [Call("a", 0), Call("b", 2), Call("a", 1)];
            Evicting(1, 2, calls).decisions[2] && !Keeping(1, 2, calls).decisions[2]
  {
    var c1, c2, c3 := [Call("a", 0)], [Call("a", 0), Call("b", 2)], [Call("a", 0), Call("b", 2), Call("a", 1)];
    assert c1[..0] == [] && c2[..1] == c1 && c3[..2] == c2;
    assert Evicting(1, 2, c1).counts == map["a" := Window(1, 0)];
    assert Keeping(1, 2, c1).counts == map["a" := Window(1, 0)];
    assert Evict(Evicting(1, 2, c1).counts, 2, 2) == map[];
    assert Evicting(1, 2, c2).counts == map["b" := Window(1, 2)];
    assert Keeping(1, 2, c2).counts == map["a" := Window(1, 0), "b" := Window(1, 2)];
    assert Evict(Evicting(1, 2, c2).counts, 2, 1) == map["b" := Window(1, 2)];
  }

  // ---------------------------------------------------------------- the bound

  /** When `ip` was allowed, in order. */
  function AllowedAt(max: int, length: int, calls: seq<Call>, ip: string): seq<int> {
    if calls == [] then [] else
      var c := calls[|calls| - 1];
      AllowedAt(max, length, calls[..|calls| - 1], ip)
      + if c.ip == ip && Evicting(max, length, calls).decisions[|calls| - 1] then [c.now] else []
  }

  /** How many of these moments lie in the half-open interval from `lo` to `hi`. */
  function Within(times: seq<int>, lo: int, hi: int): nat {
    if times == [] then 0
    else Within(times[..|times| - 1], lo, hi) + if lo <= times[|times| - 1] < hi then 1 else 0
  }

  /** How many lie in the interval of this length that starts at `t`. */
  function InSpan(times: seq<int>, t: int, length: int): nat { Within(times, t, t + length) }

  function Budget(max: int): (m: int) ensures m >= 1 && m >= max { if max < 1 then 1 else max }

  lemma WithinAppend(times: seq<int>, t: int, lo: int, hi: int)
    ensures Within(times + [t], lo, hi) == Within(times, lo, hi) + if lo <= t < hi then 1 else 0
  {
    assert (times + [t])[..|times|] == times;
  }

  lemma {:induction false} WithinParts(times: seq<int>, lo: int, mid: int, hi: int)
    requires lo <= mid <= hi
    ensures Within(times, lo, hi) == Within(times, lo, mid) + Within(times, mid, hi)
  {
    if times != [] { WithinParts(times[..|times| - 1], lo, mid, hi); }
  }

  lemma {:induction false} WithinNarrower(times: seq<int>, lo: int, hi: int, lo': int, hi': int)
    requires lo <= lo' && hi' <= hi
    ensures Within(times, lo', hi') <= Within(times, lo, hi)
  {
    if times != [] { WithinNarrower(times[..|times| - 1], lo, hi, lo', hi'); }
  }

  /** What the current window of an address says about when it was allowed. */
  ghost predicate Paced(times: seq<int>, max: int, length: int, w: Window) {
    && (forall i | 0 <= i < |times| :: times[i] < w.start + length)
    && (forall hi :: Within(times, w.start, hi) <= w.count)
    && (forall lo, hi | lo > w.start :: Within(times, lo, hi) <= w.count - 1)
    && 1 <= w.count <= Budget(max)
    && (forall lo | lo > w.start - length :: Within(times, lo, w.start) <= Budget(max) - 1)
    && (forall t :: InSpan(times, t, length) <= 2 * Budget(max) - 1)
  }

  lemma {:induction false} NoneBefore(times: seq<int>, bound: int, lo: int, hi: int)
    requires (forall i | 0 <= i < |times| :: times[i] < bound) && bound <= lo
    ensures Within(times, lo, hi) == 0
  {
    if times != [] { NoneBefore(times[..|times| - 1], bound, lo, hi); }
  }

  /** Counting one more in the current window. */
  lemma PacedMore(times: seq<int>, max: int, length: int, w: Window, now: int)
    requires length > 0 && Paced(times, max, length, w)
    requires w.start <= now && !Elapsed(w, length, now) && w.count < max
    ensures Paced(times + [now], max, length, w.(count := w.count + 1))
  {
    var times', m := times + [now], Budget(max);
    forall hi ensures Within(times', w.start, hi) <= w.count + 1 { WithinAppend(times, now, w.start, hi); }
    forall lo, hi | lo > w.start ensures Within(times', lo, hi) <= w.count { WithinAppend(times, now, lo, hi); }
    forall lo | lo > w.start - length ensures Within(times', lo, w.start) <= m - 1 { WithinAppend(times, now, lo, w.start); }
    forall t ensures InSpan(times', t, length) <= 2 * m - 1 {
      assert InSpan(times, t, length) <= 2 * m - 1;
      WithinAppend(times, now, t, t + length);
      if t <= now < t + length { TwoWindows(times', m, length, w.start, t); }
    }
  }

  /** An interval no longer than a window meets at most two windows, and of the
      earlier one not the call that opened it. */
  lemma TwoWindows(times: seq<int>, m: int, length: int, start: int, t: int)
    requires length > 0 && m >= 1 && start - length < t
    requires forall hi :: Within(times, start, hi) <= m
    requires forall lo | lo > start - length :: Within(times, lo, start) <= m - 1
    ensures InSpan(times, t, length) <= 2 * m - 1
  {
    if t >= start {
      WithinNarrower(times, start, t + length, t, t + length);
    } else {
      WithinParts(times, t, start, t + length);
    }
  }

  /** Opening a new window once the old one has elapsed. */
  lemma PacedAnew(times: seq<int>, max: int, length: int, w: Window, now: int)
    requires length > 0 && Paced(times, max, length, w) && Elapsed(w, length, now)
    ensures Paced(times + [now], max, length, Window(1, now))
  {
    var times', m := times + [now], Budget(max);
    forall hi ensures Within(times', now, hi) <= 1 {
      WithinAppend(times, now, now, hi);
      NoneBefore(times, w.start + length, now, hi);
    }
    forall lo, hi | lo > now ensures Within(times', lo, hi) == 0 {
      WithinAppend(times, now, lo, hi);
      NoneBefore(times, w.start + length, lo, hi);
    }
    forall lo | lo > now - length ensures Within(times', lo, now) <= m - 1 {
      WithinAppend(times, now, lo, now);
      assert Within(times, lo, now) <= w.count - 1;
    }
    forall t ensures InSpan(times', t, length) <= 2 * m - 1 {
      assert InSpan(times, t, length) <= 2 * m - 1;
      WithinAppend(times, now, t, t + length);
      if t <= now < t + length { TwoWindows(times', m, length, now, t); }
    }
  }

  lemma PacedFirst(max: int, length: int, now: int)
    requires length > 0
    ensures Paced([now], max, length, Window(1, now))
  {
    assert [] + [now] == [now];
    forall lo, hi ensures Within([now], lo, hi) <= 1 { WithinAppend([], now, lo, hi); }
    forall lo, hi | lo > now || hi <= now ensures Within([now], lo, hi) == 0 { WithinAppend([], now, lo, hi); }
  }

  /** Every address is paced by the window a limiter that never forgets has for it. */
  lemma {:induction false} AlwaysPaced(max: int, length: int, calls: seq<Call>, ip: string)
    requires length > 0 && ClockNeverGoesBack(calls)
    ensures var counts, times := Keeping(max, length, calls).counts, AllowedAt(max, length, calls, ip);
            if ip in counts
            then Paced(times, max, length, counts[ip]) && counts[ip].start <= calls[|calls| - 1].now
            else times == []
  {
    if calls != [] {
      var init, c := calls[..|calls| - 1], calls[|calls| - 1];
      AlwaysPaced(max, length, init, ip);
      RunsAgree(max, length, calls);
      var counts, times := Keeping(max, length, init).counts, AllowedAt(max, length, init, ip);
      assert init != [] ==> init[|init| - 1].now <= c.now;
      assert times + [] == times;
      if c.ip == ip {
        if ip !in counts {
          PacedFirst(max, length, c.now);
          assert [] + [c.now] == [c.now];
        } else if Elapsed(counts[ip], length, c.now) {
          PacedAnew(times, max, length, counts[ip], c.now);
        } else if counts[ip].count < max {
          PacedMore(times, max, length, counts[ip], c.now);
        }
      }
    }
  }

  lemma {:induction false} EmptyInterval(times: seq<int>, lo: int, hi: int)
    requires hi <= lo
    ensures Within(times, lo, hi) == 0
  {
    if times != [] { EmptyInterval(times[..|times| - 1], lo, hi); }
  }

  /** No address is allowed twice its budget in any half-open interval of one window
      length (the budget of a limiter made with less than 1 is 1). */
  lemma LessThanTwiceTheBudget(max: int, length: int, calls: seq<Call>, ip: string, t: int)
    requires ClockNeverGoesBack(calls)
    ensures InSpan(AllowedAt(max, length, calls, ip), t, length) < 2 * Budget(max)
  {
    if length <= 0 {
      EmptyInterval(AllowedAt(max, length, calls, ip), t, t + length);
    } else {
      AlwaysPaced(max, length, calls, ip);
    }
  }

  // ---------------------------------------------------------------- the bound is reached

  /** What one more call comes to. */
  lemma OneCall(max: int, length: int, calls: seq<Call>, c: Call)
    requires UpTo(calls, c.now)
    ensures UpTo(calls + [c], c.now)
    ensures var (ok, counts) := Admit(Keeping(max, length, calls).counts, max, length, c.ip, c.now);
            && Keeping(max, length, calls + [c]).counts == counts
            && AllowedAt(max, length, calls + [c], c.ip) == AllowedAt(max, length, calls, c.ip) + if ok then [c.now] else []
  {
    assert (calls + [c])[..|calls|] == calls;
    RunsAgree(max, length, calls + [c]);
  }

  lemma AllowedCall(max: int, length: int, calls: seq<Call>, ip: string, w: Window, now: int)
    requires UpTo(calls, now) && ip in Keeping(max, length, calls).counts && Keeping(max, length, calls).counts[ip] == w
    requires Elapsed(w, length, now) || w.count < max
    ensures UpTo(calls + [Call(ip, now)], now)
    ensures ip in Keeping(max, length, calls + [Call(ip, now)]).counts
    ensures Keeping(max, length, calls + [Call(ip, now)]).counts[ip] == Next(w, length, now)
    ensures AllowedAt(max, length, calls + [Call(ip, now)], ip) == AllowedAt(max, length, calls, ip) + [now]
  {
    OneCall(max, length, calls, Call(ip, now));
  }

  function Next(w: Window, length: int, now: int): Window {
    if Elapsed(w, length, now) then Window(1, now) else w.(count := w.count + 1)
  }

  ghost predicate UpTo(calls: seq<Call>, now: int) {
    ClockNeverGoesBack(calls) && forall i | 0 <= i < |calls| :: calls[i].now <= now
  }

  /** After these calls the window of `ip` is `w`, and `n` of its allowed calls lie
      in the interval from 1 that is one window long. */
  ghost predicate Reached(max: int, length: int, calls: seq<Call>, ip: string, w: Window, n: nat) {
    && ip in Keeping(max, length, calls).counts && Keeping(max, length, calls).counts[ip] == w
    && InSpan(AllowedAt(max, length, calls, ip), 1, length) == n
  }

  lemma ReachedNext(max: int, length: int, calls: seq<Call>, ip: string, w: Window, n: nat, now: int)
    requires Reached(max, length, calls, ip, w, n) && UpTo(calls, now) && 1 <= now <= length
    requires Elapsed(w, length, now) || w.count < max
    ensures UpTo(calls + [Call(ip, now)], now)
    ensures Reached(max, length, calls + [Call(ip, now)], ip, Next(w, length, now), n + 1)
  {
    AllowedCall(max, length, calls, ip, w, now);
    WithinAppend(AllowedAt(max, length, calls, ip), now, 1, 1 + length);
  }

  /** Calls for one address at one moment, using up `k` of what its window has left. */
  lemma {:induction false} Burst(max: int, length: int, calls: seq<Call>, ip: string, w: Window, n: nat, now: int, k: nat)
    returns (more: seq<Call>)
    requires Reached(max, length, calls, ip, w, n) && UpTo(calls, now) && 1 <= now <= length
    requires !Elapsed(w, length, now) && w.count + k <= max
    ensures UpTo(more, now) && Reached(max, length, more, ip, w.(count := w.count + k), n + k)
    decreases k
  {
    more := calls;
    if k > 0 {
      ReachedNext(max, length, calls, ip, w, n, now);
      more := Burst(max, length, calls + [Call(ip, now)], ip, w.(count := w.count + 1), n + 1, now, k - 1);
    }
  }

  lemma FirstCall(max: int, length: int, ip: string)
    ensures UpTo([Call(ip, 0)], 0) && Reached(max, length, [Call(ip, 0)], ip, Window(1, 0), 0)
  {
    OneCall(max, length, [], Call(ip, 0));
    assert [] + [Call(ip, 0)] == [Call(ip, 0)];
    assert AllowedAt(max, length, [], ip) == [];
    WithinAppend([], 0, 1, 1 + length);
  }

  /** The bound is sharp, for every budget and every window of at least two moments:
      one call early, the rest of the budget late, and a whole budget again as the
      next window opens. */
  lemma BoundIsReached(max: int, length: int, ip: string) returns (calls: seq<Call>)
    requires max >= 1 && length >= 2
    ensures ClockNeverGoesBack(calls)
    ensures InSpan(AllowedAt(max, length, calls, ip), 1, length) == 2 * max - 1
  {
    FirstCall(max, length, ip);
    var late := Burst(max, length, [Call(ip, 0)], ip, Window(1, 0), 0, length - 1, max - 1);
    ReachedNext(max, length, late, ip, Window(max, 0), max - 1, length);
    calls := Burst(max, length, late + [Call(ip, length)], ip, Window(1, length), max, length, max - 1);
  }
}

/**
 The per-address rate limit of the Claude proxy: a sliding 60-second window of at most 30 accepted requests.

 The proxy prunes its list on every call.  The reference keeps every accepted time for ever; over runs with a
 clock that does not step back the two give the same verdicts.
 */
module RateLimit {
  const RATE_WINDOW: real := 60.0
  const RATE_MAX := 30

  type Table = map<string, seq<real>>

  function Hits(rate: Table, ip: string): seq<real> { if ip in rate then rate[ip] else [] }

  /** The times still inside the window at `now`. */
  function Keep(times: seq<real>, now: real): (k: seq<real>)
    ensures |k| <= |times|
  {
    if times == [] then []
    else (if now - times[0] < RATE_WINDOW then [times[0]] else []) + Keep(times[1..], now)
  }

  /** The limiter's state, as `_rate` holds it. */
  class Limiter {
    var rate: Table

    constructor ()
      ensures rate == map[]
    {
      rate := map[];
    }

    /** `rate_ok` at time `now`. */
    method RateOk(ip: string, now: real) returns (ok: bool)
      modifies this
      ensures ok == Verdict(old(rate), ip, now) && rate == Next(old(rate), ip, now)
    {
      hide Keep;
      var hits := Prune(Hits(rate, ip), now);
      if |hits| >= RATE_MAX {
        rate := rate[ip := hits];
        return false;
      }
      hits := hits + [now];
      rate := rate[ip := hits];
      ok := true;
    }
  }

  /** The list comprehension. */
  method Prune(all: seq<real>, now: real) returns (hits: seq<real>)
    ensures hits == Keep(all, now)
  {
    hide Keep;
    hits := [];
    KeepNothing(now);
    assert all[..0] == [];
    for i := 0 to |all|
      invariant hits == Keep(all[..i], now)
    {
      assert all[..i + 1] == all[..i] + [all[i]];
      KeepSnoc(all[..i], all[i], now);
      if now - all[i] < RATE_WINDOW { hits := hits + [all[i]]; }
    }
    assert all[..|all|] == all;
  }

  lemma KeepNothing(now: real)
    ensures Keep([], now) == []
  {
  }

  predicate Verdict(rate: Table, ip: string, now: real) { |Keep(Hits(rate, ip), now)| < RATE_MAX }

  function Next(rate: Table, ip: string, now: real): Table {
    var hits := Keep(Hits(rate, ip), now);
    rate[ip := if |hits| >= RATE_MAX then hits else hits + [now]]
  }

  // ---- runs ----

  datatype Call = Call(ip: string, now: real)

  /** The table after a run of calls from the empty table. */
  function Run(calls: seq<Call>): Table {
    if calls == [] then map[]
    else
      var c := calls[|calls| - 1];
      Next(Run(calls[..|calls| - 1]), c.ip, c.now)
  }

  /** The verdict on call `i` of a run. */
  predicate Accepted(calls: seq<Call>, i: nat)
    requires i < |calls|
  {
    Verdict(Run(calls[..i]), calls[i].ip, calls[i].now)
  }

  predicate Steady(calls: seq<Call>) {
    forall i, j :: 0 <= i < j < |calls| ==> calls[i].now <= calls[j].now
  }

  // ---- the reference: one address, nothing forgotten ----

  /** When an address called. */
  function Times(calls: seq<Call>, ip: string): seq<real> {
    if calls == [] then []
    else
      var c := calls[|calls| - 1];
      Times(calls[..|calls| - 1], ip) + (if c.ip == ip then [c.now] else [])
  }

  /** The calls that are granted when each is admitted iff fewer than 30 granted ones lie within the window. */
  function Granted(times: seq<real>): seq<real> {
    if times == [] then []
    else
      var g, now := Granted(times[..|times| - 1]), times[|times| - 1];
      if |Keep(g, now)| < RATE_MAX then g + [now] else g
  }

  lemma {:induction false} KeepAppend(a: seq<real>, b: seq<real>, now: real)
    ensures Keep(a + b, now) == Keep(a, now) + Keep(b, now)
  {
    if a == [] {
      assert a + b == b;
    } else {
      assert (a + b)[1..] == a[1..] + b;
      KeepAppend(a[1..], b, now);
    }
  }

  /** What has left the window stays out. */
  lemma {:induction false} KeepKeep(times: seq<real>, then_: real, now: real)
    requires then_ <= now
    ensures Keep(Keep(times, then_), now) == Keep(times, now)
  {
    if times != [] {
      KeepKeep(times[1..], then_, now);
      var head := if then_ - times[0] < RATE_WINDOW then [times[0]] else [];
      KeepAppend(head, Keep(times[1..], then_), now);
    }
  }

  lemma KeepOne(t: real, now: real)
    ensures Keep([t], now) == if now - t < RATE_WINDOW then [t] else []
  {
    assert [t][1..] == [];
  }

  lemma KeepSnoc(a: seq<real>, t: real, now: real)
    ensures Keep(a + [t], now) == Keep(a, now) + (if now - t < RATE_WINDOW then [t] else [])
  {
    KeepAppend(a, [t], now);
    KeepOne(t, now);
  }

  lemma SteadyPrefix(calls: seq<Call>)
    requires Steady(calls) && calls != []
    ensures Steady(calls[..|calls| - 1])
  {
  }

  lemma {:induction false} TimesBounded(calls: seq<Call>, ip: string, now: real)
    requires Steady(calls) && (calls != [] ==> calls[|calls| - 1].now <= now)
    ensures var t := Times(calls, ip); t != [] ==> t[|t| - 1] <= now
  {
    if calls != [] {
      SteadyPrefix(calls);
      var front := calls[..|calls| - 1];
      if front != [] { assert front[|front| - 1] == calls[|calls| - 2]; }
      TimesBounded(front, ip, calls[|calls| - 1].now);
    }
  }

  lemma RunSnoc(front: seq<Call>, c: Call, ip: string)
    ensures var before := Hits(Run(front), ip);
            var hits := Keep(before, c.now);
            Hits(Run(front + [c]), ip)
            == if c.ip != ip then before else if |hits| >= RATE_MAX then hits else hits + [c.now]
  {
    assert (front + [c])[..|front|] == front;
  }

  lemma TimesSnoc(front: seq<Call>, c: Call, ip: string)
    ensures Times(front + [c], ip) == if c.ip == ip then Times(front, ip) + [c.now] else Times(front, ip)
  {
    assert (front + [c])[..|front|] == front;
  }

  lemma GrantedSnoc(front: seq<real>, now: real)
    ensures var g := Granted(front);
            Granted(front + [now]) == if |Keep(g, now)| < RATE_MAX then g + [now] else g
  {
    assert (front + [now])[..|front|] == front;
  }

  /** What `RunIsPruned` says of one address after a run. */
  function Pruned(t: seq<real>): seq<real> { if t == [] then [] else Keep(Granted(t), t[|t| - 1]) }

  /** One more call of the address, on granted times only. */
  lemma PrunedSnoc(t: seq<real>, now: real)
    requires t != [] ==> t[|t| - 1] <= now
    ensures var hits := Keep(Pruned(t), now);
            && hits == Keep(Granted(t), now)
            && Pruned(t + [now]) == if |hits| >= RATE_MAX then hits else hits + [now]
  {
    hide Keep;
    var g := Granted(t);
    if t != [] { KeepKeep(g, t[|t| - 1], now); }
    GrantedSnoc(t, now);
    KeepSnoc(g, now, now);
    assert (t + [now])[|t|] == now;
  }

  /** The stored list of an address is the granted history, pruned at its last call. */
  lemma {:induction false} RunIsPruned(calls: seq<Call>, ip: string)
    requires Steady(calls)
    ensures Hits(Run(calls), ip) == Pruned(Times(calls, ip))
    decreases |calls|
  {
    hide Keep, Pruned, Granted;
    if calls != [] {
      var front, c := calls[..|calls| - 1], calls[|calls| - 1];
      hide Run, Times;
      SteadyPrefix(calls);
      RunIsPruned(front, ip);
      assert calls == front + [c];
      RunSnoc(front, c, ip);
      TimesSnoc(front, c, ip);
      if c.ip == ip {
        if front != [] { assert front[|front| - 1] == calls[|calls| - 2]; }
        TimesBounded(front, ip, c.now);
        PrunedSnoc(Times(front, ip), c.now);
      }
    } else {
      PrunedNothing();
    }
  }

  lemma PrunedNothing()
    ensures Pruned([]) == []
  {
  }

  /**
   Every verdict is the reference's: a call is refused exactly when at least 30 granted calls of the same
   address lie in the 60 seconds before it.  Other addresses do not appear in the rule.
   */
  lemma VerdictIsReference(calls: seq<Call>, i: nat)
    requires Steady(calls) && i < |calls|
    ensures Accepted(calls, i) <==> |Keep(Granted(Times(calls[..i], calls[i].ip)), calls[i].now)| < RATE_MAX
  {
    var front, c := calls[..i], calls[i];
    assert Steady(front);
    RunIsPruned(front, c.ip);
    var t := Times(front, c.ip);
    if front != [] { assert front[|front| - 1] == calls[i - 1]; }
    TimesBounded(front, c.ip, c.now);
    PrunedSnoc(t, c.now);
  }

  /** The accepted calls of an address, read off the run, are the granted ones of the reference. */
  function AcceptedTimes(calls: seq<Call>, ip: string): seq<real> {
    if calls == [] then []
    else
      var n := |calls| - 1;
      AcceptedTimes(calls[..n], ip) + (if calls[n].ip == ip && Accepted(calls, n) then [calls[n].now] else [])
  }

  /** A verdict looks only at the calls before it. */
  lemma {:induction false} AcceptedSnoc(calls: seq<Call>, ip: string)
    requires calls != []
    ensures var n := |calls| - 1;
            AcceptedTimes(calls, ip)
            == AcceptedTimes(calls[..n], ip) + (if calls[n].ip == ip && Accepted(calls, n) then [calls[n].now] else [])
  {
  }

  lemma NothingAccepted(ip: string)
    ensures AcceptedTimes([], ip) == [] && Times([], ip) == [] && Granted([]) == []
  {
  }

  lemma {:induction false} AcceptedAreGranted(calls: seq<Call>, ip: string)
    requires Steady(calls)
    ensures AcceptedTimes(calls, ip) == Granted(Times(calls, ip))
    decreases |calls|
  {
    hide Keep, Accepted, AcceptedTimes, Granted, Times, Steady;
    if calls == [] {
      NothingAccepted(ip);
    } else {
      var n := |calls| - 1;
      SteadyPrefix(calls);
      AcceptedAreGranted(calls[..n], ip);
      VerdictIsReference(calls, n);
      assert calls == calls[..n] + [calls[n]];
      TimesSnoc(calls[..n], calls[n], ip);
      GrantedSnoc(Times(calls[..n], ip), calls[n].now);
      AcceptedSnoc(calls, ip);
    }
  }

  // ---- the bound ----

  /** How many of the times lie in `[from, from + 60)`. */
  function InWindow(times: seq<real>, from: real): nat {
    if times == [] then 0
    else
      var t := times[|times| - 1];
      InWindow(times[..|times| - 1], from) + (if from <= t < from + RATE_WINDOW then 1 else 0)
  }

  /** Granted times of a window that reaches past `now` are all recent at `now`. */
  lemma {:induction false} WindowIsRecent(g: seq<real>, from: real, now: real)
    requires now < from + RATE_WINDOW
    ensures InWindow(g, from) <= |Keep(g, now)|
  {
    if g != [] {
      var n := |g| - 1;
      WindowIsRecent(g[..n], from, now);
      assert g == g[..n] + [g[n]];
      KeepSnoc(g[..n], g[n], now);
    }
  }

  lemma {:induction false} GrantedWindow(times: seq<real>, from: real)
    ensures InWindow(Granted(times), from) <= RATE_MAX
  {
    if times != [] {
      var front, now := times[..|times| - 1], times[|times| - 1];
      var g := Granted(front);
      GrantedWindow(front, from);
      assert (g + [now])[..|g|] == g;
      if now < from + RATE_WINDOW { WindowIsRecent(g, from, now); }
    }
  }

  /** Safety over whole runs: no 60-second window holds more than 30 accepted requests of one address. */
  lemma AtMostThirty(calls: seq<Call>, ip: string, from: real)
    requires Steady(calls)
    ensures InWindow(AcceptedTimes(calls, ip), from) <= RATE_MAX
  {
    AcceptedAreGranted(calls, ip);
    GrantedWindow(Times(calls, ip), from);
  }

  /** A call is refused exactly when 30 accepted calls of its address lie in the 60 seconds before it. */
  lemma RefusedWhenFull(calls: seq<Call>, i: nat)
    requires Steady(calls) && i < |calls|
    ensures Accepted(calls, i) <==> |Keep(AcceptedTimes(calls[..i], calls[i].ip), calls[i].now)| < RATE_MAX
  {
    assert Steady(calls[..i]);
    VerdictIsReference(calls, i);
    AcceptedAreGranted(calls[..i], calls[i].ip);
  }

  /** Only the calls of an address matter to it. */
  lemma AddressesAreIndependent(a: seq<Call>, b: seq<Call>, i: nat, j: nat)
    requires Steady(a) && Steady(b) && i < |a| && j < |b| && a[i] == b[j]
    requires Times(a[..i], a[i].ip) == Times(b[..j], a[i].ip)
    ensures Accepted(a, i) == Accepted(b, j)
  {
    VerdictIsReference(a, i);
    VerdictIsReference(b, j);
  }

  // ---- the same, by counting calls ----

  /** The accepted calls of an address among the first `n` whose times lie in `[from, until)`. */
  ghost function Between(calls: seq<Call>, n: nat, ip: string, from: real, until: real): set<nat>
    requires n <= |calls|
  {
    set k: nat | k < n && calls[k].ip == ip && Accepted(calls, k) && from <= calls[k].now < until
  }

  /** The accepted calls of an address among the first `n` that are less than 60 seconds old. */
  ghost function Recent(calls: seq<Call>, n: nat, ip: string, now: real): set<nat>
    requires n <= |calls|
  {
    set k: nat | k < n && calls[k].ip == ip && Accepted(calls, k) && now - calls[k].now < 60.0
  }

  lemma AcceptedPrefix(calls: seq<Call>, n: nat, k: nat)
    requires k < n <= |calls|
    ensures Accepted(calls[..n], k) == Accepted(calls, k)
  {
    assert calls[..n][..k] == calls[..k];
  }

  lemma {:induction false} RecentIsKept(calls: seq<Call>, n: nat, ip: string, now: real)
    requires n <= |calls|
    ensures |Recent(calls, n, ip, now)| == |Keep(AcceptedTimes(calls[..n], ip), now)|
    ensures forall from: real ::
              |Between(calls, n, ip, from, from + 60.0)| == InWindow(AcceptedTimes(calls[..n], ip), from)
  {
    hide Keep, Accepted, AcceptedTimes, InWindow;
    if n == 0 {
      NothingKept(ip, now);
      assert calls[..0] == [];
    } else {
      var m, c := n - 1, calls[n - 1];
      RecentIsKept(calls, m, ip, now);
      LastCall(calls, n, ip, now);
      assert calls[..n][..m] == calls[..m];
      AcceptedPrefix(calls, n, m);
      AcceptedSnoc(calls[..n], ip);
      var known := AcceptedTimes(calls[..m], ip);
      assert known + [] == known && calls[..n][m] == c;
      KeepSnoc(known, c.now, now);
      forall from: real
        ensures |Between(calls, n, ip, from, from + 60.0)| == InWindow(AcceptedTimes(calls[..n], ip), from)
      {
        LastBetween(calls, n, ip, from);
        InWindowSnoc(known, c.now, from);
      }
    }
  }

  lemma NothingKept(ip: string, now: real)
    ensures Keep(AcceptedTimes([], ip), now) == []
    ensures forall from: real :: InWindow(AcceptedTimes([], ip), from) == 0
  {
  }

  lemma InWindowSnoc(a: seq<real>, t: real, from: real)
    ensures InWindow(a + [t], from) == InWindow(a, from) + (if from <= t < from + 60.0 then 1 else 0)
  {
    assert (a + [t])[..|a|] == a;
  }

  lemma LastCall(calls: seq<Call>, n: nat, ip: string, now: real)
    requires 0 < n <= |calls|
    ensures var c := calls[n - 1];
            |Recent(calls, n, ip, now)| == |Recent(calls, n - 1, ip, now)|
            + (if c.ip == ip && Accepted(calls, n - 1) && now - c.now < 60.0 then 1 else 0)
  {
    hide Accepted;
    var c, before := calls[n - 1], Recent(calls, n - 1, ip, now);
    assert Recent(calls, n, ip, now)
        == before + if c.ip == ip && Accepted(calls, n - 1) && now - c.now < 60.0 then {n - 1} else {};
  }

  lemma LastBetween(calls: seq<Call>, n: nat, ip: string, from: real)
    requires 0 < n <= |calls|
    ensures var c := calls[n - 1];
            |Between(calls, n, ip, from, from + 60.0)| == |Between(calls, n - 1, ip, from, from + 60.0)|
            + (if c.ip == ip && Accepted(calls, n - 1) && from <= c.now < from + 60.0 then 1 else 0)
  {
    hide Accepted;
    var c, before := calls[n - 1], Between(calls, n - 1, ip, from, from + 60.0);
    assert Between(calls, n, ip, from, from + 60.0)
        == before + if c.ip == ip && Accepted(calls, n - 1) && from <= c.now < from + 60.0 then {n - 1} else {};
  }

  /**
   The limit in the calls' own terms: a call is accepted exactly when fewer than thirty accepted calls of its address
   are less than sixty seconds old, and no sixty seconds hold more than thirty of them.
   */
  lemma ThirtyAMinute(calls: seq<Call>, i: nat, ip: string, from: real)
    requires Steady(calls) && i < |calls|
    ensures Accepted(calls, i) <==> |Recent(calls, i, calls[i].ip, calls[i].now)| < 30
    ensures |Between(calls, |calls|, ip, from, from + 60.0)| <= 30
  {
    hide Keep, Accepted, AcceptedTimes, InWindow, Recent, Between, Steady;
    RecentIsKept(calls, i, calls[i].ip, calls[i].now);
    RefusedWhenFull(calls, i);
    RecentIsKept(calls, |calls|, ip, from);
    assert calls[..|calls|] == calls;
    AtMostThirty(calls, ip, from);
  }
}

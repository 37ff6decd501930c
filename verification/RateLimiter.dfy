/** The per-client sliding-window limiter: a pruned list of hits that must agree
    with the full history of calls. Times come from a monotonic clock. */
module RateLimiter {
  import opened Common

  /** One call of the limiter, allowed or not. */
  datatype Call = Call(client: string, time: real)

  function AtLeast(bound: real): real -> bool {
    t => t >= bound
  }

  /** The pruned list of a client after the calls so far: every call, even a
      refused one, drops what is older than its window and adds itself. */
  function Hits(window: int, calls: seq<Call>, client: string): seq<real> {
    if calls == [] then []
    else
      var front, last := calls[..|calls| - 1], calls[|calls| - 1];
      if last.client != client then Hits(window, front, client)
      else Filter(AtLeast(last.time - window as real), Hits(window, front, client)) + [last.time]
  }

  /** The verdict on the last call. */
  predicate Allowed(window: int, limit: int, calls: seq<Call>)
    requires calls != []
  {
    |Hits(window, calls, calls[|calls| - 1].client)| <= limit
  }

  lemma HitsStep(window: int, calls: seq<Call>, client: string, now: real)
    ensures forall c :: Hits(window, calls + [Call(client, now)], c) == if c == client then
      Filter(AtLeast(now - window as real), Hits(window, calls, c)) + [now] else Hits(window, calls, c)
  {
    hide Filter;
    assert (calls + [Call(client, now)])[..|calls|] == calls;
  }

  class RateLimiterState {
    const window: int
    const limit: int
    var hits: map<string, seq<real>>
    ghost var calls: seq<Call>

    ghost predicate Valid() reads this {
      forall c :: (if c in hits then hits[c] else []) == Hits(window, calls, c)
    }

    constructor (window: int, limit: int)
      ensures Valid() && calls == [] && this.window == window && this.limit == limit
    {
      this.window, this.limit := window, limit;
      hits := map[];
      calls := [];
    }

    method Check(client: string, now: real) returns (ok: bool)
      requires Valid()
      modifies this
      ensures Valid() && calls == old(calls) + [Call(client, now)]
      ensures ok == Allowed(window, limit, calls)
    {
      hide Filter, Hits;
      var known := if client in hits then hits[client] else [];
      var recent := Prune(known, now - window as real);
      recent := recent + [now];
      hits := hits[client := recent];
      ghost var before := calls;
      calls := calls + [Call(client, now)];
      HitsStep(window, before, client, now);
      ok := |recent| <= limit;
    }
  }

  /** `[t for t in known if t >= start]`. */
  method Prune(known: seq<real>, start: real) returns (recent: seq<real>)
    ensures recent == Filter(AtLeast(start), known)
  {
    recent := [];
    var i := 0;
    while i < |known|
      invariant i <= |known| && recent == Filter(AtLeast(start), known[..i])
    {
      assert known[..i + 1][..i] == known[..i];
      if known[i] >= start {
        recent := recent + [known[i]];
      }
      i := i + 1;
    }
    assert known[..i] == known;
  }

  // ---- The history ----

  ghost predicate NonDecreasing(calls: seq<Call>) {
    forall i, j :: 0 <= i < j < |calls| ==> calls[i].time <= calls[j].time
  }

  /** All call times of a client. */
  function Times(calls: seq<Call>, client: string): seq<real> {
    if calls == [] then []
    else
      var last := calls[|calls| - 1];
      Times(calls[..|calls| - 1], client) + if last.client == client then [last.time] else []
  }

  lemma {:induction false} FilterTwice(low: real, high: real, s: seq<real>)
    requires low <= high
    ensures Filter(AtLeast(high), Filter(AtLeast(low), s)) == Filter(AtLeast(high), s)
  {
    if s != [] {
      var front, last := s[..|s| - 1], s[|s| - 1];
      FilterTwice(low, high, front);
      var kept := Filter(AtLeast(low), front);
      assert (kept + [last])[..|kept|] == kept;
      assert kept + [] == kept && Filter(AtLeast(high), front) + [] == Filter(AtLeast(high), front);
    }
  }

  lemma FilterSnoc(bound: real, s: seq<real>, t: real)
    ensures Filter(AtLeast(bound), s + [t]) == Filter(AtLeast(bound), s) + if t >= bound then [t] else []
  {
    assert (s + [t])[..|s|] == s;
  }

  lemma {:induction false} TimesBelow(calls: seq<Call>, client: string, bound: real)
    requires forall i :: 0 <= i < |calls| ==> calls[i].time <= bound
    ensures forall t :: t in Times(calls, client) ==> t <= bound
  {
    if calls != [] {
      TimesBelow(calls[..|calls| - 1], client, bound);
    }
  }

  /** The part of a history that lies in the window of its last entry. */
  function Windowed(window: int, all: seq<real>): seq<real> {
    if all == [] then [] else Filter(AtLeast(all[|all| - 1] - window as real), all)
  }

  lemma WindowedSnoc(window: int, all: seq<real>, t: real)
    requires window >= 0 && forall x :: x in all ==> x <= t
    ensures Windowed(window, all + [t]) == Filter(AtLeast(t - window as real), Windowed(window, all)) + [t]
  {
    hide Filter;
    var bound := t - window as real;
    assert (all + [t])[|all|] == t;
    FilterSnoc(bound, all, t);
    if all == [] {
      assert all + [t] == [t];
    } else {
      assert all[|all| - 1] in all;
      FilterTwice(all[|all| - 1] - window as real, bound, all);
    }
  }

  /** Pruning loses nothing that matters: with a monotonic clock the stored list is
      the client's whole history restricted to the window of its last call. */
  lemma {:induction false} PrunedIsHistory(window: int, calls: seq<Call>, client: string)
    requires window >= 0 && NonDecreasing(calls)
    ensures Hits(window, calls, client) == Windowed(window, Times(calls, client))
  {
    hide Filter, Windowed;
    if calls == [] {
      NoCallsNoHits(window);
    } else {
      var front, last := calls[..|calls| - 1], calls[|calls| - 1];
      PrunedIsHistory(window, front, client);
      var all := Times(front, client);
      assert all + [] == all;
      if last.client == client {
        TimesBelow(front, client, last.time);
        WindowedSnoc(window, all, last.time);
      }
    }
  }

  lemma NoCallsNoHits(window: int)
    ensures Windowed(window, []) == []
  {
  }

  /** How many calls of a client fall in a closed interval of time. */
  function CallsIn(calls: seq<Call>, client: string, low: real, high: real): nat {
    if calls == [] then 0
    else
      var last := calls[|calls| - 1];
      CallsIn(calls[..|calls| - 1], client, low, high) + if last.client == client && low <= last.time <= high then 1
        else 0
  }

  lemma {:induction false} CallsAreTimes(calls: seq<Call>, client: string, low: real, high: real)
    requires forall i :: 0 <= i < |calls| ==> calls[i].time <= high
    ensures CallsIn(calls, client, low, high) == |Filter(AtLeast(low), Times(calls, client))|
  {
    if calls != [] {
      var front, last := calls[..|calls| - 1], calls[|calls| - 1];
      CallsAreTimes(front, client, low, high);
      FilterSnoc(low, Times(front, client), last.time);
      assert Times(front, client) + [] == Times(front, client);
    }
  }

  /** A call is allowed exactly when the client's calls in the window that ends at
      it, refused ones included, are within the limit. */
  lemma AllowedIff(window: int, limit: int, calls: seq<Call>)
    requires window >= 0 && NonDecreasing(calls) && calls != []
    ensures var last := calls[|calls| - 1];
      Allowed(window, limit, calls) <==> CallsIn(calls, last.client, last.time - window as real, last.time) <= limit
  {
    hide Filter;
    var last := calls[|calls| - 1];
    PrunedIsHistory(window, calls, last.client);
    CallsAreTimes(calls, last.client, last.time - window as real, last.time);
  }

  /** How many allowed calls of a client fall in a closed interval. */
  function AllowedIn(window: int, limit: int, calls: seq<Call>, client: string, low: real, high: real): nat {
    if calls == [] then 0
    else
      var last := calls[|calls| - 1];
      AllowedIn(window, limit, calls[..|calls| - 1], client, low, high)
      + if last.client == client && low <= last.time <= high && Allowed(window, limit, calls) then 1 else 0
  }

  lemma {:induction false} AllowedAreCalls(window: int, limit: int, calls: seq<Call>, client: string, low: real,
                                           high: real, from: real, to: real)
    requires from <= low && forall i :: 0 <= i < |calls| ==> calls[i].time <= to
    ensures AllowedIn(window, limit, calls, client, low, high) <= CallsIn(calls, client, from, to)
  {
    if calls != [] {
      AllowedAreCalls(window, limit, calls[..|calls| - 1], client, low, high, from, to);
    }
  }

  /** No interval of the window's length holds more allowed calls of one client than
      the limit, whatever other clients do; without a positive limit none is
      allowed at all. */
  lemma {:induction false} AtMostLimit(window: int, limit: int, calls: seq<Call>, client: string, low: real)
    requires window >= 0 && NonDecreasing(calls)
    ensures AllowedIn(window, limit, calls, client, low, low + window as real) <= if limit > 0 then limit else 0
  {
    if calls != [] {
      var front, last := calls[..|calls| - 1], calls[|calls| - 1];
      var high := low + window as real;
      AtMostLimit(window, limit, front, client, low);
      if last.client == client && low <= last.time <= high && Allowed(window, limit, calls) {
        AllowedIff(window, limit, calls);
        AllowedAreCalls(window, limit, calls, client, low, high, last.time - window as real, last.time);
      }
    }
  }

  function CallsOf(calls: seq<Call>, client: string): seq<Call> {
    Filter((c: Call) => c.client == client, calls)
  }

  /** Clients do not affect each other: a client's list is that of its own calls
      alone. */
  lemma {:induction false} ClientsAreIndependent(window: int, calls: seq<Call>, client: string)
    ensures Hits(window, calls, client) == Hits(window, CallsOf(calls, client), client)
  {
    if calls != [] {
      var front, last := calls[..|calls| - 1], calls[|calls| - 1];
      ClientsAreIndependent(window, front, client);
      var mine := CallsOf(front, client);
      assert (mine + [last])[..|mine|] == mine && mine + [] == mine;
    }
  }
}

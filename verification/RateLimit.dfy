// The sliding-window rate limiter, against a limiter that never forgets.
module RateLimit {
  import opened Common

  // ---------- What the limiter stores ----------

  type Buckets = map<string, seq<Time>>

  function Bucket(b: Buckets, key: string): seq<Time> {
    if key in b then b[key] else []
  }

  // A bucket without its leading timestamps before the cutoff
  function Evict(ts: seq<Time>, cutoff: Time): (r: seq<Time>)
    ensures |r| <= |ts|
  {
    if ts != [] && ts[0] < cutoff then Evict(ts[1..], cutoff) else ts
  }

  predicate Idle(ts: seq<Time>, cutoff: Time) {
    ts == [] || ts[|ts| - 1] < cutoff
  }

  datatype Config = Config(limit: int, window: int)

  datatype Event = Request(key: string, now: Time) | Cleanup(now: Time)

  function Allow(c: Config, b: Buckets, key: string, now: Time): (Buckets, bool) {
    var live := Evict(Bucket(b, key), now - c.window);
    if |live| >= c.limit then (b[key := live], false) else (b[key := live + [now]], true)
  }

  function Sweep(c: Config, b: Buckets, now: Time): Buckets {
    map key | key in b && !Idle(b[key], now - c.window) :: b[key]
  }

  function Next(c: Config, b: Buckets, e: Event): Buckets {
    match e
    case Request(key, now) => Allow(c, b, key, now).0
    case Cleanup(now) => Sweep(c, b, now)
  }

  function Run(c: Config, events: seq<Event>): Buckets
    decreases |events|
  {
    if events == [] then map[] else Next(c, Run(c, events[..|events| - 1]), events[|events| - 1])
  }

  // ---------- The limiter that never forgets ----------

  // How many grants lie at or after the cutoff
  function Since(grants: seq<Time>, cutoff: Time): nat
    decreases |grants|
  {
    if grants == [] then 0
    else Since(grants[..|grants| - 1], cutoff) + if grants[|grants| - 1] >= cutoff then 1 else 0
  }

  predicate Granted(c: Config, h: Buckets, key: string, now: Time) {
    Since(Bucket(h, key), now - c.window) < c.limit
  }

  function Record(c: Config, h: Buckets, e: Event): Buckets {
    match e
    case Request(key, now) => if Granted(c, h, key, now) then h[key := Bucket(h, key) + [now]] else h
    case Cleanup(_) => h
  }

  function History(c: Config, events: seq<Event>): Buckets
    decreases |events|
  {
    if events == [] then map[] else Record(c, History(c, events[..|events| - 1]), events[|events| - 1])
  }

  predicate Monotone(events: seq<Event>) {
    forall i, j :: 0 <= i < j < |events| ==> events[i].now <= events[j].now
  }

  // ---------- The invariant ----------

  predicate Sorted(ts: seq<Time>) {
    forall i, j :: 0 <= i < j < |ts| ==> ts[i] <= ts[j]
  }

  predicate IsTail(tail: seq<Time>, all: seq<Time>) {
    |tail| <= |all| && forall i :: 0 <= i < |tail| ==> tail[i] == all[|all| - |tail| + i]
  }

  // A bucket holds the end of the grants of its key, and whatever it lacks is out of the window.
  predicate Represents(c: Config, bucket: seq<Time>, grants: seq<Time>, now: Time) {
    && IsTail(bucket, grants)
    && (forall i :: 0 <= i < |grants| - |bucket| ==> grants[i] < now - c.window)
  }

  // Any two grants that are limit apart are more than a window apart.
  predicate Spread(c: Config, grants: seq<Time>) {
    && (c.limit <= 0 ==> grants == [])
    && (forall i, j :: 0 <= i && 0 < c.limit && i + c.limit <= j < |grants| ==> grants[j] - grants[i] > c.window)
  }

  predicate KeyInv(c: Config, bucket: seq<Time>, grants: seq<Time>, now: Time) {
    && Represents(c, bucket, grants, now)
    && Sorted(grants)
    && (forall i :: 0 <= i < |grants| ==> grants[i] <= now)
    && Spread(c, grants)
  }

  ghost predicate Inv(c: Config, b: Buckets, h: Buckets, now: Time) {
    forall key :: KeyInv(c, Bucket(b, key), Bucket(h, key), now)
  }

  // ---------- Counting in sorted lists ----------

  lemma {:induction false} SinceSplit(ts: seq<Time>, cutoff: Time, k: nat)
    requires k <= |ts|
    requires forall i :: 0 <= i < k ==> ts[i] < cutoff
    requires forall i :: k <= i < |ts| ==> ts[i] >= cutoff
    ensures Since(ts, cutoff) == |ts| - k
    decreases |ts|
  {
    if ts != [] {
      var init := ts[..|ts| - 1];
      SinceSplit(init, cutoff, if k == |ts| then k - 1 else k);
    }
  }

  // Eviction cuts a sorted list where the window begins.
  predicate CutAt(ts: seq<Time>, cutoff: Time, k: nat) {
    && k <= |ts|
    && (forall i :: 0 <= i < k ==> ts[i] < cutoff)
    && (forall i :: k <= i < |ts| ==> ts[i] >= cutoff)
  }

  lemma {:induction false} EvictCuts(ts: seq<Time>, cutoff: Time)
    requires Sorted(ts)
    ensures CutAt(ts, cutoff, |ts| - |Evict(ts, cutoff)|)
    ensures IsTail(Evict(ts, cutoff), ts)
    decreases |ts|
  {
    if ts != [] && ts[0] < cutoff {
      var rest := ts[1..];
      assert forall i :: 0 <= i < |rest| ==> rest[i] == ts[i + 1];
      EvictCuts(rest, cutoff);
      CutOneMore(ts, cutoff, |rest| - |Evict(rest, cutoff)|);
    }
  }

  lemma {:induction false} CutOneMore(ts: seq<Time>, cutoff: Time, k: nat)
    requires ts != [] && ts[0] < cutoff && CutAt(ts[1..], cutoff, k)
    ensures CutAt(ts, cutoff, k + 1)
  {
    forall i | 0 < i < |ts|
      ensures if i < k + 1 then ts[i] < cutoff else ts[i] >= cutoff
    {
      assert ts[1..][i - 1] == ts[i];
    }
  }

  lemma {:induction false} CutWhole(bucket: seq<Time>, grants: seq<Time>, cutoff: Time, k: nat)
    requires IsTail(bucket, grants) && CutAt(bucket, cutoff, k)
    requires forall i :: 0 <= i < |grants| - |bucket| ==> grants[i] < cutoff
    ensures CutAt(grants, cutoff, |grants| - |bucket| + k)
  {
    var off := |grants| - |bucket|;
    forall i | off <= i < |grants|
      ensures if i < off + k then grants[i] < cutoff else grants[i] >= cutoff
    {
      assert bucket[i - off] == grants[i];
    }
  }

  lemma {:induction false} TailOfTail(a: seq<Time>, b: seq<Time>, c: seq<Time>)
    requires IsTail(a, b) && IsTail(b, c)
    ensures IsTail(a, c)
  {
    forall i | 0 <= i < |a|
      ensures a[i] == c[|c| - |a| + i]
    {
      assert a[i] == b[|b| - |a| + i];
    }
  }

  lemma {:induction false} TailSorted(tail: seq<Time>, all: seq<Time>)
    requires IsTail(tail, all) && Sorted(all)
    ensures Sorted(tail)
  {}

  // What eviction leaves is exactly the part of the full history inside the window.
  lemma {:induction false} EvictedBucket(c: Config, bucket: seq<Time>, grants: seq<Time>, before: Time, now: Time)
    requires KeyInv(c, bucket, grants, before) && before <= now
    ensures |Evict(bucket, now - c.window)| == Since(grants, now - c.window)
    ensures Represents(c, Evict(bucket, now - c.window), grants, now)
  {
    hide Evict, Since, IsTail, Sorted, Spread;
    var cutoff := now - c.window;
    var live := Evict(bucket, cutoff);
    TailLength(bucket, grants);
    TailSorted(bucket, grants);
    EvictCuts(bucket, cutoff);
    TailOfTail(live, bucket, grants);
    CutWhole(bucket, grants, cutoff, |bucket| - |live|);
    SinceSplit(grants, cutoff, |grants| - |live|);
  }

  lemma {:induction false} TailLength(tail: seq<Time>, all: seq<Time>)
    requires IsTail(tail, all)
    ensures |tail| <= |all|
  {}

  // ---------- One step ----------

  lemma {:induction false} AllowKey(c: Config, bucket: seq<Time>, grants: seq<Time>, before: Time, now: Time)
    requires KeyInv(c, bucket, grants, before) && before <= now
    ensures var live := Evict(bucket, now - c.window);
            && (|live| < c.limit <==> Since(grants, now - c.window) < c.limit)
            && (|live| >= c.limit ==> KeyInv(c, live, grants, now))
            && (|live| < c.limit ==> KeyInv(c, live + [now], grants + [now], now))
  {
    hide Evict, Since, Spread;
    var live := Evict(bucket, now - c.window);
    EvictedBucket(c, bucket, grants, before, now);
    if |live| < c.limit {
      GrantSpread(c, grants, |live|, now);
    }
  }

  lemma {:induction false} GrantSpread(c: Config, grants: seq<Time>, live: nat, now: Time)
    requires Spread(c, grants) && live <= |grants| && live < c.limit
    requires forall i :: 0 <= i < |grants| - live ==> grants[i] < now - c.window
    ensures Spread(c, grants + [now])
  {
    var more := grants + [now];
    forall i, j | 0 <= i && i + c.limit <= j < |more|
      ensures more[j] - more[i] > c.window
    {
      if j < |grants| {
        assert more[j] == grants[j] && more[i] == grants[i];
      }
    }
  }

  lemma {:induction false} LaterKey(c: Config, bucket: seq<Time>, grants: seq<Time>, before: Time, now: Time)
    requires KeyInv(c, bucket, grants, before) && before <= now
    ensures KeyInv(c, bucket, grants, now)
    ensures Idle(bucket, now - c.window) ==> KeyInv(c, [], grants, now)
  {
    hide Spread;
    if Idle(bucket, now - c.window) && bucket != [] {
      var off := |grants| - |bucket|;
      assert grants[|grants| - 1] == bucket[|bucket| - 1];
    }
  }

  lemma {:induction false} NextKeepsInv(c: Config, b: Buckets, h: Buckets, before: Time, e: Event)
    requires Inv(c, b, h, before) && before <= e.now
    ensures Inv(c, Next(c, b, e), Record(c, h, e), e.now)
    ensures e.Request? ==> Allow(c, b, e.key, e.now).1 == Granted(c, h, e.key, e.now)
  {
    hide KeyInv, Evict, Since, Idle;
    if e.Request? {
      AllowKey(c, Bucket(b, e.key), Bucket(h, e.key), before, e.now);
    }
    forall key
      ensures KeyInv(c, Bucket(Next(c, b, e), key), Bucket(Record(c, h, e), key), e.now)
    {
      LaterKey(c, Bucket(b, key), Bucket(h, key), before, e.now);
      if e.Cleanup? {
        SweptBucket(c, b, key, e.now);
      }
    }
  }

  lemma {:induction false} SweptBucket(c: Config, b: Buckets, key: string, now: Time)
    ensures Bucket(Sweep(c, b, now), key)
         == if Idle(Bucket(b, key), now - c.window) then [] else Bucket(b, key)
  {}

  // ---------- Whole runs ----------

  function LastTime(events: seq<Event>, start: Time): Time {
    if events == [] then start else events[|events| - 1].now
  }

  lemma {:induction false} RunInv(c: Config, events: seq<Event>, start: Time)
    requires Monotone(events) && (events != [] ==> start <= events[0].now)
    ensures Inv(c, Run(c, events), History(c, events), LastTime(events, start))
    decreases |events|
  {
    if events != [] {
      RunInv(c, events[..|events| - 1], start);
      NextKeepsInv(c, Run(c, events[..|events| - 1]), History(c, events[..|events| - 1]),
                   LastTime(events[..|events| - 1], start), events[|events| - 1]);
    }
  }

  lemma {:induction false} SinceIsBetween(grants: seq<Time>, from: Time, to: Time)
    requires forall i :: 0 <= i < |grants| ==> grants[i] <= to
    ensures Since(grants, from) == Between(grants, from, to)
    decreases |grants|
  {
    if grants != [] {
      SinceIsBetween(grants[..|grants| - 1], from, to);
    }
  }

  // A sweep drops exactly the keys whose last grant has left the window, and changes no other.
  lemma {:induction false} SweepExactly(c: Config, b: Buckets, now: Time, key: string)
    ensures key in Sweep(c, b, now) <==> key in b && |b[key]| > 0 && now - b[key][|b[key]| - 1] <= c.window
    ensures key in Sweep(c, b, now) ==> Sweep(c, b, now)[key] == b[key]
  {}

  // A request touches its own key only; a grant is stored as the last timestamp, and a refusal stores none.
  lemma {:induction false} AllowEffect(c: Config, b: Buckets, key: string, now: Time)
    ensures
      var (after, ok) := Allow(c, b, key, now);
      && after.Keys == b.Keys + {key}
      && (forall other :: other in b && other != key ==> after[other] == b[other])
      && (ok ==> 0 < |after[key]| <= c.limit && after[key][|after[key]| - 1] == now)
      && (!ok ==> |after[key]| >= c.limit && |after[key]| <= |Bucket(b, key)|)
  {
    hide Evict;
  }

  // Whatever requests and sweeps came before, the limiter decides as one that kept every grant.
  lemma {:induction false} DecisionsExact(c: Config, events: seq<Event>, key: string, now: Time)
    requires Monotone(events + [Request(key, now)])
    ensures Allow(c, Run(c, events), key, now).1 == Granted(c, History(c, events), key, now)
  {
    var all := events + [Request(key, now)];
    assert forall i :: 0 <= i < |events| ==> all[i] == events[i];
    assert all[|events|] == Request(key, now);
    var start := if events == [] then now else events[0].now;
    RunInv(c, events, start);
    NextKeepsInv(c, Run(c, events), History(c, events), LastTime(events, start), Request(key, now));
  }

  // That is: a request is granted if and only if fewer than limit grants of its key lie in the closed window that
  // ends now.
  lemma {:induction false} DecisionsCounted(c: Config, events: seq<Event>, key: string, now: Time)
    requires Monotone(events + [Request(key, now)])
    ensures Allow(c, Run(c, events), key, now).1 <==>
              Between(Bucket(History(c, events), key), now - c.window, now) < c.limit
  {
    DecisionsExact(c, events, key, now);
    NoFutureGrants(c, events, key, now);
    SinceIsBetween(Bucket(History(c, events), key), now - c.window, now);
  }

  lemma {:induction false} NoFutureGrants(c: Config, events: seq<Event>, key: string, now: Time)
    requires Monotone(events + [Request(key, now)])
    ensures forall i :: 0 <= i < |Bucket(History(c, events), key)| ==> Bucket(History(c, events), key)[i] <= now
  {
    var all := events + [Request(key, now)];
    assert forall i :: 0 <= i < |events| ==> all[i] == events[i];
    assert all[|events|] == Request(key, now);
    var start := if events == [] then now else events[0].now;
    RunInv(c, events, start);
    hide Run, History, Represents, Spread, Sorted, Bucket;
    assert KeyInv(c, Bucket(Run(c, events), key), Bucket(History(c, events), key), LastTime(events, start));
  }

  function WithoutSweeps(events: seq<Event>): seq<Event>
    decreases |events|
  {
    if events == [] then []
    else WithoutSweeps(events[..|events| - 1]) + if events[|events| - 1].Cleanup? then [] else [events[|events| - 1]]
  }

  lemma {:induction false} SweepsLeaveHistory(c: Config, events: seq<Event>)
    ensures History(c, WithoutSweeps(events)) == History(c, events)
    decreases |events|
  {
    if events != [] {
      var init, last := events[..|events| - 1], events[|events| - 1];
      SweepsLeaveHistory(c, init);
      var w := WithoutSweeps(events);
      if last.Cleanup? {
        assert w == WithoutSweeps(init);
      } else {
        assert w[..|w| - 1] == WithoutSweeps(init) && w[|w| - 1] == last;
      }
    }
  }

  lemma {:induction false} WithoutSweepsMonotone(events: seq<Event>)
    requires Monotone(events)
    ensures Monotone(WithoutSweeps(events))
    ensures forall e :: e in WithoutSweeps(events) ==> e in events
    decreases |events|
  {
    if events != [] {
      var init, last := events[..|events| - 1], events[|events| - 1];
      assert forall i :: 0 <= i < |init| ==> init[i] == events[i];
      WithoutSweepsMonotone(init);
      var v, w := WithoutSweeps(init), WithoutSweeps(events);
      forall i | 0 <= i < |v|
        ensures v[i].now <= last.now && v[i] in events
      {
        assert v[i] in init;
      }
      assert forall i :: 0 <= i < |v| ==> w[i] == v[i];
    }
  }

  // Sweeps change no later decision.
  lemma {:induction false} SweepsInvisible(c: Config, events: seq<Event>, key: string, now: Time)
    requires Monotone(events + [Request(key, now)])
    ensures Allow(c, Run(c, events), key, now).1 == Allow(c, Run(c, WithoutSweeps(events)), key, now).1
  {
    var all, w := events + [Request(key, now)], WithoutSweeps(events);
    assert forall i :: 0 <= i < |events| ==> all[i] == events[i];
    assert all[|events|] == Request(key, now);
    WithoutSweepsMonotone(events);
    forall i | 0 <= i < |w|
      ensures w[i].now <= now
    {
      assert w[i] in events;
    }
    SweepsLeaveHistory(c, events);
    DecisionsExact(c, events, key, now);
    DecisionsExact(c, w, key, now);
  }

  // The grants of a key from one time to another, both included
  function Between(grants: seq<Time>, from: Time, to: Time): nat
    decreases |grants|
  {
    if grants == [] then 0
    else Between(grants[..|grants| - 1], from, to) + if from <= grants[|grants| - 1] <= to then 1 else 0
  }

  lemma {:induction false} BetweenAtMost(c: Config, grants: seq<Time>, from: Time, hi: nat, lo: nat)
    requires lo <= hi && CutAt(grants, from, lo) && CutAt(grants, from + c.window + 1, hi)
    ensures Between(grants, from, from + c.window) <= hi - lo
    decreases |grants|
  {
    if grants != [] {
      var n, init := |grants|, grants[..|grants| - 1];
      BetweenAtMost(c, init, from, if hi == n then n - 1 else hi, if lo == n then n - 1 else lo);
    }
  }

  lemma {:induction false} SpreadPair(c: Config, grants: seq<Time>, i: nat)
    requires Spread(c, grants) && 0 < c.limit && i + c.limit < |grants|
    ensures grants[i + c.limit] - grants[i] > c.window
  {}

  lemma {:induction false} RunOfGrants(c: Config, grants: seq<Time>, from: Time, lo: nat, hi: nat)
    requires Spread(c, grants) && Sorted(grants)
    requires CutAt(grants, from, lo) && CutAt(grants, from + c.window + 1, hi)
    ensures Between(grants, from, from + c.window) <= if c.limit > 0 then c.limit else 0
  {
    if c.limit <= 0 {
      assert Between([], from, from + c.window) == 0;
    } else if lo <= hi {
      if hi - lo > c.limit {
        SpreadPair(c, grants, lo);
      }
      BetweenAtMost(c, grants, from, hi, lo);
    } else {
      EmptyInterval(c, grants, from, lo, hi);
    }
  }

  lemma {:induction false} EmptyInterval(c: Config, grants: seq<Time>, from: Time, lo: nat, hi: nat)
    requires hi < lo && CutAt(grants, from, lo) && CutAt(grants, from + c.window + 1, hi)
    ensures Between(grants, from, from + c.window) == 0
  {
    assert from + c.window + 1 <= grants[hi] < from;
    NegativeWindow(c, grants, from);
  }

  lemma {:induction false} NegativeWindow(c: Config, grants: seq<Time>, from: Time)
    requires c.window < 0
    ensures Between(grants, from, from + c.window) == 0
    decreases |grants|
  {
    if grants != [] {
      NegativeWindow(c, grants[..|grants| - 1], from);
    }
  }

  // No closed interval of the window's length holds more than limit grants of one key, and a limit
  // of zero or less grants nothing.
  lemma {:induction false} WindowBound(c: Config, events: seq<Event>, key: string, from: Time)
    requires Monotone(events)
    ensures Between(Bucket(History(c, events), key), from, from + c.window) <= if c.limit > 0 then c.limit else 0
  {
    var start := if events == [] then 0 else events[0].now;
    RunInv(c, events, start);
    var g := Bucket(History(c, events), key);
    assert KeyInv(c, Bucket(Run(c, events), key), g, LastTime(events, start));
    hide Run, History, Represents, Spread, Sorted, CutAt, Evict, Bucket;
    EvictCuts(g, from);
    EvictCuts(g, from + c.window + 1);
    RunOfGrants(c, g, from, |g| - |Evict(g, from)|, |g| - |Evict(g, from + c.window + 1)|);
  }

  // ---------- The object ----------

  class RateLimiter {
    const limit: int
    const window: int
    var buckets: Buckets

    constructor (limit: int, window: int)
      ensures buckets == map[] && this.limit == limit && this.window == window
    {
      this.limit, this.window := limit, window;
      buckets := map[];
    }

    method AllowRequest(key: string, now: Time) returns (ok: bool)
      modifies this
      ensures (buckets, ok) == Allow(Config(limit, window), old(buckets), key, now)
    {
      if key !in buckets {
        buckets := buckets[key := []];
      }
      ghost var stored := buckets;
      var b := buckets[key];
      var cutoff := now - window;
      hide Evict;
      var i := 0;
      assert b[0..] == b;
      while i < |b| && b[i] < cutoff
        invariant i <= |b| && buckets == stored
        invariant Evict(b, cutoff) == Evict(b[i..], cutoff)
      {
        EvictStep(b, i, cutoff);
        i := i + 1;
      }
      EvictStep(b, i, cutoff);
      b := b[i..];
      if |b| >= limit {
        buckets := buckets[key := b];
        assert buckets == old(buckets)[key := b];
        return false;
      }
      buckets := buckets[key := b + [now]];
      assert buckets == old(buckets)[key := b + [now]];
      return true;
    }

    method CleanupSweep(now: Time)
      modifies this
      ensures buckets == Sweep(Config(limit, window), old(buckets), now)
    {
      var cutoff := now - window;
      var todo := buckets.Keys;
      while todo != {}
        invariant todo <= buckets.Keys <= old(buckets).Keys
        invariant forall k :: k in buckets ==> buckets[k] == old(buckets)[k]
        invariant forall k :: k in old(buckets).Keys - todo ==> (k in buckets <==> !Idle(old(buckets)[k], cutoff))
        invariant todo <= old(buckets).Keys
        decreases todo
      {
        var key :| key in todo;
        var b := buckets[key];
        var idle := |b| == 0 || b[|b| - 1] < cutoff;
        if idle {
          buckets := buckets - {key};
        }
        todo := todo - {key};
      }
    }
  }

  lemma {:induction false} EvictStep(ts: seq<Time>, i: nat, cutoff: Time)
    requires i <= |ts|
    ensures i < |ts| && ts[i] < cutoff ==> Evict(ts[i..], cutoff) == Evict(ts[i + 1..], cutoff)
    ensures i == |ts| || ts[i] >= cutoff ==> Evict(ts[i..], cutoff) == ts[i..]
  {
    if i < |ts| {
      assert ts[i..][1..] == ts[i + 1..];
    }
  }
}

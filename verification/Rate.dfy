/**
 The fixed-window rate limiter (daemon/system/rate.go) and the console throttle built on it and on the
 try-lock (daemon/server/console.go). The clock is an input that never goes back.
 */
module Rate {
  import opened Integers
  import opened Sequences
  import L = Locker

  /** The largest limit that a wrapping counter can enforce. */
  const MAX_LIMIT: nat := TWO_64 - 2

  datatype Limiter = Limiter(limit: uint64, duration: int, count: uint64, last: int)

  function Increment(n: uint64): uint64 {
    if n + 1 == TWO_64 then 0 else n + 1
  }

  lemma IncrementWraps(n: uint64)
    ensures Increment(n) == (n + 1) % TWO_64
  {
  }

  /** The limiter once the window that `now` is past has been closed. */
  function Rolled(r: Limiter, now: int): Limiter {
    if now - r.last > r.duration then r.(count := 0, last := now) else r
  }

  function Tried(r: Limiter, now: int): (Limiter, bool) {
    var rolled := Rolled(r, now);
    if Increment(rolled.count) > r.limit then (rolled, false)
    else (rolled.(count := Increment(rolled.count)), true)
  }

  function ResetAt(r: Limiter, now: int): Limiter {
    r.(count := 0, last := now)
  }

  datatype Call = Try(now: int) | Reset(now: int)

  function Next(r: Limiter, c: Call): Limiter {
    if c.Try? then Tried(r, c.now).0 else ResetAt(r, c.now)
  }

  /** The clock never goes back, and starts no earlier than `from`. */
  ghost predicate Clocked(calls: seq<Call>, from: int) {
    && (forall i :: 0 <= i < |calls| ==> from <= calls[i].now)
    && (forall i, j :: 0 <= i < j < |calls| ==> calls[i].now <= calls[j].now)
  }

  predicate Within(c: Call, a: int, b: int) {
    a <= c.now <= b
  }

  /** How many calls to Try succeed in the closed interval from `a` to `b`. */
  ghost function Hits(r: Limiter, calls: seq<Call>, a: int, b: int): nat
    decreases |calls|
  {
    if calls == [] then 0
    else
      (if calls[0].Try? && Within(calls[0], a, b) && Tried(r, calls[0].now).1 then 1 else 0)
      + Hits(Next(r, calls[0]), calls[1..], a, b)
  }

  /** How many calls to Reset fall in the closed interval. */
  ghost function Resets(calls: seq<Call>, a: int, b: int): nat
    decreases |calls|
  {
    if calls == [] then 0
    else (if calls[0].Reset? && Within(calls[0], a, b) then 1 else 0) + Resets(calls[1..], a, b)
  }

  lemma ClockedTail(calls: seq<Call>, from: int)
    requires calls != [] && Clocked(calls, from)
    ensures from <= calls[0].now && Clocked(calls[1..], calls[0].now)
  {
    forall i | 0 <= i < |calls[1..]| ensures calls[0].now <= calls[1..][i].now {
      assert calls[1..][i] == calls[i + 1];
    }
  }

  lemma {:induction false} NothingAfter(r: Limiter, calls: seq<Call>, from: int, a: int, b: int)
    requires Clocked(calls, from) && b < from
    ensures Hits(r, calls, a, b) == 0
    decreases |calls|
  {
    if calls != [] {
      ClockedTail(calls, from);
      NothingAfter(Next(r, calls[0]), calls[1..], calls[0].now, a, b);
    }
  }

  /** What is left of the current window, plus one more window unless this one was opened no earlier than `a`. */
  function Left(r: Limiter, a: int): int {
    r.limit - r.count + (if r.last >= a then 0 else r.limit)
  }

  lemma OneCall(r: Limiter, c: Call, a: int, b: int)
    requires r.count <= r.limit <= MAX_LIMIT && b - a <= r.duration && r.last <= c.now && Within(c, a, b)
    ensures var r' := Next(r, c);
            r'.count <= r'.limit == r.limit && r'.duration == r.duration && r'.last <= c.now
            && (c.Try? ==> (if Tried(r, c.now).1 then 1 else 0) + Left(r', a) <= Left(r, a))
            && (c.Reset? ==> Left(r', a) == r.limit)
  {
  }

  /** Once the clock has entered the interval. */
  lemma {:induction false} HitsInside(r: Limiter, calls: seq<Call>, now: int, a: int, b: int)
    requires r.count <= r.limit <= MAX_LIMIT && b - a <= r.duration
    requires a <= now && r.last <= now && Clocked(calls, now)
    ensures Hits(r, calls, a, b) <= Left(r, a) + Resets(calls, a, b) * r.limit
    decreases |calls|
  {
    MulNat(Resets(calls, a, b), r.limit);
    if calls != [] {
      var c, r' := calls[0], Next(r, calls[0]);
      ClockedTail(calls, now);
      if b < c.now {
        NothingAfter(r', calls[1..], c.now, a, b);
      } else {
        OneCall(r, c, a, b);
        HitsInside(r', calls[1..], c.now, a, b);
        Distribute(Resets(calls[1..], a, b), r.limit);
      }
    }
  }

  lemma {:induction false} HitsFrom(r: Limiter, calls: seq<Call>, now: int, a: int, b: int)
    requires r.count <= r.limit <= MAX_LIMIT && b - a <= r.duration && r.last <= now && Clocked(calls, now)
    ensures Hits(r, calls, a, b) <= 2 * r.limit + Resets(calls, a, b) * r.limit
    decreases |calls|
  {
    MulNat(Resets(calls, a, b), r.limit);
    if calls != [] {
      ClockedTail(calls, now);
      var c := calls[0];
      if c.now < a {
        HitsFrom(Next(r, c), calls[1..], c.now, a, b);
      } else {
        ClockedFrom(calls, c.now);
        HitsInside(r, calls, c.now, a, b);
      }
    }
  }

  lemma ClockedFrom(calls: seq<Call>, from: int)
    requires calls != [] && Clocked(calls, from)
    ensures Clocked(calls, calls[0].now)
  {
  }

  lemma MulNat(x: nat, y: nat)
    ensures x * y >= 0
  {
  }

  lemma Distribute(x: int, y: int)
    ensures (x + 1) * y == x * y + y
  {
  }

  /** In any closed interval no longer than the duration, at most (2 + r) * limit calls succeed,
      where r is the number of resets in it; every limit below 2^64 - 1, every clock, every run. */
  lemma WindowBound(limit: uint64, duration: int, start: int, calls: seq<Call>, a: int, b: int)
    requires limit <= MAX_LIMIT && b - a <= duration && Clocked(calls, start)
    ensures Hits(Limiter(limit, duration, 0, start), calls, a, b) <= (2 + Resets(calls, a, b)) * limit
  {
    HitsFrom(Limiter(limit, duration, 0, start), calls, start, a, b);
    Distribute(Resets(calls, a, b), limit);
    Distribute(Resets(calls, a, b) + 1, limit);
  }

  /** `n` calls to Try at one moment. */
  function Burst(now: int, n: nat): (calls: seq<Call>)
    ensures |calls| == n && forall i :: 0 <= i < n ==> calls[i] == Try(now)
  {
    if n == 0 then [] else [Try(now)] + Burst(now, n - 1)
  }

  lemma {:induction false} BurstHits(r: Limiter, now: int, n: nat, rest: seq<Call>, a: int, b: int)
    requires r.limit <= MAX_LIMIT && a <= now <= b && now - r.last <= r.duration && r.count + n <= r.limit
    ensures Hits(r, Burst(now, n) + rest, a, b) == n + Hits(r.(count := r.count + n), rest, a, b)
    decreases n
  {
    if n == 0 {
      assert Burst(now, n) + rest == rest;
    } else {
      var calls := Burst(now, n) + rest;
      assert calls[0] == Try(now) && calls[1..] == Burst(now, n - 1) + rest;
      BurstHits(r.(count := r.count + 1), now, n - 1, rest, a, b);
    }
  }

  lemma {:induction false} RefusedHits(r: Limiter, now: int, n: nat, rest: seq<Call>, a: int, b: int)
    requires r.limit <= MAX_LIMIT && now - r.last <= r.duration && r.count == r.limit
    ensures Hits(r, Burst(now, n) + rest, a, b) == Hits(r, rest, a, b)
    decreases n
  {
    if n == 0 {
      assert Burst(now, n) + rest == rest;
    } else {
      var calls := Burst(now, n) + rest;
      assert calls[0] == Try(now) && calls[1..] == Burst(now, n - 1) + rest;
      RefusedHits(r, now, n - 1, rest, a, b);
    }
  }

  /** How many more calls the window allows. */
  function Room(r: Limiter): int {
    r.limit - r.count
  }

  lemma BurstInWindow(r: Limiter, now: int, n: nat, rest: seq<Call>, a: int, b: int)
    requires r.count <= r.limit <= MAX_LIMIT && a <= now <= b && now - r.last <= r.duration
    ensures var k := Least(n, Room(r));
            Hits(r, Burst(now, n) + rest, a, b) == k + Hits(r.(count := r.count + k), rest, a, b)
  {
    if n <= Room(r) {
      BurstHits(r, now, n, rest, a, b);
    } else {
      BurstFills(r, now, Room(r), n - Room(r), rest, a, b);
    }
  }

  /** A burst that fills the window and goes on. */
  lemma BurstFills(r: Limiter, now: int, m: nat, n: nat, rest: seq<Call>, a: int, b: int)
    requires r.count <= r.limit <= MAX_LIMIT && a <= now <= b && now - r.last <= r.duration && m == Room(r)
    ensures Hits(r, Burst(now, m + n) + rest, a, b) == m + Hits(r.(count := r.limit), rest, a, b)
  {
    var refused := Burst(now, n) + rest;
    BurstSplits(now, m, n);
    assert Burst(now, m + n) + rest == Burst(now, m) + refused;
    BurstHits(r, now, m, refused, a, b);
    RefusedHits(r.(count := r.limit), now, n, rest, a, b);
  }

  lemma BurstSplits(now: int, m: nat, n: nat)
    ensures Burst(now, m + n) == Burst(now, m) + Burst(now, n)
  {
  }

  /** A call more than a duration after the window was opened opens a new one; any earlier call does not. */
  lemma BurstAnew(r: Limiter, now: int, n: nat, rest: seq<Call>, a: int, b: int)
    requires r.count <= r.limit <= MAX_LIMIT && 0 <= r.duration && a <= now <= b && now - r.last > r.duration && n > 0
    ensures var k := Least(n, r.limit);
            Hits(r, Burst(now, n) + rest, a, b) == k + Hits(r.(count := k, last := now), rest, a, b)
  {
    var calls := Burst(now, n) + rest;
    var anew := r.(count := 0, last := now);
    assert calls[0] == Try(now);
    SameHits(r, anew, calls, a, b);
    BurstInWindow(anew, now, n, rest, a, b);
  }

  lemma SameHits(r: Limiter, q: Limiter, calls: seq<Call>, a: int, b: int)
    requires calls != [] && calls[0].Try? && Tried(r, calls[0].now) == Tried(q, calls[0].now)
    ensures Hits(r, calls, a, b) == Hits(q, calls, a, b)
  {
  }

  /** Exactly how many calls succeed: of a burst when the window has room for so many, of one more than a duration
      after the window was opened as many as the limit, and of a second one what the first has left, unless it
      comes more than a duration after the first. */
  lemma TwoBursts(r: Limiter, now: int, later: int, m: nat, n: nat)
    requires r.count <= r.limit <= MAX_LIMIT && 0 <= r.duration && r.last <= now <= later && m > 0
    ensures var room := if now - r.last > r.duration then r.limit else Room(r);
            var since := if now - r.last > r.duration then now else r.last;
            Hits(r, Burst(now, m) + Burst(later, n), now, later)
            == Least(m, room) + Least(n, if later - since > r.duration then r.limit else room - Least(m, room))
  {
    var second := Burst(later, n);
    assert second + [] == second;
    var next: Limiter;
    if now - r.last > r.duration {
      BurstAnew(r, now, m, second, now, later);
      next := r.(count := Least(m, r.limit), last := now);
    } else {
      BurstInWindow(r, now, m, second, now, later);
      next := r.(count := r.count + Least(m, Room(r)));
    }
    if n == 0 {
      assert second == [];
    } else if later - next.last > r.duration {
      BurstAnew(next, later, n, [], now, later);
    } else {
      BurstInWindow(next, later, n, [], now, later);
    }
  }

  /** After a reset the whole limit is there again, in a window that begins with the reset. */
  lemma BurstsAfterReset(r: Limiter, start: int, now: int, later: int, m: nat, n: nat)
    requires r.limit <= MAX_LIMIT && 0 <= r.duration && start <= now <= later && m > 0
    ensures var since := if now - start > r.duration then now else start;
            Hits(r, [Reset(start)] + (Burst(now, m) + Burst(later, n)), now, later)
            == Least(m, r.limit) + Least(n, if later - since > r.duration then r.limit else r.limit - Least(m, r.limit))
  {
    var calls := [Reset(start)] + (Burst(now, m) + Burst(later, n));
    assert calls[1..] == Burst(now, m) + Burst(later, n);
    TwoBursts(ResetAt(r, start), now, later, m, n);
  }

  /** `r` times a reset and a full burst behind it, all at one moment. */
  function Rounds(now: int, limit: nat, r: nat): (calls: seq<Call>)
    ensures forall i :: 0 <= i < |calls| ==> calls[i].now == now
  {
    if r == 0 then [] else [Reset(now)] + (Burst(now, limit) + Rounds(now, limit, r - 1))
  }

  lemma {:induction false} BurstResets(now: int, n: nat, rest: seq<Call>, a: int, b: int)
    ensures Resets(Burst(now, n) + rest, a, b) == Resets(rest, a, b)
    decreases n
  {
    if n == 0 {
      assert Burst(now, n) + rest == rest;
    } else {
      var calls := Burst(now, n) + rest;
      assert calls[0] == Try(now) && calls[1..] == Burst(now, n - 1) + rest;
      BurstResets(now, n - 1, rest, a, b);
    }
  }

  lemma {:induction false} RoundsHit(l: Limiter, now: int, r: nat, a: int, b: int)
    requires l.limit <= MAX_LIMIT && 0 <= l.duration && a <= now <= b
    ensures Hits(l, Rounds(now, l.limit, r), a, b) == r * l.limit && Resets(Rounds(now, l.limit, r), a, b) == r
    decreases r
  {
    if r > 0 {
      var rest := Burst(now, l.limit) + Rounds(now, l.limit, r - 1);
      var calls := Rounds(now, l.limit, r);
      assert calls[0] == Reset(now) && calls[1..] == rest;
      var anew := ResetAt(l, now);
      BurstHits(anew, now, l.limit, Rounds(now, l.limit, r - 1), a, b);
      BurstResets(now, l.limit, Rounds(now, l.limit, r - 1), a, b);
      RoundsHit(anew.(count := l.limit), now, r - 1, a, b);
      Distribute(r - 1, l.limit);
    }
  }

  /** A full burst at the end of one window, another at the start of the next, and one more behind each
      of `r` resets. */
  function Densest(limit: nat, duration: nat, start: int, r: nat): seq<Call> {
    var now := start + duration + 1;
    Burst(now - 1, limit) + (Burst(now, limit) + Rounds(now, limit, r))
  }

  lemma DensestIsClocked(limit: nat, duration: nat, start: int, r: nat)
    ensures Clocked(Densest(limit, duration, start, r), start)
  {
  }

  /** The bound is attained for every number of resets. */
  lemma BoundIsTight(limit: uint64, duration: nat, start: int, r: nat)
    requires 0 < limit <= MAX_LIMIT && 0 < duration
    ensures var calls, a := Densest(limit, duration, start, r), start + duration;
            && Clocked(calls, start) && Resets(calls, a, a + 1) == r
            && Hits(Limiter(limit, duration, 0, start), calls, a, a + 1) == (2 + r) * limit
  {
    var a := start + duration;
    var l := Limiter(limit, duration, 0, start);
    DensestIsClocked(limit, duration, start, r);
    var rounds := Rounds(a + 1, limit, r);
    var second := Burst(a + 1, limit) + rounds;
    BurstResets(a, limit, second, a, a + 1);
    BurstResets(a + 1, limit, rounds, a, a + 1);
    BurstHits(l, a, limit, second, a, a + 1);
    SecondBurst(l.(count := limit), rounds, a);
    RoundsHit(Limiter(limit, duration, limit, a + 1), a + 1, r, a, a + 1);
    Distribute(r, limit);
    Distribute(r + 1, limit);
  }

  /** A burst in a new window closes the one before. */
  lemma SecondBurst(full: Limiter, rest: seq<Call>, a: int)
    requires 0 < full.limit <= MAX_LIMIT && 0 < full.duration && a + 1 - full.last > full.duration
    ensures Hits(full, Burst(a + 1, full.limit) + rest, a, a + 1)
            == full.limit + Hits(full.(count := full.limit, last := a + 1), rest, a, a + 1)
  {
    var n := full.limit;
    var calls := Burst(a + 1, n) + rest;
    assert calls[0] == Try(a + 1) && calls[1..] == Burst(a + 1, n - 1) + rest;
    var next := full.(count := 1, last := a + 1);
    assert Next(full, calls[0]) == next;
    BurstHits(next, a + 1, n - 1, rest, a, a + 1);
  }

  /** With the limit 2^64 - 1 the counter wraps around before it can exceed the limit: nothing is ever
      refused. */
  lemma {:induction false} LargestLimitRefusesNothing(r: Limiter, now: int, n: nat)
    requires r.limit == TWO_64 - 1
    ensures Hits(r, Burst(now, n), now, now) == n
    decreases n
  {
    if n != 0 {
      assert Burst(now, n)[1..] == Burst(now, n - 1);
      LargestLimitRefusesNothing(Tried(r, now).0, now, n - 1);
    }
  }

  ghost predicate WithinBound(limit: uint64, duration: int, start: int, calls: seq<Call>, a: int, b: int) {
    Hits(Limiter(limit, duration, 0, start), calls, a, b) <= (2 + Resets(calls, a, b)) * limit
  }

  /** The bound holds for every duration, clock, run and interval. */
  ghost predicate AlwaysBounded(limit: uint64) {
    forall duration, start, calls, a, b :: b - a <= duration && Clocked(calls, start) ==>
      WithinBound(limit, duration, start, calls, a, b)
  }

  /** That is so if and only if the limit is below 2^64 - 1. */
  lemma BoundedExactly(limit: uint64)
    ensures AlwaysBounded(limit) <==> limit <= MAX_LIMIT
  {
    if limit <= MAX_LIMIT {
      forall duration, start, calls, a, b | b - a <= duration && Clocked(calls, start)
        ensures WithinBound(limit, duration, start, calls, a, b)
      {
        WindowBound(limit, duration, start, calls, a, b);
      }
    } else {
      var n: nat := 2 * limit + 1;
      var calls := Burst(0, n);
      LargestLimitRefusesNothing(Limiter(limit, 0, 0, 0), 0, n);
      BurstResets(0, n, [], 0, 0);
      assert calls + [] == calls;
      assert !WithinBound(limit, 0, 0, calls, 0, 0);
    }
  }

  // ---------------------------------------------------------------------------
  // The console throttle
  // ---------------------------------------------------------------------------

  /** What one call to Allow did. */
  datatype Outcome = Outcome(allowed: bool, struck: bool)

  datatype Throttle = Throttle(limit: Limiter, lock: L.Channel)

  function Allowed(t: Throttle, now: int): (Throttle, Outcome) {
    var (limit, ok) := Tried(t.limit, now);
    if ok then (Throttle(limit, L.Released(t.lock)), Outcome(true, false))
    else
      var (lock, taken) := L.Acquired(t.lock);
      (Throttle(limit, lock), Outcome(false, taken))
  }

  /** The outcomes of the calls to Allow in a run of calls to Allow (Try) and Reset. */
  function Outcomes(t: Throttle, calls: seq<Call>): seq<Outcome>
    decreases |calls|
  {
    if calls == [] then []
    else match calls[0]
      case Reset(now) => Outcomes(t.(limit := ResetAt(t.limit, now)), calls[1..])
      case Try(now) =>
        var (t', o) := Allowed(t, now);
        [o] + Outcomes(t', calls[1..])
  }

  /** Whether the call to Allow before the `i`th one was refused. */
  ghost predicate RefusedBefore(os: seq<Outcome>, i: nat, before: bool)
    requires i <= |os|
  {
    if i == 0 then before else !os[i - 1].allowed
  }

  /** The strike fires exactly at the first call of each run of refused calls. */
  ghost predicate StrikesOncePerRun(os: seq<Outcome>, before: bool) {
    forall i :: 0 <= i < |os| ==> (os[i].struck <==> !os[i].allowed && !RefusedBefore(os, i, before))
  }

  lemma {:induction false} StrikesFrom(t: Throttle, calls: seq<Call>)
    requires t.lock.Open?
    ensures StrikesOncePerRun(Outcomes(t, calls), t.lock.full)
    decreases |calls|
  {
    if calls != [] {
      match calls[0]
      case Reset(now) =>
        var t' := t.(limit := ResetAt(t.limit, now));
        StrikesFrom(t', calls[1..]);
        assert Outcomes(t, calls) == Outcomes(t', calls[1..]);
      case Try(now) =>
        var (t', o) := Allowed(t, now);
        StrikesFrom(t', calls[1..]);
        var os, rest := Outcomes(t, calls), Outcomes(t', calls[1..]);
        assert os == [o] + rest && t'.lock.full == !o.allowed;
        forall i | 0 <= i < |os|
          ensures os[i].struck <==> !os[i].allowed && !RefusedBefore(os, i, t.lock.full)
        {
          if i > 0 {
            assert os[i] == rest[i - 1] && RefusedBefore(os, i, t.lock.full) == RefusedBefore(rest, i - 1, t'.lock.full);
          }
        }
    }
  }

  /** From a new throttle, whatever the limit, the clock and the resets: one strike for each maximal run
      of refused calls, at its first call. */
  lemma ThrottleStrikesOncePerRun(limit: Limiter, calls: seq<Call>)
    ensures StrikesOncePerRun(Outcomes(Throttle(limit, L.Open(false)), calls), false)
  {
    StrikesFrom(Throttle(limit, L.Open(false)), calls);
  }

  /** What the limiter answers to the calls to Try in a run. */
  function Answers(r: Limiter, calls: seq<Call>): seq<bool>
    decreases |calls|
  {
    if calls == [] then []
    else (if calls[0].Try? then [Tried(r, calls[0].now).1] else []) + Answers(Next(r, calls[0]), calls[1..])
  }

  /** The throttle allows exactly what its limiter does. */
  lemma {:induction false} AllowedExactlyAsLimited(t: Throttle, calls: seq<Call>)
    ensures var os, answers := Outcomes(t, calls), Answers(t.limit, calls);
            |os| == |answers| && forall i :: 0 <= i < |os| ==> os[i].allowed == answers[i]
    decreases |calls|
  {
    if calls != [] {
      match calls[0]
      case Reset(now) =>
        AllowedExactlyAsLimited(t.(limit := ResetAt(t.limit, now)), calls[1..]);
        assert Answers(t.limit, calls) == Answers(ResetAt(t.limit, now), calls[1..]);
      case Try(now) =>
        AllowedExactlyAsLimited(Allowed(t, now).0, calls[1..]);
    }
  }

  // ---------------------------------------------------------------------------
  // The mutable limiter and throttle
  // ---------------------------------------------------------------------------

  class Rate {
    const limit: uint64
    const duration: int
    var count: uint64
    var last: int

    constructor (limit: uint64, duration: int, now: int)
      ensures View() == Limiter(limit, duration, 0, now)
    {
      this.limit, this.duration := limit, duration;
      count, last := 0, now;
    }

    ghost function View(): Limiter
      reads this
    {
      Limiter(limit, duration, count, last)
    }

    method Try(now: int) returns (ok: bool)
      modifies this
      ensures (View(), ok) == Tried(old(View()), now)
    {
      if now - last > duration {
        count := 0;
        last := now;
      }
      if Increment(count) > limit {
        return false;
      }
      count := Increment(count);
      return true;
    }

    method Reset(now: int)
      modifies this
      ensures View() == ResetAt(old(View()), now)
    {
      count := 0;
      last := now;
    }
  }

  class ConsoleThrottle {
    const limit: Rate
    const lock: L.Locker

    constructor (lines: uint64, period: int, now: int)
      ensures fresh(limit) && fresh(lock)
      ensures View() == Throttle(Limiter(lines, period, 0, now), L.Open(false))
    {
      limit := new Rate(lines, period, now);
      lock := new L.Locker();
    }

    ghost function View(): Throttle
      reads limit, lock
    {
      Throttle(limit.View(), lock.ch)
    }

    /** `struck` says that the strike callback was called. */
    method Allow(now: int) returns (allowed: bool, struck: bool)
      modifies limit, lock
      ensures (View(), Outcome(allowed, struck)) == Allowed(old(View()), now)
    {
      var ok := limit.Try(now);
      if !ok {
        struck := lock.Acquire();
        return false, struck;
      }
      lock.Release();
      return true, false;
    }

    method Reset(now: int)
      modifies limit
      ensures View() == old(View()).(limit := ResetAt(old(limit.View()), now))
    {
      limit.Reset(now);
    }
  }
}

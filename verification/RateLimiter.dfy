/**
 The fixed-window rate limiter: the Lua script Redis runs atomically for each check, and how
 many requests it lets through in any stretch of time. Times are in milliseconds.
 */
module RateLimiter {
  import opened Options

  /** A counter key; `deadline` is when Redis drops it, `None` for a key without expiry. */
  datatype Counter = Counter(count: int, deadline: Option<int>)

  type Slot = Option<Counter>

  /** `requests` and `windowSeconds`; configuration loading refuses anything that is not positive. */
  datatype Config = Config(requests: int, windowSeconds: int) {
    predicate Valid() { requests >= 1 && windowSeconds >= 1 }

    function WindowMs(): int { windowSeconds * 1000 }
  }

  datatype CheckStatus = Allowed | Limited | Error

  datatype Result = Result(status: CheckStatus, retryAfterSeconds: int)

  /** How far a check gets: no effect, effect without a usable reply, effect and reply. */
  datatype Fate = Unreached | ReplyLost | Replied

  datatype Call = Call(now: int, fate: Fate)

  // ---------------------------------------------------------------------------------------
  // The script.

  /** A key is gone once the clock has passed its deadline. */
  function Live(slot: Slot, now: int): Slot {
    if slot.Some? && slot.value.deadline.Some? && slot.value.deadline.value < now then None else slot
  }

  function Max(a: int, b: int): int { if a < b then b else a }

  /** Seconds left, rounded to the nearest; negative for a key without expiry. */
  function TtlOf(c: Counter, now: int): int {
    if c.deadline.None? then -1 else (c.deadline.value - now + 500) / 1000
  }

  /** The counter a check leaves: one more, with the old deadline unless the count starts or has none. */
  function Counted(slot: Slot, now: int, windowMs: int): Counter {
    match Live(slot, now)
    case None => Counter(1, Some(now + windowMs))
    case Some(c) =>
      Counter(c.count + 1, if c.count == 0 || c.deadline.None? then Some(now + windowMs) else c.deadline)
  }

  class RedisKeys {
    var keys: map<string, Counter>

    constructor (initial: map<string, Counter>)
      ensures keys == initial
    {
      keys := initial;
    }

    function At(key: string): Slot
      reads this
    {
      if key in keys then Some(keys[key]) else None
    }

    method Increment(key: string, now: int) returns (current: int)
      modifies this
      ensures var before := Live(old(At(key)), now);
              var c := if before.Some? then before.value else Counter(0, None);
              keys == old(keys)[key := c.(count := c.count + 1)] && current == c.count + 1
    {
      var slot := Live(At(key), now);
      var c := if slot.Some? then slot.value else Counter(0, None);
      keys := keys[key := c.(count := c.count + 1)];
      return c.count + 1;
    }

    method Expire(key: string, now: int, seconds: int)
      requires key in keys
      modifies this
      ensures keys == old(keys)[key := old(keys)[key].(deadline := Some(now + seconds * 1000))]
    {
      keys := keys[key := keys[key].(deadline := Some(now + seconds * 1000))];
    }

    /** The fixed-window script, one atomic step for Redis. */
    method FixedWindow(key: string, now: int, config: Config) returns (allowed: int, ttl: int)
      requires config.Valid()
      modifies this
      ensures keys == old(keys)[key := Counted(old(At(key)), now, config.WindowMs())]
      ensures allowed == (if keys[key].count <= config.requests then 1 else 0)
      ensures ttl == TtlOf(keys[key], now)
    {
      var current := Increment(key, now);
      if current == 1 {
        Expire(key, now, config.windowSeconds);
      }
      ttl := TtlOf(keys[key], now);
      if ttl < 0 {
        Expire(key, now, config.windowSeconds);
        ttl := config.windowSeconds;
      }
      allowed := 0;
      if current <= config.requests {
        allowed := 1;
      }
    }
  }

  /** What one check does to its key and answers: the error answer lets the request pass upstream. */
  function Exec(slot: Slot, call: Call, config: Config): Slot {
    if call.fate.Unreached? then slot else Some(Counted(slot, call.now, config.WindowMs()))
  }

  predicate Lets(slot: Slot, call: Call, config: Config) {
    call.fate.Replied? && Counted(slot, call.now, config.WindowMs()).count <= config.requests
  }

  class RedisFixedWindowRateLimiter {
    const config: Config
    const redis: RedisKeys

    constructor (config: Config, redis: RedisKeys)
      ensures this.config == config && this.redis == redis
    {
      this.config := config;
      this.redis := redis;
    }

    /** Whatever happens on the way, other keys stay as they are, and a reached key has an expiry. */
    method Check(key: string, call: Call) returns (r: Result)
      requires config.Valid()
      modifies redis
      ensures redis.At(key) == Exec(old(redis.At(key)), call, config)
      ensures forall k | k != key :: redis.At(k) == old(redis.At(k))
      ensures !call.fate.Unreached? ==> redis.At(key).Some? && redis.At(key).value.deadline.Some?
      ensures !call.fate.Unreached? && old(redis.At(key)).None? ==>
                redis.At(key) == Some(Counter(1, Some(call.now + config.windowSeconds * 1000)))
      ensures r.status.Allowed? <==> Lets(old(redis.At(key)), call, config)
      ensures r.status.Error? <==> !call.fate.Replied?
      ensures !r.status.Error? ==> r.retryAfterSeconds == Max(1, TtlOf(redis.At(key).value, call.now))
    {
      if call.fate.Unreached? {
        return Result(Error, 0);
      }
      var allowed, ttl := redis.FixedWindow(key, call.now, config);
      if call.fate.ReplyLost? {
        return Result(Error, 0);
      }
      return Result(if allowed == 1 then Allowed else Limited, Max(1, ttl));
    }
  }

  // ---------------------------------------------------------------------------------------
  // Runs of checks of one key.

  function After(initial: Slot, calls: seq<Call>, config: Config): Slot {
    if calls == [] then initial
    else Exec(After(initial, calls[..|calls| - 1], config), calls[|calls| - 1], config)
  }

  /** Call `i` was answered `Allowed`. */
  predicate AllowedAt(initial: Slot, calls: seq<Call>, config: Config, i: nat)
    requires i < |calls|
  {
    Lets(After(initial, calls[..i], config), calls[i], config)
  }

  /** The window a call fell into, named by the deadline its key then had. */
  function WindowAt(initial: Slot, calls: seq<Call>, config: Config, i: nat): int
    requires i < |calls|
  {
    var d := Counted(After(initial, calls[..i], config), calls[i].now, config.WindowMs()).deadline;
    if d.Some? then d.value else 0
  }

  predicate Ordered(calls: seq<Call>) {
    forall i, j | 0 <= i < j < |calls| :: calls[i].now <= calls[j].now
  }

  /** The script leaves no key with a count below one; a key without expiry may hold any count from zero. */
  predicate Sound(slot: Slot) {
    slot.Some? ==> slot.value.count >= 1 || (slot.value.count == 0 && slot.value.deadline.None?)
  }

  function AllowedIn(initial: Slot, calls: seq<Call>, config: Config, window: int): set<nat> {
    set i: nat | i < |calls| && AllowedAt(initial, calls, config, i) && WindowAt(initial, calls, config, i) == window
  }

  /** Those answered after the moment the window opened. */
  function Late(initial: Slot, calls: seq<Call>, config: Config, window: int): set<nat> {
    set i | i in AllowedIn(initial, calls, config, window) && calls[i].now > window - config.WindowMs()
  }

  function AllowedBetween(initial: Slot, calls: seq<Call>, config: Config, from: int, to: int): set<nat> {
    set i: nat | i < |calls| && AllowedAt(initial, calls, config, i) && from <= calls[i].now <= to
  }

  lemma PrefixAgrees(initial: Slot, calls: seq<Call>, config: Config, n: nat, i: nat)
    requires i < n <= |calls|
    ensures AllowedAt(initial, calls[..n], config, i) == AllowedAt(initial, calls, config, i)
    ensures WindowAt(initial, calls[..n], config, i) == WindowAt(initial, calls, config, i)
  {
    assert calls[..n][..i] == calls[..i];
  }

  /** One more call adds at most itself, and only to its own window. */
  lemma OneMore(initial: Slot, calls: seq<Call>, config: Config, window: int)
    requires calls != []
    ensures var n := |calls| - 1;
            var own := AllowedAt(initial, calls, config, n) && WindowAt(initial, calls, config, n) == window;
            && AllowedIn(initial, calls, config, window)
               == AllowedIn(initial, calls[..n], config, window) + (if own then {n} else {})
            && Late(initial, calls, config, window)
               == Late(initial, calls[..n], config, window)
                  + (if own && calls[n].now > window - config.WindowMs() then {n} else {})
  {
    hide AllowedAt, WindowAt;
    var n := |calls| - 1;
    forall i: nat | i < n
      ensures AllowedAt(initial, calls[..n], config, i) == AllowedAt(initial, calls, config, i)
      ensures WindowAt(initial, calls[..n], config, i) == WindowAt(initial, calls, config, i)
    {
      PrefixAgrees(initial, calls, config, n, i);
    }
  }

  /** What holds of a window after a run: it let through no more than the key's count, or the limit. */
  ghost predicate WindowKept(initial: Slot, calls: seq<Call>, config: Config, w: int) {
    var slot := After(initial, calls, config);
    && |AllowedIn(initial, calls, config, w)| <= config.requests
    && |Late(initial, calls, config, w)| <= config.requests - 1
    && (AllowedIn(initial, calls, config, w) != {} ==>
          slot.Some? && slot.value.deadline.Some? && w <= slot.value.deadline.value)
    && (slot.Some? && slot.value.deadline == Some(w) ==>
          && |AllowedIn(initial, calls, config, w)| <= slot.value.count
          && |Late(initial, calls, config, w)| <= slot.value.count - 1)
  }

  ghost predicate WindowsKept(initial: Slot, calls: seq<Call>, config: Config) {
    && Sound(After(initial, calls, config))
    && forall w :: WindowKept(initial, calls, config, w)
  }

  lemma {:induction false} RunKeepsWindows(initial: Slot, calls: seq<Call>, config: Config)
    requires config.Valid() && Sound(initial)
    ensures WindowsKept(initial, calls, config)
  {
    if calls == [] {
      forall w: int ensures WindowKept(initial, calls, config, w) {
        assert AllowedIn(initial, calls, config, w) == {} && Late(initial, calls, config, w) == {};
      }
    } else {
      RunKeepsWindows(initial, calls[..|calls| - 1], config);
      CallKeepsWindows(initial, calls, config);
    }
  }

  /** A call that reaches its key stays in the current window or opens one behind every earlier deadline. */
  lemma CountedInWindow(slot: Slot, now: int, config: Config)
    requires config.Valid() && Sound(slot)
    ensures var c := Counted(slot, now, config.WindowMs());
            && c.deadline.Some? && c.count >= 1
            && (|| (slot.Some? && slot.value.deadline == c.deadline && c.count == slot.value.count + 1)
                || (&& c.deadline.value == now + config.WindowMs()
                    && (slot.None? || slot.value.deadline.None? || slot.value.deadline.value < now)))
  {
  }

  lemma CallKeepsWindow(initial: Slot, calls: seq<Call>, config: Config, w: int)
    requires config.Valid() && calls != [] && WindowKept(initial, calls[..|calls| - 1], config, w)
    requires var n := |calls| - 1; var slot := After(initial, calls[..n], config);
             && Sound(slot)
             && (w == calls[n].now + config.WindowMs()
                 && (slot.None? || slot.value.deadline.None? || slot.value.deadline.value < w) ==>
                   AllowedIn(initial, calls[..n], config, w) == {} && Late(initial, calls[..n], config, w) == {})
    ensures WindowKept(initial, calls, config, w)
  {
    hide AllowedIn, Late, Counted, Live;
    var n := |calls| - 1;
    CountedInWindow(After(initial, calls[..n], config), calls[n].now, config);
    OneMore(initial, calls, config, w);
  }

  lemma CallKeepsWindows(initial: Slot, calls: seq<Call>, config: Config)
    requires config.Valid() && calls != [] && WindowsKept(initial, calls[..|calls| - 1], config)
    ensures WindowsKept(initial, calls, config)
  {
    hide AllowedIn, Late, Counted, Live;
    var n := |calls| - 1;
    var slot := After(initial, calls[..n], config);
    CountedInWindow(slot, calls[n].now, config);
    NewWindowIsEmpty(initial, calls[..n], config, calls[n].now + config.WindowMs());
    forall w: int ensures WindowKept(initial, calls, config, w) {
      assert WindowKept(initial, calls[..n], config, w);
      CallKeepsWindow(initial, calls, config, w);
    }
  }

  /** A window that opens after the key's deadline has let nothing through yet. */
  lemma NewWindowIsEmpty(initial: Slot, calls: seq<Call>, config: Config, window: int)
    requires WindowsKept(initial, calls, config)
    ensures var slot := After(initial, calls, config);
            slot.None? || slot.value.deadline.None? || slot.value.deadline.value < window ==>
              AllowedIn(initial, calls, config, window) == {} && Late(initial, calls, config, window) == {}
  {
    assert WindowKept(initial, calls, config, window);
    assert Late(initial, calls, config, window) <= AllowedIn(initial, calls, config, window);
  }

  /** Per window: at most `requests` calls are let through. */
  lemma WindowBound(initial: Slot, calls: seq<Call>, config: Config, window: int)
    requires config.Valid() && Sound(initial)
    ensures |AllowedIn(initial, calls, config, window)| <= config.requests
  {
    RunKeepsWindows(initial, calls, config);
    assert WindowKept(initial, calls, config, window);
  }

  // ---------------------------------------------------------------------------------------
  // Any stretch of time.

  /** After call `i`, the key's deadline is that call's window or one that opened after that window's end. */
  lemma {:induction false} DeadlineMovesOn(initial: Slot, calls: seq<Call>, config: Config, n: nat, i: nat)
    requires config.Valid() && Sound(initial) && Ordered(calls) && i < n <= |calls| && !calls[i].fate.Unreached?
    ensures Sound(After(initial, calls[..n], config))
    ensures var slot := After(initial, calls[..n], config);
            var w := WindowAt(initial, calls, config, i);
            && slot.Some? && slot.value.deadline.Some? && calls[i].now <= w
            && (slot.value.deadline.value == w
                || w < slot.value.deadline.value - config.WindowMs() <= calls[n - 1].now)
    decreases n
  {
    assert calls[..n][..n - 1] == calls[..n - 1];
    StaysSound(initial, calls[..n - 1], config);
    if i < n - 1 {
      DeadlineMovesOn(initial, calls, config, n - 1, i);
      assert calls[n - 2].now <= calls[n - 1].now;
    }
  }

  lemma {:induction false} StaysSound(initial: Slot, calls: seq<Call>, config: Config)
    requires Sound(initial)
    ensures Sound(After(initial, calls, config))
  {
    if calls != [] { StaysSound(initial, calls[..|calls| - 1], config); }
  }

  /** Calls of different windows: the later one comes after the end of the earlier window. */
  lemma WindowsAreApart(initial: Slot, calls: seq<Call>, config: Config, i: nat, j: nat)
    requires config.Valid() && Sound(initial) && Ordered(calls) && i < j < |calls|
    requires !calls[i].fate.Unreached? && !calls[j].fate.Unreached?
    requires WindowAt(initial, calls, config, i) != WindowAt(initial, calls, config, j)
    ensures calls[j].now > WindowAt(initial, calls, config, i)
    ensures WindowAt(initial, calls, config, j) > WindowAt(initial, calls, config, i) + config.WindowMs()
  {
    DeadlineMovesOn(initial, calls, config, j, i);
    assert calls[j - 1].now <= calls[j].now;
  }

  lemma InsideWindow(initial: Slot, calls: seq<Call>, config: Config, i: nat)
    requires config.Valid() && Sound(initial) && Ordered(calls) && i < |calls| && !calls[i].fate.Unreached?
    ensures calls[i].now <= WindowAt(initial, calls, config, i)
  {
    DeadlineMovesOn(initial, calls, config, i + 1, i);
  }

  lemma {:induction false} Least(s: set<nat>) returns (m: nat)
    requires s != {}
    ensures m in s && forall x | x in s :: m <= x
  {
    m :| m in s;
    if s != {m} {
      var k := Least(s - {m});
      assert forall x | x in s :: x == m || x in s - {m};
      if k < m { m := k; }
    }
  }

  lemma UnionBound(s: set<nat>, a: set<nat>, b: set<nat>)
    requires s <= a + b
    ensures |s| <= |a| + |b|
  {
    SubsetBound(s, a + b);
    assert a + b == a + (b - a) && a !! (b - a);
    SubsetBound(b - a, b);
  }

  lemma SubsetBound(s: set<nat>, t: set<nat>)
    requires s <= t
    ensures |s| <= |t|
  {
    assert t == s + (t - s);
  }

  /**
   Any stretch of time no longer than a window, wherever it lies: at most `2 * requests - 1`
   calls are let through, whatever checks fail or lose their reply.
   */
  lemma IntervalBound(initial: Slot, calls: seq<Call>, config: Config, from: int, to: int)
    requires config.Valid() && Sound(initial) && Ordered(calls) && to <= from + config.windowSeconds * 1000
    ensures |AllowedBetween(initial, calls, config, from, to)| <= 2 * config.requests - 1
  {
    hide After, Sound, WindowAt, Ordered;
    var s := AllowedBetween(initial, calls, config, from, to);
    RunBounds(initial, calls, config);
    if s != {} {
      var i := Least(s);
      var w := WindowAt(initial, calls, config, i);
      InsideWindow(initial, calls, config, i);
      var rest := set k | k in s && WindowAt(initial, calls, config, k) != w;
      if rest == {} {
        forall k | k in s ensures k in AllowedIn(initial, calls, config, w) {
          assert k !in rest;
        }
        SubsetBound(s, AllowedIn(initial, calls, config, w));
      } else {
        var j := Least(rest);
        var v := WindowAt(initial, calls, config, j);
        WindowsAreApart(initial, calls, config, i, j);
        forall k | k in s
          ensures k in Late(initial, calls, config, w) + AllowedIn(initial, calls, config, v)
        {
          var u := WindowAt(initial, calls, config, k);
          if u != w && u != v {
            assert k in rest;
            WindowsAreApart(initial, calls, config, j, k);
            assert false;
          }
        }
        UnionBound(s, Late(initial, calls, config, w), AllowedIn(initial, calls, config, v));
      }
    }
  }

  lemma RunBounds(initial: Slot, calls: seq<Call>, config: Config)
    requires config.Valid() && Sound(initial)
    ensures forall w :: |AllowedIn(initial, calls, config, w)| <= config.requests
    ensures forall w :: |Late(initial, calls, config, w)| <= config.requests - 1
  {
    RunKeepsWindows(initial, calls, config);
    forall w: int
      ensures |AllowedIn(initial, calls, config, w)| <= config.requests
      ensures |Late(initial, calls, config, w)| <= config.requests - 1
    {
      assert WindowKept(initial, calls, config, w);
    }
  }

  // ---------------------------------------------------------------------------------------
  // Nobody is turned away early.

  /** Calls that reached the key and fell into a window. */
  function ReachedIn(calls: seq<Call>, config: Config, window: int): set<nat> {
    set i: nat | i < |calls| && !calls[i].fate.Unreached? && WindowAt(None, calls, config, i) == window
  }

  lemma OneMoreReached(calls: seq<Call>, config: Config, window: int)
    requires calls != []
    ensures var n := |calls| - 1;
            var own := !calls[n].fate.Unreached? && WindowAt(None, calls, config, n) == window;
            && ReachedIn(calls, config, window) == ReachedIn(calls[..n], config, window) + (if own then {n} else {})
            && n !in ReachedIn(calls[..n], config, window)
  {
    hide AllowedAt, WindowAt;
    var n := |calls| - 1;
    forall i: nat | i < n ensures WindowAt(None, calls[..n], config, i) == WindowAt(None, calls, config, i) {
      PrefixAgrees(None, calls, config, n, i);
    }
  }

  /** Starting without a key, its count is the number of calls of the current window that reached it. */
  ghost predicate CountsReached(calls: seq<Call>, config: Config) {
    var slot := After(None, calls, config);
    && (slot.Some? ==> slot.value.deadline.Some? && slot.value.count == |ReachedIn(calls, config, slot.value.deadline.value)|)
    && (forall w :: ReachedIn(calls, config, w) != {} ==> slot.Some? && w <= slot.value.deadline.value)
  }

  lemma {:induction false} CountIsReached(calls: seq<Call>, config: Config)
    requires config.Valid()
    ensures CountsReached(calls, config)
  {
    hide ReachedIn, Counted, Live;
    if calls == [] {
      forall w: int ensures ReachedIn([], config, w) == {} { NothingReached(config, w); }
    } else {
      var n := |calls| - 1;
      CountIsReached(calls[..n], config);
      var slot := After(None, calls[..n], config);
      StaysSound(None, calls[..n], config);
      CountedInWindow(slot, calls[n].now, config);
      FreshStart(slot, calls[n].now, config);
      forall w: int
        ensures ReachedIn(calls, config, w) != {} ==>
                  After(None, calls, config).Some? && After(None, calls, config).value.deadline.Some?
                  && w <= After(None, calls, config).value.deadline.value
      {
        OneMoreReached(calls, config, w);
      }
      var slot' := After(None, calls, config);
      if slot'.Some? { OneMoreReached(calls, config, slot'.value.deadline.value); }
    }
  }

  lemma NothingReached(config: Config, window: int)
    ensures ReachedIn([], config, window) == {}
  {
  }

  /** Exactly who passes: a call is allowed if and only if fewer than `requests` earlier calls of its window reached the key. */
  lemma AllowedIffRoom(calls: seq<Call>, config: Config, i: nat)
    requires config.Valid() && i < |calls|
    ensures AllowedAt(None, calls, config, i)
       <==> calls[i].fate.Replied?
            && |ReachedIn(calls[..i], config, WindowAt(None, calls, config, i))| < config.requests
  {
    hide ReachedIn, Counted, Live;
    CountIsReached(calls[..i], config);
    var slot := After(None, calls[..i], config);
    StaysSound(None, calls[..i], config);
    CountedInWindow(slot, calls[i].now, config);
    FreshStart(slot, calls[i].now, config);
  }

  lemma FreshStart(slot: Slot, now: int, config: Config)
    requires config.Valid() && Sound(slot)
    ensures var c := Counted(slot, now, config.WindowMs());
            slot.Some? && slot.value.deadline.Some? && slot.value.deadline != c.deadline ==> c.count == 1
    ensures slot.None? ==> Counted(slot, now, config.WindowMs()).count == 1
  {
  }

  /** The advertised wait is long enough up to the rounding of half a second: the next lone check passes. */
  lemma RetryAfterSuffices(slot: Slot, call: Call, later: Call, config: Config)
    requires config.Valid() && Sound(slot) && later.fate.Replied?
    requires var c := Counted(slot, call.now, config.WindowMs());
             later.now >= call.now + Max(1, TtlOf(c, call.now)) * 1000 + 500
    ensures Lets(Some(Counted(slot, call.now, config.WindowMs())), later, config)
  {
    var c := Counted(slot, call.now, config.WindowMs());
    CountedInWindow(slot, call.now, config);
    assert later.now > c.deadline.value;
  }

  /**
   Exactly when the advertised wait itself is enough: a limited caller who comes back alone after
   it passes if and only if less than a second of the window was left, or the time left had a
   fraction of at least half a second, so that it was rounded up.
   */
  lemma RetryAfterPassesIff(slot: Slot, call: Call, later: Call, config: Config)
    requires config.Valid() && Sound(slot) && later.fate.Replied?
    requires var c := Counted(slot, call.now, config.WindowMs());
             c.count > config.requests && later.now == call.now + Max(1, TtlOf(c, call.now)) * 1000
    ensures var c := Counted(slot, call.now, config.WindowMs());
            && c.deadline.Some?
            && var left := c.deadline.value - call.now;
               Lets(Some(c), later, config) <==> left < 1000 || left % 1000 >= 500
  {
    var c := Counted(slot, call.now, config.WindowMs());
    CountedInWindow(slot, call.now, config);
    var left := c.deadline.value - call.now;
    assert left == left / 1000 * 1000 + left % 1000;
    assert (left + 500) / 1000 == left / 1000 + if left % 1000 >= 500 then 1 else 0;
  }

  // ---------------------------------------------------------------------------------------
  // The bound is reached.

  /** One check opens a window, the rest of its quota comes at its end, the next quota right after. */
  function Burst(config: Config): seq<Call>
    requires config.Valid()
  {
    seq(2 * config.requests, (i: nat) =>
          Call(if i == 0 then 0 else if i < config.requests then config.WindowMs() else config.WindowMs() + 1, Replied))
  }

  lemma {:induction false} BurstState(config: Config, n: nat)
    requires config.Valid() && n <= 2 * config.requests
    ensures After(None, Burst(config)[..n], config)
         == if n == 0 then None
            else if n <= config.requests then Some(Counter(n, Some(config.WindowMs())))
            else Some(Counter(n - config.requests, Some(2 * config.WindowMs() + 1)))
  {
    if n > 0 {
      BurstState(config, n - 1);
      assert Burst(config)[..n][..n - 1] == Burst(config)[..n - 1];
      assert Burst(config)[..n][n - 1] == Burst(config)[n - 1];
    }
  }

  /** Tight for every configuration: a stretch of exactly one window that lets `2 * requests - 1` through. */
  lemma IntervalBoundIsReached(config: Config)
    requires config.Valid()
    ensures Ordered(Burst(config))
    ensures |AllowedBetween(None, Burst(config), config, 1, 1 + config.windowSeconds * 1000)| == 2 * config.requests - 1
  {
    hide AllowedBetween, Burst, Ordered;
    BurstIsLetThrough(config);
  }

  lemma BurstIsLetThrough(config: Config)
    requires config.Valid()
    ensures Ordered(Burst(config))
    ensures |AllowedBetween(None, Burst(config), config, 1, 1 + config.WindowMs())| == 2 * config.requests - 1
  {
    var calls := Burst(config);
    forall i: nat | i < |calls| ensures AllowedAt(None, calls, config, i) {
      BurstState(config, i);
    }
    assert AllowedBetween(None, calls, config, 1, 1 + config.WindowMs()) == Range(1, 2 * config.requests);
  }

  function Range(lo: nat, hi: nat): (r: set<nat>)
    requires lo <= hi
    ensures |r| == hi - lo && forall i :: i in r <==> lo <= i < hi
  {
    if lo == hi then {} else Range(lo, hi - 1) + {hi - 1}
  }
}

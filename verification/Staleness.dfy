/**
 The cache entry of one code under any interleaving: readers that look up, read the source and
 fill at their own pace, updates of the source, erases that may or may not happen, crashes and
 failing Redis calls. One clock, in milliseconds, for everybody.
 */
module Staleness {
  import opened Options
  import opened Links
  import opened CacheCodec
  import opened CachedRepository

  /**
   Where a reader is: about to delete a value it could not decode, or with the record it carries,
   and later the seconds it has decided to keep it.
   */
  datatype Reader =
    | Idle
    | Discarding
    | Missed
    | Holding(record: LinkRecord)
    | Planned(record: LinkRecord, seconds: int)

  datatype World = World(now: int, source: Option<LinkRecord>, entry: Option<Entry>, readers: map<nat, Reader>)

  datatype Action =
    | Tick(ms: nat)
    | Get(p: nat, works: bool)
    | Discard(p: nat, effect: bool)
    | ReadSource(p: nat)
    | Plan(p: nat)
    | Write(p: nat, effect: bool)
    | Crash(p: nat)
    | UpdateSource(record: LinkRecord)
    | Erase

  function ReaderOf(w: World, p: nat): Reader {
    if p in w.readers then w.readers[p] else Idle
  }

  function Move(w: World, p: nat, r: Reader): World {
    w.(readers := w.readers[p := r])
  }

  predicate Shown(w: World) {
    w.entry.Some? && (w.entry.value.deadline.None? || w.now <= w.entry.value.deadline.value)
  }

  function EntryRecord(w: World, code: string): Option<LinkRecord> {
    if Shown(w) then Deserialize(code, w.entry.value.value) else None
  }

  /** One step; an action that its reader is not ready for does nothing. */
  function Exec(w: World, a: Action, code: string, ttl: int): World {
    match a
    case Tick(ms) => w.(now := w.now + ms)
    case Get(p, works) =>
      if !ReaderOf(w, p).Idle? then w
      else if !works || !Shown(w) then Move(w, p, Missed)
      else if EntryRecord(w, code).Some? then w
      else Move(w, p, Discarding)
    case Discard(p, effect) =>
      if !ReaderOf(w, p).Discarding? then w
      else Move(if effect then w.(entry := None) else w, p, Missed)
    case ReadSource(p) =>
      if !ReaderOf(w, p).Missed? then w
      else Move(w, p, if w.source.Some? then Holding(w.source.value) else Idle)
    case Plan(p) =>
      if !ReaderOf(w, p).Holding? then w
      else Move(w, p, Planned(ReaderOf(w, p).record, KeepSeconds(ReaderOf(w, p).record, w.now, ttl)))
    case Write(p, effect) =>
      var r := ReaderOf(w, p);
      if !r.Planned? then w
      else
        var w' := Move(w, p, Idle);
        if !effect then w'
        else if r.seconds <= 0 then w'.(entry := None)
        else w'.(entry := Some(Entry(Serialize(r.record), Some(w.now + r.seconds * 1000))))
    case Crash(p) => Move(w, p, Idle)
    case UpdateSource(record) => w.(source := Some(record))
    case Erase => w.(entry := None)
  }

  /** A run: where it starts, what happens, the code looked at and the configured TTL. */
  datatype Run = Run(start: World, actions: seq<Action>, code: string, ttl: int) {
    function At(n: nat): World
      requires n <= |actions|
    {
      if n == 0 then start else Exec(At(n - 1), actions[n - 1], code, ttl)
    }

    /** Cold start, or entries of the earlier format; the source only ever holds records of this code. */
    ghost predicate Valid() {
      && 1 <= ttl <= MAX_TTL_SECONDS
      && start.readers == map[]
      && (start.entry.Some? ==> Deserialize(code, start.entry.value.value).None?)
      && (start.source.Some? ==> Holds(start.source.value))
      && (forall i | 0 <= i < |actions| && actions[i].UpdateSource? :: Holds(actions[i].record))
    }

    predicate Holds(r: LinkRecord) {
      r.code == code && InRange(r)
    }
  }

  /** `Get` number `n` finds a record in the cache. */
  predicate Hit(run: Run, n: nat, r: LinkRecord)
    requires n < |run.actions|
  {
    && run.actions[n].Get? && run.actions[n].works
    && ReaderOf(run.At(n), run.actions[n].p).Idle?
    && EntryRecord(run.At(n), run.code) == Some(r)
  }

  predicate Carries(w: World, p: nat, r: LinkRecord) {
    var reader := ReaderOf(w, p);
    (reader.Holding? || reader.Planned?) && reader.record == r
  }

  /** Reader `p` took `r` from the source in step `i`, when the source held it, and has carried it up to `n`. */
  ghost predicate Carried(run: Run, p: nat, r: LinkRecord, i: nat, n: nat) {
    && i < n <= |run.actions|
    && run.actions[i] == ReadSource(p) && run.At(i).source == Some(r)
    && forall k | i < k <= n :: Carries(run.At(k), p, r)
  }

  /** The whole way of an entry: read in step `i`, lifetime decided in step `c`, written in step `j`. */
  ghost predicate Filled(run: Run, e: Entry, p: nat, r: LinkRecord, i: nat, c: nat, j: nat) {
    && i < c < j < |run.actions|
    && Carried(run, p, r, i, j)
    && run.actions[c] == Plan(p) && run.actions[j] == Write(p, true)
    && var seconds := KeepSeconds(r, run.At(c).now, run.ttl);
       seconds > 0 && e == Entry(Serialize(r), Some(run.At(j).now + seconds * 1000))
  }

  // ---------------------------------------------------------------------------------------
  // What holds along every run.

  ghost predicate ReaderExplained(run: Run, n: nat, p: nat)
    requires n <= |run.actions|
  {
    match ReaderOf(run.At(n), p)
    case Holding(r) => exists i: nat :: Carried(run, p, r, i, n)
    case Planned(r, seconds) =>
      exists i: nat, c: nat :: Carried(run, p, r, i, n) && i < c < n && run.actions[c] == Plan(p)
                     && seconds == KeepSeconds(r, run.At(c).now, run.ttl)
    case _ => true
  }

  ghost predicate EntryExplained(run: Run, n: nat)
    requires n <= |run.actions|
  {
    var entry := run.At(n).entry;
    entry.Some? ==>
      || Deserialize(run.code, entry.value.value).None?
      || exists p: nat, r, i: nat, c: nat, j: nat :: j < n && Filled(run, entry.value, p, r, i, c, j)
  }

  ghost predicate Explained(run: Run, n: nat)
    requires n <= |run.actions|
  {
    && EntryExplained(run, n)
    && (forall p :: ReaderExplained(run, n, p))
    && (run.At(n).source.Some? ==> run.Holds(run.At(n).source.value))
  }

  lemma CarriesOn(run: Run, p: nat, r: LinkRecord, i: nat, n: nat)
    requires n < |run.actions| && Carried(run, p, r, i, n) && Carries(run.At(n + 1), p, r)
    ensures Carried(run, p, r, i, n + 1)
  {
    hide Carries;
  }

  lemma ReaderStaysExplained(run: Run, n: nat, p: nat)
    requires n < |run.actions| && ReaderExplained(run, n, p)
    ensures ReaderExplained(run, n + 1, p)
  {
    hide Serialize, Deserialize, KeepSeconds, Carried;
    var w, w', a := run.At(n), run.At(n + 1), run.actions[n];
    match ReaderOf(w', p)
    case Holding(r) =>
      if ReaderOf(w, p) == ReaderOf(w', p) {
        var i: nat :| Carried(run, p, r, i, n);
        CarriesOn(run, p, r, i, n);
      } else {
        JustRead(run, p, r, n);
      }
    case Planned(r, seconds) =>
      if ReaderOf(w, p) == ReaderOf(w', p) {
        var i: nat, c: nat :| Carried(run, p, r, i, n) && i < c < n && run.actions[c] == Plan(p)
                    && seconds == KeepSeconds(r, run.At(c).now, run.ttl);
        CarriesOn(run, p, r, i, n);
      } else {
        var i: nat :| Carried(run, p, r, i, n);
        CarriesOn(run, p, r, i, n);
        CarriedSince(run, p, r, i, n);
        assert run.actions[n] == Plan(p);
      }
    case _ =>
  }

  lemma CarriedSince(run: Run, p: nat, r: LinkRecord, i: nat, n: nat)
    requires Carried(run, p, r, i, n)
    ensures i < n
  {
  }

  lemma JustRead(run: Run, p: nat, r: LinkRecord, n: nat)
    requires n < |run.actions| && run.actions[n] == ReadSource(p)
    requires run.At(n).source == Some(r) && ReaderOf(run.At(n + 1), p) == Holding(r)
    ensures Carried(run, p, r, n, n + 1)
  {
  }

  lemma EntryStaysExplained(run: Run, n: nat)
    requires n < |run.actions| && EntryExplained(run, n) && forall p :: ReaderExplained(run, n, p)
    ensures EntryExplained(run, n + 1)
  {
    hide Serialize, Deserialize, KeepSeconds, Carried;
    var w, w', a := run.At(n), run.At(n + 1), run.actions[n];
    if w'.entry.Some? && Deserialize(run.code, w'.entry.value.value).Some? {
      if w'.entry == w.entry {
        var p: nat, r, i: nat, c: nat, j: nat :| j < n && Filled(run, w.entry.value, p, r, i, c, j);
      } else {
        var p := a.p;
        assert a == Write(p, true) && ReaderOf(w, p).Planned?;
        assert ReaderExplained(run, n, p);
        var r, seconds := ReaderOf(w, p).record, ReaderOf(w, p).seconds;
        var i: nat, c: nat :| Carried(run, p, r, i, n) && i < c < n && run.actions[c] == Plan(p)
                    && seconds == KeepSeconds(r, run.At(c).now, run.ttl);
        assert Filled(run, w'.entry.value, p, r, i, c, n);
      }
    }
  }

  lemma {:induction false} RunIsExplained(run: Run, n: nat)
    requires run.Valid() && n <= |run.actions|
    ensures Explained(run, n)
  {
    hide Serialize, Deserialize, KeepSeconds, Carried, Filled;
    if n > 0 {
      RunIsExplained(run, n - 1);
      EntryStaysExplained(run, n - 1);
      forall p: nat ensures ReaderExplained(run, n, p) {
        assert ReaderExplained(run, n - 1, p);
        ReaderStaysExplained(run, n - 1, p);
      }
    }
  }

  lemma {:induction false} TimePasses(run: Run, i: nat, j: nat)
    requires i <= j <= |run.actions|
    ensures run.At(i).now <= run.At(j).now
  {
    if i < j { TimePasses(run, i, j - 1); }
  }

  lemma {:induction false} HeldRecordFits(run: Run, n: nat)
    requires run.Valid() && n <= |run.actions|
    ensures run.At(n).source.Some? ==> run.Holds(run.At(n).source.value)
  {
    if n > 0 { HeldRecordFits(run, n - 1); }
  }

  /**
   Bounded staleness: a record found in the cache is one the source held when some reader read
   it, no longer ago than the TTL, at most a day, plus the time that reader took from reading
   the source to writing the cache.
   */
  lemma HitIsRecent(run: Run, n: nat, r: LinkRecord)
    requires run.Valid() && n < |run.actions| && Hit(run, n, r)
    ensures exists p: nat, i: nat, j: nat ::
              && Carried(run, p, r, i, j) && j < n && run.actions[j] == Write(p, true)
              && run.At(n).now - run.At(i).now <= run.ttl * 1000 + (run.At(j).now - run.At(i).now)
    ensures run.ttl <= MAX_TTL_SECONDS
  {
    hide Serialize, Deserialize, Carried;
    RunIsExplained(run, n);
    var e := run.At(n).entry.value;
    var p: nat, r0, i: nat, c: nat, j: nat :| j < n && Filled(run, e, p, r0, i, c, j);
    ReadFromSource(run, p, r0, i, j);
    HeldRecordFits(run, i);
    SerializedReadsBack(r0, run.code);
    assert r0 == r;
    assert Carried(run, p, r, i, j);
  }

  lemma ReadFromSource(run: Run, p: nat, r: LinkRecord, i: nat, n: nat)
    requires Carried(run, p, r, i, n)
    ensures i < |run.actions| && run.At(i).source == Some(r)
  {
  }

  /**
   An entry outlives the expiry of its record by less than the time its writer took after
   deciding how long to keep it, plus one second for the clock being read in whole seconds.
   */
  lemma EntryEndsWithRecord(run: Run, n: nat, r: LinkRecord)
    requires run.Valid() && n <= |run.actions| && r.expiresAt.Some? && r.originalUrl != ""
    requires run.At(n).entry.Some? && Deserialize(run.code, run.At(n).entry.value.value) == Some(r)
    ensures var deadline := run.At(n).entry.value.deadline;
            && deadline.Some?
            && exists p: nat, i: nat, c: nat, j: nat ::
                 && Filled(run, run.At(n).entry.value, p, r, i, c, j) && j < n
                 && deadline.value <= r.expiresAt.value * 1000 + 999 + (run.At(j).now - run.At(c).now)
                 && run.At(j).now - run.At(c).now <= run.At(j).now - run.At(i).now
  {
    hide Serialize, Deserialize, Carried;
    RunIsExplained(run, n);
    var e := run.At(n).entry.value;
    var p: nat, r0, i: nat, c: nat, j: nat :| j < n && Filled(run, e, p, r0, i, c, j);
    ReadFromSource(run, p, r0, i, j);
    HeldRecordFits(run, i);
    SerializedReadsBack(r0, run.code);
    assert r0 == r;
    TimePasses(run, i, c);
    TimePasses(run, c, j);
    assert Filled(run, e, p, r, i, c, j);
  }

  /**
   Exactly when: an entry outlives the expiry of its record by more than its writer's delay if
   and only if, when the lifetime was decided, the clock stood between two seconds and the whole
   seconds the record had left were no more than the TTL. Then it outlives it by the fraction of
   the second.
   */
  lemma OutlivesExpiryIff(run: Run, e: Entry, p: nat, r: LinkRecord, i: nat, c: nat, j: nat)
    requires Filled(run, e, p, r, i, c, j) && r.expiresAt.Some?
    ensures var delay, left := run.At(j).now - run.At(c).now, r.expiresAt.value - run.At(c).now / 1000;
            && e.deadline.Some?
            && (e.deadline.value > r.expiresAt.value * 1000 + delay <==> run.At(c).now % 1000 != 0 && left <= run.ttl)
            && (left <= run.ttl ==> e.deadline.value == r.expiresAt.value * 1000 + delay + run.At(c).now % 1000)
  {
    hide Serialize, Carried;
    assert run.At(c).now == run.At(c).now / 1000 * 1000 + run.At(c).now % 1000;
  }

  /** The second cannot be dropped at any clock reading: with no delay at all an entry outlives its record by the fraction. */
  lemma WholeSecondsOutliveExpiry(r: LinkRecord, now: int, ttl: int)
    requires InRange(r) && r.originalUrl != "" && r.expiresAt.Some? && 1 <= ttl <= MAX_TTL_SECONDS
    requires 1 <= r.expiresAt.value - now / 1000 <= ttl
    ensures var run := Run(World(now, Some(r), None, map[]),
                           [Get(0, true), ReadSource(0), Plan(0), Write(0, true)], r.code, ttl);
            && run.Valid()
            && run.At(4).entry == Some(Entry(Serialize(r), Some(r.expiresAt.value * 1000 + now % 1000)))
            && run.At(4).now == run.At(0).now
  {
    hide Serialize, Deserialize;
    var run := Run(World(now, Some(r), None, map[]),
                   [Get(0, true), ReadSource(0), Plan(0), Write(0, true)], r.code, ttl);
    assert run.At(1) == World(now, Some(r), None, map[0 := Missed]);
    assert run.At(2) == World(now, Some(r), None, map[0 := Holding(r)]);
    assert run.At(3) == World(now, Some(r), None, map[0 := Planned(r, r.expiresAt.value - now / 1000)]);
  }

  /**
   The reader's delay cannot be dropped either: a reader that read before an update may fill
   after the update's erase, and the old record is found although every Redis call worked.
   */
  lemma FillAfterEraseIsStale(before: LinkRecord, updated: LinkRecord, ttl: int)
    requires InRange(before) && before.originalUrl != "" && before.expiresAt.None? && 1 <= ttl <= MAX_TTL_SECONDS
    requires InRange(updated) && updated.code == before.code && updated != before
    ensures var run := Run(World(0, Some(before), None, map[]),
                           [Get(0, true), ReadSource(0), UpdateSource(updated), Erase, Plan(0), Write(0, true),
                            Tick(ttl * 1000), Get(1, true)], before.code, ttl);
            && run.Valid() && Hit(run, 7, before) && run.At(7).source == Some(updated)
            && run.At(7).now - run.At(2).now == ttl * 1000
  {
    hide Serialize, Deserialize;
    var run := Run(World(0, Some(before), None, map[]),
                   [Get(0, true), ReadSource(0), UpdateSource(updated), Erase, Plan(0), Write(0, true),
                    Tick(ttl * 1000), Get(1, true)], before.code, ttl);
    SerializedReadsBack(before, before.code);
    assert run.At(1) == World(0, Some(before), None, map[0 := Missed]);
    assert run.At(2) == World(0, Some(before), None, map[0 := Holding(before)]);
    assert run.At(3) == World(0, Some(updated), None, map[0 := Holding(before)]);
    assert run.At(4) == run.At(3);
    assert run.At(5) == World(0, Some(updated), None, map[0 := Planned(before, ttl)]);
    assert run.At(6) == World(0, Some(updated), Some(Entry(Serialize(before), Some(ttl * 1000))), map[0 := Idle]);
    assert run.At(7) == run.At(6).(now := ttl * 1000);
  }

  // ---------------------------------------------------------------------------------------
  // When an erase is final.

  /** This reader can still put a record other than `current` into the cache. */
  predicate Threatens(reader: Reader, current: LinkRecord, now: int, ttl: int) {
    match reader
    case Holding(r) => r != current && r.originalUrl != "" && KeepSeconds(r, now, ttl) > 0
    case Planned(r, seconds) => r != current && r.originalUrl != "" && seconds > 0
    case _ => false
  }

  predicate ReaderSound(reader: Reader, code: string) {
    reader.Holding? || reader.Planned? ==> reader.record.code == code && InRange(reader.record)
  }

  /** Every reader carries a record the source could hold. */
  ghost predicate ReadersSound(w: World, code: string) {
    forall p: nat :: ReaderSound(ReaderOf(w, p), code)
  }

  ghost predicate Threatened(w: World, current: LinkRecord, ttl: int) {
    exists p: nat :: Threatens(ReaderOf(w, p), current, w.now, ttl)
  }

  /** The source holds `current`, no reader threatens it, and the cache holds nothing else that decodes. */
  ghost predicate Settled(w: World, current: LinkRecord, code: string, ttl: int) {
    && w.source == Some(current)
    && !Threatened(w, current, ttl)
    && (w.entry.Some? ==> Deserialize(code, w.entry.value.value) in {None, Some(current)})
  }

  predicate WithoutUpdates(actions: seq<Action>) {
    forall i | 0 <= i < |actions| :: !actions[i].UpdateSource?
  }

  /** A later clock never leaves a record more time. */
  lemma LifeRunsOut(r: LinkRecord, now: int, ms: nat, ttl: int)
    ensures KeepSeconds(r, now + ms, ttl) <= KeepSeconds(r, now, ttl)
  {
  }

  lemma ReaderStaysSound(w: World, a: Action, code: string, ttl: int, p: nat)
    requires ReaderSound(ReaderOf(w, p), code)
    requires w.source.Some? ==> w.source.value.code == code && InRange(w.source.value)
    ensures ReaderSound(ReaderOf(Exec(w, a, code, ttl), p), code)
  {
    hide Serialize, Deserialize, KeepSeconds;
  }

  lemma ReaderStaysHarmless(w: World, a: Action, code: string, ttl: int, current: LinkRecord, p: nat)
    requires w.source == Some(current) && !a.UpdateSource?
    requires !Threatens(ReaderOf(w, p), current, w.now, ttl)
    ensures var t := Exec(w, a, code, ttl);
            !Threatens(ReaderOf(t, p), current, t.now, ttl)
  {
    hide Serialize, Deserialize, KeepSeconds;
    var reader := ReaderOf(w, p);
    if a.Tick? && reader.Holding? { LifeRunsOut(reader.record, w.now, a.ms, ttl); }
  }

  /** Everything but an update of the source keeps the cache settled. */
  lemma StepKeepsSettled(w: World, a: Action, code: string, ttl: int, current: LinkRecord)
    requires Settled(w, current, code, ttl) && ReadersSound(w, code) && !a.UpdateSource?
    requires current.code == code && InRange(current)
    ensures var t := Exec(w, a, code, ttl);
            Settled(t, current, code, ttl) && ReadersSound(t, code)
  {
    hide Serialize, Deserialize, KeepSeconds, Threatens;
    var t := Exec(w, a, code, ttl);
    forall p: nat ensures ReaderSound(ReaderOf(t, p), code) && !Threatens(ReaderOf(t, p), current, t.now, ttl) {
      assert ReaderSound(ReaderOf(w, p), code) && !Threatens(ReaderOf(w, p), current, w.now, ttl);
      ReaderStaysSound(w, a, code, ttl, p);
      ReaderStaysHarmless(w, a, code, ttl, current, p);
    }
    if a.Write? && ReaderOf(w, a.p).Planned? {
      assert ReaderSound(ReaderOf(w, a.p), code);
      HarmlessWrite(ReaderOf(w, a.p), current, w.now, ttl);
      SerializedReadsBack(ReaderOf(w, a.p).record, code);
    }
  }

  lemma HarmlessWrite(reader: Reader, current: LinkRecord, now: int, ttl: int)
    requires reader.Planned? && !Threatens(reader, current, now, ttl)
    ensures reader.record == current || reader.record.originalUrl == "" || reader.seconds <= 0
  {
  }

  lemma {:induction false} RunKeepsSettled(run: Run, current: LinkRecord, n: nat)
    requires Settled(run.start, current, run.code, run.ttl) && ReadersSound(run.start, run.code)
    requires run.Holds(current) && WithoutUpdates(run.actions) && n <= |run.actions|
    ensures Settled(run.At(n), current, run.code, run.ttl) && ReadersSound(run.At(n), run.code)
  {
    hide Settled, ReadersSound, Exec;
    if n > 0 {
      RunKeepsSettled(run, current, n - 1);
      StepKeepsSettled(run.At(n - 1), run.actions[n - 1], run.code, run.ttl, current);
    }
  }

  /** Some continuation without a further update finds a record other than the current one. */
  ghost predicate CanGoStale(w: World, code: string, ttl: int, current: LinkRecord) {
    exists more, n: nat, r :: StaleHit(w, code, ttl, current, more, n, r)
  }

  ghost predicate StaleHit(w: World, code: string, ttl: int, current: LinkRecord, more: seq<Action>, n: nat, r: LinkRecord) {
    WithoutUpdates(more) && n < |more| && r != current && Hit(Run(w, more, code, ttl), n, r)
  }

  /** The way a threatening reader brings its record back. */
  function BringBack(reader: Reader, p: nat): seq<Action> {
    (if reader.Holding? then [Plan(p)] else []) + [Write(p, true), Get(p, true)]
  }

  lemma ThreatComesTrue(w: World, code: string, ttl: int, current: LinkRecord, p: nat)
    requires ReaderSound(ReaderOf(w, p), code) && Threatens(ReaderOf(w, p), current, w.now, ttl)
    ensures CanGoStale(w, code, ttl, current)
  {
    hide Serialize, Deserialize, KeepSeconds;
    var reader := ReaderOf(w, p);
    var run := Run(w, BringBack(reader, p), code, ttl);
    SerializedReadsBack(reader.record, code);
    if reader.Holding? {
      assert run.At(1) == Move(w, p, Planned(reader.record, KeepSeconds(reader.record, w.now, ttl)));
      assert ReaderOf(run.At(2), p) == Idle;
    } else {
      assert ReaderOf(run.At(1), p) == Idle;
    }
    assert StaleHit(w, code, ttl, current, run.actions, |run.actions| - 1, reader.record);
  }

  /**
   An erase is final, until the next update, if and only if at that moment no reader carries
   another record with a URL that it would keep for at least a second.
   */
  lemma EraseIsFinalIff(w: World, code: string, ttl: int, current: LinkRecord)
    requires w.source == Some(current) && current.code == code && InRange(current) && ReadersSound(w, code)
    ensures CanGoStale(Exec(w, Erase, code, ttl), code, ttl, current) <==> Threatened(w, current, ttl)
  {
    hide Serialize, Deserialize, KeepSeconds, Threatens;
    var t := Exec(w, Erase, code, ttl);
    assert forall p: nat :: ReaderOf(t, p) == ReaderOf(w, p);
    if Threatened(w, current, ttl) {
      var p: nat :| Threatens(ReaderOf(w, p), current, w.now, ttl);
      assert ReaderSound(ReaderOf(w, p), code);
      ThreatComesTrue(t, code, ttl, current, p);
    } else if CanGoStale(t, code, ttl, current) {
      var more, n: nat, r :| StaleHit(t, code, ttl, current, more, n, r);
      assert Settled(t, current, code, ttl);
      RunKeepsSettled(Run(t, more, code, ttl), current, n);
    }
  }

  /** The readers of every run carry records the source held, so the condition applies to each erase of each run. */
  lemma EraseInRunIsFinalIff(run: Run, n: nat, current: LinkRecord)
    requires run.Valid() && n < |run.actions| && run.actions[n] == Erase && run.At(n).source == Some(current)
    ensures CanGoStale(run.At(n + 1), run.code, run.ttl, current) <==> Threatened(run.At(n), current, run.ttl)
  {
    hide Serialize, Deserialize, KeepSeconds;
    HeldRecordFits(run, n);
    forall p: nat ensures ReaderSound(ReaderOf(run.At(n), p), run.code) {
      ReadersOfRunSound(run, n, p);
    }
    EraseIsFinalIff(run.At(n), run.code, run.ttl, current);
  }

  lemma ReadersOfRunSound(run: Run, n: nat, p: nat)
    requires run.Valid() && n <= |run.actions|
    ensures ReaderSound(ReaderOf(run.At(n), p), run.code)
  {
    hide Serialize, Deserialize, KeepSeconds, Carried;
    RunIsExplained(run, n);
    assert ReaderExplained(run, n, p);
    var reader := ReaderOf(run.At(n), p);
    if reader.Holding? || reader.Planned? {
      var i: nat :| Carried(run, p, reader.record, i, n);
      ReadFromSource(run, p, reader.record, i, n);
      HeldRecordFits(run, i);
    }
  }
}

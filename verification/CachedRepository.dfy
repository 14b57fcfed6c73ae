/**
 The Redis cache in front of the repository, one operation at a time: reads fill it, updates
 invalidate it, and any Redis call may fail. Clock readings are in milliseconds.
 */
module CachedRepository {
  import opened Options
  import opened Decimal
  import opened Links
  import opened CacheCodec
  import opened Repository

  const DEFAULT_TTL_SECONDS := 3600
  const MAX_TTL_SECONDS := 86400

  /** A stored string and when Redis drops it; entries of an earlier format may have no deadline. */
  datatype Entry = Entry(value: string, deadline: Option<int>)

  type Cache = map<string, Entry>

  predicate Live(c: Cache, code: string, now: int) {
    code in c && (c[code].deadline.None? || now <= c[code].deadline.value)
  }

  /** A read fails, or works; then a value that does not decode is deleted, if that delete works. */
  datatype ReadFate = ReadFails | ReadWorks(discarded: bool)

  /** A write has no effect, has its effect but reports failure, or is acknowledged. */
  datatype WriteFate = NoEffect | ReplyLost | Acknowledged

  datatype Fetched = Fetched(cache: Cache, record: Option<LinkRecord>)

  datatype Written = Written(cache: Cache, success: bool)

  function Fetch(c: Cache, code: string, now: int, fate: ReadFate): Fetched {
    if fate.ReadFails? || !Live(c, code, now) then Fetched(c, None)
    else
      var r := Deserialize(code, c[code].value);
      Fetched(if r.None? && fate.discarded then c - {code} else c, r)
  }

  function Drop(c: Cache, code: string, fate: WriteFate): Written {
    Written(if fate.NoEffect? then c else c - {code}, fate.Acknowledged?)
  }

  /** How long a fill at this time keeps a record: its remaining life, at most the TTL; not positive once expired. */
  function KeepSeconds(r: LinkRecord, now: int, ttl: int): int {
    var remaining := if r.expiresAt.Some? then r.expiresAt.value - now / 1000 else ttl;
    if remaining < ttl then remaining else ttl
  }

  /** The longest time that is no longer than the TTL and does not reach beyond the second of expiry. */
  lemma KeepSecondsIsLongest(r: LinkRecord, now: int, ttl: int, k: int)
    ensures k <= KeepSeconds(r, now, ttl) <==> k <= ttl && (r.expiresAt.Some? ==> now / 1000 + k <= r.expiresAt.value)
  {
  }

  /** An expired record is erased; any other is kept for `KeepSeconds`. */
  function Fill(c: Cache, r: LinkRecord, now: int, ttl: int, fate: WriteFate): Written {
    var seconds := KeepSeconds(r, now, ttl);
    if seconds <= 0 then Drop(c, r.code, fate)
    else
      Written(if fate.NoEffect? then c else c[r.code := Entry(Serialize(r), Some(now + seconds * 1000))],
              fate.Acknowledged?)
  }

  class RedisShortLinkCache {
    const ttlSeconds: int
    var entries: Cache

    /** A TTL outside 1 to 86400 seconds falls back to one hour. */
    constructor (ttlSeconds: int, initial: Cache)
      ensures this.ttlSeconds == if 1 <= ttlSeconds <= 86400 then ttlSeconds else 3600
      ensures entries == initial
    {
      this.ttlSeconds := if ttlSeconds <= 0 || ttlSeconds > MAX_TTL_SECONDS then DEFAULT_TTL_SECONDS else ttlSeconds;
      entries := initial;
    }

    method Get(code: string, now: int, fate: ReadFate) returns (record: Option<LinkRecord>)
      modifies this
      ensures Fetched(entries, record) == Fetch(old(entries), code, now, fate)
      ensures record.Some? <==> && fate.ReadWorks? && code in old(entries)
                                && (old(entries)[code].deadline.Some? ==> now <= old(entries)[code].deadline.value)
                                && Deserialize(code, old(entries)[code].value).Some?
      ensures record.Some? ==> record == Deserialize(code, old(entries)[code].value) && entries == old(entries)
      ensures entries != old(entries) ==>
                && fate == ReadWorks(true) && entries == old(entries) - {code}
                && Deserialize(code, old(entries)[code].value).None?
    {
      if fate.ReadFails? {
        return None;
      }
      if !Live(entries, code, now) {
        return None;
      }
      record := Decode(code, entries[code].value);
      if record.None? && fate.discarded {
        entries := entries - {code};
      }
    }

    method Set(record: LinkRecord, now: int, fate: WriteFate) returns (success: bool)
      requires ttlSeconds > 0
      modifies this
      ensures Written(entries, success) == Fill(old(entries), record, now, ttlSeconds, fate)
      ensures entries - {record.code} == old(entries) - {record.code} && success == fate.Acknowledged?
      ensures fate.NoEffect? ==> entries == old(entries)
      ensures !fate.NoEffect? ==>
                if record.expiresAt.Some? && record.expiresAt.value <= now / 1000 then record.code !in entries
                else && record.code in entries && entries[record.code].value == Serialize(record)
                     && entries[record.code].deadline == Some(now + KeepSeconds(record, now, ttlSeconds) * 1000)
    {
      var ttl := ttlSeconds;
      if record.expiresAt.Some? {
        var remaining := record.expiresAt.value - now / 1000;
        if remaining <= 0 {
          success := Erase(record.code, fate);
          return;
        }
        ttl := if remaining < ttl then remaining else ttl;
      }
      if !fate.NoEffect? {
        entries := entries[record.code := Entry(Serialize(record), Some(now + ttl * 1000))];
      }
      return fate.Acknowledged?;
    }

    method Erase(code: string, fate: WriteFate) returns (success: bool)
      modifies this
      ensures Written(entries, success) == Drop(old(entries), code, fate)
      ensures entries == (if fate.NoEffect? then old(entries) else old(entries) - {code}) && success == fate.Acknowledged?
    {
      if !fate.NoEffect? {
        entries := entries - {code};
      }
      return fate.Acknowledged?;
    }
  }

  // ---------------------------------------------------------------------------------------
  // The cached repository and the bare one.

  datatype Op =
    | Change(q: Request, erase: WriteFate)
    | Find(code: string, now: int, read: ReadFate, write: WriteFate)

  /** What a caller gets to see: the answer of a change, or the record found. */
  datatype Seen = Changed(answer: Answer) | Looked(record: Option<LinkRecord>)

  datatype State = State(store: Store, cache: Cache)

  datatype Outcome = Outcome(state: State, seen: Seen)

  function InStore(s: Store, code: string): Option<LinkRecord> {
    if code in s.links then Some(s.links[code]) else None
  }

  function Perform(s: State, op: Op, ttl: int): Outcome {
    match op
    case Change(q, erase) =>
      var step := Step(s.store, q);
      var cache := if q.Update? && step.answer.Record? then Drop(s.cache, q.code, erase).cache else s.cache;
      Outcome(State(step.store, cache), Changed(step.answer))
    case Find(code, now, read, write) =>
      var got := Fetch(s.cache, code, now, read);
      var found := InStore(s.store, code);
      if got.record.Some? then Outcome(s.(cache := got.cache), Looked(got.record))
      else if found.None? then Outcome(s.(cache := got.cache), Looked(None))
      else Outcome(s.(cache := Fill(got.cache, found.value, now, ttl, write).cache), Looked(found))
  }

  /** The same operation on the source alone. */
  function Bare(s: Store, op: Op): (Store, Seen) {
    match op
    case Change(q, _) => var step := Step(s, q); (step.store, Changed(step.answer))
    case Find(code, _, _, _) => (s, Looked(InStore(s, code)))
  }

  class RedisCachedShortLinkRepository {
    const source: MemoryShortLinkRepository
    const cache: RedisShortLinkCache

    ghost function Value(): State
      reads source, cache
    {
      State(source.Value(), cache.entries)
    }

    constructor (source: MemoryShortLinkRepository, cache: RedisShortLinkCache)
      ensures this.source == source && this.cache == cache
    {
      this.source := source;
      this.cache := cache;
    }

    method CreateLink(url: string, expiresAt: Option<int>, ownerId: nat, customCode: Option<string>, now: int)
      returns (answer: Answer)
      modifies source
      ensures forall fate ::
                Outcome(Value(), Changed(answer))
                == Perform(old(Value()), Change(Create(url, expiresAt, ownerId, customCode, now), fate), cache.ttlSeconds)
    {
      hide Step;
      answer := source.CreateLink(url, expiresAt, ownerId, customCode, now);
    }

    /** The source may throw; a hit never gets that far. */
    method FindByCode(code: string, now: int, read: ReadFate, write: WriteFate, sourceFails: bool)
      returns (record: Option<LinkRecord>, threw: bool)
      requires cache.ttlSeconds > 0
      modifies cache
      ensures threw <==> sourceFails && Fetch(old(cache.entries), code, now, read).record.None?
      ensures !threw ==> Outcome(Value(), Looked(record)) == Perform(old(Value()), Find(code, now, read, write), cache.ttlSeconds)
      ensures threw ==> cache.entries == Fetch(old(cache.entries), code, now, read).cache
      ensures !threw && Fetch(old(cache.entries), code, now, read).record.None? && !write.NoEffect? && code in source.links ==>
                var r := source.links[code];
                if r.expiresAt.Some? && r.expiresAt.value <= now / 1000 then r.code !in cache.entries
                else && r.code in cache.entries && cache.entries[r.code].value == Serialize(r)
                     && cache.entries[r.code].deadline == Some(now + KeepSeconds(r, now, cache.ttlSeconds) * 1000)
    {
      hide Fetch, Fill, Step, KeepSeconds, Serialize;
      record := cache.Get(code, now, read);
      if record.Some? {
        return record, false;
      }
      if sourceFails {
        return None, true;
      }
      if code in source.links {
        record := Some(source.links[code]);
        var _ := cache.Set(record.value, now, write);
      }
      threw := false;
    }

    method UpdateLifecycle(code: string, update: LifecycleUpdate, now: int, erase: WriteFate) returns (answer: Answer)
      modifies source, cache
      ensures Outcome(Value(), Changed(answer))
           == Perform(old(Value()), Change(Update(code, update, now), erase), cache.ttlSeconds)
    {
      hide Step;
      answer := source.UpdateLifecycle(code, update, now);
      if answer.Record? {
        var _ := cache.Erase(code, erase);
      }
    }
  }

  // ---------------------------------------------------------------------------------------
  // Refinement.

  /** Whatever decodes is the record the source holds under that code. */
  ghost predicate Coherent(s: State) {
    forall code | code in s.cache :: Agrees(s, code)
  }

  predicate Agrees(s: State, code: string)
    requires code in s.cache
  {
    var r := Deserialize(code, s.cache[code].value);
    r.Some? ==> r == InStore(s.store, code)
  }

  /** The integer types of the program hold the values involved. */
  ghost predicate Storable(s: Store) {
    forall c | c in s.links :: InRange(s.links[c])
  }

  predicate Fits(op: Op) {
    op.Change? ==>
      match op.q
      case Create(_, expiresAt, ownerId, _, now) =>
        ownerId <= MAX_UINT64 && Int64(now) && (expiresAt.Some? ==> Int64(expiresAt.value))
      case Update(_, update, now) =>
        Int64(now) && (update.expiresAt.Some? ==> Int64(update.expiresAt.value))
  }

  /** An update that changed a record erased its entry, whether or not the reply came back. */
  predicate ErasesTakeEffect(ops: seq<Op>) {
    forall i | 0 <= i < |ops| && ops[i].Change? && ops[i].q.Update? :: !ops[i].erase.NoEffect?
  }

  lemma StepKeepsStorable(s: Store, op: Op)
    requires Inv(s) && Storable(s) && Fits(op) && op.Change?
    ensures Storable(Step(s, op.q).store)
  {
    hide Base62.Code;
  }

  lemma ChangeKeepsCoherent(s: State, op: Op, ttl: int)
    requires Coherent(s) && op.Change? && (op.q.Update? ==> !op.erase.NoEffect?)
    ensures Coherent(Perform(s, op, ttl).state)
  {
    hide Base62.Code, Deserialize;
    var t := Perform(s, op, ttl).state;
    forall code | code in t.cache ensures Agrees(t, code) {
      assert Agrees(s, code);
      if op.q.Update? && code == op.q.code { assert Step(s.store, op.q).answer.Absent?; }
    }
  }

  lemma FindKeepsCoherent(s: State, op: Op, ttl: int)
    requires Coherent(s) && op.Find? && Inv(s.store) && Storable(s.store)
    ensures Coherent(Perform(s, op, ttl).state)
    ensures Perform(s, op, ttl).seen == Looked(InStore(s.store, op.code))
  {
    hide Deserialize, Serialize, Base62.Code;
    var t := Perform(s, op, ttl).state;
    if op.code in s.store.links { SerializedReadsBack(s.store.links[op.code], op.code); }
    if op.code in s.cache { assert Agrees(s, op.code); }
    forall code | code in t.cache ensures Agrees(t, code) {
      if code != op.code { assert Agrees(s, code); }
    }
  }

  /** The cache does its work: an unexpired record that was filled is found, exactly while it is to be kept. */
  lemma FilledIsFound(c: Cache, r: LinkRecord, now: int, later: int, ttl: int, fill: WriteFate, discarded: bool)
    requires InRange(r) && r.originalUrl != "" && KeepSeconds(r, now, ttl) > 0 && !fill.NoEffect?
    ensures Fetch(Fill(c, r, now, ttl, fill).cache, r.code, later, ReadWorks(discarded)).record
         == if later <= now + KeepSeconds(r, now, ttl) * 1000 then Some(r) else None
  {
    SerializedReadsBack(r, r.code);
  }

  /** The point of the cache: once a lookup has filled it, the next one is answered without the source. */
  lemma SecondLookupHits(s: State, code: string, now: int, read: ReadFate, write: WriteFate, later: int, discarded: bool, ttl: int)
    requires Coherent(s) && Inv(s.store) && Storable(s.store) && code in s.store.links
    requires Fetch(s.cache, code, now, read).record.None? && !write.NoEffect?
    requires s.store.links[code].originalUrl != ""
    requires now <= later <= now + KeepSeconds(s.store.links[code], now, ttl) * 1000 && KeepSeconds(s.store.links[code], now, ttl) > 0
    ensures var t := Perform(s, Find(code, now, read, write), ttl).state;
            Fetch(t.cache, code, later, ReadWorks(discarded)).record == Some(s.store.links[code])
  {
    hide Fetch, Fill, KeepSeconds;
    FilledIsFound(Fetch(s.cache, code, now, read).cache, s.store.links[code], now, later, ttl, write, discarded);
  }

  /** Reading alone, as far as a lookup gets whose source throws, keeps the cache coherent. */
  lemma FetchKeepsCoherent(s: State, code: string, now: int, read: ReadFate)
    requires Coherent(s)
    ensures Coherent(s.(cache := Fetch(s.cache, code, now, read).cache))
    ensures Fetch(s.cache, code, now, read).record.Some? ==> Fetch(s.cache, code, now, read).record == InStore(s.store, code)
  {
    hide Deserialize;
    var t := s.(cache := Fetch(s.cache, code, now, read).cache);
    if code in s.cache { assert Agrees(s, code); }
    forall c | c in t.cache ensures Agrees(t, c) { assert Agrees(s, c); }
  }

  function SeenCached(s: State, ops: seq<Op>, ttl: int): seq<Seen>
    decreases |ops|
  {
    if ops == [] then []
    else var o := Perform(s, ops[0], ttl); [o.seen] + SeenCached(o.state, ops[1..], ttl)
  }

  function SeenBare(s: Store, ops: seq<Op>): seq<Seen>
    decreases |ops|
  {
    if ops == [] then [] else var (t, seen) := Bare(s, ops[0]); [seen] + SeenBare(t, ops[1..])
  }

  function Changes(ops: seq<Op>): seq<Request> {
    if ops == [] then [] else (if ops[0].Change? then [ops[0].q] else []) + Changes(ops[1..])
  }

  /**
   Refinement: with erases that take effect, callers of the cached repository see exactly what
   callers of the bare source see, for every sequence of operations, whatever reads and fills
   fail and wherever the clock stands.
   */
  lemma {:induction false} CacheIsTransparent(s: State, ops: seq<Op>, ttl: int)
    requires Coherent(s) && Inv(s.store) && Storable(s.store)
    requires ErasesTakeEffect(ops) && (forall i | 0 <= i < |ops| :: Fits(ops[i]))
    requires s.store.nextId + Creates(Changes(ops)) <= MAX_UINT64
    ensures SeenCached(s, ops, ttl) == SeenBare(s.store, ops)
    decreases |ops|
  {
    hide Coherent, Inv, Storable, Fits, Step, Fetch, Fill, Drop;
    if ops != [] {
      var op, rest := ops[0], ops[1..];
      var t := Perform(s, op, ttl).state;
      assert forall i | 0 <= i < |rest| :: rest[i] == ops[i + 1];
      if op.Change? {
        assert Changes(ops) == [op.q] + Changes(rest);
        assert Creates(Changes(ops)) == (if op.q.Create? then 1 else 0) + Creates(Changes(rest));
        NextId(s.store, op.q);
        StepKeepsInv(s.store, op.q);
        StepKeepsStorable(s.store, op);
        ChangeKeepsCoherent(s, op, ttl);
      } else {
        FindKeepsCoherent(s, op, ttl);
        assert Changes(ops) == Changes(rest);
      }
      CacheIsTransparent(t, rest, ttl);
    }
  }

  /** A cache holding only values of the earlier format, bare URLs, is coherent with any source. */
  lemma LegacyCacheIsCoherent(s: State)
    requires forall code | code in s.cache :: "http://" <= s.cache[code].value || "https://" <= s.cache[code].value
    ensures Coherent(s)
  {
    forall code | code in s.cache ensures Agrees(s, code) {
      LegacyValueIsRejected(code, s.cache[code].value);
    }
  }

  /**
   An erase without effect: the cache stays right exactly when the entry it leaves behind does
   not decode or already holds the updated record.
   */
  lemma FailedEraseIsSafeIff(s: State, code: string, update: LifecycleUpdate, now: int, ttl: int)
    requires Coherent(s) && Step(s.store, Update(code, update, now)).answer.Record?
    ensures var o := Perform(s, Change(Update(code, update, now), NoEffect), ttl);
            Coherent(o.state) <==>
              (code in s.cache ==>
                 var left := Deserialize(code, s.cache[code].value);
                 left.None? || left == Some(o.seen.answer.record))
  {
    hide Deserialize;
    var t := Perform(s, Change(Update(code, update, now), NoEffect), ttl).state;
    forall c | c in t.cache && c != code ensures Agrees(t, c) { assert Agrees(s, c); }
    if code in t.cache { assert Coherent(t) ==> Agrees(t, code); }
  }

  /** A lookup that reads what such an update left behind sees the old record, not the new one. */
  lemma StaleAfterFailedErase(r: LinkRecord, now: int, ttl: int)
    requires InRange(r) && r.originalUrl != "" && r.status.Active? && Int64(now) && r.updatedAt != now
    ensures var s := State(Store(map[r.code := r], r.id + 1), map[r.code := Entry(Serialize(r), None)]);
            var disable := Update(r.code, LifecycleUpdate(Some(Disabled), false, None, None), now);
            var t := Perform(s, Change(disable, NoEffect), ttl).state;
            && Coherent(s)
            && Perform(t, Find(r.code, now, ReadWorks(true), Acknowledged), ttl).seen == Looked(Some(r))
            && InStore(t.store, r.code) == Some(r.(status := Disabled, updatedAt := now))
  {
    hide Serialize, Deserialize;
    SerializedReadsBack(r, r.code);
  }
}

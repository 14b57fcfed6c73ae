/** The optional values used throughout the model. */
module Options {
  datatype Option<+T> = None | Some(value: T)
}

/**
 Access events as the redirect service emits them, what makes one valid, and the
 classification the statistics projection applies to them.
 */
module AccessEvents {
  import opened Options

  const EVENT_ID_LENGTH := 32
  const MAX_REQUEST_ID_LENGTH := 64
  const MAX_CODE_LENGTH := 128
  const SECONDS_PER_HOUR := 3600
  const SECONDS_PER_DAY := 86400

  datatype AccessResult = Success | NotFound | Disabled | Expired | Error

  datatype AccessEvent = AccessEvent(
    eventId: string,
    occurredAtMs: int,
    requestId: string,
    code: string,
    result: AccessResult,
    httpStatus: int)

  datatype ParseError = InvalidJson | UnsupportedSchema | UnsupportedEventType | InvalidContract

  /** Outcome of decoding a payload: an event, or the class of the defect found. */
  datatype ParseResult = Event(event: AccessEvent) | Malformed(error: ParseError)

  /** The decoder hands out an event only after checking it against the contract. */
  type Decoded = d: ParseResult | d.Event? ==> ValidEvent(d.event)
    witness Malformed(InvalidJson)

  predicate LowercaseHex(s: string) {
    |s| == EVENT_ID_LENGTH && forall ch | ch in s :: '0' <= ch <= '9' || 'a' <= ch <= 'f'
  }

  predicate SafeRequestId(s: string) {
    && 0 < |s| <= MAX_REQUEST_ID_LENGTH
    && forall ch | ch in s ::
         'a' <= ch <= 'z' || 'A' <= ch <= 'Z' || '0' <= ch <= '9' || ch == '.' || ch == '_' || ch == '-'
  }

  function ExpectedStatus(result: AccessResult): int {
    match result
    case Success => 302
    case NotFound | Disabled | Expired => 404
    case Error => 500
  }

  predicate ValidEvent(e: AccessEvent) {
    && LowercaseHex(e.eventId)
    && e.occurredAtMs > 0
    && SafeRequestId(e.requestId)
    && 0 < |e.code| <= MAX_CODE_LENGTH
    && e.httpStatus == ExpectedStatus(e.result)
  }

  /** The limits of the event contract. */
  lemma ContractLimits(e: AccessEvent)
    requires ValidEvent(e)
    ensures |e.eventId| == 32 && 1 <= |e.requestId| <= 64 && 1 <= |e.code| <= 128 && e.occurredAtMs >= 1
    ensures e.httpStatus == if e.result.Success? then 302 else if e.result.Error? then 500 else 404
    ensures forall ch | ch in e.eventId :: ch in "0123456789abcdef"
  {
  }

  predicate IsAggregated(result: AccessResult) {
    result.Success? || result.Disabled? || result.Expired? || result.Error?
  }

  /** Start, in epoch seconds, of the UTC hour that contains a positive timestamp. */
  function HourOf(occurredAtMs: int): int {
    var seconds := occurredAtMs / 1000;
    seconds - seconds % SECONDS_PER_HOUR
  }

  /** Hour bucketing rejects a non-positive timestamp; otherwise the bucket is the aligned hour around it. */
  function UtcHourBucketStart(occurredAtMs: int): (r: Option<int>)
    ensures r.Some? <==> occurredAtMs > 0
    ensures r.Some? ==> r.value >= 0 && r.value % 3600 == 0
    ensures r.Some? ==> r.value * 1000 <= occurredAtMs < (r.value + 3600) * 1000
  {
    if occurredAtMs <= 0 then None else Some(HourOf(occurredAtMs))
  }

  /** An aligned hour holds a timestamp exactly when it is that timestamp's bucket. */
  lemma HourOfIsTheAlignedHour(occurredAtMs: int, hour: int)
    requires hour % 3600 == 0
    ensures HourOf(occurredAtMs) == hour <==> hour * 1000 <= occurredAtMs < (hour + 3600) * 1000
  {
    var seconds := occurredAtMs / 1000;
    var own := HourOf(occurredAtMs);
    assert own * 1000 <= occurredAtMs < (own + SECONDS_PER_HOUR) * 1000;
    if hour * 1000 <= occurredAtMs < (hour + SECONDS_PER_HOUR) * 1000 {
      assert -SECONDS_PER_HOUR < own - hour < SECONDS_PER_HOUR;
      assert (own - hour) % SECONDS_PER_HOUR == 0;
    }
  }
}

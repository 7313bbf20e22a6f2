/** Values shared by every part of the acknowledged relay: frames, payloads, limits and faults. */
module RelayTypes {
  import opened Wrappers

  newtype byte = x: int | 0 <= x < 256

  type Bytes = seq<byte>

  const MAX_SAFE: nat := 0x1F_FFFF_FFFF_FFFF
  const MAX_PHYSICAL_FRAME_BYTES: nat := 1024 * 1024
  const MAX_MESSAGE_BYTES: nat := 16 * 1024 * 1024
  const MAX_FRAGMENTS: nat := 64

  /** One physical frame. The bridge identity is the same on every frame a protocol object builds
      and is compared before anything else, so it lives in Candidate and not here. */
  datatype Frame = Frame(
    seqNo: nat,
    messageSeq: nat,
    fragmentIndex: nat,
    fragmentCount: nat,
    messageBytes: nat,
    checksum: nat,
    data: Bytes)

  datatype Payload = Data(frame: Frame) | Ack(messageSeq: nat)

  /** What arrives from the transport, before it is trusted. */
  datatype Candidate =
    | NotTransport
    | Foreign(payload: Payload)
    | Malformed
    | Own(payload: Payload)

  /** The schema of a frame: the part of it that is about numbers. */
  predicate WellFormedFrame(f: Frame) {
    && 1 <= f.seqNo <= MAX_SAFE
    && 1 <= f.messageSeq <= MAX_SAFE
    && f.fragmentIndex < f.fragmentCount <= MAX_FRAGMENTS
    && f.fragmentCount <= f.messageBytes <= MAX_MESSAGE_BYTES
    && |f.data| > 0
  }

  predicate WellFormedPayload(p: Payload) {
    match p
    case Data(f) => WellFormedFrame(f)
    case Ack(n) => 1 <= n <= MAX_SAFE
  }

  /** parseWebRemoteControlRpcTransportPayload on a candidate whose identity already matched. */
  function Parse(c: Candidate): Option<Payload> {
    if c.Own? && WellFormedPayload(c.payload) then Some(c.payload) else None
  }

  datatype Reason =
    | InvalidPhysicalSeq | InvalidMessageSeq | EmptyMessage | MessageTooLarge
    | SequenceOverflow | EnvelopeTooLarge | FragmentLimitExceeded | InternalEnvelopeError
    | OuterMeterFailed | ReplayBufferExceeded
    | SendFailed | DeliveryFailed | ManuallyDegraded
    | ReplayGraceExceeded | AckGraceExceeded | AssemblyTimeout
    | InvalidPayload | FutureAck
    | ConflictingDuplicate | PhysicalSequenceExhausted | MessageSequenceExhausted
    | PhysicalGap | MessageGap | FragmentGap | MetadataMismatch | ChecksumMismatch | LengthMismatch

  /** A CRC-32 routine and the two byte meters are foreign code: they are parameters here. */
  datatype Config = Config(
    crc: Bytes -> nat,
    envelope: Frame -> nat,
    measure: Frame -> int,
    highWaterMark: nat,
    lowWaterMark: nat,
    replayCap: nat,
    graceMs: nat,
    assemblyTimeoutMs: nat)

  /** What resolveAcknowledgedRelayLimits guarantees about the limits it returns. */
  predicate ValidLimits(cfg: Config) {
    && 0 < cfg.highWaterMark
    && cfg.lowWaterMark <= cfg.highWaterMark
    && 0 < cfg.replayCap <= 8 * 1024 * 1024
    && 0 < cfg.graceMs <= 45000
    && 0 < cfg.assemblyTimeoutMs <= 30000
  }

  datatype LimitOptions = LimitOptions(
    highWaterMark: Option<int>, lowWaterMark: Option<int>, replayCap: Option<int>, graceMs: Option<int>,
    assemblyTimeoutMs: Option<int>)

  predicate IsSafe(value: Option<int>, least: nat) {
    value.Some? ==> least <= value.value <= MAX_SAFE
  }

  function SafeInteger(value: Option<int>, default: nat, least: nat): (r: Option<nat>)
    requires least <= default <= MAX_SAFE
    ensures r.Some? <==> IsSafe(value, least)
    ensures r.Some? ==> least <= r.value <= MAX_SAFE && r.value == value.GetOr(default)
  {
    if least <= value.GetOr(default) <= MAX_SAFE then Some(value.GetOr(default)) else None
  }

  /** A limit that is given below the cap is taken, and in every other case the limit is the cap. */
  predicate Capped(value: Option<int>, cap: nat, limit: nat) {
    if value.Some? && value.value < cap then limit == value.value else limit == cap
  }

  /** resolveAcknowledgedRelayLimits, completing a configuration; None where it throws: when a limit that is given
      is not a safe integer, or the low mark is above the high one. The marks are 1 MiB and 256 KiB unless given;
      8 MiB, 45 s and 30 s are both the defaults and the caps of the others. */
  function ResolveLimits(base: Config, o: LimitOptions): (r: Option<Config>)
    ensures r.Some? <==>
      && IsSafe(o.highWaterMark, 1) && IsSafe(o.lowWaterMark, 0) && IsSafe(o.replayCap, 1) && IsSafe(o.graceMs, 1)
      && IsSafe(o.assemblyTimeoutMs, 1) && o.lowWaterMark.GetOr(256 * 1024) <= o.highWaterMark.GetOr(1024 * 1024)
    ensures r.Some? ==> ValidLimits(r.value)
    ensures r.Some? ==> r.value.highWaterMark == (if o.highWaterMark.Some? then o.highWaterMark.value else 1048576)
    ensures r.Some? ==> r.value.lowWaterMark == (if o.lowWaterMark.Some? then o.lowWaterMark.value else 262144)
    ensures r.Some? ==> Capped(o.replayCap, 8388608, r.value.replayCap)
    ensures r.Some? ==> Capped(o.graceMs, 45000, r.value.graceMs)
    ensures r.Some? ==> Capped(o.assemblyTimeoutMs, 30000, r.value.assemblyTimeoutMs)
    ensures r.Some? ==> r.value.crc == base.crc && r.value.envelope == base.envelope && r.value.measure == base.measure
  {
    var high := SafeInteger(o.highWaterMark, 1024 * 1024, 1);
    var low := SafeInteger(o.lowWaterMark, 256 * 1024, 0);
    var replay := SafeInteger(o.replayCap, 8 * 1024 * 1024, 1);
    var grace := SafeInteger(o.graceMs, 45000, 1);
    var assembly := SafeInteger(o.assemblyTimeoutMs, 30000, 1);
    if high.None? || low.None? || replay.None? || grace.None? || assembly.None? || low.value > high.value then None
    else
      Some(base.(highWaterMark := high.value, lowWaterMark := low.value, replayCap := Min(replay.value, 8 * 1024 * 1024),
                 graceMs := Min(grace.value, 45000), assemblyTimeoutMs := Min(assembly.value, 30000)))
  }

  function Min(a: int, b: int): int { if a <= b then a else b }

  function Max(a: int, b: int): int { if a >= b then a else b }
}

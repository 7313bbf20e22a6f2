/** The frame codec: cutting a message into frames, and putting frames back together.
    The encoder and the assembler are partners: RelayTransport.AssemblerFollowsHistory says what
    the assembler does with any frame that some encoder produced, wherever it turns up. */
module RelayTransport {
  import opened Wrappers
  import opened RelayTypes

  // ---------- Encoder ----------

  function Base64Length(n: nat): nat { 4 * ((n + 2) / 3) }

  /** The largest payload, at most `most`, that fits beside `fixed` envelope bytes (0 if none does). */
  function DecodedBudget(fixed: nat, most: nat): (m: nat)
    ensures m <= most
    ensures m > 0 ==> fixed + Base64Length(m) <= MAX_PHYSICAL_FRAME_BYTES
    ensures forall k :: m < k <= most ==> fixed + Base64Length(k) > MAX_PHYSICAL_FRAME_BYTES
  {
    if most == 0 || fixed + Base64Length(most) <= MAX_PHYSICAL_FRAME_BYTES then most
    else DecodedBudget(fixed, most - 1)
  }

  /** Four characters for each started group of three bytes. */
  lemma {:induction false} Base64Groups(n: nat, groups: nat)
    requires 3 * groups <= n + 2 < 3 * groups + 3
    ensures Base64Length(n) == 4 * groups
    ensures forall m: nat :: m <= n ==> Base64Length(m) <= Base64Length(n)
  {
    assert (n + 2) / 3 == groups;
  }

  /** findDecodedBudget: a binary search. */
  method FindDecodedBudget(fixed: nat, most: nat) returns (low: nat)
    ensures low == DecodedBudget(fixed, most)
  {
    low := 0;
    var high := most;
    while low < high
      invariant low <= high <= most
      invariant low > 0 ==> fixed + Base64Length(low) <= MAX_PHYSICAL_FRAME_BYTES
      invariant forall k :: high < k <= most ==> fixed + Base64Length(k) > MAX_PHYSICAL_FRAME_BYTES
      decreases high - low
    {
      var middle := (low + high + 1) / 2;
      assert low < middle <= high;
      Base64Groups(middle, (middle + 2) / 3);
      if fixed + Base64Length(middle) <= MAX_PHYSICAL_FRAME_BYTES {
        low := middle;
      } else {
        forall k | middle <= k <= most
          ensures fixed + Base64Length(k) > MAX_PHYSICAL_FRAME_BYTES
        {
          Base64Groups(k, (k + 2) / 3);
        }
        high := middle - 1;
      }
    }
  }

  function CeilDiv(a: nat, b: nat): nat
    requires b > 0
  {
    (a + b - 1) / b
  }

  /** The least number of pieces of length b that cover length a. */
  lemma CeilDivIs(a: nat, b: nat, n: nat)
    requires b > 0
    ensures n >= CeilDiv(a, b) <==> Offset(n, b) >= a
  {
    var q, r := CeilDiv(a, b), (a + b - 1) % b;
    assert a + b - 1 == b * q + r;
    if n >= q {
      assert n * b >= q * b;
    } else {
      assert n * b <= (q - 1) * b == q * b - b;
    }
  }

  /** The fragment count and per-frame budget the encoder settles on, or the reason it gives up. */
  function Plan(cfg: Config, bytes: Bytes, first: nat, messageSeq: nat, count: nat): (r: Result<(nat, nat), Reason>)
    requires 1 <= count <= MAX_FRAGMENTS
    ensures r.Ok? ==> 1 <= r.value.0 <= MAX_FRAGMENTS && r.value.1 >= 1
    ensures r.Ok? ==> CeilDiv(|bytes|, r.value.1) <= r.value.0 && first + r.value.0 - 1 <= MAX_SAFE
    decreases MAX_FRAGMENTS - count
  {
    var endSeq := first + count - 1;
    if endSeq > MAX_SAFE then Err(SequenceOverflow) else
      var empty := Frame(endSeq, messageSeq, count - 1, count, |bytes|, cfg.crc(bytes), []);
      var budget := DecodedBudget(cfg.envelope(empty), |bytes|);
      if budget < 1 then Err(EnvelopeTooLarge) else
        var required := CeilDiv(|bytes|, budget);
        if required > MAX_FRAGMENTS then Err(FragmentLimitExceeded)
        else if required <= count then Ok((count, budget))
        else Plan(cfg, bytes, first, messageSeq, required)
  }

  /** Where piece k begins if each is of length budget. */
  function Offset(k: nat, budget: nat): nat { k * budget }

  lemma OffsetStep(k: nat, budget: nat)
    ensures Offset(0, budget) == 0 && Offset(1, budget) == budget
    ensures Offset(k + 1, budget) == Offset(k, budget) + budget
  {
  }

  lemma {:induction false} OffsetGrows(k: nat, m: nat, budget: nat)
    requires k <= m && budget >= 1
    ensures Offset(k, budget) + (m - k) <= Offset(m, budget)
    decreases m
  {
    hide Offset;
    if k < m {
      OffsetStep(m - 1, budget);
      OffsetGrows(k, m - 1, budget);
    }
  }

  function Cut(length: nat, budget: nat, k: nat): (c: nat)
    ensures c <= length
  {
    if Offset(k, budget) <= length then Offset(k, budget) else length
  }

  function FrameAt(cfg: Config, bytes: Bytes, first: nat, messageSeq: nat, count: nat, budget: nat, k: nat): Frame {
    var start := Cut(|bytes|, budget, k);
    var end := Cut(|bytes|, budget, k + 1);
    Frame(first + k, messageSeq, k, count, |bytes|, cfg.crc(bytes),
          if start <= end then bytes[start..end] else [])
  }

  predicate Sendable(cfg: Config, f: Frame) {
    cfg.envelope(f) <= MAX_PHYSICAL_FRAME_BYTES && WellFormedFrame(f)
  }

  /** encodeWebRemoteControlRpcTransportMessage with the default limits. */
  function Encode(cfg: Config, bytes: Bytes, first: nat, messageSeq: nat): Result<seq<Frame>, Reason> {
    if !(1 <= first <= MAX_SAFE) then Err(InvalidPhysicalSeq)
    else if !(1 <= messageSeq <= MAX_SAFE) then Err(InvalidMessageSeq)
    else if |bytes| == 0 then Err(EmptyMessage)
    else if |bytes| > MAX_MESSAGE_BYTES then Err(MessageTooLarge)
    else match Plan(cfg, bytes, first, messageSeq, 1)
      case Err(e) => Err(e)
      case Ok((count, budget)) =>
        var frames := seq(count, k requires 0 <= k < count => FrameAt(cfg, bytes, first, messageSeq, count, budget, k));
        if exists k :: 0 <= k < count && !Sendable(cfg, frames[k]) then Err(InternalEnvelopeError)
        else Ok(frames)
  }

  function Joined(frames: seq<Frame>, k: nat): Bytes
    requires k <= |frames|
  {
    if k == 0 then [] else Joined(frames, k - 1) + frames[k - 1].data
  }

  /** What a batch of frames is for a message, without saying how it was cut. */
  ghost predicate EncodedBatch(cfg: Config, bytes: Bytes, first: nat, messageSeq: nat, frames: seq<Frame>) {
    && 1 <= |frames|
    && 1 <= first && first + |frames| - 1 <= MAX_SAFE
    && 1 <= messageSeq <= MAX_SAFE
    && Joined(frames, |frames|) == bytes
    && forall k :: 0 <= k < |frames| ==>
        && Sendable(cfg, frames[k])
        && frames[k].seqNo == first + k
        && frames[k].messageSeq == messageSeq
        && frames[k].fragmentIndex == k
        && frames[k].fragmentCount == |frames|
        && frames[k].messageBytes == |bytes|
        && frames[k].checksum == cfg.crc(bytes)
  }

  lemma CutCovers(length: nat, budget: nat, count: nat)
    requires budget >= 1 && CeilDiv(length, budget) <= count
    ensures Cut(length, budget, count) == length
  {
    var q := CeilDiv(length, budget);
    assert q * budget >= length by {
      assert (length + budget - 1) == budget * q + (length + budget - 1) % budget;
    }
    assert count * budget >= q * budget;
  }

  lemma CutStarts(length: nat, budget: nat)
    ensures Cut(length, budget, 0) == 0
  {
  }

  lemma CutGrows(length: nat, budget: nat, k: nat)
    ensures Cut(length, budget, k) <= Cut(length, budget, k + 1)
  {
    assert (k + 1) * budget == k * budget + budget;
  }

  lemma {:induction false} JoinedIsPrefix(cfg: Config, bytes: Bytes, first: nat, messageSeq: nat, count: nat,
          budget: nat, frames: seq<Frame>, k: nat)
    requires |frames| == count && k <= count
    requires forall i :: 0 <= i < count ==> frames[i] == FrameAt(cfg, bytes, first, messageSeq, count, budget, i)
    ensures Joined(frames, k) == bytes[..Cut(|bytes|, budget, k)]
  {
    hide Cut;
    if k == 0 {
      CutStarts(|bytes|, budget);
    } else {
      JoinedIsPrefix(cfg, bytes, first, messageSeq, count, budget, frames, k - 1);
      CutGrows(|bytes|, budget, k - 1);
      var start, end := Cut(|bytes|, budget, k - 1), Cut(|bytes|, budget, k);
      assert frames[k - 1] == FrameAt(cfg, bytes, first, messageSeq, count, budget, k - 1);
      assert bytes[..start] + bytes[start..end] == bytes[..end];
    }
  }

  /** Whatever the encoder returns is a batch of that message: consecutive sequence numbers,
      one shared header, every frame within the envelope limit, and the data adds up to the message. */
  lemma EncodeIsBatch(cfg: Config, bytes: Bytes, first: nat, messageSeq: nat)
    requires Encode(cfg, bytes, first, messageSeq).Ok?
    ensures EncodedBatch(cfg, bytes, first, messageSeq, Encode(cfg, bytes, first, messageSeq).value)
  {
    var frames := Encode(cfg, bytes, first, messageSeq).value;
    var (count, budget) := Plan(cfg, bytes, first, messageSeq, 1).value;
    JoinedIsPrefix(cfg, bytes, first, messageSeq, count, budget, frames, count);
    CutCovers(|bytes|, budget, count);
    assert bytes[..|bytes|] == bytes;
    assert forall k :: 0 <= k < count ==> Sendable(cfg, frames[k]);
  }

  // ---------- When a message can be sent ----------

  /** The header the encoder reckons with: that of the last of n frames, without data. */
  function LastHeader(cfg: Config, bytes: Bytes, first: nat, messageSeq: nat, n: nat): Frame
    requires n >= 1
  {
    Frame(first + n - 1, messageSeq, n - 1, n, |bytes|, cfg.crc(bytes), [])
  }

  /** What an envelope is measured to be never falls when a number in it grows, and data adds no more than its base64
      text: true of the length of a JSON text. */
  ghost predicate FairEnvelope(cfg: Config) {
    forall f: Frame, g: Frame {:trigger cfg.envelope(f), cfg.envelope(g)} ::
      HeaderUpTo(f, g) && g.data == [] ==> cfg.envelope(f) <= cfg.envelope(g) + Base64Length(|f.data|)
  }

  predicate HeaderUpTo(f: Frame, g: Frame) {
    && f.seqNo <= g.seqNo && f.fragmentIndex <= g.fragmentIndex && f.fragmentCount <= g.fragmentCount
    && f.messageSeq == g.messageSeq && f.messageBytes == g.messageBytes && f.checksum == g.checksum
  }

  /** b bytes of the message fit into each of n frames. */
  predicate Fits(cfg: Config, bytes: Bytes, first: nat, messageSeq: nat, n: nat, b: nat)
    requires n >= 1
  {
    && 1 <= b <= |bytes|
    && cfg.envelope(LastHeader(cfg, bytes, first, messageSeq, n)) + Base64Length(b) <= 1048576
  }

  /** n frames can be numbered, and are enough for the message. */
  ghost predicate Suffices(cfg: Config, bytes: Bytes, first: nat, messageSeq: nat, n: nat) {
    && 1 <= n <= 64 && first + n - 1 <= MAX_SAFE
    && exists b: nat :: Fits(cfg, bytes, first, messageSeq, n, b) && Offset(n, b) >= |bytes|
  }

  function Budget(cfg: Config, bytes: Bytes, first: nat, messageSeq: nat, n: nat): nat
    requires n >= 1
  {
    DecodedBudget(cfg.envelope(LastHeader(cfg, bytes, first, messageSeq, n)), |bytes|)
  }

  lemma BudgetShrinks(cfg: Config, bytes: Bytes, first: nat, messageSeq: nat, c: nat, n: nat)
    requires FairEnvelope(cfg) && 1 <= c <= n
    ensures Budget(cfg, bytes, first, messageSeq, n) <= Budget(cfg, bytes, first, messageSeq, c)
  {
    var few, many := LastHeader(cfg, bytes, first, messageSeq, c), LastHeader(cfg, bytes, first, messageSeq, n);
    assert cfg.envelope(few) <= cfg.envelope(many) + Base64Length(0);
    var b := Budget(cfg, bytes, first, messageSeq, n);
    if b > 0 {
      assert cfg.envelope(few) + Base64Length(b) <= MAX_PHYSICAL_FRAME_BYTES;
    }
  }

  lemma BudgetIsLargest(cfg: Config, bytes: Bytes, first: nat, messageSeq: nat, n: nat, b: nat)
    requires n >= 1
    ensures Fits(cfg, bytes, first, messageSeq, n, b) ==> b <= Budget(cfg, bytes, first, messageSeq, n)
    ensures b == Budget(cfg, bytes, first, messageSeq, n) >= 1 ==> Fits(cfg, bytes, first, messageSeq, n, b)
  {
  }

  lemma TimesGrows(n: nat, a: nat, b: nat)
    requires a <= b
    ensures Offset(n, a) <= Offset(n, b)
  {
  }

  /** If n frames suffice, the budget of any smaller count asks for no more than n. */
  lemma NeverPast(cfg: Config, bytes: Bytes, first: nat, messageSeq: nat, c: nat, n: nat)
    requires FairEnvelope(cfg) && 1 <= c <= n && |bytes| > 0 && Suffices(cfg, bytes, first, messageSeq, n)
    ensures var b := Budget(cfg, bytes, first, messageSeq, c);
      b >= 1 && CeilDiv(|bytes|, b) <= n
  {
    var fitting: nat :| Fits(cfg, bytes, first, messageSeq, n, fitting) && Offset(n, fitting) >= |bytes|;
    var b := Budget(cfg, bytes, first, messageSeq, c);
    BudgetShrinks(cfg, bytes, first, messageSeq, c, n);
    BudgetIsLargest(cfg, bytes, first, messageSeq, n, fitting);
    TimesGrows(n, fitting, b);
    CeilDivIs(|bytes|, b, n);
  }

  /** The plan of n frames of b bytes: no fewer frames suffice, the last one is not empty, and b is all that fits. */
  ghost predicate Tight(cfg: Config, bytes: Bytes, first: nat, messageSeq: nat, n: nat, b: nat) {
    && Suffices(cfg, bytes, first, messageSeq, n) && Fits(cfg, bytes, first, messageSeq, n, b)
    && (forall k: nat :: Suffices(cfg, bytes, first, messageSeq, k) ==> n <= k)
    && (forall k: nat :: Fits(cfg, bytes, first, messageSeq, n, k) ==> k <= b)
    && Offset(n - 1, b) < |bytes| <= Offset(n, b)
  }

  lemma {:induction false} PlanIsTight(cfg: Config, bytes: Bytes, first: nat, messageSeq: nat, count: nat)
    requires FairEnvelope(cfg) && |bytes| > 0 && 1 <= count <= MAX_FRAGMENTS
    requires forall k: nat :: Suffices(cfg, bytes, first, messageSeq, k) ==> count <= k
    requires Offset(count - 1, Budget(cfg, bytes, first, messageSeq, count)) < |bytes|
    ensures var r := Plan(cfg, bytes, first, messageSeq, count);
      if r.Ok? then Tight(cfg, bytes, first, messageSeq, r.value.0, r.value.1)
      else forall k: nat :: !Suffices(cfg, bytes, first, messageSeq, k)
    decreases MAX_FRAGMENTS - count
  {
    hide FairEnvelope, CeilDiv, Suffices, Fits, Budget;
    var b := Budget(cfg, bytes, first, messageSeq, count);
    forall k: nat | Suffices(cfg, bytes, first, messageSeq, k)
      ensures first + count - 1 <= MAX_SAFE && b >= 1 && CeilDiv(|bytes|, b) <= k <= MAX_FRAGMENTS
    {
      EnoughIsPossible(cfg, bytes, first, messageSeq, count, k);
    }
    PlanStep(cfg, bytes, first, messageSeq, count);
    if first + count - 1 <= MAX_SAFE && b >= 1 {
      var required := CeilDiv(|bytes|, b);
      if required <= count {
        StepIsTight(cfg, bytes, first, messageSeq, count);
      } else if required <= MAX_FRAGMENTS {
        NextIsNotLess(cfg, bytes, first, messageSeq, count, required);
        PlanIsTight(cfg, bytes, first, messageSeq, required);
      }
    }
  }

  /** One round of the encoder's loop. */
  lemma PlanStep(cfg: Config, bytes: Bytes, first: nat, messageSeq: nat, count: nat)
    requires 1 <= count <= MAX_FRAGMENTS
    ensures var r, b := Plan(cfg, bytes, first, messageSeq, count), Budget(cfg, bytes, first, messageSeq, count);
      if first + count - 1 > MAX_SAFE then r == Err(SequenceOverflow)
      else if b < 1 then r == Err(EnvelopeTooLarge)
      else if CeilDiv(|bytes|, b) > MAX_FRAGMENTS then r == Err(FragmentLimitExceeded)
      else if CeilDiv(|bytes|, b) <= count then r == Ok((count, b))
      else r == Plan(cfg, bytes, first, messageSeq, CeilDiv(|bytes|, b))
  {
  }

  lemma EnoughIsPossible(cfg: Config, bytes: Bytes, first: nat, messageSeq: nat, count: nat, k: nat)
    requires FairEnvelope(cfg) && |bytes| > 0 && 1 <= count <= k && Suffices(cfg, bytes, first, messageSeq, k)
    ensures var b := Budget(cfg, bytes, first, messageSeq, count);
      first + count - 1 <= MAX_SAFE && b >= 1 && CeilDiv(|bytes|, b) <= k <= MAX_FRAGMENTS
  {
    hide FairEnvelope, CeilDiv, Budget;
    NeverPast(cfg, bytes, first, messageSeq, count, k);
  }

  lemma StepIsTight(cfg: Config, bytes: Bytes, first: nat, messageSeq: nat, count: nat)
    requires 1 <= count <= MAX_FRAGMENTS && first + count - 1 <= MAX_SAFE
    requires Budget(cfg, bytes, first, messageSeq, count) >= 1
    requires CeilDiv(|bytes|, Budget(cfg, bytes, first, messageSeq, count)) <= count
    requires Offset(count - 1, Budget(cfg, bytes, first, messageSeq, count)) < |bytes|
    requires forall k: nat :: Suffices(cfg, bytes, first, messageSeq, k) ==> count <= k
    ensures Tight(cfg, bytes, first, messageSeq, count, Budget(cfg, bytes, first, messageSeq, count))
  {
    hide CeilDiv, Budget, Fits;
    var b := Budget(cfg, bytes, first, messageSeq, count);
    CeilDivIs(|bytes|, b, count);
    BudgetIsLargest(cfg, bytes, first, messageSeq, count, b);
    forall k: nat | Fits(cfg, bytes, first, messageSeq, count, k)
      ensures k <= b
    {
      BudgetIsLargest(cfg, bytes, first, messageSeq, count, k);
    }
  }

  lemma NextIsNotLess(cfg: Config, bytes: Bytes, first: nat, messageSeq: nat, count: nat, required: nat)
    requires FairEnvelope(cfg) && 1 <= count < required && Budget(cfg, bytes, first, messageSeq, count) >= 1
    requires required == CeilDiv(|bytes|, Budget(cfg, bytes, first, messageSeq, count))
    ensures Offset(required - 1, Budget(cfg, bytes, first, messageSeq, required)) < |bytes|
  {
    hide FairEnvelope, CeilDiv, Budget;
    BudgetShrinks(cfg, bytes, first, messageSeq, count, required);
    CeilDivIs(|bytes|, Budget(cfg, bytes, first, messageSeq, count), required - 1);
    TimesGrows(required - 1, Budget(cfg, bytes, first, messageSeq, required), Budget(cfg, bytes, first, messageSeq, count));
  }

  /** Every frame of a tight plan carries data and stays within the envelope limit. */
  lemma TightIsSendable(cfg: Config, bytes: Bytes, first: nat, messageSeq: nat, n: nat, b: nat, k: nat)
    requires FairEnvelope(cfg) && 1 <= first && 1 <= messageSeq <= MAX_SAFE && |bytes| <= MAX_MESSAGE_BYTES
    requires Tight(cfg, bytes, first, messageSeq, n, b) && k < n
    ensures var f := FrameAt(cfg, bytes, first, messageSeq, n, b, k);
      && Sendable(cfg, f) && Offset(k, b) < |bytes| && (k + 1 < n ==> Offset(k, b) + b <= |bytes|)
      && f.data == (if k + 1 < n then bytes[Offset(k, b)..Offset(k, b) + b] else bytes[Offset(k, b)..])
      && 1 <= |f.data| <= b
  {
    hide FairEnvelope, Cut, Offset;
    CutPoints(|bytes|, n, b, k);
    var f := FrameAt(cfg, bytes, first, messageSeq, n, b, k);
    Base64Groups(b, (b + 2) / 3);
    FrameFits(cfg, bytes, first, messageSeq, n, f);
  }

  lemma FrameFits(cfg: Config, bytes: Bytes, first: nat, messageSeq: nat, n: nat, f: Frame)
    requires FairEnvelope(cfg) && n >= 1 && HeaderUpTo(f, LastHeader(cfg, bytes, first, messageSeq, n))
    ensures cfg.envelope(f) <= cfg.envelope(LastHeader(cfg, bytes, first, messageSeq, n)) + Base64Length(|f.data|)
  {
  }

  lemma CutPoints(length: nat, n: nat, b: nat, k: nat)
    requires b >= 1 && k < n && Offset(n - 1, b) < length <= Offset(n, b)
    ensures Cut(length, b, k) == Offset(k, b) < length && n <= length
    ensures Cut(length, b, k + 1) == (if k + 1 < n then Offset(k, b) + b else length) <= Offset(k, b) + b
  {
    hide Offset;
    OffsetStep(k, b);
    OffsetGrows(k, n - 1, b);
    OffsetGrows(0, n - 1, b);
    if k + 1 < n {
      OffsetGrows(k + 1, n - 1, b);
    }
  }

  /** How the message is cut: n frames, all but the last with b bytes. */
  ghost predicate CutInto(bytes: Bytes, frames: seq<Frame>, b: nat) {
    forall k :: 0 <= k < |frames| ==> PieceOf(bytes, |frames|, b, k, frames[k].data)
  }

  predicate PieceOf(bytes: Bytes, n: nat, b: nat, k: nat, data: Bytes) {
    && k * b < |bytes| && (k + 1 < n ==> k * b + b <= |bytes|)
    && data == if k + 1 < n then bytes[k * b..k * b + b] else bytes[k * b..]
  }

  lemma ThePiece(bytes: Bytes, n: nat, b: nat, k: nat, data: Bytes)
    requires Offset(k, b) < |bytes| && (k + 1 < n ==> Offset(k, b) + b <= |bytes|)
    requires data == if k + 1 < n then bytes[Offset(k, b)..Offset(k, b) + b] else bytes[Offset(k, b)..]
    ensures PieceOf(bytes, n, b, k, data)
  {
  }

  /** A message can be sent exactly if its numbers are in range, it is neither empty nor too long, and some number of
      frames up to 64 suffices for it. It is then cut into the fewest frames that suffice, each filled to the brim but
      the last: the encoder's own check of its frames never fails. */
  lemma EncodesWhen(cfg: Config, bytes: Bytes, first: nat, messageSeq: nat)
    requires FairEnvelope(cfg)
    ensures Encode(cfg, bytes, first, messageSeq).Ok? <==>
      && 1 <= first <= MAX_SAFE && 1 <= messageSeq <= MAX_SAFE && 1 <= |bytes| <= 16777216
      && exists n: nat :: Suffices(cfg, bytes, first, messageSeq, n)
    ensures Encode(cfg, bytes, first, messageSeq).Ok? ==>
      var frames := Encode(cfg, bytes, first, messageSeq).value;
      exists b: nat :: Tight(cfg, bytes, first, messageSeq, |frames|, b) && CutInto(bytes, frames, b)
    ensures Encode(cfg, bytes, first, messageSeq) != Err(InternalEnvelopeError)
  {
    if 1 <= first <= MAX_SAFE && 1 <= messageSeq <= MAX_SAFE && 1 <= |bytes| <= MAX_MESSAGE_BYTES {
      PlanIsTight(cfg, bytes, first, messageSeq, 1);
      PlanHasReasons(cfg, bytes, first, messageSeq, 1);
      var plan := Plan(cfg, bytes, first, messageSeq, 1);
      if plan.Ok? {
        PlannedIsEncoded(cfg, bytes, first, messageSeq, plan.value.0, plan.value.1);
      }
    }
  }

  lemma {:induction false} PlanHasReasons(cfg: Config, bytes: Bytes, first: nat, messageSeq: nat, count: nat)
    requires 1 <= count <= MAX_FRAGMENTS
    ensures Plan(cfg, bytes, first, messageSeq, count) != Err(InternalEnvelopeError)
    decreases MAX_FRAGMENTS - count
  {
    var b := Budget(cfg, bytes, first, messageSeq, count);
    if first + count - 1 <= MAX_SAFE && b >= 1 && count < CeilDiv(|bytes|, b) <= MAX_FRAGMENTS {
      PlanHasReasons(cfg, bytes, first, messageSeq, CeilDiv(|bytes|, b));
    }
  }

  lemma PlannedIsEncoded(cfg: Config, bytes: Bytes, first: nat, messageSeq: nat, n: nat, b: nat)
    requires FairEnvelope(cfg) && 1 <= first <= MAX_SAFE && 1 <= messageSeq <= MAX_SAFE
    requires 1 <= |bytes| <= MAX_MESSAGE_BYTES
    requires Plan(cfg, bytes, first, messageSeq, 1) == Ok((n, b)) && Tight(cfg, bytes, first, messageSeq, n, b)
    ensures var r := Encode(cfg, bytes, first, messageSeq);
      r.Ok? && |r.value| == n && CutInto(bytes, r.value, b)
  {
    hide FairEnvelope, Tight, FrameAt, Sendable, PieceOf, Offset;
    var frames := seq(n, k requires 0 <= k < n => FrameAt(cfg, bytes, first, messageSeq, n, b, k));
    forall k | 0 <= k < n
      ensures Sendable(cfg, frames[k]) && PieceOf(bytes, n, b, k, frames[k].data)
    {
      TightIsSendable(cfg, bytes, first, messageSeq, n, b, k);
      ThePiece(bytes, n, b, k, frames[k].data);
    }
  }

  // ---------- Assembler ----------

  datatype Fingerprint = Fingerprint(
    seqNo: nat, messageSeq: nat, fragmentIndex: nat, fragmentCount: nat,
    messageBytes: nat, checksum: nat, length: nat, crc: nat)

  function Print(cfg: Config, f: Frame): Fingerprint {
    Fingerprint(f.seqNo, f.messageSeq, f.fragmentIndex, f.fragmentCount, f.messageBytes, f.checksum, |f.data|, cfg.crc(f.data))
  }

  datatype Active = Active(
    messageSeq: nat, fragmentCount: nat, messageBytes: nat, checksum: nat,
    firstSeenAt: int, stagedBytes: nat, fragments: seq<Bytes>, prints: map<nat, Fingerprint>)

  datatype Assembler = Assembler(
    expectedPhysicalSeq: nat, expectedMessageSeq: nat, lastCompleted: nat,
    physicalExhausted: bool, messageExhausted: bool,
    settled: map<nat, Fingerprint>, active: Option<Active>)

  datatype Event =
    | Incomplete
    | Duplicate(ack: Option<nat>)
    | Complete(messageSeq: nat, bytes: Bytes)
    | Fault(reason: Reason)

  const FRESH_ASSEMBLER := Assembler(1, 1, 0, false, false, map[], None)

  predicate Expired(cfg: Config, a: Assembler, now: int) {
    a.active.Some? && now - a.active.value.firstSeenAt >= cfg.assemblyTimeoutMs
  }

  function LastAck(a: Assembler): Option<nat> {
    if a.lastCompleted > 0 then Some(a.lastCompleted) else None
  }

  function JoinedBytes(fragments: seq<Bytes>): Bytes {
    if fragments == [] then [] else JoinedBytes(fragments[..|fragments| - 1]) + fragments[|fragments| - 1]
  }

  /** WebRemoteControlRpcTransportAssembler.accept on a frame that already passed the schema. */
  function Accept(cfg: Config, a: Assembler, f: Frame, now: int): (Assembler, Event) {
    if Expired(cfg, a, now) then (a, Fault(AssemblyTimeout))
    else if cfg.envelope(f) > MAX_PHYSICAL_FRAME_BYTES then (a, Fault(EnvelopeTooLarge))
    else if a.active.Some? && f.seqNo in a.active.value.prints then
      (a, if a.active.value.prints[f.seqNo] != Print(cfg, f) then Fault(ConflictingDuplicate) else Duplicate(LastAck(a)))
    else if f.seqNo in a.settled then
      (a, if a.settled[f.seqNo] == Print(cfg, f) then Duplicate(LastAck(a))
          else if a.physicalExhausted && f.messageSeq != a.settled[f.seqNo].messageSeq then Fault(PhysicalSequenceExhausted)
          else Fault(ConflictingDuplicate))
    else if f.seqNo < a.expectedPhysicalSeq then (a, Duplicate(LastAck(a)))
    else if a.physicalExhausted then (a, Fault(PhysicalSequenceExhausted))
    else if a.messageExhausted && a.active.None? then (a, Fault(MessageSequenceExhausted))
    else if f.seqNo > a.expectedPhysicalSeq then (a, Fault(PhysicalGap))
    else if f.messageSeq != a.expectedMessageSeq then (a, Fault(MessageGap))
    else if f.seqNo == MAX_SAFE && f.fragmentIndex + 1 < f.fragmentCount then (a, Fault(PhysicalSequenceExhausted))
    else if f.fragmentIndex != (if a.active.Some? then |a.active.value.fragments| else 0) then (a, Fault(FragmentGap))
    else if a.active.Some? && (f.fragmentCount != a.active.value.fragmentCount || f.messageBytes != a.active.value.messageBytes) then
      (a, Fault(MetadataMismatch))
    else if a.active.Some? && f.checksum != a.active.value.checksum then (a, Fault(ChecksumMismatch))
    else Stage(cfg, a, f, now)
  }

  function OpenFor(a: Assembler, f: Frame, now: int): Active {
    if a.active.Some? then a.active.value
    else Active(f.messageSeq, f.fragmentCount, f.messageBytes, f.checksum, now, 0, [], map[])
  }

  function StagedWith(cfg: Config, open: Active, f: Frame): Active {
    open.(fragments := open.fragments + [f.data],
          prints := open.prints[f.seqNo := Print(cfg, f)],
          stagedBytes := open.stagedBytes + |f.data|)
  }

  function Moved(a: Assembler, seqNo: nat, staged: Active): Assembler {
    a.(active := Some(staged),
       physicalExhausted := seqNo == MAX_SAFE || a.physicalExhausted,
       expectedPhysicalSeq := if seqNo == MAX_SAFE then a.expectedPhysicalSeq else a.expectedPhysicalSeq + 1)
  }

  function Closed(moved: Assembler, staged: Active): Assembler {
    moved.(settled := staged.prints,
           active := None,
           lastCompleted := staged.messageSeq,
           messageExhausted := staged.messageSeq == MAX_SAFE || moved.messageExhausted,
           expectedMessageSeq := if staged.messageSeq == MAX_SAFE then moved.expectedMessageSeq else moved.expectedMessageSeq + 1)
  }

  /** The second half of accept: the frame is the next one, so it is staged and may close the message. */
  function Stage(cfg: Config, a: Assembler, f: Frame, now: int): (Assembler, Event) {
    var open := OpenFor(a, f, now);
    if open.stagedBytes + |f.data| > open.messageBytes then (a, Fault(LengthMismatch)) else
      var staged := StagedWith(cfg, open, f);
      var moved := Moved(a, f.seqNo, staged);
      if |staged.fragments| < staged.fragmentCount then (moved, Incomplete)
      else if staged.stagedBytes != staged.messageBytes then (moved, Fault(LengthMismatch))
      else if cfg.crc(JoinedBytes(staged.fragments)) != staged.checksum then (moved, Fault(ChecksumMismatch))
      else (Closed(moved, staged), Complete(staged.messageSeq, JoinedBytes(staged.fragments)))
  }

  // ---------- What the assembler takes from anyone ----------

  /** What is staged is an unfinished message, the one that is next. */
  predicate AssemblerInv(a: Assembler) {
    a.active.Some? ==>
      var open := a.active.value;
      && open.messageSeq == a.expectedMessageSeq && open.stagedBytes == |JoinedBytes(open.fragments)|
      && 1 <= |open.fragments| < open.fragmentCount
  }

  function HeldBytes(a: Assembler): Bytes { if a.active.Some? then JoinedBytes(a.active.value.fragments) else [] }

  function HeldFragments(a: Assembler): nat { if a.active.Some? then |a.active.value.fragments| else 0 }

  /** Any well-formed frame, whoever made it: only the next frame of the next message is staged, as the fragment that is
      missing next; a message is completed only at its last fragment, with the number of bytes and the checksum that
      its frames announce, and consists of the fragments staged before and this one; a duplicate changes nothing and
      was passed already, and if the assembler still knows the frame, it is the same one. */
  lemma OnlyIntactMessagesComplete(cfg: Config, a: Assembler, f: Frame, now: int)
    requires AssemblerInv(a) && WellFormedFrame(f)
    ensures var (t, e) := Accept(cfg, a, f, now);
      && (!e.Fault? ==> AssemblerInv(t) && !Expired(cfg, a, now) && cfg.envelope(f) <= 1048576)
      && (e.Incomplete? || e.Complete? ==>
            f.seqNo == a.expectedPhysicalSeq && f.messageSeq == a.expectedMessageSeq && f.fragmentIndex == HeldFragments(a))
      && (e.Incomplete? ==> f.fragmentIndex + 1 < f.fragmentCount && HeldBytes(t) == HeldBytes(a) + f.data)
      && (e.Complete? ==>
            && f.fragmentIndex + 1 == f.fragmentCount && t.active.None?
            && e.messageSeq == f.messageSeq && e.bytes == HeldBytes(a) + f.data
            && |e.bytes| == f.messageBytes && cfg.crc(e.bytes) == f.checksum)
      && (e.Duplicate? ==>
            && t == a && e.ack == (if a.lastCompleted > 0 then Some(a.lastCompleted) else None)
            && (f.seqNo in a.settled && (a.active.None? || f.seqNo !in a.active.value.prints) ==>
                  a.settled[f.seqNo] == Print(cfg, f))
            && (a.active.Some? && f.seqNo in a.active.value.prints ==> a.active.value.prints[f.seqNo] == Print(cfg, f)))
  {
    hide Print, WellFormedFrame;
    var open := OpenFor(a, f, now);
    assert JoinedBytes(open.fragments + [f.data]) == JoinedBytes(open.fragments) + f.data by {
      assert (open.fragments + [f.data])[..|open.fragments|] == open.fragments;
    }
    assert f.fragmentIndex < f.fragmentCount by {
      FragmentOfAFrame(f);
    }
  }

  lemma FragmentOfAFrame(f: Frame)
    requires WellFormedFrame(f)
    ensures f.fragmentIndex < f.fragmentCount
  {
  }

  // ---------- The sender's history, and where a receiver stands in it ----------

  /** Frames before message index m. */
  ghost function Start(hist: seq<seq<Frame>>, m: nat): nat
    requires m <= |hist|
  {
    if m == 0 then 0 else Start(hist, m - 1) + |hist[m - 1]|
  }

  ghost predicate BatchOf(cfg: Config, messages: seq<Bytes>, hist: seq<seq<Frame>>, m: nat) {
    && m < |hist| && m < |messages|
    && EncodedBatch(cfg, messages[m], Start(hist, m) + 1, m + 1, hist[m])
  }

  /** The batches of all messages a sender ever reserved, numbered without a hole. */
  ghost predicate History(cfg: Config, messages: seq<Bytes>, hist: seq<seq<Frame>>) {
    && |messages| == |hist|
    && forall m {:trigger BatchOf(cfg, messages, hist, m)} :: 0 <= m < |hist| ==> BatchOf(cfg, messages, hist, m)
  }

  predicate Authentic(hist: seq<seq<Frame>>, f: Frame) {
    && 1 <= f.messageSeq <= |hist|
    && f.fragmentIndex < |hist[f.messageSeq - 1]|
    && hist[f.messageSeq - 1][f.fragmentIndex] == f
  }

  lemma {:induction false} StartMonotone(hist: seq<seq<Frame>>, m: nat, n: nat)
    requires m <= n <= |hist|
    ensures Start(hist, m) <= Start(hist, n)
    ensures m < n ==> Start(hist, m) + |hist[m]| <= Start(hist, n)
    decreases n
  {
    if m < n {
      StartMonotone(hist, m, n - 1);
    }
  }

  lemma {:induction false} StartOfExtension(hist: seq<seq<Frame>>, more: seq<seq<Frame>>, m: nat)
    requires m <= |hist|
    ensures Start(hist + more, m) == Start(hist, m)
  {
    if m > 0 {
      StartOfExtension(hist, more, m - 1);
      assert (hist + more)[m - 1] == hist[m - 1];
    }
  }

  ghost predicate Holds(cfg: Config, prints: map<nat, Fingerprint>, frames: seq<Frame>, k: nat)
    requires k <= |frames|
  {
    && (forall i :: 0 <= i < k ==> frames[i].seqNo in prints && prints[frames[i].seqNo] == Print(cfg, frames[i]))
    && (forall s :: s in prints ==> exists i :: 0 <= i < k && frames[i].seqNo == s)
  }

  /** What the assembly holds before and after the next frame is staged. */
  ghost predicate OpenHolds(cfg: Config, batch: seq<Frame>, open: Active, k: nat)
    requires k <= |batch| && |batch| > 0
  {
    && open.messageSeq == batch[0].messageSeq
    && open.fragmentCount == |batch|
    && open.messageBytes == batch[0].messageBytes
    && open.checksum == batch[0].checksum
    && |open.fragments| == k
    && (forall i :: 0 <= i < k ==> open.fragments[i] == batch[i].data)
    && open.stagedBytes == |Joined(batch, k)|
    && Holds(cfg, open.prints, batch, k)
  }

  /** The counters of an assembler that completed `done` messages and took in `taken` frames. */
  predicate CountersAt(a: Assembler, done: nat, taken: nat) {
    && a.lastCompleted == done
    && (if done == MAX_SAFE then a.messageExhausted && a.expectedMessageSeq == MAX_SAFE
        else !a.messageExhausted && a.expectedMessageSeq == done + 1)
    && (if taken == MAX_SAFE then a.physicalExhausted && a.expectedPhysicalSeq == MAX_SAFE
        else !a.physicalExhausted && a.expectedPhysicalSeq == taken + 1)
  }

  /** The assembler stands after the first `done` messages of the history and k frames of the next. */
  ghost predicate StandsAt(cfg: Config, hist: seq<seq<Frame>>, a: Assembler, done: nat, k: nat) {
    && done <= |hist|
    && CountersAt(a, done, Start(hist, done) + k)
    && (if done == 0 then a.settled == map[] else Holds(cfg, a.settled, hist[done - 1], |hist[done - 1]|))
    && (match a.active
        case None => k == 0
        case Some(open) =>
          && done < |hist| && 0 < k < |hist[done]|
          && open.messageSeq == done + 1
          && OpenHolds(cfg, hist[done], open, k))
  }

  lemma {:induction false} JoinedGrows(frames: seq<Frame>, k: nat, n: nat)
    requires k <= n <= |frames|
    ensures |Joined(frames, k)| <= |Joined(frames, n)|
  {
    if k < n {
      JoinedGrows(frames, k, n - 1);
    }
  }

  lemma {:induction false} JoinedBytesAgrees(frames: seq<Frame>, k: nat, fragments: seq<Bytes>)
    requires k <= |frames| && |fragments| == k
    requires forall i :: 0 <= i < k ==> fragments[i] == frames[i].data
    ensures JoinedBytes(fragments) == Joined(frames, k)
  {
    if k > 0 {
      JoinedBytesAgrees(frames, k - 1, fragments[..k - 1]);
    }
  }

  lemma AuthenticPosition(cfg: Config, messages: seq<Bytes>, hist: seq<seq<Frame>>, f: Frame)
    requires History(cfg, messages, hist) && Authentic(hist, f)
    ensures f.seqNo == Start(hist, f.messageSeq - 1) + 1 + f.fragmentIndex
    ensures f.fragmentCount == |hist[f.messageSeq - 1]| && Sendable(cfg, f)
    ensures f.messageBytes == |messages[f.messageSeq - 1]| && f.checksum == cfg.crc(messages[f.messageSeq - 1])
    ensures f.seqNo <= Start(hist, |hist|)
  {
    StartMonotone(hist, f.messageSeq, |hist|);
    assert BatchOf(cfg, messages, hist, f.messageSeq - 1);
  }

  /** A sequence number names one frame of the history. */
  lemma SeqNamesFrame(cfg: Config, messages: seq<Bytes>, hist: seq<seq<Frame>>, f: Frame, m: nat, i: nat)
    requires History(cfg, messages, hist) && Authentic(hist, f)
    requires m < |hist| && i < |hist[m]|
    ensures hist[m][i].seqNo == Start(hist, m) + 1 + i
    ensures f.seqNo == hist[m][i].seqNo <==> f.messageSeq == m + 1 && f.fragmentIndex == i
    ensures f.seqNo == hist[m][i].seqNo ==> f == hist[m][i]
  {
    AuthenticPosition(cfg, messages, hist, f);
    assert BatchOf(cfg, messages, hist, m);
    var n := f.messageSeq - 1;
    if n < m {
      StartMonotone(hist, n, m);
    } else if m < n {
      StartMonotone(hist, m, n);
    }
  }

  lemma RecognisesOldFrame(cfg: Config, messages: seq<Bytes>, hist: seq<seq<Frame>>, prints: map<nat, Fingerprint>,
                           m: nat, k: nat, f: Frame)
    requires History(cfg, messages, hist) && Authentic(hist, f)
    requires m < |hist| && k <= |hist[m]| && Holds(cfg, prints, hist[m], k)
    ensures f.seqNo in prints <==> Start(hist, m) < f.seqNo <= Start(hist, m) + k
    ensures f.seqNo in prints ==> prints[f.seqNo] == Print(cfg, f)
  {
    if f.seqNo in prints {
      var i :| 0 <= i < k && hist[m][i].seqNo == f.seqNo;
      SeqNamesFrame(cfg, messages, hist, f, m, i);
    }
    if Start(hist, m) < f.seqNo <= Start(hist, m) + k {
      SeqNamesFrame(cfg, messages, hist, f, m, f.seqNo - Start(hist, m) - 1);
    }
  }

  lemma OldFrameIsDuplicate(cfg: Config, messages: seq<Bytes>, hist: seq<seq<Frame>>, a: Assembler, done: nat, k: nat,
                            f: Frame, now: int)
    requires History(cfg, messages, hist) && StandsAt(cfg, hist, a, done, k) && Authentic(hist, f)
    requires !Expired(cfg, a, now)
    requires f.seqNo <= Start(hist, done) + k
    ensures Accept(cfg, a, f, now) == (a, Duplicate(if done > 0 then Some(done) else None))
  {
    AuthenticPosition(cfg, messages, hist, f);
    if a.active.Some? {
      RecognisesOldFrame(cfg, messages, hist, a.active.value.prints, done, k, f);
    }
    if done > 0 {
      RecognisesOldFrame(cfg, messages, hist, a.settled, done - 1, |hist[done - 1]|, f);
      assert BatchOf(cfg, messages, hist, done - 1);
    }
  }

  lemma NewFrameIsUnknown(cfg: Config, messages: seq<Bytes>, hist: seq<seq<Frame>>, a: Assembler, done: nat, k: nat,
          f: Frame)
    requires History(cfg, messages, hist) && StandsAt(cfg, hist, a, done, k) && Authentic(hist, f)
    requires f.seqNo > Start(hist, done) + k
    ensures a.active.Some? ==> f.seqNo !in a.active.value.prints
    ensures f.seqNo !in a.settled && !a.physicalExhausted && !a.messageExhausted
    ensures f.seqNo >= a.expectedPhysicalSeq && Sendable(cfg, f) && done < |hist|
  {
    AuthenticPosition(cfg, messages, hist, f);
    if a.active.Some? {
      RecognisesOldFrame(cfg, messages, hist, a.active.value.prints, done, k, f);
    }
    if done > 0 {
      RecognisesOldFrame(cfg, messages, hist, a.settled, done - 1, |hist[done - 1]|, f);
    }
    if f.messageSeq <= done {
      StartMonotone(hist, f.messageSeq, done);
    }
  }

  lemma NextFrameIs(cfg: Config, messages: seq<Bytes>, hist: seq<seq<Frame>>, done: nat, k: nat, f: Frame)
    requires History(cfg, messages, hist) && Authentic(hist, f)
    requires done < |hist| && k < |hist[done]|
    requires f.seqNo == Start(hist, done) + k + 1
    ensures f == hist[done][k]
  {
    SeqNamesFrame(cfg, messages, hist, f, done, k);
  }

  lemma OpenGrows(cfg: Config, bytes: Bytes, first: nat, messageSeq: nat, batch: seq<Frame>, open: Active, k: nat)
    requires EncodedBatch(cfg, bytes, first, messageSeq, batch) && k < |batch|
    requires OpenHolds(cfg, batch, open, k)
    ensures open.stagedBytes + |batch[k].data| <= open.messageBytes
    ensures OpenHolds(cfg, batch, StagedWith(cfg, open, batch[k]), k + 1)
  {
    assert Joined(batch, k + 1) == Joined(batch, k) + batch[k].data;
    JoinedGrows(batch, k + 1, |batch|);
    assert batch[0].messageBytes == |bytes|;
    HoldsGrows(cfg, open.prints, batch, k);
  }

  /** Staging a frame of a batch never faults; at the last frame it yields the message itself. */
  lemma StageOfBatch(cfg: Config, bytes: Bytes, first: nat, messageSeq: nat, batch: seq<Frame>, a: Assembler, k: nat,
          now: int)
    requires EncodedBatch(cfg, bytes, first, messageSeq, batch) && k < |batch|
    requires OpenHolds(cfg, batch, OpenFor(a, batch[k], now), k)
    ensures var staged := StagedWith(cfg, OpenFor(a, batch[k], now), batch[k]);
      Stage(cfg, a, batch[k], now) ==
        if k + 1 < |batch| then (Moved(a, first + k, staged), Incomplete)
        else (Closed(Moved(a, first + k, staged), staged), Complete(messageSeq, bytes))
  {
    hide Holds, Joined, WellFormedFrame, Print;
    var open := OpenFor(a, batch[k], now);
    OpenGrows(cfg, bytes, first, messageSeq, batch, open, k);
    JoinedBytesAgrees(batch, k + 1, open.fragments + [batch[k].data]);
  }

  /** The assembly a frame goes into, new or already open, holds the frames before it. */
  lemma OpensAt(cfg: Config, messages: seq<Bytes>, hist: seq<seq<Frame>>, a: Assembler, done: nat, k: nat, now: int)
    requires History(cfg, messages, hist) && StandsAt(cfg, hist, a, done, k)
    requires done < |hist| && k < |hist[done]|
    ensures OpenHolds(cfg, hist[done], OpenFor(a, hist[done][k], now), k)
  {
    hide Print, Authentic, WellFormedFrame, Sendable, Plan, Encode, FrameAt;
    assert BatchOf(cfg, messages, hist, done);
  }

  lemma StageWithin(cfg: Config, messages: seq<Bytes>, hist: seq<seq<Frame>>, a: Assembler, done: nat, k: nat, now: int)
    requires History(cfg, messages, hist) && StandsAt(cfg, hist, a, done, k)
    requires done < |hist| && k + 1 < |hist[done]|
    ensures var (a', e) := Stage(cfg, a, hist[done][k], now);
      e == Incomplete && StandsAt(cfg, hist, a', done, k + 1)
  {
    hide Stage, Print, Authentic, WellFormedFrame, Sendable, Plan, Encode, FrameAt, Joined, Holds;
    var batch := hist[done];
    assert BatchOf(cfg, messages, hist, done);
    OpensAt(cfg, messages, hist, a, done, k, now);
    OpenGrows(cfg, messages[done], Start(hist, done) + 1, done + 1, batch, OpenFor(a, batch[k], now), k);
    StageOfBatch(cfg, messages[done], Start(hist, done) + 1, done + 1, batch, a, k, now);
  }

  lemma StageCloses(cfg: Config, messages: seq<Bytes>, hist: seq<seq<Frame>>, a: Assembler, done: nat, k: nat, now: int)
    requires History(cfg, messages, hist) && StandsAt(cfg, hist, a, done, k)
    requires done < |hist| && k + 1 == |hist[done]|
    ensures var (a', e) := Stage(cfg, a, hist[done][k], now);
      e == Complete(done + 1, messages[done]) && StandsAt(cfg, hist, a', done + 1, 0)
  {
    hide Stage, Print, Authentic, WellFormedFrame, Sendable, Plan, Encode, FrameAt, Joined, Holds;
    var batch := hist[done];
    var first := Start(hist, done) + 1;
    assert BatchOf(cfg, messages, hist, done);
    var open := OpenFor(a, batch[k], now);
    OpensAt(cfg, messages, hist, a, done, k, now);
    var staged := StagedWith(cfg, open, batch[k]);
    StageOfBatch(cfg, messages[done], first, done + 1, batch, a, k, now);
    var a' := Closed(Moved(a, first + k, staged), staged);
    assert OpenHolds(cfg, batch, staged, k + 1) by {
      OpenGrows(cfg, messages[done], first, done + 1, batch, open, k);
    }
    assert Start(hist, done + 1) == Start(hist, done) + |batch|;
    assert CountersAt(a', done + 1, Start(hist, done + 1));
    assert StandsAt(cfg, hist, a', done + 1, 0);
  }

  lemma HoldsGrows(cfg: Config, prints: map<nat, Fingerprint>, frames: seq<Frame>, k: nat)
    requires k < |frames| && Holds(cfg, prints, frames, k)
    requires forall i :: 0 <= i < k ==> frames[i].seqNo != frames[k].seqNo
    ensures Holds(cfg, prints[frames[k].seqNo := Print(cfg, frames[k])], frames, k + 1)
  {
    var more := prints[frames[k].seqNo := Print(cfg, frames[k])];
    forall s | s in more
      ensures exists i :: 0 <= i < k + 1 && frames[i].seqNo == s
    {
      if s == frames[k].seqNo {
        assert frames[k].seqNo == s;
      } else {
        var i :| 0 <= i < k && frames[i].seqNo == s;
        assert frames[i].seqNo == s;
      }
    }
  }

  /** The whole behaviour of the assembler on any frame of the sender's history, wherever and however
      often it turns up: old frames are duplicates, the next frame advances by exactly one place and
      hands out exactly the sender's message at its last fragment, and a later frame is a gap.
      No other fault exists. */
  lemma AssemblerFollowsHistory(cfg: Config, messages: seq<Bytes>, hist: seq<seq<Frame>>, a: Assembler,
                                done: nat, k: nat, f: Frame, now: int)
    requires History(cfg, messages, hist) && StandsAt(cfg, hist, a, done, k) && Authentic(hist, f)
    requires !Expired(cfg, a, now)
    ensures var (a', e) := Accept(cfg, a, f, now);
      var p := Start(hist, done) + k;
      if f.seqNo <= p then a' == a && e == Duplicate(if done > 0 then Some(done) else None)
      else if f.seqNo > p + 1 then e == Fault(PhysicalGap)
      else
        && done < |hist| && k < |hist[done]| && f == hist[done][k]
        && if k + 1 < |hist[done]| then e == Incomplete && StandsAt(cfg, hist, a', done, k + 1)
           else e == Complete(done + 1, messages[done]) && StandsAt(cfg, hist, a', done + 1, 0)
  {
    if f.seqNo <= Start(hist, done) + k {
      OldFrameIsDuplicate(cfg, messages, hist, a, done, k, f, now);
    } else {
      NewFrameIsUnknown(cfg, messages, hist, a, done, k, f);
      if f.seqNo == Start(hist, done) + k + 1 {
        assert BatchOf(cfg, messages, hist, done);
        NextFrameIs(cfg, messages, hist, done, k, f);
        if k + 1 < |hist[done]| {
          StageWithin(cfg, messages, hist, a, done, k, now);
        } else {
          StageCloses(cfg, messages, hist, a, done, k, now);
        }
      }
    }
  }
}

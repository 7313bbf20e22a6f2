/** The outbound queue: one growing storage, a head behind which slots are released, and a cursor.
    Its abstract value is a plain sequence of batches with a position in it. */
module RelayBatchQueue {
  import opened Wrappers
  import opened RelayTypes
  import opened RelayEndpoint

  const COMPACT_RELEASED_PREFIX_THRESHOLD: nat := 1024

  function Values(slots: seq<Option<Batch>>): (s: seq<Batch>)
    requires forall i :: 0 <= i < |slots| ==> slots[i].Some?
    ensures |s| == |slots|
    ensures forall i :: 0 <= i < |s| ==> s[i] == slots[i].value
  {
    if slots == [] then [] else [slots[0].value] + Values(slots[1..])
  }

  class BatchQueue {
    var storage: seq<Option<Batch>>
    var headIndex: nat
    var nextUnsentIndex: nat
    // How many batches were released, and how many slots compaction copied, since the queue was made.
    ghost var released: nat
    ghost var copied: nat

    /** What holds even before compaction has had its chance. */
    ghost predicate Loose()
      reads this
    {
      && headIndex <= nextUnsentIndex <= |storage|
      && (forall i :: 0 <= i < headIndex ==> storage[i] == None)
      && (forall i :: headIndex <= i < |storage| ==> storage[i].Some?)
      && copied + headIndex <= released
    }

    ghost predicate Valid()
      reads this
    {
      Loose() && (headIndex < COMPACT_RELEASED_PREFIX_THRESHOLD || headIndex * 2 < |storage|)
    }

    /** The batches not yet released, oldest first. */
    ghost function Contents(): (s: seq<Batch>)
      requires Loose()
      reads this
      ensures |s| == |storage| - headIndex
    {
      Values(storage[headIndex..])
    }

    ghost function Cursor(): (c: nat)
      requires Loose()
      reads this
      ensures c <= |storage| - headIndex
    {
      nextUnsentIndex - headIndex
    }

    constructor ()
      ensures Valid() && Contents() == [] && Cursor() == 0
    {
      storage := [];
      headIndex, nextUnsentIndex := 0, 0;
      released, copied := 0, 0;
    }

    /** Released slots hold no batch, and there are never many of them: at most 1023, or fewer than
        the batches still held; and compaction has copied no more slots than were released. */
    lemma StorageIsBounded()
      requires Valid()
      ensures |storage| <= Max(|Contents()| + 1023, 2 * |Contents()| - 1)
      ensures forall i :: 0 <= i < |storage| ==> (storage[i] == None <==> i < headIndex)
      ensures copied <= released
    {
    }

    method Oldest() returns (b: Option<Batch>)
      requires Valid()
      ensures b == if Contents() == [] then None else Some(Contents()[0])
    {
      b := if headIndex < |storage| then storage[headIndex] else None;
    }

    method NextUnsent() returns (b: Option<Batch>)
      requires Valid()
      ensures b == if Cursor() == |Contents()| then None else Some(Contents()[Cursor()])
    {
      b := if nextUnsentIndex < |storage| then storage[nextUnsentIndex] else None;
    }

    method ActiveCount() returns (n: nat)
      requires Valid()
      ensures n == |Contents()|
    {
      n := |storage| - headIndex;
    }

    /** retainedBatchReferenceCount: no released batch is still referenced. */
    method RetainedReferences() returns (n: nat)
      requires Valid()
      ensures n == |Contents()|
    {
      n := 0;
      for i := 0 to |storage|
        invariant n == if i <= headIndex then 0 else i - headIndex
      {
        if storage[i].Some? {
          n := n + 1;
        }
      }
    }

    /** retainedPayloadBytes: exactly the bytes of the batches not yet released. */
    method RetainedBytes() returns (bytes: nat)
      requires Valid()
      ensures bytes == OuterBytes(Contents())
    {
      bytes := 0;
      for i := 0 to |storage|
        invariant bytes == OuterBytes(Contents()[..if i <= headIndex then 0 else i - headIndex])
      {
        if storage[i].Some? {
          bytes := bytes + storage[i].value.outerBytes;
          OuterBytesSnoc(Contents(), i - headIndex);
        }
      }
      assert Contents()[..|Contents()|] == Contents();
    }

    method Append(b: Batch)
      requires Valid()
      modifies this`storage
      ensures Valid() && Contents() == old(Contents()) + [b] && Cursor() == old(Cursor())
    {
      storage := storage + [Some(b)];
      assert Contents() == old(Contents()) + [b];
    }

    /** The batch at the cursor got one more frame out. */
    method MarkFrameSent()
      requires Valid() && Cursor() < |Contents()|
      modifies this`storage
      ensures Valid() && Cursor() == old(Cursor())
      ensures var b := old(Contents())[Cursor()];
        Contents() == old(Contents())[Cursor() := b.(nextFrameIndex := b.nextFrameIndex + 1)]
    {
      var b := storage[nextUnsentIndex].value;
      storage := storage[nextUnsentIndex := Some(b.(nextFrameIndex := b.nextFrameIndex + 1))];
    }

    method AdvanceUnsent()
      requires Valid()
      modifies this`nextUnsentIndex
      ensures Valid() && Contents() == old(Contents())
      ensures Cursor() == if old(Cursor()) < |Contents()| then old(Cursor()) + 1 else old(Cursor())
    {
      if nextUnsentIndex < |storage| {
        nextUnsentIndex := nextUnsentIndex + 1;
      }
    }

    /** Every held batch will be sent again from its first frame. */
    method ResetReplay()
      requires Valid()
      modifies this`nextUnsentIndex, this`storage
      ensures Valid() && Contents() == Rewound(old(Contents())) && Cursor() == 0
    {
      var index := headIndex;
      while index < |storage|
        invariant headIndex <= index <= |storage| == |old(storage)|
        invariant forall i :: 0 <= i < headIndex ==> storage[i] == None
        invariant forall i :: headIndex <= i < index ==> storage[i] == Some(old(storage)[i].value.(nextFrameIndex := 0))
        invariant forall i :: index <= i < |storage| ==> storage[i] == old(storage)[i]
      {
        if storage[index].Some? {
          storage := storage[index := Some(storage[index].value.(nextFrameIndex := 0))];
        }
        index := index + 1;
      }
      nextUnsentIndex := headIndex;
    }

    /** The releasing loop of releaseThrough: the head moves past every batch the ACK covers. */
    method ReleaseHeads(ack: nat) returns (releasedBytes: nat, releasedCount: nat)
      requires Valid()
      modifies this`storage, this`headIndex, this`released
      ensures releasedCount == ReleaseCount(old(Contents()), ack)
      ensures releasedBytes == OuterBytes(old(Contents())[..releasedCount])
      ensures headIndex == old(headIndex) + releasedCount <= |storage| == |old(storage)|
      ensures forall i :: 0 <= i < headIndex ==> storage[i] == None
      ensures forall i :: headIndex <= i < |storage| ==> storage[i] == old(storage)[i]
      ensures released == old(released) + releasedCount
    {
      hide OuterBytes, ReleaseCount;
      releasedBytes, releasedCount := 0, 0;
      ghost var before := Contents();
      assert before[0..] == before;
      ReleaseCountAt(before, ack, 0);
      while headIndex < |storage|
        invariant headIndex == old(headIndex) + releasedCount <= |storage| == |old(storage)|
        invariant releasedCount + ReleaseCount(before[releasedCount..], ack) == ReleaseCount(before, ack)
        invariant releasedBytes == OuterBytes(before[..releasedCount])
        invariant forall i :: 0 <= i < headIndex ==> storage[i] == None
        invariant forall i :: headIndex <= i < |storage| ==> storage[i] == old(storage)[i]
        invariant released == old(released) + releasedCount
      {
        var b := storage[headIndex].value;
        assert b == before[releasedCount];
        ReleaseCountAt(before, ack, releasedCount);
        if b.messageSeq > ack {
          break;
        }
        OuterBytesSnoc(before, releasedCount);
        releasedBytes := releasedBytes + b.outerBytes;
        releasedCount := releasedCount + 1;
        storage := storage[headIndex := None];
        headIndex := headIndex + 1;
        released := released + 1;
      }
      ReleaseCountAt(before, ack, releasedCount);
    }

    /** A cumulative acknowledgement releases the batches it covers and no other. */
    method ReleaseThrough(ack: nat) returns (releasedBytes: nat, releasedCount: nat)
      requires Valid()
      modifies this
      ensures Valid() && released == old(released) + releasedCount
      ensures releasedCount == ReleaseCount(old(Contents()), ack)
      ensures releasedBytes == OuterBytes(old(Contents())[..releasedCount])
      ensures Contents() == old(Contents())[releasedCount..]
      ensures Cursor() == Max(old(Cursor()) - releasedCount, 0)
    {
      releasedBytes, releasedCount := ReleaseHeads(ack);
      nextUnsentIndex := if nextUnsentIndex >= headIndex then nextUnsentIndex else headIndex;
      assert Contents() == old(Contents())[releasedCount..];
      CompactReleasedPrefix();
    }

    method Clear()
      requires Valid()
      modifies this
      ensures Valid() && Contents() == [] && Cursor() == 0 && storage == []
    {
      storage := [];
      headIndex, nextUnsentIndex := 0, 0;
    }

    /** Compaction drops released slots only: what is held, in which order, and where the cursor
        stands do not change, and it copies no more slots than were released since the last time. */
    method CompactReleasedPrefix()
      requires Loose()
      modifies this
      ensures Valid() && Contents() == old(Contents()) && Cursor() == old(Cursor()) && released == old(released)
    {
      if headIndex < COMPACT_RELEASED_PREFIX_THRESHOLD || headIndex * 2 < |storage| {
        return;
      }
      var releasedPrefix := headIndex;
      copied := copied + (|storage| - releasedPrefix);
      storage := storage[releasedPrefix..];
      nextUnsentIndex := Max(0, nextUnsentIndex - releasedPrefix);
      headIndex := 0;
      assert storage[headIndex..] == old(storage[headIndex..]);
    }
  }

  lemma {:induction false} OuterBytesSnoc(queue: seq<Batch>, k: nat)
    requires k < |queue|
    ensures OuterBytes(queue[..k + 1]) == OuterBytes(queue[..k]) + queue[k].outerBytes
  {
    if k > 0 {
      OuterBytesSnoc(queue[1..], k - 1);
      assert queue[..k + 1][1..] == queue[1..][..k] && queue[..k][1..] == queue[1..][..k - 1];
    }
  }

  lemma {:induction false} ReleaseCountAt(queue: seq<Batch>, ack: nat, k: nat)
    requires k <= |queue|
    ensures k == 0 ==> queue[k..] == queue
    ensures k == |queue| || queue[k].messageSeq > ack ==> ReleaseCount(queue[k..], ack) == 0
    ensures OuterBytes(queue[..0]) == 0
    ensures k < |queue| && queue[k].messageSeq <= ack ==>
      ReleaseCount(queue[k..], ack) == 1 + ReleaseCount(queue[k + 1..], ack)
  {
    if k < |queue| {
      assert queue[k..][1..] == queue[k + 1..];
    }
  }
}

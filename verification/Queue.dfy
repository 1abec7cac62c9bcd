/**
  The one bounded queue between the capture side and the archive worker, and
  the ingest listener's back-pressure rule over it.
*/
module Queue {
  import opened Wrappers
  import opened Ledger

  class FrameQueue {
    const capacity: nat
    var buffer: seq<Frame>
    var closed: bool
    /** Frames taken in, and frames refused because the queue was full. */
    var enqueued: nat
    var overflowed: nat
    /** The position the next accepted frame will have. */
    var next: nat
    /** Everything ever accepted, in order. */
    ghost var accepted: seq<Sample>

    ghost predicate Valid()
      reads this
    {
      && 1 <= capacity
      && |buffer| <= capacity
      && next == |accepted|
    }

    /** `start` are the frames an earlier run left on disk: accepted already. */
    constructor (size: nat, start: nat, ghost earlier: seq<Sample>)
      requires start == |earlier|
      ensures Valid() && capacity == (if size == 0 then 1 else size)
      ensures buffer == [] && !closed && enqueued == 0 && overflowed == 0
      ensures accepted == earlier
    {
      capacity := if size == 0 then 1 else size;
      buffer, closed, enqueued, overflowed, next := [], false, 0, 0, start;
      accepted := earlier;
    }

    /** One offer: accepted and numbered, counted as overflow, or ignored. */
    method Enqueue(sample: Sample)
      requires Valid()
      modifies this
      ensures Valid() && closed == old(closed)
      ensures if old(closed) then
                buffer == old(buffer) && accepted == old(accepted)
                && enqueued == old(enqueued) && overflowed == old(overflowed)
              else if old(|buffer|) == capacity then
                buffer == old(buffer) && accepted == old(accepted)
                && enqueued == old(enqueued) && overflowed == old(overflowed) + 1
              else
                buffer == old(buffer) + [Frame(old(next), sample)]
                && accepted == old(accepted) + [sample]
                && enqueued == old(enqueued) + 1 && overflowed == old(overflowed)
    {
      if closed {
        return;
      }
      if |buffer| == capacity {
        overflowed := overflowed + 1;
        return;
      }
      buffer := buffer + [Frame(next, sample)];
      accepted := accepted + [sample];
      next := next + 1;
      enqueued := enqueued + 1;
    }

    method TryRecv() returns (taken: Option<Frame>)
      requires Valid()
      modifies this`buffer
      ensures Valid()
      ensures old(buffer) == [] ==> taken == None && buffer == []
      ensures old(buffer) != [] ==> taken == Some(old(buffer)[0]) && buffer == old(buffer)[1..]
    {
      if buffer == [] {
        return None;
      }
      taken := Some(buffer[0]);
      buffer := buffer[1..];
    }

    method Close()
      requires Valid()
      modifies this`closed
      ensures Valid() && closed
    {
      closed := true;
    }

    /** Closed and drained. */
    predicate Finished()
      reads this
    {
      closed && buffer == []
    }

    function OccupancyPct(): (pct: nat)
      requires Valid()
      reads this
      ensures pct <= 100 && (pct == 100 <==> |buffer| == capacity)
    {
      Percent(|buffer|, capacity)
    }
  }

  function Percent(size: nat, cap: nat): (pct: nat)
    requires 1 <= cap && size <= cap
    ensures pct * cap <= size * 100 < (pct + 1) * cap
    ensures pct <= 100 && (pct == 100 <==> size == cap)
  {
    PercentBounds(size, cap);
    size * 100 / cap
  }

  lemma PercentBounds(size: nat, cap: nat)
    requires 1 <= cap && size <= cap
    ensures var pct := size * 100 / cap;
            0 <= pct && pct * cap <= size * 100 < (pct + 1) * cap
            && pct <= 100 && (pct == 100 <==> size == cap)
  {
    var pct := size * 100 / cap;
    assert size * 100 == cap * pct + size * 100 % cap;
    assert pct * cap == cap * pct;
    assert (pct + 1) * cap == cap * pct + cap;
    if pct > 100 {
      assert cap * 101 <= cap * pct by { MulMonotone(cap, 101, pct); }
    }
    if pct < 100 {
      assert cap * (pct + 1) <= cap * 100 by { MulMonotone(cap, pct + 1, 100); }
    }
    if pct < 0 {
      assert cap * (pct + 1) <= cap * 0 by { MulMonotone(cap, pct + 1, 0); }
    }
  }

  lemma MulMonotone(c: nat, a: int, b: int)
    requires a <= b
    ensures c * a <= c * b
  {
  }
}

module Ingest {
  import opened Ledger
  import opened Queue

  const REFUSE_ABOVE_PCT: nat := 99

  datatype AckStatus = AckOk | AckOverloaded | AckMalformed

  /**
    A batch of `n` is safe behind the refusal threshold exactly when it is no
    larger than a hundredth of the queue and one more.
  */
  lemma RoomBehindThreshold(cap: nat, n: nat)
    requires 1 <= cap
    ensures (forall size: nat :: size <= cap && Percent(size, cap) < REFUSE_ABOVE_PCT ==> size + n <= cap)
       <==> n <= cap / 100 + 1
  {
    if n <= cap / 100 + 1 {
      forall size: nat | size <= cap && Percent(size, cap) < REFUSE_ABOVE_PCT
        ensures size + n <= cap
      {
        MulMonotone(cap, Percent(size, cap) + 1, 99);
        assert size * 100 < cap * 99;
      }
    } else {
      // The fullest queue that still accepts.
      var size := cap - cap / 100 - 1;
      assert 0 <= size < cap;
      assert size * 100 < 99 * cap;
      if Percent(size, cap) >= 99 {
        MulMonotone(cap, 99, Percent(size, cap));
      }
      assert Percent(size, cap) < REFUSE_ABOVE_PCT && !(size + n <= cap);
    }
  }

  /** The refusal threshold, as a share of the queue. */
  lemma ThresholdIs(size: nat, cap: nat)
    requires 1 <= cap && size <= cap
    ensures Percent(size, cap) >= REFUSE_ABOVE_PCT <==> size * 100 >= 99 * cap
  {
    if Percent(size, cap) >= 99 {
      MulMonotone(cap, 99, Percent(size, cap));
    } else {
      MulMonotone(cap, Percent(size, cap) + 1, 99);
    }
  }

  /** How many of a batch of `n` find no room behind `size` frames, if nobody takes any out. */
  function Overflow(size: nat, cap: nat, n: nat): nat
  {
    if size + n <= cap then 0 else size + n - cap
  }

  /** At the fullest occupancy that is still accepted, a batch over the bound loses just what it is over by. */
  lemma ALargerBatchOverflows(cap: nat, n: nat)
    requires 1 <= cap && n > cap / 100 + 1
    ensures var size := cap - cap / 100 - 1;
            && 0 <= size <= cap && Percent(size, cap) < REFUSE_ABOVE_PCT
            && Overflow(size, cap, n) == n - (cap / 100 + 1)
  {
    var size := cap - cap / 100 - 1;
    assert size * 100 < 99 * cap;
    if Percent(size, cap) >= 99 {
      MulMonotone(cap, 99, Percent(size, cap));
    }
  }

  /** One connected device. */
  class Session {
    const archive: FrameQueue
    const relaysRawSerial: bool

    constructor (archive: FrameQueue, relaysRawSerial: bool)
      ensures this.archive == archive && this.relaysRawSerial == relaysRawSerial
    {
      this.archive, this.relaysRawSerial := archive, relaysRawSerial;
    }

    /** The archive worker, meanwhile: takes any number of frames, and may close the queue. */
    method WorkerRuns() returns (ghost removed: nat)
      requires archive.Valid()
      modifies archive`buffer, archive`closed
      ensures archive.Valid()
      ensures |archive.buffer| + removed == old(|archive.buffer|)
      ensures old(archive.closed) ==> archive.closed
    {
      var turns: nat := *;
      removed := 0;
      while turns > 0
        invariant archive.Valid() && |archive.buffer| + removed == old(|archive.buffer|)
        invariant old(archive.closed) ==> archive.closed
      {
        var closing: bool := *;
        if closing {
          archive.Close();
        } else {
          var taken := archive.TryRecv();
          removed := removed + if taken.Some? then 1 else 0;
        }
        turns := turns - 1;
      }
    }

    /**
      `size` is how full the queue was when the batch was let in, `removed`
      what the worker has taken out since, and `took` how many samples went in.
    */
    method Batch(samples: seq<Sample>)
      returns (status: AckStatus, ghost size: nat, ghost removed: nat, ghost took: nat)
      requires archive.Valid()
      modifies archive
      ensures archive.Valid()
      ensures status == AckMalformed <==>
                !relaysRawSerial && exists i :: 0 <= i < |samples| && samples[i].kind == Serial
      // A refusal takes nothing in.
      ensures status != AckOk ==> archive.accepted == old(archive.accepted)
                                  && archive.overflowed == old(archive.overflowed)
      // It is let in exactly below ninety-nine hundredths, and refused only from there on or once closed.
      ensures status == AckOk ==> size <= archive.capacity && size * 100 < 99 * archive.capacity
      ensures status == AckOverloaded ==> archive.closed || size * 100 >= 99 * archive.capacity
      // Any batch: at most the overflow is dropped, and all of it if the worker takes nothing out.
      ensures status == AckOk ==>
                archive.overflowed - old(archive.overflowed) <= Overflow(size, archive.capacity, |samples|)
      ensures status == AckOk && removed == 0 && !archive.closed ==>
                archive.overflowed - old(archive.overflowed) == Overflow(size, archive.capacity, |samples|)
      // A batch within the bound goes in whole, or up to where the queue was closed.
      ensures status == AckOk && |samples| <= archive.capacity / 100 + 1 ==>
                && took <= |samples| && (took < |samples| ==> archive.closed)
                && archive.accepted == old(archive.accepted) + samples[..took]
                && archive.enqueued == old(archive.enqueued) + took
                && archive.overflowed == old(archive.overflowed)
    {
      size, removed, took := 0, 0, 0;
      if !relaysRawSerial && exists i :: 0 <= i < |samples| && samples[i].kind == Serial {
        return AckMalformed, size, removed, took;
      }
      ghost var _ := WorkerRuns();
      size := |archive.buffer|;
      ThresholdIs(size, archive.capacity);
      if archive.closed || archive.OccupancyPct() >= REFUSE_ABOVE_PCT {
        return AckOverloaded, size, removed, took;
      }
      RoomBehindThreshold(archive.capacity, |samples|);
      var i := 0;
      while i < |samples|
        invariant 0 <= i <= |samples| && archive.Valid()
        invariant old(archive.overflowed) <= archive.overflowed && old(archive.enqueued) <= archive.enqueued
        invariant |archive.buffer| + removed == size + (archive.enqueued - old(archive.enqueued))
        invariant (archive.enqueued - old(archive.enqueued)) + (archive.overflowed - old(archive.overflowed)) <= i
        invariant archive.overflowed - old(archive.overflowed) <= Overflow(size, archive.capacity, i)
        invariant !archive.closed ==>
                    (archive.enqueued - old(archive.enqueued)) + (archive.overflowed - old(archive.overflowed)) == i
        invariant removed == 0 && !archive.closed ==>
                    archive.overflowed - old(archive.overflowed) == Overflow(size, archive.capacity, i)
        invariant |samples| <= archive.capacity / 100 + 1 ==>
                    && took <= i && (took < i ==> archive.closed)
                    && archive.accepted == old(archive.accepted) + samples[..took]
                    && archive.enqueued == old(archive.enqueued) + took
                    && archive.overflowed == old(archive.overflowed)
      {
        ghost var gone := WorkerRuns();
        removed := removed + gone;
        ghost var open := !archive.closed;
        archive.Enqueue(samples[i]);
        i := i + 1;
        took := if open then i else took;
      }
      ghost var gone := WorkerRuns();
      removed := removed + gone;
      return AckOk, size, removed, took;
    }
  }
}

/** Slot arithmetic: block production is scheduled in slots of
    `BlockInterval` seconds, and a producer decides from the slot bounds
    whether it may mint now. */
module DevoteSlots {
  import opened Primitives
  import opened DevoteTypes

  /** `PrevSlot(now)`: start of the slot before the one `now` falls in,
      computed with Go's truncating `int64` division. */
  function PrevSlot(now: int): (r: int)
    ensures r % BlockInterval == 0
    ensures now >= 1 ==> now - BlockInterval <= r < now
  {
    GoDiv(now - 1, BlockInterval) * BlockInterval
  }

  /** `NextSlot(now)`: `now` rounded up to a multiple of the slot width. */
  function NextSlot(now: int): (r: int)
    ensures r % BlockInterval == 0
    ensures now >= 1 ==> now <= r < now + BlockInterval
  {
    GoDiv(now + BlockInterval - 1, BlockInterval) * BlockInterval
  }

  /** For every positive time both bounds are slot boundaries, they enclose
      `now` (inclusive only above) and lie exactly one slot apart. */
  lemma SlotBounds(now: int)
    requires now >= 1
    ensures PrevSlot(now) % BlockInterval == 0 && NextSlot(now) % BlockInterval == 0
    ensures PrevSlot(now) < now <= NextSlot(now)
    ensures NextSlot(now) - PrevSlot(now) == BlockInterval
    ensures now % BlockInterval == 0 ==> NextSlot(now) == now
  {
    var q := (now - 1) / BlockInterval;
    var r := (now - 1) % BlockInterval;
    assert now - 1 == q * BlockInterval + r;
    assert PrevSlot(now) == q * BlockInterval;
    assert (now + BlockInterval - 1) / BlockInterval == q + 1;
    assert NextSlot(now) == (q + 1) * BlockInterval;
  }

  /** At time zero Go's truncation gives 0 where a floor would give -10. */
  lemma PrevSlotAtZero()
    ensures PrevSlot(0) == 0 && NextSlot(0) == 0
  {
  }

  /** The producer's "time's up" window `NextSlot(now) - now <= 1` holds
      exactly in the last second of a slot and on its boundary. */
  lemma DeadlineWindow(now: int)
    requires now >= 1
    ensures NextSlot(now) - now <= 1 <==> now % BlockInterval == 0 || now % BlockInterval == BlockInterval - 1
  {
    var q := (now - 1) / BlockInterval;
    var r := (now - 1) % BlockInterval;
    assert now - 1 == q * BlockInterval + r;
    assert (now + BlockInterval - 1) / BlockInterval == q + 1;
    assert NextSlot(now) - now == BlockInterval - 1 - r;
    assert now % BlockInterval == (r + 1) % BlockInterval;
  }

  /** `checkDeadline`: may a producer whose last block carries time
      `lastTime` mint at `now`? A last block already in the next slot is a
      future block, and that takes precedence; otherwise minting proceeds
      when the last block closed the previous slot or the slot is about to
      end, and the producer waits in every other case. */
  function CheckDeadline(lastTime: int, now: int): (r: Status)
    ensures lastTime >= NextSlot(now) ==> r == Fail(ErrMintFutureBlock)
    ensures lastTime < NextSlot(now) ==>
              (r == Ok <==> lastTime == PrevSlot(now) || NextSlot(now) - now <= 1)
    ensures r != Ok && lastTime < NextSlot(now) ==> r == Fail(ErrWaitForPrevBlock)
  {
    var prevSlot := PrevSlot(now);
    var nextSlot := NextSlot(now);
    if lastTime >= nextSlot then Fail(ErrMintFutureBlock)
    else if lastTime == prevSlot || nextSlot - now <= 1 then Ok
    else Fail(ErrWaitForPrevBlock)
  }

  /** A producer that is allowed to mint has a last block no later than
      `now`, and it is either exactly on the previous boundary or `now` is in
      the final second of the slot or on its boundary. */
  lemma DeadlineAllowsMinting(lastTime: int, now: int)
    requires now >= 1
    requires CheckDeadline(lastTime, now) == Ok
    ensures lastTime <= now
    ensures lastTime == PrevSlot(now) || now % BlockInterval == 0 || now % BlockInterval == BlockInterval - 1
  {
    SlotBounds(now);
    DeadlineWindow(now);
  }
}

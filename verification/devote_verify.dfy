/** Header validation: the ordered checks a candidate header must pass
    before its seal is looked at, and the sequential batch form. */
module DevoteVerify {
  import opened Primitives
  import opened DevoteTypes

  /** One check of an ordered validation: whether it passed and the error it
      reports when it did not. */
  datatype Check = Check(passed: bool, err: Error)

  /** The verdict of an ordered list of checks: the error of the first one
      that fails, or `Ok` when all pass. */
  function FirstFailure(cs: seq<Check>): (r: Status)
    ensures r == Ok <==> forall i :: 0 <= i < |cs| ==> cs[i].passed
    ensures r.Fail? ==> exists i :: 0 <= i < |cs| && !cs[i].passed && cs[i].err == r.err &&
                                    forall j :: 0 <= j < i ==> cs[j].passed
  {
    if cs == [] then Ok
    else if !cs[0].passed then Fail(cs[0].err)
    else
      var rest := FirstFailure(cs[1..]);
      assert forall i :: 1 <= i < |cs| ==> cs[i] == cs[1..][i - 1];
      rest
  }

  /** The parent exists, carries number `number - 1` (as `uint64`) and hashes
      to the declared parent hash. */
  predicate AncestorOk(cr: Crypto, h: Header, parent: Option<Header>)
  {
    h.number.Some? && parent.Some? && parent.value.number.Some? &&
    U64(parent.value.number.value) == SubU64(h.number.value, 1) &&
    cr.headerHash(parent.value) == h.parentHash
  }

  /** At least one slot of time separates the parent from the header
      (`uint64` arithmetic, as in the source). */
  predicate TimestampOk(h: Header, parent: Option<Header>)
  {
    parent.Some? && AddU64(parent.value.time, BlockInterval as nat) <= U64(h.time)
  }

  /** The checks `verifyHeader` runs, in the order it runs them. */
  function HeaderChecks(c: ChainReader, cr: Crypto, forkOk: Header -> bool, now: int,
                        h: Header, parents: seq<Header>): seq<Check>
  {
    var parent := SelectParent(c, h, parents);
    [ Check(h.number.Some?, ErrUnknownBlock),
      Check(h.time <= now, ErrFutureBlock),
      Check(|h.extra| >= ExtraVanity, ErrMissingVanity),
      Check(|h.extra| >= ExtraVanity + ExtraSeal, ErrMissingSignature),
      Check(h.mixDigest == ZeroHash, ErrInvalidMixDigest),
      Check(U64(h.difficulty) == 1, ErrInvalidDifficulty),
      Check(h.uncleHash == EmptyUncleHash, ErrInvalidUncleHash),
      Check(forkOk(h), ErrForkHash),
      Check(AncestorOk(cr, h, parent), ErrUnknownAncestor),
      Check(TimestampOk(h, parent), ErrInvalidTimestamp) ]
  }

  /** `FirstFailure` reports the first failing check of the list. */
  lemma FirstFailureAt(cs: seq<Check>, k: nat)
    requires k < |cs| && !cs[k].passed
    requires forall j :: 0 <= j < k ==> cs[j].passed
    ensures FirstFailure(cs) == Fail(cs[k].err)
  {
  }

  /** The checks `verifyHeader` makes on the header alone, before it looks
      at the parent. */
  predicate ShapeOk(forkOk: Header -> bool, now: int, h: Header)
  {
    h.number.Some? && h.time <= now && |h.extra| >= ExtraVanity + ExtraSeal &&
    h.mixDigest == ZeroHash && U64(h.difficulty) == 1 && h.uncleHash == EmptyUncleHash && forkOk(h)
  }

  /** `verifyHeader`: checks a header, with `parents` the not yet committed
      predecessors from the same batch; `now` is the local clock and `forkOk`
      the external fork-hash validator. Once the header's own checks pass, the
      Go code dereferences the parent's number, so a batch predecessor must
      then carry one. */
  function VerifyHeader(c: ChainReader, cr: Crypto, forkOk: Header -> bool, now: int,
                        h: Header, parents: seq<Header>): (r: Status)
    requires |parents| > 0 && ShapeOk(forkOk, now, h) ==> parents[|parents| - 1].number.Some?
    ensures r == Ok ==>
              h.number.Some? && h.time <= now && |h.extra| >= ExtraVanity + ExtraSeal &&
              h.mixDigest == ZeroHash && U64(h.difficulty) == 1 && h.uncleHash == EmptyUncleHash && forkOk(h) &&
              SelectParent(c, h, parents).Some? && cr.headerHash(SelectParent(c, h, parents).value) == h.parentHash
  {
    if h.number.None? then Fail(ErrUnknownBlock)
    else if h.time > now then Fail(ErrFutureBlock)
    else if |h.extra| < ExtraVanity then Fail(ErrMissingVanity)
    else if |h.extra| < ExtraVanity + ExtraSeal then Fail(ErrMissingSignature)
    else if h.mixDigest != ZeroHash then Fail(ErrInvalidMixDigest)
    else if U64(h.difficulty) != 1 then Fail(ErrInvalidDifficulty)
    else if h.uncleHash != EmptyUncleHash then Fail(ErrInvalidUncleHash)
    else if !forkOk(h) then Fail(ErrForkHash)
    else
      var parent := if |parents| > 0 then Some(parents[|parents| - 1])
                    else GetHeader(c, h.parentHash, SubU64(h.number.value, 1));
      if parent.None? || U64(parent.value.number.value) != SubU64(h.number.value, 1) ||
         cr.headerHash(parent.value) != h.parentHash
      then Fail(ErrUnknownAncestor)
      else if AddU64(parent.value.time, BlockInterval as nat) > U64(h.time)
      then Fail(ErrInvalidTimestamp)
      else Ok
  }

  /** `verifyHeader` reports the error of the first failing check in source
      order, and accepts exactly when every check passes. */
  lemma VerifyHeaderIsFirstFailure(c: ChainReader, cr: Crypto, forkOk: Header -> bool, now: int,
                                   h: Header, parents: seq<Header>)
    requires |parents| > 0 && ShapeOk(forkOk, now, h) ==> parents[|parents| - 1].number.Some?
    ensures VerifyHeader(c, cr, forkOk, now, h, parents) ==
            FirstFailure(HeaderChecks(c, cr, forkOk, now, h, parents))
  {
    var cs := HeaderChecks(c, cr, forkOk, now, h, parents);
    if !cs[0].passed { FirstFailureAt(cs, 0); }
    else if !cs[1].passed { FirstFailureAt(cs, 1); }
    else if !cs[2].passed { FirstFailureAt(cs, 2); }
    else if !cs[3].passed { FirstFailureAt(cs, 3); }
    else if !cs[4].passed { FirstFailureAt(cs, 4); }
    else if !cs[5].passed { FirstFailureAt(cs, 5); }
    else if !cs[6].passed { FirstFailureAt(cs, 6); }
    else if !cs[7].passed { FirstFailureAt(cs, 7); }
    else if !cs[8].passed { FirstFailureAt(cs, 8); }
    else if !cs[9].passed { FirstFailureAt(cs, 9); }
  }

  /** Extra-data length alone decides between the two length errors: below 32
      bytes the vanity is missing, below 97 the signature, and from 97 on
      neither is reported. */
  lemma ExtraLengthVerdict(c: ChainReader, cr: Crypto, forkOk: Header -> bool, now: int,
                           h: Header, parents: seq<Header>)
    requires |parents| > 0 && ShapeOk(forkOk, now, h) ==> parents[|parents| - 1].number.Some?
    requires h.number.Some? && h.time <= now
    ensures |h.extra| < 32 ==> VerifyHeader(c, cr, forkOk, now, h, parents) == Fail(ErrMissingVanity)
    ensures 32 <= |h.extra| < 97 ==>
              VerifyHeader(c, cr, forkOk, now, h, parents) == Fail(ErrMissingSignature)
    ensures |h.extra| >= 97 ==>
              VerifyHeader(c, cr, forkOk, now, h, parents) != Fail(ErrMissingVanity) &&
              VerifyHeader(c, cr, forkOk, now, h, parents) != Fail(ErrMissingSignature)
  {
  }

  /** A header whose shape checks pass is rejected as an unknown ancestor
      exactly when its parent is missing, is numbered other than
      `number - 1`, or hashes differently from the declared parent hash. */
  lemma AncestorVerdict(c: ChainReader, cr: Crypto, forkOk: Header -> bool, now: int,
                        h: Header, parents: seq<Header>)
    requires |parents| > 0 && ShapeOk(forkOk, now, h) ==> parents[|parents| - 1].number.Some?
    requires h.number.Some? && 1 <= h.number.value < Two64 && h.time <= now
    requires |h.extra| >= ExtraVanity + ExtraSeal && h.mixDigest == ZeroHash
    requires U64(h.difficulty) == 1 && h.uncleHash == EmptyUncleHash && forkOk(h)
    ensures VerifyHeader(c, cr, forkOk, now, h, parents) == Fail(ErrUnknownAncestor) <==>
              var p := SelectParent(c, h, parents);
              p.None? || U64(p.value.number.value) + 1 != h.number.value as int ||
              cr.headerHash(p.value) != h.parentHash
  {
    assert SubU64(h.number.value, 1) == h.number.value - 1;
  }

  /** A header with no batch predecessors whose real parent is in the chain,
      stored under the declared parent hash with number `number - 1`, is
      never rejected as an unknown ancestor. */
  lemma ChainParentAccepted(c: ChainReader, cr: Crypto, forkOk: Header -> bool, now: int, h: Header)
    requires h.number.Some? && 1 <= h.number.value < Two64 && h.parentHash in c.headers
    requires c.headers[h.parentHash].number == Some(h.number.value - 1)
    requires cr.headerHash(c.headers[h.parentHash]) == h.parentHash
    ensures SelectParent(c, h, []) == Some(c.headers[h.parentHash])
    ensures VerifyHeader(c, cr, forkOk, now, h, []) != Fail(ErrUnknownAncestor)
  {
    assert SubU64(h.number.value, 1) == h.number.value - 1;
  }

  /** With a genuine parent, the timestamp check rejects exactly the headers
      less than one slot after their parent: a gap of exactly 10 seconds
      passes, and passing it means the header is accepted. */
  lemma TimestampVerdict(c: ChainReader, cr: Crypto, forkOk: Header -> bool, now: int,
                         h: Header, parents: seq<Header>)
    requires |parents| > 0 && ShapeOk(forkOk, now, h) ==> parents[|parents| - 1].number.Some?
    requires h.number.Some? && h.time <= now
    requires |h.extra| >= ExtraVanity + ExtraSeal && h.mixDigest == ZeroHash
    requires U64(h.difficulty) == 1 && h.uncleHash == EmptyUncleHash && forkOk(h)
    requires AncestorOk(cr, h, SelectParent(c, h, parents))
    requires h.time < Two64 && SelectParent(c, h, parents).value.time + 10 < Two64
    ensures VerifyHeader(c, cr, forkOk, now, h, parents) == Fail(ErrInvalidTimestamp) <==>
              SelectParent(c, h, parents).value.time + 10 > h.time
    ensures VerifyHeader(c, cr, forkOk, now, h, parents) == Ok <==>
              SelectParent(c, h, parents).value.time + 10 <= h.time
  {
  }

  /** `VerifyHeaders` without its worker goroutine and abort channel: the
      results in order, each header checked against the headers before it in
      the batch. */
  method VerifyHeaders(c: ChainReader, cr: Crypto, forkOk: Header -> bool, now: int,
                       headers: seq<Header>) returns (results: seq<Status>)
    requires forall i :: 0 < i < |headers| && ShapeOk(forkOk, now, headers[i]) ==> headers[i - 1].number.Some?
    ensures |results| == |headers|
    ensures forall i :: 0 <= i < |headers| ==>
              results[i] == VerifyHeader(c, cr, forkOk, now, headers[i], headers[..i])
  {
    results := [];
    for i := 0 to |headers|
      invariant |results| == i
      invariant forall j :: 0 <= j < i ==>
                  results[j] == VerifyHeader(c, cr, forkOk, now, headers[j], headers[..j])
    {
      var err := VerifyHeader(c, cr, forkOk, now, headers[i], headers[..i]);
      results := results + [err];
    }
  }

  /** `VerifyUncles`: a Devote block may not carry uncles. */
  function VerifyUncles(uncles: seq<Header>): (r: Status)
    ensures r == Ok <==> |uncles| == 0
    ensures r != Ok ==> r == Fail(ErrUnclesNotAllowed)
  {
    if |uncles| > 0 then Fail(ErrUnclesNotAllowed) else Ok
  }
}

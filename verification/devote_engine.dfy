/** The Devote engine object: the local signer and its signing function,
    the signature cache, and the confirmed header with the database it is
    persisted in. Its methods are the engine operations that read or update
    that state. */
module DevoteEngine {
  import opened Primitives
  import opened DevoteTypes
  import opened DevoteSlots
  import opened DevoteVerify
  import opened DevoteSigner
  import opened DevoteFinality

  /** `CalcDifficulty`: a Devote block always has difficulty 1. */
  function CalcDifficulty(): nat
  {
    1
  }

  /** A header as `Prepare` leaves it once its parent is found: nonce zero,
      extra-data reshaped to vanity plus an empty seal slot, difficulty from
      `CalcDifficulty`, and the local signer as witness. */
  function Prepared(h: Header, signer: Address): Header
  {
    h.(nonce := 0, extra := PreparedExtra(h.extra), difficulty := CalcDifficulty(), witnessAddr := signer)
  }

  /** A prepared header passes every shape check of `verifyHeader` it
      controls: if its number, time, mix digest, uncle hash and fork fields
      are acceptable, the only errors left for it are an unknown ancestor and
      an early timestamp. */
  lemma PreparedShapeAccepted(c: ChainReader, cr: Crypto, forkOk: Header -> bool, now: int,
                              h: Header, signer: Address, parents: seq<Header>)
    requires |parents| > 0 && ShapeOk(forkOk, now, Prepared(h, signer)) ==> parents[|parents| - 1].number.Some?
    requires h.number.Some? && h.time <= now && h.mixDigest == ZeroHash && h.uncleHash == EmptyUncleHash
    requires forkOk(Prepared(h, signer))
    ensures var r := VerifyHeader(c, cr, forkOk, now, Prepared(h, signer), parents);
            r == Ok || r == Fail(ErrUnknownAncestor) || r == Fail(ErrInvalidTimestamp)
    ensures |Prepared(h, signer).extra| == ExtraVanity + ExtraSeal
  {
  }

  class Devote {
    var signer: Address
    var signFn: (Address, Hash) -> Option<seq<byte>>
    const signatures: SigCache
    var confirmedBlockHeader: Option<Header>
    var db: map<string, Hash>

    /** The confirmed header, once set, is a stored one. */
    predicate Valid()
      reads this
    {
      ValidState(FinalityState(confirmedBlockHeader, db))
    }

    /** `NewDevote`: an empty signature cache and no confirmed header yet.
        No signer is authorised, so signing fails until `Authorize`. */
    constructor (db: map<string, Hash>)
      ensures Valid()
      ensures this.db == db && confirmedBlockHeader == None && fresh(signatures)
      ensures signatures.entries == map[] && signer == ZeroAddress
      ensures forall a, h :: signFn(a, h) == None
    {
      this.db := db;
      signatures := new SigCache();
      confirmedBlockHeader := None;
      signer := ZeroAddress;
      signFn := (a: Address, h: Hash) => None;
    }

    /** `Authorize`: install the local signer and its signing function. */
    method Authorize(signer: Address, signFn: (Address, Hash) -> Option<seq<byte>>)
      modifies this
      ensures this.signer == signer && this.signFn == signFn
      ensures confirmedBlockHeader == old(confirmedBlockHeader) && db == old(db)
    {
      this.signer := signer;
      this.signFn := signFn;
    }

    /** `storeConfirmedBlockHeader`: persist the confirmed header's hash. */
    method StoreConfirmedBlockHeader(cr: Crypto)
      requires confirmedBlockHeader.Some?
      modifies this
      ensures db == old(db)[ConfirmedBlockHead := cr.headerHash(old(confirmedBlockHeader).value)]
      ensures confirmedBlockHeader == old(confirmedBlockHeader)
      ensures signer == old(signer) && signFn == old(signFn)
    {
      db := db[ConfirmedBlockHead := cr.headerHash(confirmedBlockHeader.value)];
    }

    /** `updateConfirmedBlockHeader`: initialise the confirmed header if
        needed, then walk back from the chain head collecting the witnesses
        of the current epoch until the confirmed header is reached, the
        fast return applies, or 15 distinct witnesses make the header reached
        the new confirmed one. */
    method UpdateConfirmedBlockHeader(c: ChainReader, cr: Crypto) returns (r: Status)
      requires Valid() && WellFormed(c)
      modifies this
      ensures Valid()
      ensures (r, FinalityState(confirmedBlockHeader, db)) ==
              UpdateConfirmed(FinalityState(old(confirmedBlockHeader), old(db)), c, cr)
      ensures signer == old(signer) && signFn == old(signFn)
    {
      ghost var st := FinalityState(confirmedBlockHeader, db);
      if confirmedBlockHeader.None? {
        var loaded := LoadConfirmed(db, c);
        var header: Header;
        if loaded.Failure? {
          if 0 !in c.byNumber {
            return Fail(loaded.error);
          }
          header := c.byNumber[0];
        } else {
          header := loaded.value;
        }
        confirmedBlockHeader := Some(header);
      }
      var conf := confirmedBlockHeader.value;
      assert InitialConfirmed(st.confirmed, st.db, c) == Success(conf);
      var cur := c.current;
      var epoch := -1;
      var validators: set<Address> := {};
      while cr.headerHash(conf) != cr.headerHash(cur) && Num(conf) < Num(cur)
        invariant Stored(conf) && ParentLinked(c, cur)
        invariant confirmedBlockHeader == Some(conf) && db == st.db
        invariant signer == old(signer) && signFn == old(signFn)
        invariant Walk(c, cr, conf, cur, epoch, validators) == Walk(c, cr, conf, c.current, -1, {})
        decreases Num(cur)
      {
        var curEpoch := cur.time / EpochInterval;
        if curEpoch != epoch {
          epoch := curEpoch;
          validators := {};
        }
        if Num(cur) - Num(conf) < ConsensusSize - |validators| {
          return Ok;
        }
        validators := validators + {cur.witnessAddr};
        if |validators| >= ConsensusSize {
          confirmedBlockHeader := Some(cur);
          StoreConfirmedBlockHeader(cr);
          return Ok;
        }
        if cur.parentHash !in c.headers {
          return Fail(ErrNilBlockHeader);
        }
        cur := c.headers[cur.parentHash];
      }
      return Ok;
    }

    /** `Prepare`: reset the nonce and reshape extra-data, then look up the
        parent; without it the header is left half-prepared and the error is
        an unknown ancestor, with it the difficulty and witness are set. The
        header is returned rather than updated through a pointer. */
    method Prepare(c: ChainReader, header: Header) returns (err: Status, out: Header)
      requires header.number.Some?
      ensures GetHeader(c, header.parentHash, SubU64(header.number.value, 1)).None? ==>
                err == Fail(ErrUnknownAncestor) &&
                out == header.(nonce := 0, extra := PreparedExtra(header.extra))
      ensures GetHeader(c, header.parentHash, SubU64(header.number.value, 1)).Some? ==>
                err == Ok && out == Prepared(header, signer)
    {
      out := header.(nonce := 0);
      var number := U64(header.number.value);
      var extra := out.extra;
      if |extra| < ExtraVanity {
        extra := extra + Zeros(ExtraVanity - |extra|);
      }
      extra := extra[..ExtraVanity];
      extra := extra + Zeros(ExtraSeal);
      out := out.(extra := extra);
      var parent := GetHeader(c, header.parentHash, SubU64(number, 1));
      if parent.None? {
        return Fail(ErrUnknownAncestor), out;
      }
      out := out.(difficulty := CalcDifficulty(), witnessAddr := signer);
      return Ok, out;
    }

    /** `Seal` without its wait for the slot: the genesis block cannot be
        sealed; otherwise the signing hash is signed by the local signer and
        the signature copied into the last 65 bytes of extra-data. The Go
        code slices extra-data there, so it must hold a seal slot. */
    method Seal(cr: Crypto, header: Header) returns (r: Result<Header, Error>)
      requires header.number.Some?
      requires U64(header.number.value) != 0 ==> |header.extra| >= ExtraSeal
      ensures U64(header.number.value) == 0 ==> r == Failure(ErrUnknownBlock)
      ensures U64(header.number.value) != 0 && signFn(signer, SigHash(cr, header)).None? ==>
                r == Failure(ErrSignFailed)
      ensures U64(header.number.value) != 0 && signFn(signer, SigHash(cr, header)).Some? ==>
                r.Success? &&
                r.value == header.(extra := PlaceSignature(header.extra, signFn(signer, SigHash(cr, header)).value))
    {
      var number := U64(header.number.value);
      if number == 0 {
        return Failure(ErrUnknownBlock);
      }
      var signed := signFn(signer, SigHash(cr, header));
      if signed.None? {
        return Failure(ErrSignFailed);
      }
      var n := |header.extra| - ExtraSeal;
      var extra := header.extra[..n] + CopyInto(header.extra[n..], signed.value);
      return Success(header.(extra := extra));
    }

    /** `verifyBlockSigner`: recover the signer through the cache and check
        it against the scheduled validator and the declared witness. */
    method VerifyBlockSigner(cr: Crypto, validator: Address, h: Header) returns (r: Status)
      modifies signatures
      ensures r == SignerCheck(validator, h, CachedRecover(cr, old(signatures.entries), h))
      ensures signatures.entries == CacheAfter(cr, old(signatures.entries), h)
    {
      var recovered := Ecrecover(cr, h, signatures);
      if recovered.Failure? {
        return Fail(recovered.error);
      }
      var signer := recovered.value;
      if signer != validator {
        return Fail(ErrInvalidBlockValidator);
      }
      if signer != h.witnessAddr {
        return Fail(ErrMismatchSignerAndValidator);
      }
      return Ok;
    }

    /** `verifySeal`: the genesis block is rejected; otherwise the witness
        scheduled at the header's time is looked up from the parent's
        context (`witnessFrom`, outside this model), the signer is checked
        against it, and a good seal moves finality forward. The Go code
        dereferences the parent, so a non-genesis header must have one. */
    method VerifySeal(c: ChainReader, cr: Crypto, witnessFrom: (Header, nat) -> Result<Address, Error>,
                      h: Header, parents: seq<Header>) returns (r: Status)
      requires Valid() && WellFormed(c) && h.number.Some?
      requires U64(h.number.value) != 0 ==> SelectParent(c, h, parents).Some?
      modifies this, signatures
      ensures Valid()
      ensures U64(h.number.value) == 0 ==>
                r == Fail(ErrUnknownBlock) && signatures.entries == old(signatures.entries) &&
                confirmedBlockHeader == old(confirmedBlockHeader) && db == old(db)
      ensures U64(h.number.value) != 0 &&
              witnessFrom(SelectParent(c, h, parents).value, h.time).Failure? ==>
                r == Fail(witnessFrom(SelectParent(c, h, parents).value, h.time).error) &&
                signatures.entries == old(signatures.entries) &&
                confirmedBlockHeader == old(confirmedBlockHeader) && db == old(db)
      ensures U64(h.number.value) != 0 &&
              witnessFrom(SelectParent(c, h, parents).value, h.time).Success? ==>
                var check := SignerCheck(witnessFrom(SelectParent(c, h, parents).value, h.time).value, h,
                                         CachedRecover(cr, old(signatures.entries), h));
                signatures.entries == CacheAfter(cr, old(signatures.entries), h) &&
                (check != Ok ==> r == check && confirmedBlockHeader == old(confirmedBlockHeader) && db == old(db)) &&
                (check == Ok ==> (r, FinalityState(confirmedBlockHeader, db)) ==
                                 UpdateConfirmed(FinalityState(old(confirmedBlockHeader), old(db)), c, cr))
      ensures signer == old(signer) && signFn == old(signFn)
    {
      var number := U64(h.number.value);
      if number == 0 {
        return Fail(ErrUnknownBlock);
      }
      var parent: Header;
      if |parents| > 0 {
        parent := parents[|parents| - 1];
      } else {
        parent := c.headers[h.parentHash];
      }
      var scheduled := witnessFrom(parent, h.time);
      if scheduled.Failure? {
        return Fail(scheduled.error);
      }
      r := VerifyBlockSigner(cr, scheduled.value, h);
      if r != Ok {
        return r;
      }
      r := UpdateConfirmedBlockHeader(c, cr);
    }

    /** `CheckValidator`: the local signer may mint at `now` exactly when the
        deadline check passes and the witness scheduled at `now` (looked up
        from the last block's context, outside this model) is the local
        signer and not the zero address. */
    function CheckValidator(lastTime: int, now: int, witnessAt: int -> Result<Address, Error>): (r: Status)
      reads this
      ensures r == Ok <==> CheckDeadline(lastTime, now) == Ok && witnessAt(now) == Success(signer) &&
                           signer != ZeroAddress
      ensures CheckDeadline(lastTime, now) != Ok ==> r == CheckDeadline(lastTime, now)
      ensures CheckDeadline(lastTime, now) == Ok && witnessAt(now).Success? && r != Ok ==>
                r == Fail(ErrInvalidBlockValidator)
      ensures CheckDeadline(lastTime, now) == Ok && witnessAt(now).Failure? ==> r == Fail(witnessAt(now).error)
    {
      var deadline := CheckDeadline(lastTime, now);
      if deadline != Ok then deadline
      else match witnessAt(now)
        case Failure(e) => Fail(e)
        case Success(scheduled) =>
          if scheduled == ZeroAddress || scheduled != signer then Fail(ErrInvalidBlockValidator)
          else Ok
    }
  }
}

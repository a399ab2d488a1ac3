/** Signer recovery with its cache, the three-way signer check, and the
    extra-data layout that preparing and sealing a header produce. */
module DevoteSigner {
  import opened Primitives
  import opened DevoteTypes

  /** The signature cache: header hash to recovered signer. Its eviction
      policy only bounds memory, so it is modelled without a bound. */
  class SigCache {
    var entries: map<Hash, Address>

    constructor ()
      ensures entries == map[]
    {
      entries := map[];
    }
  }

  /** Recovery without the cache: the signature is the last 65 bytes of
      extra-data, and the signer is recovered from it and the signing hash. */
  function FreshRecover(cr: Crypto, h: Header): (r: Result<Address, Error>)
    ensures |h.extra| < ExtraSeal <==> r == Failure(ErrMissingSignature)
    ensures r.Success? ==>
              |h.extra| >= ExtraSeal &&
              cr.recover(SigHash(cr, h), h.extra[|h.extra| - ExtraSeal..]) == Some(r.value)
    ensures |h.extra| >= ExtraSeal && cr.recover(SigHash(cr, h), h.extra[|h.extra| - ExtraSeal..]).Some? ==>
              r == Success(cr.recover(SigHash(cr, h), h.extra[|h.extra| - ExtraSeal..]).value)
    ensures |h.extra| >= ExtraSeal && cr.recover(SigHash(cr, h), h.extra[|h.extra| - ExtraSeal..]).None? ==>
              r == Failure(ErrRecoverFailed)
  {
    if |h.extra| < ExtraSeal then Failure(ErrMissingSignature)
    else
      match cr.recover(SigHash(cr, h), h.extra[|h.extra| - ExtraSeal..])
      case None => Failure(ErrRecoverFailed)
      case Some(signer) => Success(signer)
  }

  /** What `ecrecover` returns given the cache contents: a cached signer
      for the header's hash wins over the signature. */
  function CachedRecover(cr: Crypto, cache: map<Hash, Address>, h: Header): Result<Address, Error>
  {
    var key := cr.headerHash(h);
    if key in cache then Success(cache[key]) else FreshRecover(cr, h)
  }

  /** The cache after `ecrecover`: a successful fresh recovery is added
      under the header's hash; hits and failures leave it unchanged. */
  function CacheAfter(cr: Crypto, cache: map<Hash, Address>, h: Header): (m: map<Hash, Address>)
    ensures cache.Keys <= m.Keys
    ensures forall k :: k in cache ==> m[k] == cache[k]
    ensures cr.headerHash(h) !in cache && FreshRecover(cr, h).Success? ==>
              m == cache[cr.headerHash(h) := FreshRecover(cr, h).value]
    ensures cr.headerHash(h) in cache || FreshRecover(cr, h).Failure? ==> m == cache
  {
    var key := cr.headerHash(h);
    if key in cache then cache
    else match FreshRecover(cr, h)
      case Success(signer) => cache[key := signer]
      case Failure(_) => cache
  }

  /** A cache hit returns the cached address unchanged; on a miss the
      answer is the fresh recovery; recovering again after `ecrecover`
      gives the same answer, and the cache only ever grows by the one key. */
  lemma {:induction false} RecoverIdempotent(cr: Crypto, cache: map<Hash, Address>, h: Header)
    ensures cr.headerHash(h) in cache ==> CachedRecover(cr, cache, h) == Success(cache[cr.headerHash(h)])
    ensures cr.headerHash(h) !in cache ==> CachedRecover(cr, cache, h) == FreshRecover(cr, h)
    ensures CachedRecover(cr, CacheAfter(cr, cache, h), h) == CachedRecover(cr, cache, h)
    ensures CacheAfter(cr, cache, h).Keys <= cache.Keys + {cr.headerHash(h)}
  {
  }

  /** The cache never changes the answer for a header whose entry, if any,
      agrees with what its signature recovers to. */
  lemma CacheTransparent(cr: Crypto, cache: map<Hash, Address>, h: Header)
    requires cr.headerHash(h) in cache ==> FreshRecover(cr, h) == Success(cache[cr.headerHash(h)])
    ensures CachedRecover(cr, cache, h) == FreshRecover(cr, h)
  {
  }

  /** `ecrecover(header, sigcache)`. */
  method Ecrecover(cr: Crypto, h: Header, cache: SigCache) returns (r: Result<Address, Error>)
    modifies cache
    ensures r == CachedRecover(cr, old(cache.entries), h)
    ensures cache.entries == CacheAfter(cr, old(cache.entries), h)
  {
    var hash := cr.headerHash(h);
    if hash in cache.entries {
      return Success(cache.entries[hash]);
    }
    if |h.extra| < ExtraSeal {
      return Failure(ErrMissingSignature);
    }
    var signature := h.extra[|h.extra| - ExtraSeal..];
    var recovered := cr.recover(SigHash(cr, h), signature);
    if recovered.None? {
      return Failure(ErrRecoverFailed);
    }
    var signer := recovered.value;
    cache.entries := cache.entries[hash := signer];
    return Success(signer);
  }

  /** The decision of `verifyBlockSigner` once the signer is recovered: the
      block is accepted exactly when the recovered signer is both the
      scheduled validator and the header's declared witness; a validator
      mismatch is reported before a witness mismatch. */
  function SignerCheck(validator: Address, h: Header, recovered: Result<Address, Error>): (r: Status)
    ensures r == Ok <==> recovered == Success(validator) && h.witnessAddr == validator
    ensures recovered.Failure? ==> r == Fail(recovered.error)
    ensures recovered.Success? && recovered.value != validator ==> r == Fail(ErrInvalidBlockValidator)
    ensures recovered.Success? && recovered.value == validator && h.witnessAddr != validator ==>
              r == Fail(ErrMismatchSignerAndValidator)
  {
    match recovered
    case Failure(e) => Fail(e)
    case Success(signer) =>
      if signer != validator then Fail(ErrInvalidBlockValidator)
      else if signer != h.witnessAddr then Fail(ErrMismatchSignerAndValidator)
      else Ok
  }

  /** The extra-data `Prepare` leaves: the first 32 bytes of the original,
      zero-padded when it was shorter, then 65 zero bytes for the seal. */
  function PreparedExtra(extra: seq<byte>): (e: seq<byte>)
    ensures |e| == ExtraVanity + ExtraSeal
    ensures |extra| >= ExtraVanity ==> e[..ExtraVanity] == extra[..ExtraVanity]
    ensures |extra| < ExtraVanity ==>
              e[..|extra|] == extra && e[|extra|..ExtraVanity] == Zeros(ExtraVanity - |extra|)
    ensures e[ExtraVanity..] == Zeros(ExtraSeal)
  {
    var padded := if |extra| < ExtraVanity then extra + Zeros(ExtraVanity - |extra|) else extra;
    var vanity := padded[..ExtraVanity];
    vanity + Zeros(ExtraSeal)
  }

  /** Go's `copy(dst, src)`: overwrite the front of `dst` with as much of
      `src` as fits. */
  function CopyInto(dst: seq<byte>, src: seq<byte>): (r: seq<byte>)
    ensures |r| == |dst|
    ensures forall i :: 0 <= i < |dst| ==> r[i] == if i < |src| then src[i] else dst[i]
  {
    if |src| >= |dst| then src[..|dst|] else src + dst[|src|..]
  }

  /** The extra-data `Seal` leaves: the signature copied into the last 65
      bytes, everything before them untouched. */
  function PlaceSignature(extra: seq<byte>, sig: seq<byte>): (e: seq<byte>)
    requires |extra| >= ExtraSeal
    ensures |e| == |extra|
    ensures e[..|extra| - ExtraSeal] == extra[..|extra| - ExtraSeal]
    ensures |sig| >= ExtraSeal ==> e[|extra| - ExtraSeal..] == sig[..ExtraSeal]
  {
    var n := |extra| - ExtraSeal;
    extra[..n] + CopyInto(extra[n..], sig)
  }

  /** Writing a signature into the seal slot does not change the signing
      hash: the hash `Seal` signs is the hash `ecrecover` later recomputes. */
  lemma SealKeepsSigHash(cr: Crypto, h: Header, sig: seq<byte>)
    requires |h.extra| >= ExtraSeal
    ensures |PlaceSignature(h.extra, sig)| >= ExtraSeal
    ensures SigHash(cr, h.(extra := PlaceSignature(h.extra, sig))) == SigHash(cr, h)
  {
    SigHashIgnoresSignature(cr, h, h.(extra := PlaceSignature(h.extra, sig)));
  }

  /** Sealing and then checking the signer: a header sealed with a 65-byte
      signature that recovers to the scheduled validator, who is also the
      declared witness, passes the signer check when the cache has no stale
      entry for it; a signature that recovers to anyone else is rejected as
      an invalid validator. */
  lemma SealThenVerify(cr: Crypto, cache: map<Hash, Address>, h: Header, sig: seq<byte>,
                       validator: Address)
    requires |h.extra| >= ExtraSeal && |sig| == ExtraSeal
    requires cr.headerHash(h.(extra := PlaceSignature(h.extra, sig))) !in cache
    ensures var sealed := h.(extra := PlaceSignature(h.extra, sig));
            cr.recover(SigHash(cr, h), sig) == Some(validator) && h.witnessAddr == validator ==>
              SignerCheck(validator, sealed, CachedRecover(cr, cache, sealed)) == Ok
    ensures var sealed := h.(extra := PlaceSignature(h.extra, sig));
            forall other :: cr.recover(SigHash(cr, h), sig) == Some(other) && other != validator ==>
              SignerCheck(validator, sealed, CachedRecover(cr, cache, sealed)) == Fail(ErrInvalidBlockValidator)
  {
    var sealed := h.(extra := PlaceSignature(h.extra, sig));
    SealKeepsSigHash(cr, h, sig);
    assert sealed.extra[|sealed.extra| - ExtraSeal..] == sig;
  }
}

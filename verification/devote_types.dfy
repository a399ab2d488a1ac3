/** The Devote engine's data: block headers, its error values, the chain
    reader it consults, and the cryptographic primitives it treats as
    black boxes. */
module DevoteTypes {
  import opened Primitives

  const ExtraVanity: nat := 32 // extra-data prefix reserved for signer vanity
  const ExtraSeal: nat := 65   // extra-data suffix reserved for the signer's seal

  const BlockInterval: int := 10
  const EpochInterval: int := 86400
  const MaxValidatorSize: int := 21
  const ConsensusSize: int := MaxValidatorSize * 2 / 3 + 1

  /** Keccak-256 of the RLP encoding of the empty list: the only uncle hash a
      Devote header may carry. */
  const EmptyUncleHash: Hash := 0x1dcc4de8dec75d7aab85b567b6ccd41ad312451b948a7413f0a142fd40d49347

  /** The database key under which the confirmed header's hash is stored. */
  const ConfirmedBlockHead: string := "confirmed-block-head"

  /** A block header. `number` is `None` where the Go header holds a nil
      `*big.Int`; the other big integers are non-negative. */
  datatype Header = Header(
    parentHash: Hash,
    uncleHash: Hash,
    witnessAddr: Address,
    coinbase: Address,
    root: Hash,
    txHash: Hash,
    receiptHash: Hash,
    bloom: seq<byte>,
    difficulty: nat,
    number: Option<nat>,
    gasLimit: nat,
    gasUsed: nat,
    time: nat,
    extra: seq<byte>,
    mixDigest: Hash,
    nonce: nat,
    contextRoot: Hash)

  datatype Error =
    | ErrUnknownBlock
    | ErrFutureBlock
    | ErrMissingVanity
    | ErrMissingSignature
    | ErrInvalidMixDigest
    | ErrInvalidDifficulty
    | ErrInvalidUncleHash
    | ErrForkHash                       // whatever the fork-hash validator reports
    | ErrUnknownAncestor
    | ErrInvalidTimestamp
    | ErrWaitForPrevBlock
    | ErrMintFutureBlock
    | ErrMismatchSignerAndValidator
    | ErrInvalidBlockValidator
    | ErrNilBlockHeader
    | ErrRecoverFailed                  // secp256k1 recovery rejected the signature
    | ErrSignFailed                     // the signing function reported an error
    | ErrNotFound                       // the database holds no value for the key
    | ErrUnclesNotAllowed

  /** A Go `error` result: nil or one error. */
  datatype Status = Ok | Fail(err: Error)

  /** The fields `sigHash` feeds to Keccak-256, in order: the whole header
      except the trailing 65 bytes of extra-data. */
  datatype SealFields = SealFields(
    parentHash: Hash,
    uncleHash: Hash,
    witnessAddr: Address,
    coinbase: Address,
    root: Hash,
    txHash: Hash,
    receiptHash: Hash,
    bloom: seq<byte>,
    difficulty: nat,
    number: Option<nat>,
    gasLimit: nat,
    gasUsed: nat,
    time: nat,
    extraPrefix: seq<byte>,
    mixDigest: Hash,
    nonce: nat,
    contextRoot: Hash)

  /** The cryptography the engine uses without looking inside:
      `headerHash` is `header.Hash()` (Keccak-256 of the RLP of every field),
      `sealHash` is Keccak-256 of the RLP of the sealed fields,
      `recover` is secp256k1 public-key recovery followed by address
      derivation, `None` when recovery fails. */
  datatype Crypto = Crypto(
    headerHash: Header -> Hash,
    sealHash: SealFields -> Hash,
    recover: (Hash, seq<byte>) -> Option<Address>)

  /** The fields of `h` that `sigHash` encodes: extra-data loses its last
      65 bytes, the signature slot. */
  function SealFieldsOf(h: Header): SealFields
    requires |h.extra| >= ExtraSeal
  {
    SealFields(h.parentHash, h.uncleHash, h.witnessAddr, h.coinbase, h.root, h.txHash,
               h.receiptHash, h.bloom, h.difficulty, h.number, h.gasLimit, h.gasUsed,
               h.time, h.extra[..|h.extra| - ExtraSeal], h.mixDigest, h.nonce, h.contextRoot)
  }

  /** The hash a block producer signs. The Go code panics on extra-data
      shorter than 65 bytes; here that is a precondition. */
  function SigHash(cr: Crypto, h: Header): Hash
    requires |h.extra| >= ExtraSeal
  {
    cr.sealHash(SealFieldsOf(h))
  }

  /** `sigHash` reads only the fields in `SealFields`: two headers that agree
      on everything but the signature slot have the same signing hash. */
  lemma SigHashIgnoresSignature(cr: Crypto, h: Header, g: Header)
    requires |h.extra| >= ExtraSeal && |g.extra| >= ExtraSeal
    requires g == h.(extra := g.extra)
    requires g.extra[..|g.extra| - ExtraSeal] == h.extra[..|h.extra| - ExtraSeal]
    ensures SigHash(cr, g) == SigHash(cr, h)
  {
  }

  /** The chain reader: stored headers by hash, canonical headers by number,
      and the current head. */
  datatype ChainReader = ChainReader(
    headers: map<Hash, Header>,
    byNumber: map<nat, Header>,
    current: Header)

  /** `chain.GetHeader(hash, number)`: the stored header with that hash and number. */
  function GetHeader(c: ChainReader, hash: Hash, number: nat): (r: Option<Header>)
    ensures r.Some? ==> r.value.number == Some(number) && hash in c.headers
  {
    if hash in c.headers && c.headers[hash].number == Some(number)
    then Some(c.headers[hash]) else None
  }

  /** A header as the chain stores it: its number is set and fits `int64`,
      and so does its time, so Go's `Uint64()` and `Int64()` read them unchanged. */
  predicate Stored(h: Header)
  {
    h.number.Some? && h.number.value < Two63 && h.time < Two63
  }

  function Num(h: Header): nat
    requires h.number.Some?
  {
    h.number.value
  }

  /** The parent of `h`, when the chain holds it, is a stored header with a
      smaller number. */
  predicate ParentLinked(c: ChainReader, h: Header)
  {
    Stored(h) &&
    (h.parentHash in c.headers ==>
       Stored(c.headers[h.parentHash]) && Num(c.headers[h.parentHash]) < Num(h))
  }

  /** What the engine relies on of its chain reader: every header it can
      return is stored, and following parent hashes lowers the number. */
  predicate WellFormed(c: ChainReader)
  {
    ParentLinked(c, c.current) &&
    (forall k :: k in c.headers ==> ParentLinked(c, c.headers[k])) &&
    (forall n :: n in c.byNumber ==> Stored(c.byNumber[n]))
  }

  /** The parent a header is checked against: the last of the not yet
      committed predecessors when there are any, otherwise the chain's header
      with the parent hash and number `number - 1` (wrapping as `uint64`). */
  function SelectParent(c: ChainReader, h: Header, parents: seq<Header>): (p: Option<Header>)
    ensures |parents| > 0 ==> p == Some(parents[|parents| - 1])
    ensures |parents| == 0 && p.Some? ==> h.number.Some? && h.parentHash in c.headers &&
                                          p.value == c.headers[h.parentHash]
    ensures |parents| == 0 ==>
              (p.Some? <==> h.number.Some? && h.parentHash in c.headers &&
                            c.headers[h.parentHash].number == Some(SubU64(h.number.value, 1)))
    ensures |parents| == 0 && p.Some? ==> p.value.number == Some(SubU64(h.number.value, 1))
  {
    if |parents| > 0 then Some(parents[|parents| - 1])
    else if h.number.None? then None
    else GetHeader(c, h.parentHash, SubU64(h.number.value, 1))
  }
}

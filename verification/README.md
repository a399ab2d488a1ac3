# Devote consensus and masternode payment ballot, in Dafny

This project models two components of go-etherzero.

**The Devote engine** (`consensus/devote/devote.go`) is a delegated proof-of-stake consensus engine:
- **Slot schedule.** Blocks are produced in slots of 10 seconds. A producer checks the slot deadline before it mints.
- **Header validation.** A header passes an ordered list of checks, and the first failure decides the error.
- **Signer check.** The block signer is recovered through a signature cache. It must be both the scheduled validator and the header's declared witness.
- **Preparing and sealing.** `Prepare` reshapes extra-data into a 32-byte vanity and a 65-byte seal slot. `Seal` fills that slot, and the signing hash does not cover it.
- **Finality.** A walk back from the chain head counts the distinct witnesses of one epoch. When 15 of them have built on a header, that header becomes the confirmed one and its hash is persisted.
- **Mint counts.** A per-epoch ledger counts how many blocks each validator produced.

**The masternode payment ballot** (`eth/masternode_winner.go`):
- **Votes.** Each vote names the masternode to pay at a block height.
- **Ballot boxes.** Each block height has a box that tallies votes by account. The winner is the account with the most votes, and the first entry wins a tie.
- **Vote store.** The store keeps the votes under the hashes they were announced with.

## How the model is organised

| file | module | contents |
|---|---|---|
| `primitives.dfy` | `Primitives` | option and result types, addresses and hashes as numbers, bytes, Go's `uint64` wrap-around and truncating division |
| `devote_types.dfy` | `DevoteTypes` | constants, header, errors, the crypto functions as parameters, the chain reader, `sigHash` field selection, parent selection |
| `devote_slots.dfy` | `DevoteSlots` | `PrevSlot`, `NextSlot`, `checkDeadline` |
| `devote_verify.dfy` | `DevoteVerify` | `verifyHeader` as an ordered check list, the sequential `VerifyHeaders`, `VerifyUncles` |
| `devote_signer.dfy` | `DevoteSigner` | the signature cache and `ecrecover`, the signer check, the extra-data layout of `Prepare` and `Seal` |
| `devote_finality.dfy` | `DevoteFinality` | the finality walk, loading and initialising the confirmed header, the update as a state transition |
| `devote_mintcnt.dfy` | `DevoteMintCount` | the mint-count trie and `updateMintCnt` |
| `devote_engine.dfy` | `DevoteEngine` | the `Devote` object: its state and the methods that read or change it |
| `masternode_winner.dfy` | `MasternodeWinner` | votes, payees, ballot boxes, the vote store |

**How Go is represented**
- **Numbers.** A header's numeric fields are unbounded naturals. Go's `(*big.Int).Uint64()` is written out as reduction modulo 2^64.
- **Nil numbers.** A header's number may be nil, so it is an `Option`.
- **Block height arithmetic.** The height arithmetic of `verifyHeader` and `Prepare` wraps as `uint64`.
- **Division.** Division of `int64` values truncates toward zero (`GoDiv`).
- **Chain reader.** The chain reader is a value made of maps: headers by hash, canonical headers by number, and the current head. The finality walk needs a well-formed chain: every header it can reach has a number and time below 2^63, and a parent's number is below its child's. The block number is the termination measure.
- **Imperative code.**
  - Go methods that change the engine's state are methods of the `Devote` class; `UpdateConfirmedBlockHeader` keeps its loop.
  - Each such method is proved against a pure function of the old state. For example, `UpdateConfirmedBlockHeader` is proved against `UpdateConfirmed`.
  - The ballot classes mirror the Go structs. `MasternodeBlockPayees` keeps a ghost `Contents` (its ballot as a value) and a `Repr` footprint. `MasternodePayments` keeps a `Repr` footprint that covers its boxes. `MasternodePayee` has neither.
- **As-written behaviour kept.** `MasternodePayments.Add` builds a ballot box for a height that has none, counts the vote in it, and then drops it. The model keeps this: `Add` never adds a box.

## Model

| member | source | states |
|---|---|---|
| `Primitives.Zeros` | consensus/devote/devote.go:230 | `make([]byte, n)`: exactly `n` bytes, all zero |
| `DevoteTypes.SigHash` | consensus/devote/devote.go:110-134 | no contract of its own: the seal hash of every header field, with extra-data cut before its last 65 bytes; what it ignores is stated by `SigHashIgnoresSignature` and `SealKeepsSigHash` |
| `DevoteTypes.SigHashIgnoresSignature` | consensus/devote/devote.go:110-134 | the signing hash reads extra-data only up to its last 65 bytes, so two headers that differ only in the seal slot have the same signing hash |
| `DevoteTypes.SelectParent` | consensus/devote/devote.go:327-332 | the parent is the last uncommitted predecessor when there is one; otherwise a header is selected exactly when the chain holds one under the declared parent hash numbered `number - 1` (wrapping as `uint64`), and then it is that header |
| `DevoteSlots.PrevSlot` | consensus/devote/devote.go:516-518 | a multiple of 10; for `now >= 1` it lies below `now` and at most 10 below it |
| `DevoteSlots.NextSlot` | consensus/devote/devote.go:520-522 | a multiple of 10; for `now >= 1` it lies at or above `now` and less than 10 above it |
| `DevoteSlots.SlotBounds` | consensus/devote/devote.go:516-522 | for `now >= 1`: both slot bounds are multiples of 10, `PrevSlot(now) < now <= NextSlot(now)`, they lie 10 apart, and `NextSlot(now) == now` on a boundary |
| `DevoteSlots.PrevSlotAtZero` | consensus/devote/devote.go:516-518 | at time 0, truncating division gives 0 for both bounds |
| `DevoteSlots.DeadlineWindow` | consensus/devote/devote.go:425 | the window "time's up" (`NextSlot(now) - now <= 1`) holds exactly when `now` is on a boundary or in the last second of a slot |
| `DevoteSlots.CheckDeadline` | consensus/devote/devote.go:417-428 | `ErrMintFutureBlock` whenever the last block is at or after the next slot, and this takes precedence; otherwise success iff the last block is on the previous boundary or time is up; `ErrWaitForPrevBlock` in every other case |
| `DevoteSlots.DeadlineAllowsMinting` | consensus/devote/devote.go:417-428 | when the deadline check passes, the last block is not later than `now`, and either it closed the previous slot or `now` ends a slot |
| `DevoteVerify.VerifyHeader` | consensus/devote/devote.go:294-339 | an accepted header has a number, a time not after `now`, at least 97 bytes of extra-data, a zero mix digest, difficulty 1, the empty uncle hash and valid fork hashes, and its selected parent exists and hashes to its parent hash; a batch predecessor's number is needed only once the header's own checks (`ShapeOk`) pass, so a header failing one of them gets its error whatever its predecessor holds |
| `DevoteVerify.FirstFailure` | consensus/devote/devote.go:294-339 | an ordered check list succeeds iff every check passes; otherwise it reports the error of the first failing check |
| `DevoteVerify.FirstFailureAt` | consensus/devote/devote.go:294-339 | a check that fails after only passing ones decides the verdict |
| `DevoteVerify.VerifyHeaderIsFirstFailure` | consensus/devote/devote.go:294-339 | `verifyHeader` reports the first failure among these checks, in this order: nil number, future time, vanity, signature length, mix digest, difficulty, uncle hash, fork hashes, ancestor, timestamp; it succeeds only if all pass |
| `DevoteVerify.ExtraLengthVerdict` | consensus/devote/devote.go:304-309 | extra-data below 32 bytes gives `errMissingVanity`, 32 to 96 bytes gives `errMissingSignature`, and from 97 bytes neither is reported |
| `DevoteVerify.AncestorVerdict` | consensus/devote/devote.go:327-335 | for a header numbered from 1 to 2^64 - 1 that passes the shape checks: it is rejected as an unknown ancestor iff its parent is missing, is not numbered `number - 1`, or hashes differently from the parent hash |
| `DevoteVerify.ChainParentAccepted` | consensus/devote/devote.go:327-335 | with no batch predecessors, a header whose parent is in the chain under its parent hash, numbered `number - 1` and hashing to that parent hash, is never rejected as an unknown ancestor |
| `DevoteVerify.TimestampVerdict` | consensus/devote/devote.go:336-339 | with a genuine parent, `ErrInvalidTimestamp` iff parent time + 10 > header time, and acceptance iff the gap is at least 10 |
| `DevoteVerify.VerifyHeaders` | consensus/devote/devote.go:342-357 | one result per header, in order; result `i` is `verifyHeader(headers[i], headers[:i])`; header `i - 1` needs a number only when header `i` passes its own checks, so a batch of nil-numbered headers is a valid input (each then fails the first check of `VerifyHeaderIsFirstFailure`) |
| `DevoteVerify.VerifyUncles` | consensus/devote/devote.go:361-366 | success iff the block has no uncles, otherwise the uncles error |
| `DevoteSigner.FreshRecover` | consensus/devote/devote.go:499-513 | extra-data shorter than 65 bytes gives `errMissingSignature`, and only that does; otherwise it is `Success(a)` exactly when the last 65 bytes recover to `a` under the signing hash, and `errRecoverFailed` when recovery fails |
| `DevoteSigner.CachedRecover` | consensus/devote/devote.go:494-514 | no contract of its own: the cached address on a hit, the fresh recovery on a miss; its behaviour is stated by `RecoverIdempotent` and `CacheTransparent` |
| `DevoteSigner.CacheAfter` | consensus/devote/devote.go:494-514 | `ecrecover` never overwrites an entry; a miss followed by a successful recovery adds the header's hash mapped to the recovered signer; a hit or a failed recovery leaves the cache as it was |
| `DevoteSigner.RecoverIdempotent` | consensus/devote/devote.go:494-514 | a cache hit returns the cached address unchanged; a miss gives the fresh recovery; recovering again after the cache update gives the same answer; the cache grows at most by the header's hash |
| `DevoteSigner.CacheTransparent` | consensus/devote/devote.go:494-514 | a cache whose entry agrees with the signature never changes the answer |
| `DevoteSigner.Ecrecover` | consensus/devote/devote.go:494-514 | the answer is the cached or fresh recovery, and the cache gains hash to signer exactly after a successful fresh recovery |
| `DevoteSigner.SignerCheck` | consensus/devote/devote.go:403-415 | success iff the recovered signer equals both the scheduled validator and the declared witness; recovery errors propagate; a validator mismatch (`ErrInvalidBlockValidator`) is reported before a witness mismatch (`ErrMismatchSignerAndValidator`) |
| `DevoteSigner.PreparedExtra` | consensus/devote/devote.go:226-230 | prepared extra-data is exactly 97 bytes: the original first 32 bytes, or the original zero-padded to 32, followed by 65 zero bytes |
| `DevoteSigner.CopyInto` | consensus/devote/devote.go:476 | Go's `copy`: the destination keeps its length, and its front is overwritten with as much of the source as fits |
| `DevoteSigner.PlaceSignature` | consensus/devote/devote.go:476 | sealing keeps the length and everything before the seal slot, and puts the 65-byte signature in the slot |
| `DevoteSigner.SealKeepsSigHash` | consensus/devote/devote.go:127 | writing the signature does not change the signing hash |
| `DevoteSigner.SealThenVerify` | consensus/devote/devote.go:403-415 | a header sealed with a signature that recovers to the scheduled validator, who is also the witness, passes the signer check; a signature that recovers to anyone else is rejected as an invalid validator |
| `DevoteFinality.Walk` | consensus/devote/devote.go:170-200 | a confirmed header is stored, numbered above the confirmed one and not above the start, and comes with at least 15 distinct witnesses, its own among them |
| `DevoteFinality.WalkConfirmSound` | consensus/devote/devote.go:170-195 | a walk that confirms a header returns an ancestor of the start header, numbered above the confirmed one; its witness set has at least 15 members, all of whom produced headers on the way down in that header's epoch |
| `DevoteFinality.AncestorStep` | consensus/devote/devote.go:196 | one more parent step from the k-th ancestor reaches the (k+1)-th |
| `DevoteFinality.WalkFromHead` | consensus/devote/devote.go:170-195 | the same, for the walk from the chain head with epoch -1 and an empty set |
| `DevoteFinality.RunRoom` | consensus/devote/devote.go:183-186 | inside a run of one epoch whose 15th distinct witness appears at ancestor `m`, the fast return never fires: from step `j` there are at least as many blocks above the confirmed header as witnesses still missing |
| `DevoteFinality.WalkConfirmComplete` | consensus/devote/devote.go:170-200 | completeness: if ancestors `0..m` of the start lie in one epoch, above the confirmed header and distinct from it, and the 15th distinct witness first appears at ancestor `m`, the walk confirms exactly ancestor `m`, with the witnesses of ancestors `0..m` |
| `DevoteFinality.WalkFromHeadComplete` | consensus/devote/devote.go:170-200 | the same, for the walk from the chain head with epoch -1 and an empty set |
| `DevoteFinality.FastReturnQuiet` | consensus/devote/devote.go:183-186 | a header fewer blocks above the confirmed one than witnesses still missing ends the walk without confirming |
| `DevoteFinality.LoadConfirmed` | consensus/devote/devote.go:204-215 | a missing key gives a not-found error; a key whose header is unknown gives `ErrNilBlockHeader`; otherwise the result is the header stored under that hash |
| `DevoteFinality.InitialConfirmed` | consensus/devote/devote.go:159-168 | in a well-formed chain the initial confirmed header is a stored header |
| `DevoteFinality.InitialConfirmedOutcome` | consensus/devote/devote.go:159-168 | initialisation fails iff nothing is held, loading fails and genesis is missing, and then it returns the load error; a held header is kept; a stored head wins over genesis |
| `DevoteFinality.UpdateConfirmed` | consensus/devote/devote.go:158-202 | every transition keeps `ValidState`: a confirmed header, if any, is a stored one (after a failed initialisation none is held) |
| `DevoteFinality.UpdateAdvances` | consensus/devote/devote.go:170-195 | when the confirmed header changes, the new one is an ancestor of the head and numbered strictly above the old one; at least 15 distinct witnesses of its epoch built on it; the update succeeds, and the confirmed-head key now holds the new header's hash |
| `DevoteFinality.UpdateConfirmsAtQuorum` | consensus/devote/devote.go:158-202 | when the head's epoch holds such a run above the initialised header, the update succeeds, makes the header where the 15th distinct witness appears the confirmed one, and stores its hash under the confirmed-head key |
| `DevoteFinality.UpdateHolds` | consensus/devote/devote.go:159-201 | a failed initialisation changes nothing; a walk that does not confirm leaves the initialised header and an untouched database, and reports success or `ErrNilBlockHeader` |
| `DevoteFinality.UpdateQuietIdempotent` | consensus/devote/devote.go:173-201 | after a quiet update, a second update succeeds and changes nothing |
| `DevoteMintCount.MintCount` | consensus/devote/devote.go:525-554 | stored count + 1 when parent and block share an epoch and a count is stored; otherwise 1, so a new epoch restarts at 1 |
| `DevoteMintCount.UpdateMintCnt` | consensus/devote/devote.go:525-555 | writes the new count under (new epoch, validator); every other key is untouched |
| `DevoteMintCount.MintCountSequence` | consensus/devote/devote.go:533-545 | within one epoch, the next block by the same validator counts one more |
| `DevoteEngine.CalcDifficulty` | consensus/devote/devote.go:480-482 | no contract of its own: the constant 1; `Prepare` states that a prepared header carries it and `PreparedShapeAccepted` that `verifyHeader` accepts it |
| `DevoteEngine.PreparedShapeAccepted` | consensus/devote/devote.go:223-238 | a prepared header has 97 bytes of extra-data; if its other fields are acceptable, `verifyHeader` can reject it only as an unknown ancestor or for its timestamp |
| `DevoteEngine.Devote.constructor` | consensus/devote/devote.go:149-156 | a new engine has an empty signature cache, no confirmed header, and no signer |
| `DevoteEngine.Devote.Authorize` | consensus/devote/devote.go:484-491 | installs the signer and the signing function; finality state is untouched |
| `DevoteEngine.Devote.StoreConfirmedBlockHeader` | consensus/devote/devote.go:218-221 | the database maps the confirmed-head key to the confirmed header's hash |
| `DevoteEngine.Devote.UpdateConfirmedBlockHeader` | consensus/devote/devote.go:158-202 | the loop's error, confirmed header and database are exactly those of `UpdateConfirmed` |
| `DevoteEngine.Devote.Prepare` | consensus/devote/devote.go:223-238 | nonce 0 and prepared extra-data; a missing parent gives `ErrUnknownAncestor` with difficulty and witness untouched; otherwise difficulty is 1 and the witness is the signer |
| `DevoteEngine.Devote.Seal` | consensus/devote/devote.go:453-478 | block 0 is rejected; otherwise the signature of the signing hash is placed in the seal slot, or signing fails |
| `DevoteEngine.Devote.VerifyBlockSigner` | consensus/devote/devote.go:403-415 | the verdict is the signer check on the cached or fresh recovery, and the cache is updated as `ecrecover` does |
| `DevoteEngine.Devote.VerifySeal` | consensus/devote/devote.go:374-401 | the checks run in this order: block 0, witness lookup, signer check, finality update; each failure stops the sequence with nothing later changed; the signer and the signing function are never changed |
| `DevoteEngine.Devote.CheckValidator` | consensus/devote/devote.go:430-449 | success iff the deadline passes and the scheduled witness is the local signer and not the zero address; deadline errors come first; a failed witness lookup returns its error unchanged; a wrong witness gives `ErrInvalidBlockValidator` |
| `MasternodeWinner.MasternodePaymentVote.VoteHash` | eth/masternode_winner.go:212-219 | no contract of its own: the RLP hash of height and masternode identifier; `VoteHashIgnoresAccount` states that nothing else enters it |
| `MasternodeWinner.MasternodePaymentVote.IsVerified` | eth/masternode_winner.go:287-289 | no contract of its own: always true; `MasternodePayments.Has` states the consequence |
| `MasternodeWinner.VoteHashIgnoresAccount` | eth/masternode_winner.go:212-219 | a vote's hash depends only on its height and masternode identifier |
| `MasternodeWinner.FindAccount` | eth/masternode_winner.go:161-166 | the first entry for an account, or the end of the box when there is none |
| `MasternodeWinner.AddVote` | eth/masternode_winner.go:157-170 | the box grows by one entry exactly when the account had none; every entry keeps its account and position; the account's entry holds its previous votes followed by the new one |
| `MasternodeWinner.AddVoteExisting` | eth/masternode_winner.go:161-166 | a vote for a present account extends only that entry, by exactly that vote, and keeps the order |
| `MasternodeWinner.AddVoteNew` | eth/masternode_winner.go:167-169 | a vote for a new account appends an entry holding just that vote |
| `MasternodeWinner.AddVoteDistinct` | eth/masternode_winner.go:157-170 | accounts stay pairwise distinct |
| `MasternodeWinner.TotalVotesAppend` | eth/masternode_winner.go:167-168 | appending an entry adds its votes to the total |
| `MasternodeWinner.TotalVotesUpdate` | eth/masternode_winner.go:161-164 | replacing an entry replaces its votes in the total |
| `MasternodeWinner.AddVoteTotal` | eth/masternode_winner.go:157-170 | every vote raises a box's total by exactly one |
| `MasternodeWinner.FirstMaxUnique` | eth/masternode_winner.go:181-186 | a box has at most one winner |
| `MasternodeWinner.FirstMaxExample` | eth/masternode_winner.go:181-186 | with A, B and C at 2, 3 and 3 votes, B wins |
| `MasternodeWinner.HasAtLeastAntitone` | eth/masternode_winner.go:192-202 | clearing a threshold clears every lower one |
| `MasternodeWinner.HasAtLeastFind` | eth/masternode_winner.go:192-202 | with distinct accounts, the threshold test looks only at the account's own entry |
| `MasternodeWinner.MasternodePayee.constructor` | eth/masternode_winner.go:120-127 | a new payee holds its first vote |
| `MasternodeWinner.MasternodePayee.Add` | eth/masternode_winner.go:129-132 | appends the vote and keeps the account |
| `MasternodeWinner.MasternodePayee.Count` | eth/masternode_winner.go:134-136 | no contract of its own: the number of votes; `MasternodeBlockPayees.Best` and `Has` are proved with it |
| `MasternodeWinner.MasternodeBlockPayees.constructor` | eth/masternode_winner.go:148-154 | a new box is empty, for the given height |
| `MasternodeWinner.MasternodeBlockPayees.Add` | eth/masternode_winner.go:157-170 | the ballot becomes the vote added to the old ballot; accounts stay distinct |
| `MasternodeWinner.MasternodeBlockPayees.Best` | eth/masternode_winner.go:173-188 | an empty box gives (zero address, false); otherwise the account of the unique first entry with the most votes, and true |
| `MasternodeWinner.MasternodeBlockPayees.Has` | eth/masternode_winner.go:192-202 | true iff some entry for the address holds at least `num` votes |
| `MasternodeWinner.MasternodePayments.constructor` | eth/masternode_winner.go:61-73 | no votes, no boxes, and storage parameters of 1 |
| `MasternodeWinner.MasternodePayments.Has` | eth/masternode_winner.go:101-107 | `Has(hash)` is plain membership, because every vote counts as verified |
| `MasternodeWinner.MasternodePayments.VoteCount` | eth/masternode_winner.go:93-95 | zero exactly when no vote is stored |
| `MasternodeWinner.MasternodePayments.BlockCount` | eth/masternode_winner.go:97-99 | zero exactly when there is no box |
| `MasternodeWinner.BoxWithVote` | eth/masternode_winner.go:84-85 | a fresh valid box for the vote's height whose ballot is one entry holding just that vote |
| `MasternodeWinner.MasternodePayments.Add` | eth/masternode_winner.go:76-91 | a vote already stored under the hash is refused, and the votes and every box are unchanged. Otherwise the vote is stored under the caller's hash and the vote count grows by one. The box of the vote's height, if any, receives the vote; every other box is unchanged. The set of boxes never changes, nor does any box's height; the cached block number and the storage parameters are kept |
| `MasternodeWinner.MasternodePayments.CountInBox` | eth/masternode_winner.go:87 | counting in one box leaves every other box, every box's height, the vote map and the storage parameters unchanged |
| `MasternodeWinner.MasternodePayments.Clear` | eth/masternode_winner.go:109-113 | empties votes and boxes (both counts 0); `lastVote`, `didNotVote`, the cached block number and the storage parameters are kept |

## Left out

- **Wall clock.**
  - The wall-clock reads of `verifyHeader` and `Seal` are not modelled; `now` is a parameter of `VerifyHeader`.
  - `Seal`'s wait for the slot and its stop channel are not modelled.
  - `Seal` also re-stamps the time on `block.Header()`. Nothing models this, because that copy is not the header that `Seal` signs and returns. `types.Block` is not part of this model.
- **Concurrency.** The worker goroutine and abort channel of `VerifyHeaders` and the mutex of `Authorize` are not modelled. Only the sequential per-index results are.
- **Hashing and cryptography.**
  - Keccak-256, RLP encoding, secp256k1 recovery and the header hash are function parameters: the `Crypto` value and the `rlpHash` argument of `VoteHash`.
  - The signing function is a function value that may fail.
  - The vote methods `Sign`, `Verify`, `CheckSignature` and `CheckValid` are not modelled.
- **Signature cache.** The ARC eviction policy of the cache is not modelled. The cache is an unbounded map.
- **Outside this model.**
  - `lookupWitness` with `NewDevoteContextFromAtomic` is a parameter of `VerifySeal` and `CheckValidator`, as are the contexts they are built from.
  - `misc.VerifyForkHashes` is a predicate parameter.
  - `Finalize`, `AccumulateRewards`, `tryElect`, `timeOfFirstBlock`, `Author`, `APIs` and logging are not modelled.
- **Masternode registry.** `MasternodeInfo()` is not modelled: a vote carries its masternode identifier and account directly.
- **Unused fields.** The `manager` field and the `Votes()` accessor are not modelled.
- **Negative times.**
  - Times are naturals, so negative timestamps are not modelled.
  - The slot lemmas hold for `now >= 1`.
  - `PrevSlot` and `NextSlot` use Go's truncating division, so negative arguments round as in Go. The `int64` wrap-around of `now - 1` at the least `int64` value and of `now + 9` near the greatest is not modelled: arguments are unbounded integers.
- **Nil dereferences.** Where Go would panic on a nil pointer, the model has a precondition instead:
  - a nil block number in `Prepare`, `Seal` and `VerifySeal`;
  - a nil number on the batch predecessor of a header that passes its own checks in `VerifyHeaders` (Go reads that number at consensus/devote/devote.go:333);
  - a missing parent in `VerifySeal`;
  - extra-data shorter than 65 bytes in `Seal`.
- **Headers are values.**
  - `Devote.Prepare` and `Devote.Seal` return the updated header instead of updating it through a pointer.
  - Aliasing of that header by callers is not captured.
- `DevoteEngine.Devote.constructor`: a new engine's signing function is one that always fails, where Go leaves it nil.
- **Error values.**
  - The error of the signing function is modelled as `ErrSignFailed`.
  - The error of `crypto.Ecrecover` is modelled as `ErrRecoverFailed`.
  - The database read error is modelled as `ErrNotFound`.
- `DevoteMintCount.MintCount`: counts are unbounded. The 8-byte encoding of counts and its wrap-around at 2^64 are not modelled, because a count of 2^63 blocks in one epoch is unreachable.
- `DevoteMintCount.MintCntTrie`: only keys of the form (epoch, address) are modelled.
- **Finality walk.** It assumes a well-formed chain, with numbers and times below 2^63. With that assumption, the `int64` conversions of the walk are exact.
- `DevoteFinality.WalkConfirmComplete`: completeness is stated for the case where the quorum is reached within the head's own epoch. A walk that crosses an epoch boundary empties its witness set, and only soundness (`WalkConfirmSound`) is stated for it.

/** The per-epoch mint-count ledger: how many blocks each validator has
    produced in an epoch, kept in a trie keyed by (epoch, validator). */
module DevoteMintCount {
  import opened Primitives
  import opened DevoteTypes

  /** The mint-count trie, keyed by the 8-byte big-endian epoch followed by
      the validator's address; the values are the counts. */
  class MintCntTrie {
    var counts: map<(nat, Address), nat>

    constructor (counts: map<(nat, Address), nat>)
      ensures this.counts == counts
    {
      this.counts := counts;
    }
  }

  /** Whether an iterator started at the key of `epoch` finds any leaf: keys
      order by epoch first, so it does exactly when some key belongs to
      `epoch` or a later one. */
  predicate HasKeyFrom(counts: map<(nat, Address), nat>, epoch: nat)
  {
    exists k :: k in counts && k.0 >= epoch
  }

  /** The count `updateMintCnt` writes for `validator`: one more than the
      stored count when the parent and the new block share an epoch and a
      count is stored, otherwise 1, so crossing an epoch restarts at 1. The
      iterator test of the source never changes the outcome. */
  function MintCount(counts: map<(nat, Address), nat>, parentTime: nat, currentTime: nat,
                     validator: Address): (n: nat)
    ensures n >= 1
    ensures parentTime / EpochInterval == currentTime / EpochInterval &&
            (parentTime / EpochInterval, validator) in counts ==>
              n == counts[(parentTime / EpochInterval, validator)] + 1
    ensures parentTime / EpochInterval != currentTime / EpochInterval ==> n == 1
    ensures (parentTime / EpochInterval, validator) !in counts ==> n == 1
  {
    var currentEpoch: nat := parentTime / EpochInterval;
    var newEpoch: nat := currentTime / EpochInterval;
    if currentEpoch == newEpoch && HasKeyFrom(counts, currentEpoch) &&
       (currentEpoch, validator) in counts
    then counts[(currentEpoch, validator)] + 1
    else 1
  }

  /** `updateMintCnt`: writes the new count under (new epoch, validator) and
      leaves every other key as it was. */
  method UpdateMintCnt(parentTime: nat, currentTime: nat, validator: Address, trie: MintCntTrie)
    modifies trie
    ensures trie.counts == old(trie.counts)[(currentTime / EpochInterval, validator) :=
                                            MintCount(old(trie.counts), parentTime, currentTime, validator)]
  {
    var currentEpoch: nat := parentTime / EpochInterval;
    var cnt := 1;
    var newEpoch: nat := currentTime / EpochInterval;
    if currentEpoch == newEpoch {
      if exists k :: k in trie.counts && k.0 >= currentEpoch {
        if (currentEpoch, validator) in trie.counts {
          cnt := trie.counts[(currentEpoch, validator)] + 1;
        }
      }
    }
    trie.counts := trie.counts[(newEpoch, validator) := cnt];
  }

  /** Within one epoch, successive blocks by the same validator count up
      from 1; any block of a different epoch starts the count afresh. */
  lemma {:induction false} MintCountSequence(counts: map<(nat, Address), nat>, t0: nat, t1: nat, t2: nat,
                                             v: Address)
    requires t0 / EpochInterval == t1 / EpochInterval == t2 / EpochInterval
    ensures var after := counts[(t1 / EpochInterval, v) := MintCount(counts, t0, t1, v)];
            MintCount(after, t1, t2, v) == MintCount(counts, t0, t1, v) + 1
  {
    var after := counts[(t1 / EpochInterval, v) := MintCount(counts, t0, t1, v)];
    assert (t1 / EpochInterval, v) in after;
  }
}

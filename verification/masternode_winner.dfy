/** The masternode payment ballot: votes naming the masternode that should
    be paid for a block height, the per-height ballot boxes that tally them
    by account, and the store of all votes received. */
module MasternodeWinner {
  import opened Primitives

  /** A vote for the masternode to be paid at block height `number`. The
      voted masternode is given by its identifier and the account its
      registry entry resolves to. */
  datatype MasternodePaymentVote = MasternodePaymentVote(number: nat, masternodeId: nat, account: Address)
  {
    /** The vote's hash: the RLP hash (a parameter here) of the height and the
        masternode identifier. */
    function VoteHash(rlpHash: (nat, nat) -> Hash): Hash
    {
      rlpHash(number, masternodeId)
    }

    /** Votes are never checked: every stored vote counts as verified. */
    function IsVerified(): bool
    {
      true
    }
  }

  /** Two votes for the same height and masternode hash alike, whatever
      account they resolve to. */
  lemma VoteHashIgnoresAccount(rlpHash: (nat, nat) -> Hash, v: MasternodePaymentVote, w: MasternodePaymentVote)
    requires v.number == w.number && v.masternodeId == w.masternodeId
    ensures v.VoteHash(rlpHash) == w.VoteHash(rlpHash)
  {
  }

  /** The contents of a ballot box entry: an account and the votes for it. */
  datatype Ballot = Ballot(account: Address, votes: seq<MasternodePaymentVote>)

  /** No account appears twice in a ballot box. */
  predicate DistinctAccounts(bs: seq<Ballot>)
  {
    forall i, j :: 0 <= i < j < |bs| ==> bs[i].account != bs[j].account
  }

  /** The position of the first entry for `a`, or `|bs|` when there is none. */
  function FindAccount(bs: seq<Ballot>, a: Address): (i: nat)
    ensures i <= |bs|
    ensures i < |bs| ==> bs[i].account == a
    ensures forall j :: 0 <= j < i ==> bs[j].account != a
  {
    if bs == [] then 0
    else if bs[0].account == a then 0
    else
      var k := FindAccount(bs[1..], a);
      assert forall j :: 1 <= j < |bs| ==> bs[j] == bs[1..][j - 1];
      1 + k
  }

  /** A ballot box after a vote: the vote joins the entry of its account, or
      a new entry for that account is appended. */
  function AddVote(bs: seq<Ballot>, v: MasternodePaymentVote): (r: seq<Ballot>)
    ensures |r| == if FindAccount(bs, v.account) < |bs| then |bs| else |bs| + 1
    ensures forall j :: 0 <= j < |bs| ==> r[j].account == bs[j].account
    ensures var i := FindAccount(bs, v.account);
            r[i] == Ballot(v.account, (if i < |bs| then bs[i].votes else []) + [v])
  {
    var i := FindAccount(bs, v.account);
    if i < |bs| then bs[i := Ballot(bs[i].account, bs[i].votes + [v])]
    else bs + [Ballot(v.account, [v])]
  }

  /** The number of votes in a ballot box. */
  function TotalVotes(bs: seq<Ballot>): nat
  {
    if bs == [] then 0 else |bs[0].votes| + TotalVotes(bs[1..])
  }

  /** Entry `b` wins: no entry has more votes, and every entry before it has
      strictly fewer. */
  predicate IsFirstMax(bs: seq<Ballot>, b: int)
  {
    0 <= b < |bs| &&
    (forall j :: 0 <= j < |bs| ==> |bs[j].votes| <= |bs[b].votes|) &&
    (forall j :: 0 <= j < b ==> |bs[j].votes| < |bs[b].votes|)
  }

  /** Some entry for `a` holds at least `n` votes. */
  predicate HasAtLeast(bs: seq<Ballot>, n: int, a: Address)
  {
    exists i :: 0 <= i < |bs| && |bs[i].votes| >= n && bs[i].account == a
  }

  /** A vote for an account already in the box extends that entry alone,
      by exactly that vote, and keeps the order of the entries. */
  lemma AddVoteExisting(bs: seq<Ballot>, v: MasternodePaymentVote, k: nat)
    requires DistinctAccounts(bs) && k < |bs| && bs[k].account == v.account
    ensures |AddVote(bs, v)| == |bs|
    ensures AddVote(bs, v)[k] == Ballot(v.account, bs[k].votes + [v])
    ensures forall j :: 0 <= j < |bs| && j != k ==> AddVote(bs, v)[j] == bs[j]
  {
    assert FindAccount(bs, v.account) == k;
  }

  /** A vote for an account not in the box appends a new entry holding just
      that vote, after all existing ones. */
  lemma AddVoteNew(bs: seq<Ballot>, v: MasternodePaymentVote)
    requires forall j :: 0 <= j < |bs| ==> bs[j].account != v.account
    ensures AddVote(bs, v) == bs + [Ballot(v.account, [v])]
  {
    assert FindAccount(bs, v.account) == |bs|;
  }

  /** Accounts stay pairwise distinct as votes are added. */
  lemma AddVoteDistinct(bs: seq<Ballot>, v: MasternodePaymentVote)
    requires DistinctAccounts(bs)
    ensures DistinctAccounts(AddVote(bs, v))
  {
  }

  /** Appending an entry adds its votes to the total. */
  lemma {:induction false} TotalVotesAppend(bs: seq<Ballot>, b: Ballot)
    ensures TotalVotes(bs + [b]) == TotalVotes(bs) + |b.votes|
  {
    if bs != [] {
      assert (bs + [b])[1..] == bs[1..] + [b];
      TotalVotesAppend(bs[1..], b);
    }
  }

  /** Replacing an entry replaces its votes in the total. */
  lemma {:induction false} TotalVotesUpdate(bs: seq<Ballot>, i: nat, b: Ballot)
    requires i < |bs|
    ensures TotalVotes(bs[i := b]) + |bs[i].votes| == TotalVotes(bs) + |b.votes|
  {
    if i > 0 {
      assert bs[i := b][1..] == bs[1..][i - 1 := b];
      TotalVotesUpdate(bs[1..], i - 1, b);
    }
  }

  /** Every vote added to a ballot box raises its total by exactly one. */
  lemma AddVoteTotal(bs: seq<Ballot>, v: MasternodePaymentVote)
    ensures TotalVotes(AddVote(bs, v)) == TotalVotes(bs) + 1
  {
    var i := FindAccount(bs, v.account);
    if i < |bs| {
      TotalVotesUpdate(bs, i, Ballot(bs[i].account, bs[i].votes + [v]));
    } else {
      TotalVotesAppend(bs, Ballot(v.account, [v]));
    }
  }

  /** The winner of a ballot box is unique. */
  lemma FirstMaxUnique(bs: seq<Ballot>, b: int, c: int)
    requires IsFirstMax(bs, b) && IsFirstMax(bs, c)
    ensures b == c
  {
    assert |bs[b].votes| <= |bs[c].votes| && |bs[c].votes| <= |bs[b].votes|;
  }

  /** Ties go to the earlier entry: with A, B and C holding 2, 3 and 3 votes,
      B wins. */
  lemma FirstMaxExample(a: Address, b: Address, c: Address, v: MasternodePaymentVote)
    ensures IsFirstMax([Ballot(a, [v, v]), Ballot(b, [v, v, v]), Ballot(c, [v, v, v])], 1)
  {
  }

  /** More votes than any threshold also clear every lower one. */
  lemma HasAtLeastAntitone(bs: seq<Ballot>, n: int, m: int, a: Address)
    requires m <= n && HasAtLeast(bs, n, a)
    ensures HasAtLeast(bs, m, a)
  {
  }

  /** With distinct accounts the threshold test looks only at the account's
      one entry. */
  lemma HasAtLeastFind(bs: seq<Ballot>, n: int, a: Address)
    requires DistinctAccounts(bs)
    ensures HasAtLeast(bs, n, a) <==>
              FindAccount(bs, a) < |bs| && |bs[FindAccount(bs, a)].votes| >= n
  {
    if HasAtLeast(bs, n, a) {
      var i :| 0 <= i < |bs| && |bs[i].votes| >= n && bs[i].account == a;
      assert FindAccount(bs, a) == i;
    }
  }

  /** One account's entry in a ballot box, with the votes cast for it. */
  class MasternodePayee {
    var account: Address
    var votes: seq<MasternodePaymentVote>

    /** `NewMasternodePayee`: an entry holding its first vote. */
    constructor (account: Address, vote: MasternodePaymentVote)
      ensures this.account == account && votes == [vote]
    {
      this.account := account;
      votes := [vote];
    }

    /** Record one more vote for this account. */
    method Add(vote: MasternodePaymentVote)
      modifies this
      ensures votes == old(votes) + [vote] && account == old(account)
    {
      votes := votes + [vote];
    }

    function Count(): nat
      reads this
    {
      |votes|
    }
  }

  /** The ballot box of one block height: one entry per voted account, in
      the order the accounts first received a vote. */
  class MasternodeBlockPayees {
    var number: nat
    var payees: seq<MasternodePayee>
    ghost var Contents: seq<Ballot>
    ghost var Repr: set<object>

    /** The entries are distinct objects owned by the box, their contents are
        `Contents`, and no account has two entries. */
    ghost predicate Valid()
      reads this, Repr
    {
      this in Repr &&
      (forall i :: 0 <= i < |payees| ==> payees[i] in Repr) &&
      (forall i, j :: 0 <= i < j < |payees| ==> payees[i] != payees[j]) &&
      |Contents| == |payees| &&
      (forall i :: 0 <= i < |payees| ==> Contents[i] == Ballot(payees[i].account, payees[i].votes)) &&
      DistinctAccounts(Contents)
    }

    /** `NewMasternodeBlockPayees`: an empty box for height `number`. */
    constructor (number: nat)
      ensures Valid() && fresh(Repr)
      ensures this.number == number && Contents == []
    {
      this.number := number;
      payees := [];
      Contents := [];
      Repr := {this};
    }

    /** Count a vote: it joins the entry of the vote's account, or a new
        entry is appended for that account. */
    method Add(vote: MasternodePaymentVote)
      requires Valid()
      modifies Repr
      ensures Valid() && fresh(Repr - old(Repr))
      ensures Contents == AddVote(old(Contents), vote)
      ensures number == old(number)
    {
      var i := 0;
      while i < |payees|
        invariant 0 <= i <= |payees|
        invariant forall j :: 0 <= j < i ==> Contents[j].account != vote.account
      {
        if payees[i].account == vote.account {
          AddVoteExisting(Contents, vote, i);
          payees[i].Add(vote);
          Contents := Contents[i := Ballot(vote.account, payees[i].votes)];
          return;
        }
        i := i + 1;
      }
      AddVoteNew(Contents, vote);
      var payee := new MasternodePayee(vote.account, vote);
      payees := payees + [payee];
      Contents := Contents + [Ballot(vote.account, [vote])];
      Repr := Repr + {payee};
    }

    /** `Best`: the account of the entry with the most votes, the earliest
        among equals; on an empty box the zero address and `false`. */
    method Best() returns (account: Address, ok: bool)
      requires Valid()
      ensures ok <==> |Contents| > 0
      ensures !ok ==> account == ZeroAddress
      ensures ok ==> exists b :: IsFirstMax(Contents, b) && account == Contents[b].account
    {
      var votes := -1;
      account := ZeroAddress;
      ghost var best := -1;
      for i := 0 to |payees|
        invariant i == 0 ==> votes == -1 && account == ZeroAddress
        invariant i > 0 ==> IsFirstMax(Contents[..i], best) && votes == |Contents[best].votes| &&
                            account == Contents[best].account
      {
        if votes < payees[i].Count() {
          account := payees[i].account;
          votes := payees[i].Count();
          best := i;
        }
      }
      ok := votes > -1;
      if |payees| > 0 {
        assert Contents[..|payees|] == Contents;
      }
    }

    /** `Has(num, address)`: whether the entry of `address` holds at least
        `num` votes. */
    method Has(num: int, address: Address) returns (found: bool)
      requires Valid()
      ensures found == HasAtLeast(Contents, num, address)
    {
      for i := 0 to |payees|
        invariant !HasAtLeast(Contents[..i], num, address)
      {
        if payees[i].Count() >= num && payees[i].account == address {
          assert Contents[i] == Ballot(payees[i].account, payees[i].votes);
          return true;
        }
        assert Contents[..i + 1] == Contents[..i] + [Contents[i]];
      }
      assert Contents[..|payees|] == Contents;
      return false;
    }
  }

  /** A new ballot box for the vote's height holding just that vote, as
      `Add` builds it for a height without a box. */
  method BoxWithVote(vote: MasternodePaymentVote) returns (box: MasternodeBlockPayees)
    ensures fresh(box.Repr) && box.Valid()
    ensures box.number == vote.number && box.Contents == [Ballot(vote.account, [vote])]
  {
    box := new MasternodeBlockPayees(vote.number);
    box.Add(vote);
  }

  /** The payment votes received, keyed by the hash they were announced
      under, and the ballot boxes by block height. */
  class MasternodePayments {
    var cachedBlockNumber: nat
    var minBlocksToStore: nat
    var storageCoeff: nat
    var votes: map<Hash, MasternodePaymentVote>
    var blocks: map<nat, MasternodeBlockPayees>
    var lastVote: map<Hash, nat>
    var didNotVote: map<Hash, nat>
    ghost var Repr: set<object>

    /** Each ballot box is valid and owns a footprint of its own. */
    ghost predicate Valid()
      reads this, Repr
    {
      this in Repr &&
      (forall n :: n in blocks ==>
         blocks[n] in Repr && blocks[n].Repr <= Repr && this !in blocks[n].Repr && blocks[n].Valid()) &&
      (forall n, m :: n in blocks && m in blocks && n != m ==> blocks[n].Repr !! blocks[m].Repr)
    }

    /** `NewMasternodePayments`: no votes and no boxes yet. */
    constructor (number: nat)
      ensures Valid() && fresh(Repr)
      ensures cachedBlockNumber == number && minBlocksToStore == 1 && storageCoeff == 1
      ensures votes == map[] && blocks == map[] && lastVote == map[] && didNotVote == map[]
    {
      cachedBlockNumber := number;
      minBlocksToStore := 1;
      storageCoeff := 1;
      votes := map[];
      blocks := map[];
      lastVote := map[];
      didNotVote := map[];
      Repr := {this};
    }

    /** `Has(hash)`: a vote is stored under `hash`; since every vote counts
        as verified, this is plain membership. */
    function Has(hash: Hash): (r: bool)
      reads this
      ensures r <==> hash in votes
    {
      hash in votes && votes[hash].IsVerified()
    }

    function VoteCount(): (n: nat)
      reads this
      ensures n == 0 <==> votes == map[]
    {
      |votes|
    }

    function BlockCount(): (n: nat)
      reads this
      ensures n == 0 <==> blocks == map[]
    {
      |blocks|
    }

    /** `Add(hash, vote)`: a vote already stored under `hash` is refused and
        nothing changes. Otherwise it is stored under `hash` and counted in
        the box of its height when there is one; for a height without a box
        a new box is filled and then dropped, so no box is ever created. */
    method Add(hash: Hash, vote: MasternodePaymentVote) returns (added: bool)
      requires Valid()
      modifies Repr
      ensures Valid() && fresh(Repr - old(Repr))
      ensures added <==> hash !in old(votes)
      ensures !added ==> votes == old(votes)
      ensures added ==> votes == old(votes)[hash := vote] && VoteCount() == old(VoteCount()) + 1
      ensures blocks == old(blocks)
      ensures forall n :: n in blocks && (!added || n != U64(vote.number)) ==>
                blocks[n].Contents == old(blocks[n].Contents)
      ensures added && U64(vote.number) in blocks ==>
                blocks[U64(vote.number)].Contents == AddVote(old(blocks[U64(vote.number)].Contents), vote)
      ensures lastVote == old(lastVote) && didNotVote == old(didNotVote)
      ensures cachedBlockNumber == old(cachedBlockNumber) && minBlocksToStore == old(minBlocksToStore) &&
              storageCoeff == old(storageCoeff)
      ensures forall n :: n in blocks ==> blocks[n].number == old(blocks[n].number)
    {
      if Has(hash) {
        return false;
      }
      votes := votes[hash := vote];
      var key := U64(vote.number);
      if key !in blocks {
        var blockPayees := BoxWithVote(vote);
      } else {
        CountInBox(key, vote);
      }
      return true;
    }

    /** `blocks[key].Add(vote)`: count a vote in the existing box of height
        `key`, leaving every other box as it was. */
    method CountInBox(key: nat, vote: MasternodePaymentVote)
      requires Valid() && key in blocks
      modifies Repr
      ensures Valid() && fresh(Repr - old(Repr))
      ensures blocks == old(blocks) && votes == old(votes)
      ensures lastVote == old(lastVote) && didNotVote == old(didNotVote)
      ensures blocks[key].Contents == AddVote(old(blocks[key].Contents), vote)
      ensures forall n :: n in blocks && n != key ==> blocks[n].Contents == old(blocks[n].Contents)
      ensures cachedBlockNumber == old(cachedBlockNumber) && minBlocksToStore == old(minBlocksToStore) &&
              storageCoeff == old(storageCoeff)
      ensures forall n :: n in blocks ==> blocks[n].number == old(blocks[n].number)
    {
      var box := blocks[key];
      ghost var boxRepr := box.Repr;
      assert this !in boxRepr;
      box.Add(vote);
      forall n | n in blocks && n != key
        ensures blocks[n].Valid() && blocks[n].Contents == old(blocks[n].Contents)
        ensures blocks[n].number == old(blocks[n].number)
      {
        assert blocks[n].Repr !! boxRepr && blocks[n] in blocks[n].Repr;
      }
      Repr := Repr + box.Repr;
    }

    /** `Clear`: forget every vote and every box; the vote bookkeeping maps
        are kept. */
    method Clear()
      requires Valid()
      modifies this
      ensures Valid()
      ensures votes == map[] && blocks == map[] && VoteCount() == 0 && BlockCount() == 0
      ensures lastVote == old(lastVote) && didNotVote == old(didNotVote)
      ensures cachedBlockNumber == old(cachedBlockNumber) && minBlocksToStore == old(minBlocksToStore) &&
              storageCoeff == old(storageCoeff)
    {
      blocks := map[];
      votes := map[];
    }
  }
}

/** Finality: walking back from the chain head, collecting the distinct
    witnesses of the current epoch, until enough of them have produced
    blocks above the confirmed header to make the header reached final. */
module DevoteFinality {
  import opened Primitives
  import opened DevoteTypes

  /** How a finality walk ends: it confirms a header (with the witness set it
      had collected), stops without confirming, or meets a missing parent. */
  datatype WalkEnd = Confirm(header: Header, witnesses: set<Address>) | Quiet | MissingParent

  /** The loop of `updateConfirmedBlockHeader` from the state (`cur`,
      `epoch`, `seen`), against the confirmed header `conf`. */
  function Walk(c: ChainReader, cr: Crypto, conf: Header, cur: Header, epoch: int,
                seen: set<Address>): (r: WalkEnd)
    requires WellFormed(c) && Stored(conf) && ParentLinked(c, cur)
    ensures r.Confirm? ==> Stored(r.header) && Num(conf) < Num(r.header) <= Num(cur) &&
                           |r.witnesses| >= ConsensusSize && r.header.witnessAddr in r.witnesses
    decreases Num(cur)
  {
    if cr.headerHash(conf) == cr.headerHash(cur) || Num(conf) >= Num(cur) then Quiet
    else
      var curEpoch := cur.time / EpochInterval;
      var current := if curEpoch != epoch then {} else seen;
      // fast return: too few blocks left above the confirmed one to reach the quorum
      if Num(cur) - Num(conf) < ConsensusSize - |current| then Quiet
      else
        var grown := current + {cur.witnessAddr};
        if |grown| >= ConsensusSize then Confirm(cur, grown)
        else if cur.parentHash !in c.headers then MissingParent
        else Walk(c, cr, conf, c.headers[cur.parentHash], curEpoch, grown)
  }

  /** The header `k` parent steps above `h`, following parent hashes. */
  function Ancestor(c: ChainReader, h: Header, k: nat): Option<Header>
    decreases k
  {
    if k == 0 then Some(h)
    else if h.parentHash in c.headers then Ancestor(c, c.headers[h.parentHash], k - 1)
    else None
  }

  /** One more parent step from the `k`-th ancestor reaches the `k+1`-th. */
  lemma {:induction false} AncestorStep(c: ChainReader, h: Header, k: nat, a: Header)
    requires Ancestor(c, h, k) == Some(a) && a.parentHash in c.headers
    ensures Ancestor(c, h, k + 1) == Some(c.headers[a.parentHash])
    decreases k
  {
    if k > 0 {
      AncestorStep(c, c.headers[h.parentHash], k - 1, a);
    }
  }

  /** The `k`-th ancestor of `top` was produced by `w` in epoch `e`. */
  predicate WitnessAt(c: ChainReader, top: Header, k: nat, w: Address, e: int)
  {
    Ancestor(c, top, k).Some? && Ancestor(c, top, k).value.witnessAddr == w &&
    Ancestor(c, top, k).value.time / EpochInterval == e
  }

  /** The walk started at `top` is at its `j`-th ancestor `cur`, and every
      witness collected so far produced one of the headers already passed,
      in epoch `epoch`. When it confirms a header, that header is an ancestor
      of `top` numbered above `conf`, the collected set has reached the
      quorum, and every member produced a header on the walk down to the
      confirmed one, in the confirmed header's epoch. */
  lemma {:induction false} WalkConfirmSound(c: ChainReader, cr: Crypto, conf: Header, top: Header,
                                            j: nat, cur: Header, epoch: int, seen: set<Address>)
    requires WellFormed(c) && Stored(conf) && ParentLinked(c, cur)
    requires Ancestor(c, top, j) == Some(cur)
    requires forall w :: w in seen ==> exists k: nat :: k < j && WitnessAt(c, top, k, w, epoch)
    ensures Walk(c, cr, conf, cur, epoch, seen).Confirm? ==>
              var h := Walk(c, cr, conf, cur, epoch, seen).header;
              var ws := Walk(c, cr, conf, cur, epoch, seen).witnesses;
              Stored(h) && Num(h) > Num(conf) && |ws| >= ConsensusSize && h.witnessAddr in ws &&
              exists n: nat :: j <= n && Ancestor(c, top, n) == Some(h) &&
                (forall w :: w in ws ==> exists k: nat :: k <= n && WitnessAt(c, top, k, w, h.time / EpochInterval))
    decreases Num(cur)
  {
    if cr.headerHash(conf) == cr.headerHash(cur) || Num(conf) >= Num(cur) {
      return;
    }
    var curEpoch := cur.time / EpochInterval;
    var current := if curEpoch != epoch then {} else seen;
    if Num(cur) - Num(conf) < ConsensusSize - |current| {
      return;
    }
    var grown := current + {cur.witnessAddr};
    assert WitnessAt(c, top, j, cur.witnessAddr, curEpoch);
    assert forall w :: w in grown ==> exists k: nat :: k <= j && WitnessAt(c, top, k, w, curEpoch);
    if |grown| >= ConsensusSize {
      assert Walk(c, cr, conf, cur, epoch, seen) == Confirm(cur, grown);
      assert j <= j && Ancestor(c, top, j) == Some(cur) &&
             forall w :: w in grown ==> exists k: nat :: k <= j && WitnessAt(c, top, k, w, cur.time / EpochInterval);
      return;
    }
    if cur.parentHash !in c.headers {
      return;
    }
    var parent := c.headers[cur.parentHash];
    AncestorStep(c, top, j, cur);
    forall w | w in grown
      ensures exists k: nat :: k < j + 1 && WitnessAt(c, top, k, w, curEpoch)
    {
      var k: nat :| k <= j && WitnessAt(c, top, k, w, curEpoch);
      assert k < j + 1;
    }
    WalkConfirmSound(c, cr, conf, top, j + 1, parent, curEpoch, grown);
  }

  /** The walk from the head never confirms a header at or below the
      confirmed one, nor without 15 distinct witnesses of one epoch having
      produced blocks on the way down to it. */
  lemma WalkFromHead(c: ChainReader, cr: Crypto, conf: Header)
    requires WellFormed(c) && Stored(conf)
    ensures Walk(c, cr, conf, c.current, -1, {}).Confirm? ==>
              var h := Walk(c, cr, conf, c.current, -1, {}).header;
              var ws := Walk(c, cr, conf, c.current, -1, {}).witnesses;
              Stored(h) && Num(h) > Num(conf) && |ws| >= ConsensusSize &&
              exists n: nat :: Ancestor(c, c.current, n) == Some(h) &&
                (forall w :: w in ws ==> exists k: nat :: k <= n && WitnessAt(c, c.current, k, w, h.time / EpochInterval))
  {
    WalkConfirmSound(c, cr, conf, c.current, 0, c.current, -1, {});
  }

  /** The fast return: when the current header is fewer blocks above the
      confirmed one than witnesses are still missing, the walk stops at once
      without confirming. */
  lemma FastReturnQuiet(c: ChainReader, cr: Crypto, conf: Header, cur: Header,
                        epoch: int, seen: set<Address>)
    requires WellFormed(c) && Stored(conf) && ParentLinked(c, cur)
    requires Num(cur) - Num(conf) < ConsensusSize - |seen|
    ensures Walk(c, cr, conf, cur, epoch, seen) == Quiet
  {
  }

  /** A missing `k`-th ancestor leaves the `k+1`-th missing too: an existing
      `k+1`-th ancestor means the `k`-th exists and its parent is held. */
  lemma {:induction false} AncestorBack(c: ChainReader, h: Header, k: nat)
    requires Ancestor(c, h, k + 1).Some?
    ensures Ancestor(c, h, k).Some? && Ancestor(c, h, k).value.parentHash in c.headers
    decreases k
  {
    if k > 0 {
      AncestorBack(c, c.headers[h.parentHash], k - 1);
    }
  }

  /** Along the ancestors of a linked header numbers fall by at least one per
      step: the `j`-th ancestor is at least `m - j` above the `m`-th. */
  lemma {:induction false} AncestorNumbers(c: ChainReader, h: Header, j: nat, m: nat)
    requires WellFormed(c) && ParentLinked(c, h) && j <= m && Ancestor(c, h, m).Some?
    ensures Ancestor(c, h, j).Some? && ParentLinked(c, Ancestor(c, h, j).value)
    ensures ParentLinked(c, Ancestor(c, h, m).value)
    ensures Num(Ancestor(c, h, j).value) >= Num(Ancestor(c, h, m).value) + (m - j)
    decreases m
  {
    if j == m {
      AncestorLinked(c, h, m);
    } else {
      AncestorNumbers(c, h, j, m - 1) by { AncestorBack(c, h, m - 1); }
      AncestorBack(c, h, m - 1);
      AncestorLinked(c, h, m - 1);
      AncestorStep(c, h, m - 1, Ancestor(c, h, m - 1).value);
    }
  }

  /** Every ancestor of a linked header in a well-formed chain is linked. */
  lemma {:induction false} AncestorLinked(c: ChainReader, h: Header, k: nat)
    requires WellFormed(c) && ParentLinked(c, h) && Ancestor(c, h, k).Some?
    ensures ParentLinked(c, Ancestor(c, h, k).value)
    decreases k
  {
    if k > 0 {
      AncestorLinked(c, c.headers[h.parentHash], k - 1);
    }
  }

  /** The witnesses of the first `k` headers on the way down from `top`. */
  function Witnesses(c: ChainReader, top: Header, k: nat): set<Address>
    decreases k
  {
    if k == 0 then {}
    else match Ancestor(c, top, k - 1)
      case Some(h) => Witnesses(c, top, k - 1) + {h.witnessAddr}
      case None => Witnesses(c, top, k - 1)
  }

  /** Headers further down add at most one witness each and never remove
      one. */
  lemma {:induction false} WitnessesGrow(c: ChainReader, top: Header, j: nat, m: nat)
    requires j <= m
    ensures Witnesses(c, top, j) <= Witnesses(c, top, m)
    ensures |Witnesses(c, top, j)| <= |Witnesses(c, top, m)| <= |Witnesses(c, top, j)| + (m - j)
    decreases m
  {
    if j < m {
      WitnessesGrow(c, top, j, m - 1);
      match Ancestor(c, top, m - 1)
      case Some(h) =>
        var prev := Witnesses(c, top, m - 1);
        assert Witnesses(c, top, m) == prev + {h.witnessAddr};
        if h.witnessAddr in prev {
          assert prev + {h.witnessAddr} == prev;
        }
      case None =>
    }
  }

  /** Ancestors `0..m` of `top` all lie in `top`'s epoch, strictly above the
      confirmed header `conf` and hashing differently from it. */
  predicate EpochRun(c: ChainReader, cr: Crypto, conf: Header, top: Header, m: nat)
    requires Stored(conf)
  {
    forall k: nat :: k <= m ==>
      Ancestor(c, top, k).Some? &&
      Ancestor(c, top, k).value.time / EpochInterval == top.time / EpochInterval &&
      Stored(Ancestor(c, top, k).value) && Num(Ancestor(c, top, k).value) > Num(conf) &&
      cr.headerHash(Ancestor(c, top, k).value) != cr.headerHash(conf)
  }

  /** One step of the walk that neither stops nor confirms moves on to the
      parent, in the current header's epoch, with its witness added. */
  lemma WalkContinues(c: ChainReader, cr: Crypto, conf: Header, cur: Header, epoch: int,
                      current: set<Address>, seen: set<Address>)
    requires WellFormed(c) && Stored(conf) && ParentLinked(c, cur)
    requires cr.headerHash(conf) != cr.headerHash(cur) && Num(conf) < Num(cur)
    requires current == if cur.time / EpochInterval != epoch then {} else seen
    requires Num(cur) - Num(conf) >= ConsensusSize - |current|
    requires |current + {cur.witnessAddr}| < ConsensusSize && cur.parentHash in c.headers
    ensures Walk(c, cr, conf, cur, epoch, seen) ==
            Walk(c, cr, conf, c.headers[cur.parentHash], cur.time / EpochInterval, current + {cur.witnessAddr})
  {
  }

  /** A step of the walk whose witness completes the quorum confirms the
      current header. */
  lemma WalkConfirmsHere(c: ChainReader, cr: Crypto, conf: Header, cur: Header, epoch: int,
                         current: set<Address>, seen: set<Address>)
    requires WellFormed(c) && Stored(conf) && ParentLinked(c, cur)
    requires cr.headerHash(conf) != cr.headerHash(cur) && Num(conf) < Num(cur)
    requires current == if cur.time / EpochInterval != epoch then {} else seen
    requires Num(cur) - Num(conf) >= ConsensusSize - |current|
    requires |current + {cur.witnessAddr}| >= ConsensusSize
    ensures Walk(c, cr, conf, cur, epoch, seen) == Confirm(cur, current + {cur.witnessAddr})
  {
  }

  /** Step `j <= m` of a run meets a stored header in the run's epoch, above
      the confirmed header and distinct from it, and adds its witness. */
  lemma RunAt(c: ChainReader, cr: Crypto, conf: Header, top: Header, m: nat, j: nat, cur: Header)
    requires Stored(conf) && EpochRun(c, cr, conf, top, m)
    requires j <= m && Ancestor(c, top, j) == Some(cur)
    ensures Stored(cur) && cr.headerHash(conf) != cr.headerHash(cur) && Num(conf) < Num(cur)
    ensures cur.time / EpochInterval == top.time / EpochInterval
    ensures Witnesses(c, top, j + 1) == Witnesses(c, top, j) + {cur.witnessAddr}
  {
    assert Ancestor(c, top, j).Some?;
  }

  /** The fast return never fires inside a run whose 15th distinct witness
      appears at ancestor `m`: from step `j` on there are at least `m - j + 1`
      blocks above the confirmed header, one for each witness still missing. */
  lemma RunRoom(c: ChainReader, cr: Crypto, conf: Header, top: Header, m: nat, j: nat, cur: Header)
    requires WellFormed(c) && Stored(conf) && ParentLinked(c, top) && EpochRun(c, cr, conf, top, m)
    requires |Witnesses(c, top, m + 1)| >= ConsensusSize
    requires j <= m && Ancestor(c, top, j) == Some(cur) && Stored(cur)
    ensures Num(cur) - Num(conf) >= ConsensusSize - |Witnesses(c, top, j)|
  {
    assert Ancestor(c, top, m).Some?;
    AncestorNumbers(c, top, j, m);
    WitnessesGrow(c, top, j, m + 1);
  }

  /** Before step `m` of a run the quorum is not yet reached and the parent
      of the current header is held, linked, and the next ancestor. */
  lemma RunParent(c: ChainReader, cr: Crypto, conf: Header, top: Header, m: nat, j: nat, cur: Header)
    requires WellFormed(c) && Stored(conf) && ParentLinked(c, top) && EpochRun(c, cr, conf, top, m)
    requires ConsensusSize > |Witnesses(c, top, m)|
    requires j < m && Ancestor(c, top, j) == Some(cur)
    ensures |Witnesses(c, top, j + 1)| < ConsensusSize && cur.parentHash in c.headers
    ensures Ancestor(c, top, j + 1) == Some(c.headers[cur.parentHash])
    ensures ParentLinked(c, c.headers[cur.parentHash])
  {
    WitnessesGrow(c, top, j + 1, m);
    assert Ancestor(c, top, j + 1).Some?;
    AncestorBack(c, top, j);
    AncestorStep(c, top, j, cur);
    AncestorLinked(c, top, j + 1);
  }

  /** Completeness of the walk, from its `j`-th step on: when the ancestors
      `0..m` of `top` form a run of the head's epoch above the confirmed
      header and the 15th distinct witness first appears at ancestor `m`,
      the walk confirms exactly ancestor `m`, with the witnesses of
      ancestors `0..m`. */
  lemma {:induction false} WalkConfirmComplete(c: ChainReader, cr: Crypto, conf: Header, top: Header, m: nat,
                                               j: nat, cur: Header, epoch: int, seen: set<Address>)
    requires WellFormed(c) && Stored(conf) && ParentLinked(c, top) && EpochRun(c, cr, conf, top, m)
    requires |Witnesses(c, top, m + 1)| >= ConsensusSize > |Witnesses(c, top, m)|
    requires j <= m && Ancestor(c, top, j) == Some(cur) && ParentLinked(c, cur)
    requires j == 0 ==> epoch != top.time / EpochInterval
    requires j > 0 ==> epoch == top.time / EpochInterval && seen == Witnesses(c, top, j)
    ensures Walk(c, cr, conf, cur, epoch, seen) ==
            Confirm(Ancestor(c, top, m).value, Witnesses(c, top, m + 1))
    decreases m - j
  {
    RunAt(c, cr, conf, top, m, j, cur);
    RunRoom(c, cr, conf, top, m, j, cur);
    var current := if cur.time / EpochInterval != epoch then {} else seen;
    assert current == Witnesses(c, top, j);
    if j == m {
      WalkConfirmsHere(c, cr, conf, cur, epoch, current, seen);
    } else {
      RunParent(c, cr, conf, top, m, j, cur);
      WalkContinues(c, cr, conf, cur, epoch, current, seen);
      WalkConfirmComplete(c, cr, conf, top, m, j + 1, c.headers[cur.parentHash],
                          top.time / EpochInterval, current + {cur.witnessAddr});
    }
  }

  /** The walk from the head confirms the header at which the 15th distinct
      witness of the head's epoch appears, provided every header down to it
      lies in that epoch strictly above the confirmed one. */
  lemma WalkFromHeadComplete(c: ChainReader, cr: Crypto, conf: Header, m: nat)
    requires WellFormed(c) && Stored(conf)
    requires EpochRun(c, cr, conf, c.current, m)
    requires |Witnesses(c, c.current, m + 1)| >= ConsensusSize > |Witnesses(c, c.current, m)|
    ensures Walk(c, cr, conf, c.current, -1, {}) ==
            Confirm(Ancestor(c, c.current, m).value, Witnesses(c, c.current, m + 1))
  {
    WalkConfirmComplete(c, cr, conf, c.current, m, 0, c.current, -1, {});
  }

  /** `loadConfirmedBlockHeader`: the header whose hash the database holds
      under the confirmed-head key. */
  function LoadConfirmed(db: map<string, Hash>, c: ChainReader): (r: Result<Header, Error>)
    ensures r.Success? ==> ConfirmedBlockHead in db && db[ConfirmedBlockHead] in c.headers &&
                           r.value == c.headers[db[ConfirmedBlockHead]]
    ensures ConfirmedBlockHead !in db ==> r == Failure(ErrNotFound)
    ensures ConfirmedBlockHead in db && db[ConfirmedBlockHead] !in c.headers ==> r == Failure(ErrNilBlockHeader)
  {
    if ConfirmedBlockHead !in db then Failure(ErrNotFound)
    else
      var key := db[ConfirmedBlockHead];
      if key !in c.headers then Failure(ErrNilBlockHeader)
      else Success(c.headers[key])
  }

  /** The lazy initialisation of the confirmed header: the one already held,
      else the stored one, else genesis; the load error is returned only
      when genesis is missing too. In a well-formed chain what it yields is
      a stored header. */
  function InitialConfirmed(confirmed: Option<Header>, db: map<string, Hash>, c: ChainReader): (r: Result<Header, Error>)
    ensures WellFormed(c) && (confirmed.Some? ==> Stored(confirmed.value)) && r.Success? ==> Stored(r.value)
  {
    if confirmed.Some? then Success(confirmed.value)
    else match LoadConfirmed(db, c)
      case Success(h) => Success(h)
      case Failure(e) => if 0 in c.byNumber then Success(c.byNumber[0]) else Failure(e)
  }

  /** Initialisation fails only with nothing held, and then only when
      genesis is missing, returning the load error; a header already held is
      kept, and a stored confirmed head wins over genesis. */
  lemma InitialConfirmedOutcome(confirmed: Option<Header>, db: map<string, Hash>, c: ChainReader)
    ensures InitialConfirmed(confirmed, db, c).Failure? <==>
              confirmed.None? && LoadConfirmed(db, c).Failure? && 0 !in c.byNumber
    ensures InitialConfirmed(confirmed, db, c).Failure? ==>
              InitialConfirmed(confirmed, db, c).error == LoadConfirmed(db, c).error
    ensures confirmed.Some? ==> InitialConfirmed(confirmed, db, c) == Success(confirmed.value)
    ensures confirmed.None? && LoadConfirmed(db, c).Success? ==> InitialConfirmed(confirmed, db, c) == LoadConfirmed(db, c)
    ensures confirmed.None? && LoadConfirmed(db, c).Failure? && 0 in c.byNumber ==>
              InitialConfirmed(confirmed, db, c) == Success(c.byNumber[0])
  {
  }

  /** What `updateConfirmedBlockHeader` keeps between calls: the confirmed
      header (nil until first needed) and the database. */
  datatype FinalityState = FinalityState(confirmed: Option<Header>, db: map<string, Hash>)

  /** A confirmed header, once set, is a stored one. */
  predicate ValidState(st: FinalityState)
  {
    st.confirmed.Some? ==> Stored(st.confirmed.value)
  }

  /** `updateConfirmedBlockHeader` as a function of the state it starts from:
      its error and the state it leaves. A confirmation also stores the new
      header's hash under the confirmed-head key. */
  function UpdateConfirmed(st: FinalityState, c: ChainReader, cr: Crypto): (out: (Status, FinalityState))
    requires WellFormed(c) && ValidState(st)
    ensures ValidState(out.1)
  {
    match InitialConfirmed(st.confirmed, st.db, c)
    case Failure(e) => (Fail(e), st)
    case Success(base) =>
      WalkFromHead(c, cr, base);
      match Walk(c, cr, base, c.current, -1, {})
      case Confirm(h, _) => (Ok, FinalityState(Some(h), st.db[ConfirmedBlockHead := cr.headerHash(h)]))
      case Quiet => (Ok, FinalityState(Some(base), st.db))
      case MissingParent => (Fail(ErrNilBlockHeader), FinalityState(Some(base), st.db))
  }

  /** Finality only ever advances: when the update leaves a confirmed header
      other than the one it started from (after initialisation), the new one
      is an ancestor of the chain head numbered strictly above the old one,
      at least 15 distinct witnesses of its epoch produced blocks on the walk
      down to it, the update reports success and the database holds the new
      header's hash under the confirmed-head key. */
  lemma {:induction false} UpdateAdvances(st: FinalityState, c: ChainReader, cr: Crypto)
    requires WellFormed(c) && ValidState(st)
    ensures var init := InitialConfirmed(st.confirmed, st.db, c);
            var out := UpdateConfirmed(st, c, cr);
            init.Success? && out.1.confirmed != Some(init.value) ==>
              out.0 == Ok && out.1.confirmed.Some? &&
              var h := out.1.confirmed.value;
              Num(h) > Num(init.value) &&
              out.1.db == st.db[ConfirmedBlockHead := cr.headerHash(h)] &&
              exists n: nat, ws: set<Address> :: Ancestor(c, c.current, n) == Some(h) && |ws| >= ConsensusSize &&
                forall w :: w in ws ==> exists k: nat :: k <= n && WitnessAt(c, c.current, k, w, h.time / EpochInterval)
  {
    var init := InitialConfirmed(st.confirmed, st.db, c);
    if init.Success? {
      var base := init.value;
      WalkFromHead(c, cr, base);
      var w := Walk(c, cr, base, c.current, -1, {});
      if w.Confirm? {
        var h := w.header;
        var ws := w.witnesses;
        var n: nat :| Ancestor(c, c.current, n) == Some(h) &&
          (forall w :: w in ws ==> exists k: nat :: k <= n && WitnessAt(c, c.current, k, w, h.time / EpochInterval));
        assert Ancestor(c, c.current, n) == Some(h) && |ws| >= ConsensusSize &&
          forall w :: w in ws ==> exists k: nat :: k <= n && WitnessAt(c, c.current, k, w, h.time / EpochInterval);
      }
    }
  }

  /** Finality does advance when it should: if, above the header initialisation
      yields, the head's epoch holds a run of headers down to the one where
      the 15th distinct witness appears, the update makes that header the
      confirmed one, stores its hash and reports success. */
  lemma UpdateConfirmsAtQuorum(st: FinalityState, c: ChainReader, cr: Crypto, m: nat)
    requires WellFormed(c) && ValidState(st)
    requires InitialConfirmed(st.confirmed, st.db, c).Success?
    requires EpochRun(c, cr, InitialConfirmed(st.confirmed, st.db, c).value, c.current, m)
    requires |Witnesses(c, c.current, m + 1)| >= ConsensusSize > |Witnesses(c, c.current, m)|
    ensures var h := Ancestor(c, c.current, m).value;
            UpdateConfirmed(st, c, cr) ==
              (Ok, FinalityState(Some(h), st.db[ConfirmedBlockHead := cr.headerHash(h)]))
  {
    WalkFromHeadComplete(c, cr, InitialConfirmed(st.confirmed, st.db, c).value, m);
  }

  /** When the walk does not confirm, the confirmed header stays what
      initialisation made it and the database is untouched; a missing parent
      is reported as a nil block header, and a failed initialisation changes
      nothing at all. */
  lemma UpdateHolds(st: FinalityState, c: ChainReader, cr: Crypto)
    requires WellFormed(c) && ValidState(st)
    ensures var init := InitialConfirmed(st.confirmed, st.db, c);
            var out := UpdateConfirmed(st, c, cr);
            (init.Failure? ==> out == (Fail(init.error), st)) &&
            (init.Success? && !Walk(c, cr, init.value, c.current, -1, {}).Confirm? ==>
               out.1 == FinalityState(Some(init.value), st.db) &&
               (out.0 == Ok || out.0 == Fail(ErrNilBlockHeader)))
  {
  }

  /** The update is idempotent once nothing can confirm: a second update
      from the state a quiet walk left reports success and changes nothing. */
  lemma {:induction false} UpdateQuietIdempotent(st: FinalityState, c: ChainReader, cr: Crypto)
    requires WellFormed(c) && ValidState(st)
    requires InitialConfirmed(st.confirmed, st.db, c).Success?
    requires Walk(c, cr, InitialConfirmed(st.confirmed, st.db, c).value, c.current, -1, {}) == Quiet
    ensures UpdateConfirmed(UpdateConfirmed(st, c, cr).1, c, cr) == (Ok, UpdateConfirmed(st, c, cr).1)
  {
    var base := InitialConfirmed(st.confirmed, st.db, c).value;
    var st1 := UpdateConfirmed(st, c, cr).1;
    assert st1 == FinalityState(Some(base), st.db);
    assert InitialConfirmed(st1.confirmed, st1.db, c) == Success(base);
  }
}

/** The mempool through block messages and reorganisations: which rows end up pruned, and when
    mined transactions stay unlisted. */
module Mempool {
  import opened Tables
  import opened Chain
  import opened Store
  import opened Reference
  import opened Reorg
  import opened Transaction
  import opened Runs

  // ---- Mempool messages ------------------------------------------------------------

  /** An announcement adds the transactions that have no row yet, visible, and leaves the rows
      that are there; the chain tables stay. */
  lemma AnnouncedTxs(evs: seq<Event>, ids: set<TxId>)
    ensures var before, after := Run(evs), Run(evs + [NewMempoolTxs(ids)]);
            && after == before.(mempool := after.mempool)
            && after.mempool.Keys == before.mempool.Keys + ids
            && (forall id :: id in before.mempool ==> after.mempool[id] == before.mempool[id])
            && (forall id :: id in ids && id !in before.mempool ==> !after.mempool[id])
  {
    RunMore(evs, NewMempoolTxs(ids));
  }

  /** A drop prunes the rows named, and no other row changes. */
  lemma DroppedTxs(evs: seq<Event>, ids: set<TxId>)
    ensures var before, after := Run(evs), Run(evs + [DropMempoolTxs(ids)]);
            && after == before.(mempool := after.mempool)
            && after.mempool.Keys == before.mempool.Keys
            && (forall id :: id in before.mempool ==> (after.mempool[id] <==> id in ids || before.mempool[id]))
  {
    RunMore(evs, DropMempoolTxs(ids));
  }

  // ---- Block messages --------------------------------------------------------------

  /** A branch has the transaction at position i and nowhere below. */
  ghost predicate FirstAt(bs: seq<Block>, id: TxId, i: nat) {
    i < |bs| && id in TxIds(bs[i]) && forall k :: 0 <= k < i ==> id !in TxIds(bs[k])
  }

  ghost predicate Has(bs: seq<Block>, id: TxId) {
    exists i :: 0 <= i < |bs| && id in TxIds(bs[i])
  }

  /** Every mempool row after an accepted block: pruned if the new tip has the transaction;
      otherwise the lowest reorganised height where either branch has it decides, in favour
      of the restored branch; otherwise untouched. */
  lemma MempoolRowAfterUpdate(evs: seq<Event>, b: Block, id: TxId)
    requires CanFollow(evs, b) && !ParentMissing(Accepted(evs), b) && id in Run(evs).mempool
    ensures Update(Run(evs), b).Ok? && id in Update(Run(evs), b).value.db.mempool
    ensures |Orphaned(Accepted(evs), b)| == |Restored(Accepted(evs), b)|
    ensures var bs, before := Accepted(evs), Run(evs).mempool[id];
            Update(Run(evs), b).value.db.mempool[id] ==
              if Rises(bs, b) && id in TxIds(b) then true else PrunedAfter(Orphaned(bs, b), Restored(bs, b), id, before)
  {
    FollowerIsWellFormed(evs, b);
    EveryRunIsRecomputed(evs);
    UpdateRecomputes(Accepted(evs), b, Run(evs).mempool);
  }

  /** The closed form at a transaction that the restored stretch has, first at position i. */
  lemma {:induction false} LowestDecides(orphaned: seq<Block>, restored: seq<Block>, id: TxId, before: bool, i: nat)
    requires |orphaned| == |restored| && FirstAt(restored, id, i)
    ensures PrunedAfter(orphaned, restored, id, before) <==> forall k :: 0 <= k < i ==> id !in TxIds(orphaned[k])
  {
    if i > 0 {
      assert forall k :: 0 <= k < i - 1 ==> id !in TxIds(restored[1..][k]);
      LowestDecides(orphaned[1..], restored[1..], id, before, i - 1);
      if forall k :: 0 <= k < i ==> id !in TxIds(orphaned[k]) {
        assert id !in TxIds(orphaned[0]);
      }
      if id !in TxIds(orphaned[0]) && (forall k :: 0 <= k < i - 1 ==> id !in TxIds(orphaned[1..][k])) {
        forall k | 0 <= k < i ensures id !in TxIds(orphaned[k]) {
          assert k > 0 ==> orphaned[k] == orphaned[1..][k - 1];
        }
      }
    }
  }

  /** ... at one that only the orphaned stretch has ... */
  lemma {:induction false} OrphanOnlyDecides(orphaned: seq<Block>, restored: seq<Block>, id: TxId, before: bool)
    requires |orphaned| == |restored| && Has(orphaned, id) && !Has(restored, id)
    ensures !PrunedAfter(orphaned, restored, id, before)
  {
    assert id !in TxIds(restored[0]);
    if id !in TxIds(orphaned[0]) {
      var i :| 0 <= i < |orphaned| && id in TxIds(orphaned[i]);
      assert orphaned[1..][i - 1] == orphaned[i];
      assert forall k :: 0 <= k < |restored[1..]| ==> restored[1..][k] == restored[k + 1];
      OrphanOnlyDecides(orphaned[1..], restored[1..], id, before);
    }
  }

  /** ... and at one that neither has. */
  lemma {:induction false} NeitherDecides(orphaned: seq<Block>, restored: seq<Block>, id: TxId, before: bool)
    requires |orphaned| == |restored| && !Has(orphaned, id) && !Has(restored, id)
    ensures PrunedAfter(orphaned, restored, id, before) == before
  {
    if restored != [] {
      assert forall k :: 0 <= k < |restored[1..]| ==> restored[1..][k] == restored[k + 1];
      assert forall k :: 0 <= k < |orphaned[1..]| ==> orphaned[1..][k] == orphaned[k + 1];
      assert id !in TxIds(restored[0]) && id !in TxIds(orphaned[0]);
      NeitherDecides(orphaned[1..], restored[1..], id, before);
    }
  }

  /** The block is accepted, and the transaction has a mempool row. */
  ghost predicate Decided(evs: seq<Event>, b: Block, id: TxId) {
    CanFollow(evs, b) && !ParentMissing(Accepted(evs), b) && id in Run(evs).mempool
  }

  /** The row after the update. */
  ghost predicate PrunedBy(evs: seq<Event>, b: Block, id: TxId) {
    var r := Update(Run(evs), b);
    r.Ok? && id in r.value.db.mempool && r.value.db.mempool[id]
  }

  /** Exactly when a transaction of the restored branch ends up pruned: the new block has it
      too, or the orphaned branch does not have it at a lower height. */
  lemma RestoredTxIsPruned(evs: seq<Event>, b: Block, id: TxId, i: nat)
    requires Decided(evs, b, id) && FirstAt(Restored(Accepted(evs), b), id, i)
    ensures |Orphaned(Accepted(evs), b)| == |Restored(Accepted(evs), b)|
    ensures PrunedBy(evs, b, id) <==>
            id in TxIds(b) || forall k :: 0 <= k < i ==> id !in TxIds(Orphaned(Accepted(evs), b)[k])
  {
    MempoolRowAfterUpdate(evs, b, id);
    LowestDecides(Orphaned(Accepted(evs), b), Restored(Accepted(evs), b), id, Run(evs).mempool[id], i);
  }

  /** A transaction that only the orphaned branch has is visible again, unless the new block
      has it. */
  lemma OrphanOnlyTxIsVisible(evs: seq<Event>, b: Block, id: TxId)
    requires Decided(evs, b, id)
    requires Has(Orphaned(Accepted(evs), b), id) && !Has(Restored(Accepted(evs), b), id)
    ensures PrunedBy(evs, b, id) <==> id in TxIds(b)
  {
    MempoolRowAfterUpdate(evs, b, id);
    OrphanOnlyDecides(Orphaned(Accepted(evs), b), Restored(Accepted(evs), b), id, Run(evs).mempool[id]);
  }

  /** A transaction in neither branch keeps its flag, unless it is in a block that becomes the
      new tip. */
  lemma OtherTxIsUntouched(evs: seq<Event>, b: Block, id: TxId)
    requires Decided(evs, b, id)
    requires !Has(Orphaned(Accepted(evs), b), id) && !Has(Restored(Accepted(evs), b), id)
    ensures PrunedBy(evs, b, id) <==> Run(evs).mempool[id] || (Rises(Accepted(evs), b) && id in TxIds(b))
  {
    MempoolRowAfterUpdate(evs, b, id);
    NeitherDecides(Orphaned(Accepted(evs), b), Restored(Accepted(evs), b), id, Run(evs).mempool[id]);
  }

  // ---- Mined transactions leave the mempool ----------------------------------------

  /** Some canonical row of `txs` has the id. */
  ghost predicate IsCanonicalTx(db: Db, id: TxId) {
    exists r :: r in db.txs && r.canonical && r.item.txId == id
  }

  /** What the mempool is meant to satisfy: a transaction on the canonical chain is not listed. */
  ghost predicate MinedArePruned(db: Db) {
    forall id :: id in db.mempool && IsCanonicalTx(db, id) ==> db.mempool[id]
  }

  /** Lowest at some height k, the orphaned stretch has the transaction and the restored does not
      have it up to there: the walk, coming down, makes it visible last. */
  ghost predicate Undone(orphaned: seq<Block>, restored: seq<Block>, id: TxId)
    requires |orphaned| == |restored|
  {
    exists k :: 0 <= k < |orphaned| && id in TxIds(orphaned[k]) && forall j :: 0 <= j <= k ==> id !in TxIds(restored[j])
  }

  /** The closed form of a reorganisation, all cases together. */
  lemma {:induction false} PrunedUnlessUndone(orphaned: seq<Block>, restored: seq<Block>, id: TxId, before: bool)
    requires |orphaned| == |restored|
    ensures PrunedAfter(orphaned, restored, id, before) <==>
            !Undone(orphaned, restored, id) && (Has(restored, id) || before)
  {
    if restored != [] {
      var o, r := orphaned[1..], restored[1..];
      assert forall k :: 0 <= k < |r| ==> r[k] == restored[k + 1] && o[k] == orphaned[k + 1];
      PrunedUnlessUndone(o, r, id, before);
      if id !in TxIds(restored[0]) && id !in TxIds(orphaned[0]) {
        UndoneBelow(orphaned, restored, id);
        HasBelow(restored, id);
      }
    }
  }

  lemma UndoneBelow(orphaned: seq<Block>, restored: seq<Block>, id: TxId)
    requires |orphaned| == |restored| > 0 && id !in TxIds(restored[0]) && id !in TxIds(orphaned[0])
    ensures Undone(orphaned, restored, id) <==> Undone(orphaned[1..], restored[1..], id)
  {
    var o, r := orphaned[1..], restored[1..];
    if Undone(orphaned, restored, id) {
      var k :| 0 <= k < |orphaned| && id in TxIds(orphaned[k]) && forall j :: 0 <= j <= k ==> id !in TxIds(restored[j]);
      assert id in TxIds(o[k - 1]) && forall j :: 0 <= j <= k - 1 ==> id !in TxIds(r[j]);
    }
    if Undone(o, r, id) {
      var k :| 0 <= k < |o| && id in TxIds(o[k]) && forall j :: 0 <= j <= k ==> id !in TxIds(r[j]);
      forall j | 0 <= j <= k + 1 ensures id !in TxIds(restored[j]) {
        assert j > 0 ==> restored[j] == r[j - 1];
      }
      assert id in TxIds(orphaned[k + 1]);
    }
  }

  lemma HasBelow(restored: seq<Block>, id: TxId)
    requires restored != [] && id !in TxIds(restored[0])
    ensures Has(restored, id) <==> Has(restored[1..], id)
  {
    if Has(restored, id) {
      var i :| 0 <= i < |restored| && id in TxIds(restored[i]);
      assert restored[1..][i - 1] == restored[i];
    }
  }

  /** The condition on a message under which it keeps mined transactions unlisted. */
  ghost predicate KeepsMined(evs: seq<Event>, ev: Event) {
    var bs, mempool := Accepted(evs), Run(evs).mempool;
    match ev
    case NewMempoolTxs(ids) => forall id :: id in ids && id !in mempool ==> !Has(Best(bs), id)
    case DropMempoolTxs(_) => true
    case NewBlock(b) => !ParentMissing(bs, b) && Rises(bs, b) ==> forall id :: id in mempool ==> !LosesTx(bs, b, id)
  }

  /** The reorganisation to the block undoes a transaction of its ancestors that it does not
      have itself. */
  ghost predicate LosesTx(bs: seq<Block>, b: Block, id: TxId) {
    Has(Under(bs, b), id) && id !in TxIds(b) &&
    |Orphaned(bs, b)| == |Restored(bs, b)| && Undone(Orphaned(bs, b), Restored(bs, b), id)
  }

  lemma CanonicalTxOfTables(bs: seq<Block>, mempool: map<TxId, bool>, id: TxId)
    requires Grown(bs)
    ensures IsCanonicalTx(Expected(bs, mempool), id) <==> Has(Best(bs), id)
  {
    hide TableOf, Best, Has, Hashes, Grown;
    if Has(Best(bs), id) { MinedHasRow(bs, id); }
    if IsCanonicalTx(Expected(bs, mempool), id) { RowIsMined(bs, id); }
  }

  lemma MinedHasRow(bs: seq<Block>, id: TxId)
    requires Grown(bs) && Has(Best(bs), id)
    ensures exists r :: r in TableOf(bs, Txs, Hashes(Best(bs))) && r.canonical && r.item.txId == id
  {
    if bs != [] { BranchShape(bs, Tip(bs)); }
    hide TableOf, Branch, DistinctTxs;
    var canon := Hashes(Best(bs));
    var i :| 0 <= i < |Best(bs)| && id in TxIds(Best(bs)[i]);
    var b := Best(bs)[i];
    CanonicalIsBest(bs, b);
    DistinctTxIds(b.txs, id);
    var t :| t in Txs(b) && t.txId == id;
    TableRows(bs, Txs, canon);
    var r := Row(b.hash, b.height, true, t);
    assert r in TableOf(bs, Txs, canon);
  }

  lemma RowIsMined(bs: seq<Block>, id: TxId)
    requires Grown(bs)
    requires exists r :: r in TableOf(bs, Txs, Hashes(Best(bs))) && r.canonical && r.item.txId == id
    ensures Has(Best(bs), id)
  {
    hide TableOf, Branch, DistinctTxs, Best;
    var canon := Hashes(Best(bs));
    TableRows(bs, Txs, canon);
    var r :| r in TableOf(bs, Txs, canon) && r.canonical && r.item.txId == id;
    var b :| b in bs && b.hash in canon && r.item in Txs(b);
    assert Txs(b) == DistinctTxs(b.txs);
    DistinctTxIds(b.txs, id);
    var e :| e in b.txs && e.tx.txId == id;
    assert id in TxIds(b);
    CanonicalIsBest(bs, b);
    var i :| 0 <= i < |Best(bs)| && Best(bs)[i] == b;
  }

  /** The property, read off the stored blocks. */
  ghost predicate Unlisted(bs: seq<Block>, mempool: map<TxId, bool>) {
    forall id :: id in mempool && Has(Best(bs), id) ==> mempool[id]
  }

  lemma MinedArePrunedIn(bs: seq<Block>, mempool: map<TxId, bool>)
    requires Grown(bs)
    ensures MinedArePruned(Expected(bs, mempool)) <==> Unlisted(bs, mempool)
  {
    hide IsCanonicalTx, Has;
    forall id ensures IsCanonicalTx(Expected(bs, mempool), id) <==> Has(Best(bs), id) {
      CanonicalTxOfTables(bs, mempool, id);
    }
  }

  lemma HasMore(bs: seq<Block>, b: Block, id: TxId)
    ensures Has(bs + [b], id) <==> Has(bs, id) || id in TxIds(b)
  {
    var more := bs + [b];
    assert more[|bs|] == b;
    if Has(bs, id) {
      var i :| 0 <= i < |bs| && id in TxIds(bs[i]);
      assert more[i] == bs[i];
    }
  }

  /** Above the fork the ancestors are the restored blocks, below it canonical ones. */
  lemma HasAncestor(bs: seq<Block>, b: Block, id: TxId)
    requires Rises(bs, b) && Has(Under(bs, b), id)
    ensures Has(Restored(bs, b), id) || Has(Best(bs), id)
  {
    hide Best, Under, Rises;
    var best, under, f := Best(bs), Under(bs, b), ForkHeight(bs, b);
    var i :| 0 <= i < |under| && id in TxIds(under[i]);
    assert best[..f] == under[..f];
    if i < f {
      assert best[..f][i] == under[..f][i];
      assert best[i] == under[i];
    } else {
      assert Restored(bs, b)[i - f] == under[i];
    }
  }

  /** An accepted block that becomes the tip. */
  lemma RisingKeeps(bs: seq<Block>, b: Block, mempool: map<TxId, bool>)
    requires Grown(bs) && WellFormed(bs, b) && !ParentMissing(bs, b) && Rises(bs, b) && Unlisted(bs, mempool)
    ensures |Orphaned(bs, b)| == |Restored(bs, b)|
    ensures Unlisted(Accept(bs, b), NextMempool(bs, b, mempool)) <==> forall id :: id in mempool ==> !LosesTx(bs, b, id)
  {
    BranchesMatch(bs, b);
    RisingBest(bs, b);
    hide Orphaned, Restored, Best, Under, Accept, Undone, Has, Rises;
    var after := NextMempool(bs, b, mempool);
    forall id | id in mempool
      ensures id in after && ((Has(Best(Accept(bs, b)), id) ==> after[id]) <==> !LosesTx(bs, b, id))
    {
      HasMore(Under(bs, b), b, id);
      PrunedUnlessUndone(Orphaned(bs, b), Restored(bs, b), id, mempool[id]);
      if Has(Under(bs, b), id) { HasAncestor(bs, b, id); }
    }
  }

  lemma RisingBest(bs: seq<Block>, b: Block)
    requires Grown(bs) && WellFormed(bs, b) && !ParentMissing(bs, b) && Rises(bs, b)
    ensures Best(Accept(bs, b)) == Under(bs, b) + [b]
  {
    if b.hash in Hashes(bs) { Redelivered(bs, b, map[]); }
    GrownExtend(bs, b);
    BestExtend(bs, b);
  }

  /** A block that does not become the tip changes neither branch nor mempool. */
  lemma OtherKeeps(bs: seq<Block>, b: Block, mempool: map<TxId, bool>)
    requires Grown(bs) && WellFormed(bs, b) && !ParentMissing(bs, b) && !Rises(bs, b)
    ensures Best(Accept(bs, b)) == Best(bs) && |Orphaned(bs, b)| == |Restored(bs, b)| && NextMempool(bs, b, mempool) == mempool
  {
    NothingToDo(Effects(mempool, NOTHING_UPDATED));
    if b.hash !in Hashes(bs) {
      GrownExtend(bs, b);
      BestExtend(bs, b);
    }
  }

  lemma BlockKeeps(evs: seq<Event>, b: Block)
    requires CanFollow(evs, b) && MinedArePruned(Run(evs))
    ensures MinedArePruned(Step(Run(evs), NewBlock(b))) <==> KeepsMined(evs, NewBlock(b))
  {
    FollowerIsWellFormed(evs, b);
    EveryRunIsRecomputed(evs);
    var bs, mempool := Accepted(evs), Run(evs).mempool;
    hide Accepted, Run, WellFormedRun, MinedArePruned, LosesTx, Rises, Expected, Update, Grown, Accept, Unlisted;
    assert Expected(bs, mempool).mempool == mempool;
    MinedArePrunedIn(bs, mempool);
    if ParentMissing(bs, b) {
      UpdateRejects(bs, b, mempool);
    } else {
      UpdateRecomputes(bs, b, mempool);
      MinedArePrunedIn(Accept(bs, b), NextMempool(bs, b, mempool));
      if Rises(bs, b) {
        RisingKeeps(bs, b, mempool);
      } else {
        OtherKeeps(bs, b, mempool);
        SameBest(bs, Accept(bs, b), mempool);
      }
    }
  }

  lemma SameBest(bs: seq<Block>, cs: seq<Block>, mempool: map<TxId, bool>)
    requires Best(bs) == Best(cs)
    ensures Unlisted(bs, mempool) <==> Unlisted(cs, mempool)
  {
  }

  lemma MempoolMessageKeeps(evs: seq<Event>, ev: Event)
    requires WellFormedRun(evs) && !ev.NewBlock? && MinedArePruned(Run(evs))
    ensures MinedArePruned(Step(Run(evs), ev)) <==> KeepsMined(evs, ev)
  {
    EveryRunIsRecomputed(evs);
    var bs, db := Accepted(evs), Run(evs);
    forall id ensures IsCanonicalTx(Expected(bs, db.mempool), id) <==> Has(Best(bs), id) {
      CanonicalTxOfTables(bs, db.mempool, id);
    }
    hide Accepted, Run, WellFormedRun, Has, Best;
    assert forall id :: IsCanonicalTx(Step(db, ev), id) <==> IsCanonicalTx(db, id);
  }

  /** One message more: it keeps mined transactions unlisted exactly under its condition. */
  lemma StepKeepsExactlyWhen(evs: seq<Event>, ev: Event)
    requires WellFormedRun(evs + [ev]) && MinedArePruned(Run(evs))
    ensures MinedArePruned(Run(evs + [ev])) <==> KeepsMined(evs, ev)
  {
    hide KeepsMined, MinedArePruned, Step;
    RunMore(evs, ev);
    if ev.NewBlock? {
      BlockKeeps(evs, ev.block);
    } else {
      PrefixWellFormed(evs, ev);
      MempoolMessageKeeps(evs, ev);
    }
  }

  lemma PrefixWellFormed(evs: seq<Event>, ev: Event)
    requires WellFormedRun(evs + [ev])
    ensures WellFormedRun(evs)
  {
    assert forall i :: 0 <= i < |evs| ==> evs[i] == (evs + [ev])[i];
  }

  /** Whole runs: no transaction of the canonical chain is ever listed in the mempool if and only
      if every message meets its condition. */
  lemma {:induction false} MinedArePrunedExactlyWhen(evs: seq<Event>)
    requires WellFormedRun(evs)
    ensures (forall i :: 0 <= i <= |evs| ==> MinedArePruned(Run(evs[..i]))) <==>
            (forall i :: 0 <= i < |evs| ==> KeepsMined(evs[..i], evs[i]))
  {
    hide KeepsMined, MinedArePruned, Run, WellFormedRun;
    if forall i :: 0 <= i < |evs| ==> KeepsMined(evs[..i], evs[i]) {
      forall i | 0 <= i <= |evs| ensures MinedArePruned(Run(evs[..i])) { KeptUpTo(evs, i); }
    }
    if forall i :: 0 <= i <= |evs| ==> MinedArePruned(Run(evs[..i])) {
      forall i | 0 <= i < |evs| ensures KeepsMined(evs[..i], evs[i]) {
        assert evs[..i + 1] == evs[..i] + [evs[i]];
        WellFormedUpTo(evs, i + 1);
        StepKeepsExactlyWhen(evs[..i], evs[i]);
      }
    }
  }

  lemma {:induction false} KeptUpTo(evs: seq<Event>, n: nat)
    requires WellFormedRun(evs) && n <= |evs| && forall i :: 0 <= i < |evs| ==> KeepsMined(evs[..i], evs[i])
    ensures MinedArePruned(Run(evs[..n]))
  {
    hide KeepsMined, MinedArePruned, Run, WellFormedRun;
    if n == 0 {
      assert evs[..0] == [];
      NothingMined();
    } else {
      KeptUpTo(evs, n - 1);
      assert evs[..n] == evs[..n - 1] + [evs[n - 1]];
      WellFormedUpTo(evs, n);
      StepKeepsExactlyWhen(evs[..n - 1], evs[n - 1]);
    }
  }

  lemma NothingMined()
    ensures MinedArePruned(Run([]))
  {
  }

  lemma WellFormedUpTo(evs: seq<Event>, n: nat)
    requires WellFormedRun(evs) && n <= |evs|
    ensures WellFormedRun(evs[..n])
  {
    assert forall i :: 0 <= i < n ==> evs[..n][i] == evs[i];
  }

  // ---- The two ways it fails -------------------------------------------------------

  /** A block carrying at most one transaction, number 7. */
  function Carrier(hash: nat, parent: nat, height: nat, mined: bool): Block {
    Block(Hash(hash), Hash(parent), height, 0, [],
          if mined then [TxEntry(Tx(TxId(7), 0, Address(""), 0, None), [], [], [], [], [], [])] else [])
  }

  lemma StoredParent(bs: seq<Block>, b: Block, k: nat)
    requires Distinct(bs) && k < |bs| && b.parent == bs[k].hash && b.height == bs[k].height + 1
    ensures Parent(bs, b) == Some(bs[k])
  {
    assert bs[k] in bs;
    SameHashSameBlock(bs, Parent(bs, b).value, bs[k]);
  }

  /** Two branches over one first block: transaction 7 is at height 2 of the older one and
      at height 3 of the newer one. */
  const FORKED := [Carrier(1, 0, 1, false), Carrier(2, 1, 2, true), Carrier(3, 2, 3, false),
                   Carrier(12, 1, 2, false), Carrier(13, 12, 3, true)]
  const NEXT := Carrier(14, 13, 4, false)
  const FORKED_RUN := [NewMempoolTxs({TxId(7)})] + Deliveries(FORKED)

  lemma ForkedParents()
    ensures Grown(FORKED) && Parent(FORKED, FORKED[0]) == None
    ensures Parent(FORKED, FORKED[1]) == Some(FORKED[0]) && Parent(FORKED, FORKED[2]) == Some(FORKED[1])
    ensures Parent(FORKED, FORKED[3]) == Some(FORKED[0]) && Parent(FORKED, FORKED[4]) == Some(FORKED[3])
    ensures Parent(FORKED, NEXT) == Some(FORKED[4])
  {
    assert Distinct(FORKED);
    StoredParent(FORKED, FORKED[1], 0);
    StoredParent(FORKED, FORKED[2], 1);
    StoredParent(FORKED, FORKED[3], 0);
    StoredParent(FORKED, FORKED[4], 3);
    StoredParent(FORKED, NEXT, 4);
  }

  lemma ForkedBranches()
    ensures Grown(FORKED) && Tip(FORKED) == FORKED[2]
    ensures Best(FORKED) == [FORKED[0], FORKED[1], FORKED[2]]
    ensures Under(FORKED, NEXT) == [FORKED[0], FORKED[3], FORKED[4]]
  {
    ForkedParents();
    TipIsFirstHighest(FORKED, 2);
    hide Parent, Lookup, Grown;
    assert Branch(FORKED, FORKED[0]) == [FORKED[0]];
    assert Branch(FORKED, FORKED[1]) == [FORKED[0], FORKED[1]];
    assert Branch(FORKED, FORKED[3]) == [FORKED[0], FORKED[3]];
  }

  lemma ForkedSwap(a: Block, b: Block, c: Block, d: Block, e: Block)
    requires b != d
    ensures Fork([a, b, c], [a, d, e]) == 1
  {
    assert [a, b, c][1..] == [b, c] && [a, d, e][1..] == [d, e];
  }

  lemma ForkedStretches()
    ensures Rises(FORKED, NEXT)
    ensures Orphaned(FORKED, NEXT) == [FORKED[1], FORKED[2]] && Restored(FORKED, NEXT) == [FORKED[3], FORKED[4]]
  {
    ForkedBranches();
    ForkedSwap(FORKED[0], FORKED[1], FORKED[2], FORKED[3], FORKED[4]);
  }

  lemma ForkedMempool()
    ensures MempoolAfter([FORKED[1], FORKED[2]], [FORKED[3], FORKED[4]], map[TxId(7) := true]) == map[TxId(7) := false]
  {
    assert FORKED[1].txs[0] in FORKED[1].txs;
    assert TxId(7) in TxIds(FORKED[1]) && TxIds(FORKED[3]) == {};
  }

  lemma {:induction false} EmptyTipMempool(bs: seq<Block>, b: Block, o: seq<Block>, r: seq<Block>, mempool: map<TxId, bool>)
    requires Orphaned(bs, b) == o && Restored(bs, b) == r && |o| == |r| && b.txs == []
    ensures NextMempool(bs, b, mempool) == MempoolAfter(o, r, mempool)
  {
    var m := MempoolAfter(o, r, mempool);
    assert TxIds(b) == {};
    assert SetPruned(m, {}, true) == m;
  }

  lemma ForkedNextBest()
    ensures Grown(FORKED) && WellFormed(FORKED, NEXT) && !ParentMissing(FORKED, NEXT)
    ensures FORKED[4] in Best(FORKED + [NEXT])
  {
    ForkedParents();
    ForkedBranches();
    GrownExtend(FORKED, NEXT);
    BestExtend(FORKED, NEXT);
  }

  lemma ForkedInOrder()
    ensures Deliverable(FORKED)
  {
    assert Distinct(FORKED);
    StoredParent(FORKED[..1], FORKED[1], 0);
    StoredParent(FORKED[..2], FORKED[2], 1);
    StoredParent(FORKED[..3], FORKED[3], 0);
    StoredParent(FORKED[..4], FORKED[4], 3);
  }

  lemma ForkedUpdate()
    ensures var r := Update(Expected(FORKED, map[TxId(7) := true]), NEXT);
            r.Ok? && r.value.db.mempool == map[TxId(7) := false]
    ensures FORKED[4] in Best(Accept(FORKED, NEXT)) && TxId(7) in TxIds(FORKED[4])
  {
    hide Update, Branch, Orphaned, Restored, Grown, NextMempool, MempoolAfter;
    ForkedNextBest();
    ForkedStretches();
    ForkedMempool();
    EmptyTipMempool(FORKED, NEXT, [FORKED[1], FORKED[2]], [FORKED[3], FORKED[4]], map[TxId(7) := true]);
    UpdateMempool(FORKED, NEXT, map[TxId(7) := true]);
    assert FORKED[4].txs[0] in FORKED[4].txs;
  }

  lemma {:induction false} UpdateMempool(bs: seq<Block>, b: Block, mempool: map<TxId, bool>)
    requires Grown(bs) && WellFormed(bs, b) && !ParentMissing(bs, b)
    ensures |Orphaned(bs, b)| == |Restored(bs, b)|
    ensures var r := Update(Expected(bs, mempool), b);
            r.Ok? && r.value.db.mempool == NextMempool(bs, b, mempool)
  {
    UpdateRecomputes(bs, b, mempool);
  }

  // ---- Reaching the fork -----------------------------------------------------------

  /** Blocks delivered after a first mempool message, none of them reorganising. */
  ghost predicate NoReorg(bs: seq<Block>) {
    forall i {:trigger bs[..i]} :: 0 <= i < |bs| ==> Orphaned(bs[..i], bs[i]) == []
  }

  function After(id: TxId, bs: seq<Block>): seq<Event> {
    [NewMempoolTxs({id})] + Deliveries(bs)
  }

  lemma AfterMore(id: TxId, bs: seq<Block>)
    requires bs != []
    ensures After(id, bs) == After(id, bs[..|bs| - 1]) + [NewBlock(bs[|bs| - 1])]
  {
  }

  lemma AfterWellFormed(id: TxId, bs: seq<Block>)
    requires Deliverable(bs)
    ensures WellFormedRun(After(id, bs))
  {
    DistinctDeliveries(bs);
    hide Deliveries;
    var evs, d := After(id, bs), Deliveries(bs);
    assert forall i :: 0 < i < |evs| ==> evs[i] == d[i - 1];
  }

  lemma {:induction false} AfterStoresAll(id: TxId, bs: seq<Block>)
    requires Deliverable(bs)
    ensures Accepted(After(id, bs)) == bs && Run(After(id, bs)).mempool.Keys == {id}
  {
    hide After, Run, Accepted, WellFormedRun, Deliverable, Expected, Step, Grown, Hashes;
    if bs == [] {
      AfterNothing(id);
    } else {
      var low, b := bs[..|bs| - 1], bs[|bs| - 1];
      DeliverablePrefix(bs);
      AfterStoresAll(id, low);
      AfterMore(id, bs);
      RunMore(After(id, low), NewBlock(b));
      AfterWellFormed(id, low);
      EveryRunIsRecomputed(After(id, low));
      UpdateKeepsKeys(low, b, Run(After(id, low)).mempool);
    }
  }

  lemma AfterNothing(id: TxId)
    ensures Accepted(After(id, [])) == [] && Run(After(id, [])).mempool.Keys == {id}
  {
    RunMore([], NewMempoolTxs({id}));
    assert After(id, []) == [] + [NewMempoolTxs({id})];
  }

  lemma UpdateKeepsKeys(bs: seq<Block>, b: Block, mempool: map<TxId, bool>)
    requires Grown(bs) && b.height >= 1 && b.hash !in Hashes(bs) && (b.height > 1 ==> Parent(bs, b).Some?)
    ensures Accept(bs, b) == bs + [b] && Step(Expected(bs, mempool), NewBlock(b)).mempool.Keys == mempool.Keys
  {
    hide Update, Orphaned, Restored;
    UpdateRecomputes(bs, b, mempool);
  }

  /** Such a run never lists a mined transaction. */
  lemma QuietRunKeeps(id: TxId, bs: seq<Block>)
    requires Deliverable(bs) && NoReorg(bs)
    ensures MinedArePruned(Run(After(id, bs)))
  {
    var evs := After(id, bs);
    AfterWellFormed(id, bs);
    forall i | 0 <= i < |evs| ensures KeepsMined(evs[..i], evs[i]) { QuietStepKeeps(id, bs, i); }
    KeptUpTo(evs, |evs|);
    assert evs[..|evs|] == evs;
  }

  lemma QuietStepKeeps(id: TxId, bs: seq<Block>, i: nat)
    requires Deliverable(bs) && NoReorg(bs) && i <= |bs|
    ensures KeepsMined(After(id, bs)[..i], After(id, bs)[i])
  {
    hide KeepsMined, Run, Accepted, Deliverable, Orphaned;
    if i == 0 {
      assert After(id, bs)[..0] == [];
      FirstKeeps(id);
    } else {
      var low := bs[..i - 1];
      assert After(id, bs)[..i] == After(id, low) && After(id, bs)[i] == NewBlock(bs[i - 1]);
      hide After;
      DeliverableUpTo(bs, i - 1);
      AfterStoresAll(id, low);
      NoReorgKeeps(After(id, low), bs[i - 1]);
    }
  }

  lemma FirstKeeps(id: TxId)
    ensures KeepsMined([], NewMempoolTxs({id}))
  {
  }

  lemma NoReorgKeeps(evs: seq<Event>, b: Block)
    requires Orphaned(Accepted(evs), b) == []
    ensures KeepsMined(evs, NewBlock(b))
  {
    hide Run, Accepted, Orphaned, Restored, Rises;
  }

  lemma {:induction false} DeliverableUpTo(bs: seq<Block>, n: nat)
    requires Deliverable(bs) && n <= |bs|
    ensures Deliverable(bs[..n])
    decreases |bs|
  {
    if n < |bs| {
      DeliverablePrefix(bs);
      DeliverableUpTo(bs[..|bs| - 1], n);
      assert bs[..|bs| - 1][..n] == bs[..n];
    } else {
      assert bs[..n] == bs;
    }
  }

  lemma TipExtended(bs: seq<Block>, b: Block)
    requires bs != [] && Parent(bs, b) == Some(Tip(bs))
    ensures Orphaned(bs, b) == []
  {
    ForkOfSame(Best(bs));
  }

  lemma ForkedQuiet()
    ensures NoReorg(FORKED)
  {
    hide Branch;
    assert FORKED[..0] == [];
    StoredParent(FORKED[..1], FORKED[1], 0);
    TipIsFirstHighestOf(FORKED[..1], 0);
    TipExtended(FORKED[..1], FORKED[1]);
    StoredParent(FORKED[..2], FORKED[2], 1);
    TipIsFirstHighestOf(FORKED[..2], 1);
    TipExtended(FORKED[..2], FORKED[2]);
    assert FORKED[..3][2].height == 3 && FORKED[..4][2].height == 3;
    assert FORKED[..3][2] in FORKED[..3] && FORKED[..4][2] in FORKED[..4];
  }

  lemma TipIsFirstHighestOf(bs: seq<Block>, k: nat)
    requires k < |bs| && forall j :: 0 <= j < |bs| && j != k ==> bs[j].height < bs[k].height
    ensures Tip(bs) == bs[k]
  {
    assert bs[k] in bs;
  }

  /** A transaction mined at height 2 of one branch and height 3 of the other. After six
      messages that never list it, block 14 brings the second branch back: the transaction is
      canonical in block 13 and listed in the mempool. */
  lemma MinedTxCanStayVisible()
    ensures WellFormedRun(FORKED_RUN) && MinedArePruned(Run(FORKED_RUN)) && Run(FORKED_RUN).mempool == map[TxId(7) := true]
    ensures var r := Update(Run(FORKED_RUN), NEXT);
            r.Ok? && r.value.db.mempool == map[TxId(7) := false]
    ensures FORKED[4] in Best(Accept(Accepted(FORKED_RUN), NEXT)) && TxId(7) in TxIds(FORKED[4])
  {
    ForkedReached();
    hide Run, Accepted, WellFormedRun, Update, Accept, Branch, TxIds, TableOf, BlockRows;
    ForkedUpdate();
  }

  lemma ForkedReached()
    ensures WellFormedRun(FORKED_RUN) && MinedArePruned(Run(FORKED_RUN)) && Accepted(FORKED_RUN) == FORKED
    ensures Run(FORKED_RUN) == Expected(FORKED, map[TxId(7) := true])
  {
    var id := TxId(7);
    ForkedInOrder();
    ForkedQuiet();
    assert FORKED_RUN == After(id, FORKED);
    hide After, Run, Accepted, WellFormedRun, Deliverable, NoReorg, MinedArePruned, Expected;
    AfterWellFormed(id, FORKED);
    AfterStoresAll(id, FORKED);
    QuietRunKeeps(id, FORKED);
    EveryRunIsRecomputed(FORKED_RUN);
    ForkedBranches();
    ForkedPruned(Run(FORKED_RUN).mempool);
  }

  lemma ForkedPruned(mempool: map<TxId, bool>)
    requires Grown(FORKED) && Best(FORKED) == [FORKED[0], FORKED[1], FORKED[2]]
    requires mempool.Keys == {TxId(7)} && MinedArePruned(Expected(FORKED, mempool))
    ensures mempool == map[TxId(7) := true]
  {
    hide Branch, Best, Tip;
    CanonicalTxOfTables(FORKED, mempool, TxId(7));
    hide TableOf;
    assert FORKED[1].txs[0] in FORKED[1].txs;
    assert TxId(7) in TxIds(Best(FORKED)[1]);
  }

  /** Without any reorganisation: a transaction announced after it was mined is listed. */
  lemma LateTxIsVisible()
    ensures var evs := [NewBlock(Carrier(1, 0, 1, true)), NewMempoolTxs({TxId(7)})];
            WellFormedRun(evs) && Run(evs).mempool == map[TxId(7) := false] && !MinedArePruned(Run(evs))
  {
    var b, id := Carrier(1, 0, 1, true), TxId(7);
    var bs := [b];
    hide Run, Accepted, WellFormedRun, Best, Expected, MinedArePruned, Deliverable, Grown, Step, TxIds;
    LateParts(b);
    HistoryIsReachable(bs);
    var evs := Deliveries(bs) + [NewMempoolTxs({id})];
    assert evs == [NewBlock(b), NewMempoolTxs({id})];
    RunMore(Deliveries(bs), NewMempoolTxs({id}));
    ThenMempool(Deliveries(bs), NewMempoolTxs({id}));
    LateTables(bs, b, id);
  }

  lemma ThenMempool(evs: seq<Event>, ev: Event)
    requires WellFormedRun(evs) && !ev.NewBlock?
    ensures WellFormedRun(evs + [ev])
  {
    var more := evs + [ev];
    assert forall i :: 0 <= i < |more| && more[i].NewBlock? ==> i < |evs| && more[i] == evs[i];
  }

  lemma LateParts(b: Block)
    requires b == Carrier(1, 0, 1, true)
    ensures Deliverable([b]) && Best([b]) == [b] && TxId(7) in TxIds(b)
  {
    assert b.txs[0] in b.txs;
    FirstAreDeliverable([b]);
    BranchShape([b], b);
  }

  lemma LateTables(bs: seq<Block>, b: Block, id: TxId)
    requires Grown(bs) && bs == [b] && Best(bs) == [b] && id in TxIds(b)
    ensures var db := Step(Expected(bs, map[]), NewMempoolTxs({id}));
            db.mempool == map[id := false] && !MinedArePruned(db)
  {
    hide Best, TableOf, TxIds;
    var db := Step(Expected(bs, map[]), NewMempoolTxs({id}));
    assert db.mempool == map[id := false];
    assert Has(Best(bs), id) by { assert id in TxIds([b][0]); }
    CanonicalTxOfTables(bs, db.mempool, id);
    assert IsCanonicalTx(db, id);
  }
}

/** The reorganisation walk, proved against the recomputed tables. Half way down, the
    canonical set is neither branch but their splice; every level is still a recomputed
    database for that splice, which is the induction. */
module Reorg {
  import opened Tables
  import opened Chain
  import opened Store
  import opened Reference

  lemma RefBlocksFlag(bs: seq<Block>, canon: set<Hash>, kr: nat, ko: nat)
    requires Distinct(bs) && kr < |bs| && ko < |bs| && bs[kr].height == bs[ko].height
    requires bs[kr].hash !in canon && bs[ko].hash in canon
    requires forall i :: 0 <= i < |bs| && bs[i].height == bs[ko].height && bs[i].hash in canon ==> i == ko
    ensures Select(BlockRows(bs, canon), IsOrphan(bs[kr].hash)) == [BlockRowOf(bs[kr], canon)]
    ensures var up := SetFlagWhere(BlockRows(bs, canon), IsOrphan(bs[kr].hash), true);
            Select(up, ConflictsWith(bs[kr].height, bs[kr].hash)) == [BlockRowOf(bs[ko], canon)] &&
            SetFlagWhere(up, ConflictsWith(bs[kr].height, bs[kr].hash), false) ==
              BlockRows(bs, canon - {bs[ko].hash} + {bs[kr].hash})
  {
    var h := bs[kr].hash;
    SelectUnique(BlockRows(bs, canon), IsOrphan(h), kr);
    var up := SetFlagWhere(BlockRows(bs, canon), IsOrphan(h), true);
    assert up == BlockRows(bs, canon + {h});
    SelectUnique(up, ConflictsWith(bs[kr].height, h), ko);
  }

  /** What the walk does besides flipping flags: the mempool and the logged counts. */
  datatype Effects = Effects(mempool: map<TxId, bool>, entities: UpdatedEntities)

  function LevelEffects(e: Effects, o: Block, r: Block): Effects {
    Effects(SetPruned(SetPruned(e.mempool, TxIds(o), false), TxIds(r), true),
            UpdatedEntities(e.entities.markedCanonical.Plus(BlockCounts(r)),
                            e.entities.markedNonCanonical.Plus(BlockCounts(o))))
  }

  /** Level by level from the top, the order the walk works in. */
  function TopDown(e: Effects, orphaned: seq<Block>, restored: seq<Block>): Effects
    requires |orphaned| == |restored|
    decreases |restored|
  {
    if restored == [] then e else
    var n := |restored| - 1;
    TopDown(LevelEffects(e, orphaned[n], restored[n]), orphaned[..n], restored[..n])
  }

  lemma CutTop(e: Effects, a: seq<Block>, b: seq<Block>, f: nat, j: nat)
    requires f < j <= |a| == |b|
    ensures TopDown(e, a[f..j], b[f..j]) == TopDown(LevelEffects(e, a[j - 1], b[j - 1]), a[f..j - 1], b[f..j - 1])
  {
    hide LevelEffects;
    assert a[f..j][..j - 1 - f] == a[f..j - 1];
    assert b[f..j][..j - 1 - f] == b[f..j - 1];
  }

  /** The recomputed database together with the effects so far. */
  function RefWalked(bs: seq<Block>, canon: set<Hash>, e: Effects): Walked {
    Walked(Ref(bs, canon, e.mempool), e.entities)
  }

  lemma OrphanedHalf(w: Walked, bs: seq<Block>, canon: set<Hash>, k: nat)
    requires Distinct(bs) && k < |bs| && bs[k].hash in canon && Tabled(w.db, bs, canon)
    ensures var r := MarkOrphaned(w, bs[k].hash);
            && r.db == Ref(bs, canon - {bs[k].hash}, SetPruned(w.db.mempool, TxIds(bs[k]), false)).(blocks := w.db.blocks)
            && r.entities == w.entities.(markedNonCanonical := w.entities.markedNonCanonical.Plus(BlockCounts(bs[k])))
  {
    MarkTabled(w.db, bs, canon, bs[k].hash, false);
    MarkIds(w.db, bs, canon, k, false);
    MarkCounts(w.db, bs, canon, k, false);
  }

  lemma RestoredHalf(w: Walked, bs: seq<Block>, canon: set<Hash>, k: nat)
    requires Distinct(bs) && k < |bs| && bs[k].hash !in canon && Tabled(w.db, bs, canon)
    ensures var r := MarkRestored(w, bs[k].hash);
            && r.db == Ref(bs, canon + {bs[k].hash}, SetPruned(w.db.mempool, TxIds(bs[k]), true)).(blocks := w.db.blocks)
            && r.entities == w.entities.(markedCanonical := w.entities.markedCanonical.Plus(BlockCounts(bs[k])))
  {
    MarkTabled(w.db, bs, canon, bs[k].hash, true);
    MarkIds(w.db, bs, canon, k, true);
    MarkCounts(w.db, bs, canon, k, true);
  }

  lemma BothHalves(w: Walked, bs: seq<Block>, canon: set<Hash>, kr: nat, ko: nat)
    requires Distinct(bs) && kr < |bs| && ko < |bs| && Tabled(w.db, bs, canon)
    requires bs[kr].hash !in canon && bs[ko].hash in canon
    ensures var r := RefWalked(bs, canon - {bs[ko].hash} + {bs[kr].hash},
                               LevelEffects(Effects(w.db.mempool, w.entities), bs[ko], bs[kr]));
            MarkRestored(MarkOrphaned(w, bs[ko].hash), bs[kr].hash) ==
            r.(db := r.db.(blocks := w.db.blocks))
  {
    OrphanedHalf(w, bs, canon, ko);
    var w1 := MarkOrphaned(w, bs[ko].hash);
    assert w1.db.blocks == w.db.blocks;
    RestoredHalf(w1, bs, canon - {bs[ko].hash}, kr);
  }

  /** One level swaps one block for another, everywhere, and reports exactly their rows. */
  lemma LevelSwapsOneBlock(bs: seq<Block>, canon: set<Hash>, kr: nat, ko: nat, e: Effects)
    requires Distinct(bs) && kr < |bs| && ko < |bs| && bs[kr].height == bs[ko].height
    requires bs[kr].hash !in canon && bs[ko].hash in canon
    requires forall i :: 0 <= i < |bs| && bs[i].height == bs[ko].height && bs[i].hash in canon ==> i == ko
    ensures RestoreLevel(Ref(bs, canon, e.mempool), bs[kr].hash, bs[kr].height, e.entities) ==
            RefWalked(bs, canon - {bs[ko].hash} + {bs[kr].hash}, LevelEffects(e, bs[ko], bs[kr]))
  {
    RefBlocksFlag(bs, canon, kr, ko);
    var flagged := BlockRows(bs, canon - {bs[ko].hash} + {bs[kr].hash});
    var w := Walked(Ref(bs, canon, e.mempool).(blocks := flagged), e.entities);
    BothHalves(w, bs, canon, kr, ko);
  }

  /** The canonical set when the heights above j have been restored and the others not yet. */
  function Splice(a: seq<Block>, b: seq<Block>, j: nat): set<Hash>
    requires |a| == |b| && j <= |a|
  {
    Hashes(a[..j] + b[j..])
  }

  lemma SpliceMember(bs: seq<Block>, a: seq<Block>, b: seq<Block>, j: nat, x: Block)
    requires Distinct(bs) && Levelled(bs, a) && Levelled(bs, b) && |a| == |b| && j <= |a|
    requires x in bs && x.height >= 1
    ensures x.hash in Splice(a, b, j) <==>
            x.height <= |a| && x == (if x.height <= j then a[x.height - 1] else b[x.height - 1])
  {
    var s := a[..j] + b[j..];
    assert Levelled(bs, s);
    if x.hash in Hashes(s) {
      var k :| 0 <= k < |s| && s[k].hash == x.hash;
      SameHashSameBlock(bs, x, s[k]);
    } else if x.height <= |a| {
      assert s[x.height - 1] in s;
    }
  }

  lemma SpliceStep(bs: seq<Block>, a: seq<Block>, b: seq<Block>, j: nat)
    requires Distinct(bs) && Levelled(bs, a) && Levelled(bs, b) && |a| == |b| && 0 < j <= |a|
    ensures Splice(a, b, j) - {a[j - 1].hash} + {b[j - 1].hash} == Splice(a, b, j - 1)
  {
    var s := a[..j - 1] + b[j..];
    assert a[..j] + b[j..] == a[..j - 1] + [a[j - 1]] + b[j..];
    assert a[..j - 1] + b[j - 1..] == a[..j - 1] + [b[j - 1]] + b[j..];
    assert a[j - 1].hash !in Hashes(s) by {
      forall y | y in s ensures y.hash != a[j - 1].hash {
        assert y.height != j;
        if y.hash == a[j - 1].hash { SameHashSameBlock(bs, y, a[j - 1]); }
      }
    }
    assert Splice(a, b, j) == Hashes(s) + {a[j - 1].hash};
    assert Splice(a, b, j - 1) == Hashes(s) + {b[j - 1].hash};
  }

  /** One level of the walk down branch b, seen from the splice: the row to restore is
      unique and the level yields the next splice. */
  lemma WalkLevel(bs: seq<Block>, a: seq<Block>, b: seq<Block>, j: nat, e: Effects)
    requires Distinct(bs) && Levelled(bs, a) && Levelled(bs, b) && |a| == |b| && 0 < j <= |a| && a[j - 1].hash != b[j - 1].hash
    requires forall x :: x in bs ==> x.height >= 1
    ensures Select(BlockRows(bs, Splice(a, b, j)), IsOrphan(b[j - 1].hash)) == [BlockRowOf(b[j - 1], Splice(a, b, j))]
    ensures RestoreLevel(Ref(bs, Splice(a, b, j), e.mempool), b[j - 1].hash, j, e.entities) ==
            RefWalked(bs, Splice(a, b, j - 1), LevelEffects(e, a[j - 1], b[j - 1]))
  {
    var canon := Splice(a, b, j);
    var kr :| 0 <= kr < |bs| && bs[kr] == b[j - 1];
    var ko :| 0 <= ko < |bs| && bs[ko] == a[j - 1];
    SpliceMember(bs, a, b, j, bs[kr]);
    SpliceMember(bs, a, b, j, bs[ko]);
    forall i | 0 <= i < |bs| && bs[i].height == bs[ko].height && bs[i].hash in canon ensures i == ko {
      assert bs[i] in bs;
      SpliceMember(bs, a, b, j, bs[i]);
    }
    RefBlocksFlag(bs, canon, kr, ko);
    LevelSwapsOneBlock(bs, canon, kr, ko, e);
    SpliceStep(bs, a, b, j);
  }

  lemma {:induction false} RestoreUnfolds(db: Db, h: Hash, ent: UpdatedEntities, w: Walked, next: Option<Hash>)
    requires RestoreOnce(db, h, ent) == Ok(Level(w, next))
    ensures RestoreOrphanedChain(db, h, ent) ==
            if next.None? then Ok(w) else RestoreOrphanedChain(w.db, next.value, w.entities)
  {
  }

  lemma ParentQuery(bs: seq<Block>, a: seq<Block>, b: seq<Block>, j: nat)
    requires Grown(bs) && Levelled(bs, a) && Levelled(bs, b) && |a| == |b| && 0 < j <= |a|
    requires j > 1 ==> Parent(bs, b[j - 1]) == Some(b[j - 2])
    ensures var next := Splice(a, b, j - 1);
            Select(BlockRows(bs, next), IsOrphanAt(j - 1, b[j - 1].parent)) ==
              if j > 1 && a[j - 2].hash != b[j - 2].hash then [BlockRowOf(b[j - 2], next)] else []
  {
    hide Select, Splice, Lookup, Parent;
    var next := Splice(a, b, j - 1);
    var rows, p := BlockRows(bs, next), IsOrphanAt(j - 1, b[j - 1].parent);
    if j > 1 && a[j - 2].hash != b[j - 2].hash {
      var k :| 0 <= k < |bs| && bs[k] == b[j - 2];
      SpliceMember(bs, a, b, j - 1, bs[k]);
      SelectUnique(rows, p, k);
    } else {
      forall r | r in rows ensures !p(r) {
        var i :| 0 <= i < |bs| && rows[i] == r;
        assert bs[i] in bs;
        if j > 1 && bs[i].hash == b[j - 1].parent {
          SameHashSameBlock(bs, bs[i], b[j - 2]);
          SpliceMember(bs, a, b, j - 1, bs[i]);
        }
      }
      SelectNone(rows, p);
    }
  }

  /** One call of the walk, seen from the splice: none of its error branches fires, and it
      goes on to the next block down exactly when the branches still differ there. */
  lemma OneCall(bs: seq<Block>, a: seq<Block>, b: seq<Block>, j: nat, e: Effects)
    requires Grown(bs) && Levelled(bs, a) && Levelled(bs, b) && |a| == |b| && 0 < j <= |a| && a[j - 1].hash != b[j - 1].hash
    requires j > 1 ==> Parent(bs, b[j - 1]) == Some(b[j - 2])
    ensures RestoreOnce(Ref(bs, Splice(a, b, j), e.mempool), b[j - 1].hash, e.entities) ==
            Ok(Level(RefWalked(bs, Splice(a, b, j - 1), LevelEffects(e, a[j - 1], b[j - 1])),
                     if j > 1 && a[j - 2].hash != b[j - 2].hash then Some(b[j - 2].hash) else None))
  {
    WalkLevel(bs, a, b, j, e);
    ParentQuery(bs, a, b, j);
  }

  /** Branches a and b of equal length share their first f blocks and no others. */
  ghost predicate PartAt(bs: seq<Block>, a: seq<Block>, b: seq<Block>, f: nat) {
    && Levelled(bs, a) && Levelled(bs, b) && f < |a| == |b| && a[..f] == b[..f]
    && (forall k :: f <= k < |a| ==> a[k].hash != b[k].hash)
    && (forall k {:trigger Parent(bs, b[k])} :: 0 < k < |b| ==> Parent(bs, b[k]) == Some(b[k - 1]))
  }

  lemma BranchesPart(bs: seq<Block>, a: Block, b: Block)
    requires Grown(bs) && a in bs && b in bs && a.height == b.height && a != b
    ensures PartAt(bs, Branch(bs, a), Branch(bs, b), Fork(Branch(bs, a), Branch(bs, b)))
  {
    BranchShape(bs, a);
    BranchShape(bs, b);
    forall k | 0 <= k < a.height
      ensures Branch(bs, a)[k] == Branch(bs, b)[k] <==> k < Fork(Branch(bs, a), Branch(bs, b))
    {
      BranchesPartForGood(bs, a, b, k);
    }
    forall k | 0 < k < b.height ensures Parent(bs, Branch(bs, b)[k]) == Some(Branch(bs, b)[k - 1]) {
      BranchLink(bs, b, k);
    }
  }

  lemma OneStep(bs: seq<Block>, a: seq<Block>, b: seq<Block>, f: nat, j: nat, e: Effects)
    requires Grown(bs) && PartAt(bs, a, b, f) && f < j <= |a|
    ensures var w := RefWalked(bs, Splice(a, b, j - 1), LevelEffects(e, a[j - 1], b[j - 1]));
            RestoreOrphanedChain(Ref(bs, Splice(a, b, j), e.mempool), b[j - 1].hash, e.entities) ==
            if j - 1 > f then RestoreOrphanedChain(w.db, b[j - 2].hash, w.entities) else Ok(w)
  {
    OneCall(bs, a, b, j, e);
    if j > 1 && j - 1 <= f {
      assert a[j - 2] == a[..f][j - 2] == b[..f][j - 2] == b[j - 2];
    }
    RestoreUnfolds(Ref(bs, Splice(a, b, j), e.mempool), b[j - 1].hash, e.entities,
                   RefWalked(bs, Splice(a, b, j - 1), LevelEffects(e, a[j - 1], b[j - 1])),
                   if j - 1 > f then Some(b[j - 2].hash) else None);
  }

  /** The walk from any height j above the fork f: it never fails and it ends with branch b
      wholly canonical, having worked through the two branches above the fork from the top. */
  lemma {:induction false} WalkRestoresBranch(bs: seq<Block>, a: seq<Block>, b: seq<Block>, f: nat, j: nat, e: Effects)
    requires Grown(bs) && PartAt(bs, a, b, f) && f < j <= |a|
    ensures RestoreOrphanedChain(Ref(bs, Splice(a, b, j), e.mempool), b[j - 1].hash, e.entities) ==
            Ok(RefWalked(bs, Hashes(b), TopDown(e, a[f..j], b[f..j])))
    decreases j
  {
    hide RestoreOrphanedChain, Ref, TopDown;
    if j - 1 > f {
      var e1 := LevelEffects(e, a[j - 1], b[j - 1]);
      WalkRestoresBranch(bs, a, b, f, j - 1, e1);
      StepUp(bs, a, b, f, j, e, e1);
    } else {
      LastStep(bs, a, b, f, j, e);
    }
  }

  lemma {:induction false} LastStep(bs: seq<Block>, a: seq<Block>, b: seq<Block>, f: nat, j: nat, e: Effects)
    requires Grown(bs) && PartAt(bs, a, b, f) && j == f + 1
    ensures RestoreOrphanedChain(Ref(bs, Splice(a, b, j), e.mempool), b[j - 1].hash, e.entities) ==
            Ok(RefWalked(bs, Hashes(b), TopDown(e, a[f..j], b[f..j])))
  {
    hide RestoreOrphanedChain, Ref;
    OneStep(bs, a, b, f, j, e);
    CutTop(e, a, b, f, j);
    assert Splice(a, b, f) == Hashes(b) by { assert a[..f] + b[f..] == b; }
  }

  lemma {:induction false} StepUp(bs: seq<Block>, a: seq<Block>, b: seq<Block>, f: nat, j: nat,
                                  e: Effects, e1: Effects)
    requires Grown(bs) && PartAt(bs, a, b, f) && f < j - 1 < |a| && e1 == LevelEffects(e, a[j - 1], b[j - 1])
    requires RestoreOrphanedChain(Ref(bs, Splice(a, b, j - 1), e1.mempool), b[j - 2].hash, e1.entities) ==
             Ok(RefWalked(bs, Hashes(b), TopDown(e1, a[f..j - 1], b[f..j - 1])))
    ensures RestoreOrphanedChain(Ref(bs, Splice(a, b, j), e.mempool), b[j - 1].hash, e.entities) ==
            Ok(RefWalked(bs, Hashes(b), TopDown(e, a[f..j], b[f..j])))
  {
    OneStep(bs, a, b, f, j, e);
    CutTop(e, a, b, f, j);
  }

  lemma SwapInMempool(o: Block, r: Block, mempool: map<TxId, bool>)
    ensures SetPruned(SetPruned(mempool, TxIds(o), false), TxIds(r), true) == MempoolAfter([o], [r], mempool)
  {
    forall id | id in mempool
      ensures PrunedAfter([o], [r], id, mempool[id]) ==
              if id in TxIds(r) then true else if id in TxIds(o) then false else mempool[id]
    {
      assert [r][1..] == [];
    }
  }

  lemma {:induction false} PrunedAfterTop(o: seq<Block>, r: seq<Block>, x: Block, y: Block, id: TxId, before: bool)
    requires |o| == |r|
    ensures PrunedAfter(o + [x], r + [y], id, before) == PrunedAfter(o, r, id, PrunedAfter([x], [y], id, before))
  {
    if r == [] {
      assert o + [x] == [x] && r + [y] == [y];
    } else {
      assert (o + [x])[1..] == o[1..] + [x] && (r + [y])[1..] == r[1..] + [y];
      PrunedAfterTop(o[1..], r[1..], x, y, id, before);
    }
  }

  lemma MempoolAfterTop(o: seq<Block>, r: seq<Block>, x: Block, y: Block, mempool: map<TxId, bool>)
    requires |o| == |r|
    ensures MempoolAfter(o + [x], r + [y], mempool) == MempoolAfter(o, r, MempoolAfter([x], [y], mempool))
  {
    forall id | id in mempool
      ensures PrunedAfter(o + [x], r + [y], id, mempool[id]) ==
              PrunedAfter(o, r, id, PrunedAfter([x], [y], id, mempool[id]))
    {
      PrunedAfterTop(o, r, x, y, id, mempool[id]);
    }
  }

  /** Seen as a whole, the lowest height decides each mempool row. */
  lemma {:induction false} TopDownMempool(e: Effects, o: seq<Block>, r: seq<Block>)
    requires |o| == |r|
    ensures TopDown(e, o, r).mempool == MempoolAfter(o, r, e.mempool)
    decreases |r|
  {
    if r != [] {
      var n := |r| - 1;
      TopDownMempool(LevelEffects(e, o[n], r[n]), o[..n], r[..n]);
      SwapInMempool(o[n], r[n], e.mempool);
      MempoolAfterTop(o[..n], r[..n], o[n], r[n], e.mempool);
      assert o[..n] + [o[n]] == o && r[..n] + [r[n]] == r;
    }
  }

  /** Seen as a whole, the counts are the rows of the two stretches of branch. */
  lemma {:induction false} TopDownCounts(e: Effects, o: seq<Block>, r: seq<Block>)
    requires |o| == |r|
    ensures TopDown(e, o, r).entities == UpdatedEntities(e.entities.markedCanonical.Plus(SumCounts(r)),
                                                         e.entities.markedNonCanonical.Plus(SumCounts(o)))
    decreases |r|
  {
    hide SetPruned, BlockCounts;
    if r == [] {
      PlusZero(e.entities.markedCanonical);
      PlusZero(e.entities.markedNonCanonical);
    } else {
      var n := |r| - 1;
      TopDownCounts(LevelEffects(e, o[n], r[n]), o[..n], r[..n]);
      PlusShuffle(e.entities.markedCanonical, BlockCounts(r[n]), SumCounts(r[..n]));
      PlusShuffle(e.entities.markedNonCanonical, BlockCounts(o[n]), SumCounts(o[..n]));
    }
  }

  lemma PlusZero(c: Counts)
    ensures c.Plus(ZERO) == c
  {
  }

  lemma PlusShuffle(x: Counts, y: Counts, z: Counts)
    ensures x.Plus(y).Plus(z) == x.Plus(z.Plus(y))
  {
  }
}

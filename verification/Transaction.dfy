/** The whole `update` transaction against the recomputed tables. */
module Transaction {
  import opened Tables
  import opened Chain
  import opened Store
  import opened Reference
  import opened Reorg

  // ---- Queries on a recomputed blocks table ----------------------------------------

  /** Every block of the best branch is canonical and no other, one for each height. */
  lemma CanonicalIsBest(bs: seq<Block>, b: Block)
    requires Grown(bs) && b in bs
    ensures Levelled(bs, Best(bs)) && |Best(bs)| == Tip(bs).height
    ensures b.hash in Hashes(Best(bs)) <==> b in Best(bs)
    ensures b in Best(bs) <==> b == Best(bs)[b.height - 1]
  {
    BranchShape(bs, Tip(bs));
    hide Branch, Levelled, Hashes;
    OnBranch(bs, Best(bs), b);
  }

  /** A stored block is on a branch if its hash is there, and then at its own height. */
  lemma OnBranch(bs: seq<Block>, branch: seq<Block>, b: Block)
    requires Distinct(bs) && Levelled(bs, branch) && b in bs && 1 <= b.height <= |branch|
    ensures b.hash in Hashes(branch) <==> b in branch
    ensures b in branch <==> b == branch[b.height - 1]
  {
    if b.hash in Hashes(branch) {
      var x :| x in branch && x.hash == b.hash;
      SameHashSameBlock(bs, x, b);
    }
  }

  /** Only row k, of greatest height, is canonical at that height. */
  ghost predicate SoleTop(rows: seq<BlockRow>, k: nat) {
    && k < |rows| && rows[k].canonical
    && (forall i :: 0 <= i < |rows| && rows[i].canonical ==> rows[i].height <= rows[k].height)
    && (forall i :: 0 <= i < |rows| && rows[i].canonical && rows[i].height == rows[k].height ==> i == k)
  }

  lemma TipIsSoleTop(bs: seq<Block>) returns (k: nat)
    requires Grown(bs) && bs != []
    ensures k < |bs| && bs[k] == Tip(bs)
    ensures SoleTop(BlockRows(bs, Hashes(Best(bs))), k)
  {
    k := TipIndex(bs);
    BranchShape(bs, bs[k]);
    forall i | 0 <= i < |bs|
      ensures bs[i].height <= bs[k].height
      ensures bs[i].hash in Hashes(Best(bs)) && bs[i].height == bs[k].height ==> i == k
      ensures i == k ==> bs[i].hash in Hashes(Best(bs))
    {
      assert bs[i] in bs;
      CanonicalIsBest(bs, bs[i]);
    }
  }

  lemma SoleTopIsChainTip(rows: seq<BlockRow>, k: nat)
    requires SoleTop(rows, k) && MaxHeight(rows) == rows[k].height
    ensures ChainTip(rows) == Some(rows[k])
  {
    SelectUnique(rows, IsCanonicalAt(rows[k].height), k);
  }

  /** The tip query names the first-stored block of greatest height. */
  lemma ChainTipIsTip(bs: seq<Block>)
    requires Grown(bs)
    ensures ChainTip(BlockRows(bs, Hashes(Best(bs)))) ==
            if bs == [] then None else Some(BlockRowOf(Tip(bs), Hashes(Best(bs))))
  {
    if bs != [] {
      var k := TipIsSoleTop(bs);
      MaxHeightIsTip(bs, Hashes(Best(bs)));
      SoleTopIsChainTip(BlockRows(bs, Hashes(Best(bs))), k);
    }
  }

  lemma MaxHeightIsTip(bs: seq<Block>, canon: set<Hash>)
    requires bs != []
    ensures MaxHeight(BlockRows(bs, canon)) == Tip(bs).height
  {
    var rows := BlockRows(bs, canon);
    var k :| 0 <= k < |bs| && bs[k] == Tip(bs);
    assert rows[k] in rows;
    var r :| r in rows && r.height == MaxHeight(rows);
    var i :| 0 <= i < |rows| && rows[i] == r;
    assert bs[i] in bs;
  }

  lemma SoleTopIsCurrent(rows: seq<BlockRow>, k: nat)
    requires SoleTop(rows, k)
    ensures CurrentBlock(rows) == Some(rows[k])
  {
    var hit, t := Select(rows, IsCanonical()), rows[k];
    SelectMember(rows, IsCanonical(), t);
    forall r | r in hit ensures r.height <= t.height && (r.height == t.height ==> r == t) {
      SelectMember(rows, IsCanonical(), r);
    }
    assert MaxHeight(hit) == t.height;
    var top := Select(hit, IsAt(t.height));
    SelectMember(hit, IsAt(t.height), t);
    SelectMember(hit, IsAt(t.height), top[0]);
  }

  /** `getCurrentBlock` and `getChainTipHeight` name the same block. */
  lemma CurrentBlockIsTip(bs: seq<Block>)
    requires Grown(bs)
    ensures CurrentBlock(BlockRows(bs, Hashes(Best(bs)))) == ChainTip(BlockRows(bs, Hashes(Best(bs))))
  {
    if bs != [] {
      var k := TipIsSoleTop(bs);
      MaxHeightIsTip(bs, Hashes(Best(bs)));
      SoleTopIsChainTip(BlockRows(bs, Hashes(Best(bs))), k);
      SoleTopIsCurrent(BlockRows(bs, Hashes(Best(bs))), k);
    }
  }

  /** The parent query of `handleReorg`. */
  lemma ParentRow(bs: seq<Block>, canon: set<Hash>, b: Block)
    requires Grown(bs)
    ensures Select(BlockRows(bs, canon), IsBlockAt(b.height - 1, b.parent)) ==
            match Parent(bs, b) case Some(p) => [BlockRowOf(p, canon)] case None => []
  {
    var rows, q := BlockRows(bs, canon), IsBlockAt(b.height - 1, b.parent);
    match Parent(bs, b) {
      case Some(p) =>
        var k :| 0 <= k < |bs| && bs[k] == p;
        SelectUnique(rows, q, k);
      case None =>
        forall r | r in rows ensures !q(r) {
          var i :| 0 <= i < |bs| && rows[i] == r;
          assert bs[i] in bs;
        }
        SelectNone(rows, q);
    }
  }

  // ---- Storing ---------------------------------------------------------------------

  lemma {:induction false} TableIgnoresStranger<T>(bs: seq<Block>, items: Block -> seq<T>, canon: set<Hash>, h: Hash)
    requires h !in Hashes(bs)
    ensures TableOf(bs, items, canon + {h}) == TableOf(bs, items, canon)
  {
    if bs != [] {
      var n := |bs| - 1;
      assert bs[n] in bs;
      assert Hashes(bs[..n]) <= Hashes(bs);
      TableIgnoresStranger(bs[..n], items, canon, h);
    }
  }

  /** Inserting the entries one by one appends to each table exactly what the block brings. */
  lemma {:induction false} InsertEntriesAppends(db: Db, b: Block, c: bool, es: seq<TxEntry>)
    requires forall r :: r in db.txs ==> r.block != b.hash
    ensures InsertEntries(db, b, c, es) ==
            db.(txs := db.txs + RowsOf(b, c, DistinctTxs(es)),
                stxEvents := db.stxEvents + RowsOf(b, c, Flatten(es, EntryStxEvents)),
                contractLogs := db.contractLogs + RowsOf(b, c, Flatten(es, EntryContractLogs)),
                stxLocks := db.stxLocks + RowsOf(b, c, Flatten(es, EntryStxLocks)),
                ftEvents := db.ftEvents + RowsOf(b, c, Flatten(es, EntryFtEvents)),
                nftEvents := db.nftEvents + RowsOf(b, c, Flatten(es, EntryNftEvents)),
                smartContracts := db.smartContracts + RowsOf(b, c, Flatten(es, EntrySmartContracts)))
  {
    if es == [] {
      AppendNothing(db.txs, b, c);
      AppendNothing(db.stxEvents, b, c);
      AppendNothing(db.contractLogs, b, c);
      AppendNothing(db.stxLocks, b, c);
      AppendNothing(db.ftEvents, b, c);
      AppendNothing(db.nftEvents, b, c);
      AppendNothing(db.smartContracts, b, c);
    } else {
      var n := |es| - 1;
      InsertEntriesAppends(db, b, c, es[..n]);
      InsertTxAppends(db.txs, b, c, es);
      AppendMore(db.stxEvents, b, c, Flatten(es[..n], EntryStxEvents), es[n].stxEvents);
      AppendMore(db.contractLogs, b, c, Flatten(es[..n], EntryContractLogs), es[n].contractLogs);
      AppendMore(db.stxLocks, b, c, Flatten(es[..n], EntryStxLocks), es[n].stxLocks);
      AppendMore(db.ftEvents, b, c, Flatten(es[..n], EntryFtEvents), es[n].ftEvents);
      AppendMore(db.nftEvents, b, c, Flatten(es[..n], EntryNftEvents), es[n].nftEvents);
      AppendMore(db.smartContracts, b, c, Flatten(es[..n], EntrySmartContracts), es[n].smartContracts);
    }
  }

  lemma AppendNothing<T>(t: seq<Row<T>>, b: Block, c: bool)
    ensures t + RowsOf<T>(b, c, []) == t
  {
  }

  lemma AppendMore<T>(t: seq<Row<T>>, b: Block, c: bool, xs: seq<T>, ys: seq<T>)
    ensures t + RowsOf(b, c, xs) + RowsOf(b, c, ys) == t + RowsOf(b, c, xs + ys)
  {
  }

  lemma {:induction false} InsertTxAppends(t: seq<Row<Tx>>, b: Block, c: bool, es: seq<TxEntry>)
    requires es != [] && forall r :: r in t ==> r.block != b.hash
    ensures InsertTx(t + RowsOf(b, c, DistinctTxs(es[..|es| - 1])), Row(b.hash, b.height, c, es[|es| - 1].tx)) ==
            t + RowsOf(b, c, DistinctTxs(es))
  {
    InsertOneTx(t, b, c, DistinctTxs(es[..|es| - 1]), es[|es| - 1].tx);
  }

  lemma InsertOneTx(t: seq<Row<Tx>>, b: Block, c: bool, txs: seq<Tx>, tx: Tx)
    requires forall r :: r in t ==> r.block != b.hash
    ensures InsertTx(t + RowsOf(b, c, txs), Row(b.hash, b.height, c, tx)) ==
            t + RowsOf(b, c, if exists x :: x in txs && x.txId == tx.txId then txs else txs + [tx])
  {
    SameConflict(t, b, c, txs, tx.txId);
    assert RowsOf(b, c, txs + [tx]) == RowsOf(b, c, txs) + [Row(b.hash, b.height, c, tx)];
    assert t + (RowsOf(b, c, txs) + [Row(b.hash, b.height, c, tx)]) == t + RowsOf(b, c, txs) + [Row(b.hash, b.height, c, tx)];
  }

  /** Among rows of other blocks, a conflict on (tx_id, index_block_hash) is one inside the block. */
  lemma SameConflict(t: seq<Row<Tx>>, b: Block, c: bool, txs: seq<Tx>, id: TxId)
    requires forall r :: r in t ==> r.block != b.hash
    ensures (exists r :: r in t + RowsOf(b, c, txs) && r.block == b.hash && r.item.txId == id) <==>
            exists x :: x in txs && x.txId == id
  {
    var mine := RowsOf(b, c, txs);
    if x :| x in txs && x.txId == id {
      var i :| 0 <= i < |txs| && txs[i] == x;
      assert mine[i] in t + mine;
    }
    if r :| r in t + mine && r.block == b.hash && r.item.txId == id {
      var i :| 0 <= i < |mine| && mine[i] == r;
      assert txs[i] in txs;
    }
  }

  /** A new block extends every table by its own rows and touches nothing else. */
  lemma StoreNewBlock(bs: seq<Block>, canon: set<Hash>, mempool: map<TxId, bool>, b: Block, c: bool)
    requires b.hash !in Hashes(bs) && b.hash !in canon
    ensures StoreBlock(Ref(bs, canon, mempool), b, c) ==
            Ref(bs + [b], if c then canon + {b.hash} else canon, mempool)
  {
    var next := if c then canon + {b.hash} else canon;
    var db := Ref(bs, canon, mempool);
    assert (bs + [b])[..|bs|] == bs;
    NoSuchHash(bs, canon, b.hash);
    NoTxRows(bs, canon, b.hash);
    var db1 := db.(blocks := db.blocks + [BlockRowOf(b, next)], minerRewards := db.minerRewards + RowsOf(b, c, b.rewards));
    InsertEntriesAppends(db1, b, c, b.txs);
    assert BlockRows(bs + [b], next) == db.blocks + [BlockRowOf(b, next)] by { BlockRowsIgnoreStranger(bs, canon, b.hash); }
    TableIgnoresStranger(bs, Txs, canon, b.hash);
    TableIgnoresStranger(bs, Rewards, canon, b.hash);
    TableIgnoresStranger(bs, StxLocks, canon, b.hash);
    TableIgnoresStranger(bs, StxEvents, canon, b.hash);
    TableIgnoresStranger(bs, FtEvents, canon, b.hash);
    TableIgnoresStranger(bs, NftEvents, canon, b.hash);
    TableIgnoresStranger(bs, ContractLogs, canon, b.hash);
    TableIgnoresStranger(bs, SmartContracts, canon, b.hash);
  }

  lemma BlockRowsIgnoreStranger(bs: seq<Block>, canon: set<Hash>, h: Hash)
    requires h !in Hashes(bs)
    ensures BlockRows(bs, canon + {h}) == BlockRows(bs, canon)
  {
    forall i | 0 <= i < |bs| ensures bs[i].hash != h {
      assert bs[i] in bs;
    }
  }

  lemma NoSuchHash(bs: seq<Block>, canon: set<Hash>, h: Hash)
    ensures HasHash(BlockRows(bs, canon), h) <==> h in Hashes(bs)
  {
    if HasHash(BlockRows(bs, canon), h) {
      var i :| 0 <= i < |bs| && BlockRows(bs, canon)[i].hash == h;
      assert bs[i] in bs;
    }
    if h in Hashes(bs) {
      var i :| 0 <= i < |bs| && bs[i].hash == h;
      assert BlockRows(bs, canon)[i] in BlockRows(bs, canon);
    }
  }

  lemma NoTxRows(bs: seq<Block>, canon: set<Hash>, h: Hash)
    requires h !in Hashes(bs)
    ensures forall r :: r in TableOf(bs, Txs, canon) ==> r.block != h
  {
    TableRows(bs, Txs, canon);
  }

  // ---- The transaction -------------------------------------------------------------

  /** What a node sends: heights start at 1, and a hash that is already stored comes with
      the same parent and height again. */
  ghost predicate WellFormed(bs: seq<Block>, b: Block) {
    b.height >= 1 && forall c :: c in bs && c.hash == b.hash ==> c.parent == b.parent && c.height == b.height
  }

  predicate ParentMissing(bs: seq<Block>, b: Block) {
    b.height > 1 && Parent(bs, b).None?
  }

  function TipHeight(bs: seq<Block>): nat {
    if bs == [] then 0 else Tip(bs).height
  }

  /** The block becomes the new tip. */
  predicate Rises(bs: seq<Block>, b: Block) {
    b.height > TipHeight(bs)
  }

  /** The ancestors of an incoming block, itself excluded. */
  function Under(bs: seq<Block>, b: Block): seq<Block> {
    match Parent(bs, b) case Some(p) => Branch(bs, p) case None => []
  }

  function ForkHeight(bs: seq<Block>, b: Block): nat {
    Fork(Best(bs), Under(bs, b))
  }

  /** The canonical blocks that an incoming block displaces, lowest first. */
  function Orphaned(bs: seq<Block>, b: Block): seq<Block> {
    if Rises(bs, b) then Best(bs)[ForkHeight(bs, b)..] else []
  }

  /** The orphaned blocks that it makes canonical again, lowest first. */
  function Restored(bs: seq<Block>, b: Block): seq<Block> {
    if Rises(bs, b) then Under(bs, b)[ForkHeight(bs, b)..] else []
  }

  /** A rising block's ancestors reach exactly as high as the present canonical branch, so as
      many blocks are restored as orphaned. */
  lemma BranchesMatch(bs: seq<Block>, b: Block)
    requires Grown(bs) && WellFormed(bs, b) && !ParentMissing(bs, b)
    ensures Rises(bs, b) ==> |Under(bs, b)| == |Best(bs)| == TipHeight(bs) && b.height == TipHeight(bs) + 1
    ensures |Orphaned(bs, b)| == |Restored(bs, b)|
    ensures Rises(bs, b) ==> |Orphaned(bs, b)| == TipHeight(bs) - ForkHeight(bs, b)
  {
    if bs != [] {
      BranchShape(bs, Tip(bs));
    }
    if Rises(bs, b) && b.height > 1 {
      BranchShape(bs, Parent(bs, b).value);
    }
  }

  /** The mempool after the transaction. */
  ghost function NextMempool(bs: seq<Block>, b: Block, mempool: map<TxId, bool>): map<TxId, bool>
    requires |Orphaned(bs, b)| == |Restored(bs, b)|
  {
    var m := MempoolAfter(Orphaned(bs, b), Restored(bs, b), mempool);
    if Rises(bs, b) then SetPruned(m, TxIds(b), true) else m
  }

  /** The stored blocks after the transaction. */
  function Accept(bs: seq<Block>, b: Block): seq<Block> {
    if ParentMissing(bs, b) || b.hash in Hashes(bs) then bs else bs + [b]
  }

  lemma NothingToDo(e: Effects)
    ensures TopDown(e, [], []) == e && MempoolAfter([], [], e.mempool) == e.mempool
  {
  }

  lemma ForkOfSame(a: seq<Block>)
    ensures Fork(a, a) == |a|
  {
  }

  /** `handleReorg` leaves the incoming block's own ancestors canonical, or fails on a missing
      parent; its other error branches never fire. */
  lemma ReorgPreparesParent(bs: seq<Block>, b: Block, mempool: map<TxId, bool>)
    requires Grown(bs) && WellFormed(bs, b) && !ParentMissing(bs, b)
    ensures |Orphaned(bs, b)| == |Restored(bs, b)|
    ensures HandleReorg(Expected(bs, mempool), b, TipHeight(bs)) ==
            Ok(RefWalked(bs, Hashes(if Rises(bs, b) then Under(bs, b) else Best(bs)),
                         TopDown(Effects(mempool, NOTHING_UPDATED), Orphaned(bs, b), Restored(bs, b))))
  {
    BranchesMatch(bs, b);
    var e := Effects(mempool, NOTHING_UPDATED);
    NothingToDo(e);
    if b.height > 1 {
      var canon := Hashes(Best(bs));
      ParentRow(bs, canon, b);
      var p := Parent(bs, b).value;
      CanonicalIsBest(bs, p);
      if Rises(bs, b) {
        BranchShape(bs, Tip(bs));
        if p.hash in canon {
          assert p == Tip(bs);
          ForkOfSame(Best(bs));
        } else {
          BranchesPart(bs, Tip(bs), p);
          BranchShape(bs, p);
          ReorgCase(bs, Best(bs), Under(bs, b), ForkHeight(bs, b), e);
        }
      }
    } else if Rises(bs, b) {
      assert bs == [];
      assert Under(bs, b) == [];
    }
  }

  lemma WholeSlice(a: seq<Block>, f: nat)
    requires f <= |a|
    ensures a[f..] == a[f..|a|]
  {
  }

  lemma {:induction false} ReorgCase(bs: seq<Block>, a: seq<Block>, b: seq<Block>, f: nat, e: Effects)
    requires Grown(bs) && PartAt(bs, a, b, f)
    ensures RestoreOrphanedChain(Ref(bs, Hashes(a), e.mempool), b[|b| - 1].hash, e.entities) ==
            Ok(RefWalked(bs, Hashes(b), TopDown(e, a[f..], b[f..])))
  {
    hide RestoreOrphanedChain, Ref, TopDown;
    assert Splice(a, b, |a|) == Hashes(a) by { assert a[..|a|] + b[|a|..] == a; }
    WholeSlice(a, f);
    WholeSlice(b, f);
    WalkRestoresBranch(bs, a, b, f, |a|, e);
  }

  /** Only a missing parent makes the transaction fail. */
  lemma {:induction false} UpdateRejects(bs: seq<Block>, b: Block, mempool: map<TxId, bool>)
    requires Grown(bs) && ParentMissing(bs, b)
    ensures Update(Expected(bs, mempool), b) == Err(MissingParent)
  {
    ParentRow(bs, Hashes(Best(bs)), b);
    RejectUnfolds(Expected(bs, mempool), b);
  }

  lemma {:induction false} RejectUnfolds(db: Db, b: Block)
    requires b.height > 1 && Select(db.blocks, IsBlockAt(b.height - 1, b.parent)) == []
    ensures Update(db, b) == Err(MissingParent)
  {
  }

  lemma {:induction false} UpdateUnfolds(db: Db, b: Block, tip: nat, w: Walked)
    requires ChainTipHeight(db.blocks) == tip && HandleReorg(db, b, tip) == Ok(w)
    ensures Update(db, b) ==
            Ok(Walked(StoreBlock(if b.height > tip then w.db.(mempool := SetPruned(w.db.mempool, TxIds(b), true)) else w.db,
                                 b, b.height > tip), w.entities))
  {
  }

  /** The transaction: on the tables that the stored blocks call for, `update` yields the
      tables that the stored blocks, extended by the new one, call for; its logged counts are
      the rows of the restored and the orphaned stretch. */
  lemma {:induction false} UpdateRecomputes(bs: seq<Block>, b: Block, mempool: map<TxId, bool>)
    requires Grown(bs) && WellFormed(bs, b) && !ParentMissing(bs, b)
    ensures Grown(Accept(bs, b))
    ensures |Orphaned(bs, b)| == |Restored(bs, b)|
    ensures Update(Expected(bs, mempool), b) ==
            Ok(Walked(Expected(Accept(bs, b), NextMempool(bs, b, mempool)),
                      UpdatedEntities(SumCounts(Restored(bs, b)), SumCounts(Orphaned(bs, b)))))
  {
    ChainTipIsTip(bs);
    ReorgInClosedForm(bs, b, mempool);
    var branch := if Rises(bs, b) then Under(bs, b) else Best(bs);
    var m := MempoolAfter(Orphaned(bs, b), Restored(bs, b), mempool);
    UpdateUnfolds(Expected(bs, mempool), b, TipHeight(bs),
                  Walked(Ref(bs, Hashes(branch), m),
                         UpdatedEntities(SumCounts(Restored(bs, b)), SumCounts(Orphaned(bs, b)))));
    FinishUpdate(bs, b, branch, NextMempool(bs, b, mempool));
  }

  lemma {:induction false} ReorgInClosedForm(bs: seq<Block>, b: Block, mempool: map<TxId, bool>)
    requires Grown(bs) && WellFormed(bs, b) && !ParentMissing(bs, b)
    ensures |Orphaned(bs, b)| == |Restored(bs, b)|
    ensures HandleReorg(Expected(bs, mempool), b, TipHeight(bs)) ==
            Ok(Walked(Ref(bs, Hashes(if Rises(bs, b) then Under(bs, b) else Best(bs)),
                          MempoolAfter(Orphaned(bs, b), Restored(bs, b), mempool)),
                      UpdatedEntities(SumCounts(Restored(bs, b)), SumCounts(Orphaned(bs, b)))))
  {
    ReorgPreparesParent(bs, b, mempool);
    EffectsInClosedForm(mempool, Orphaned(bs, b), Restored(bs, b));
  }

  lemma {:induction false} EffectsInClosedForm(mempool: map<TxId, bool>, o: seq<Block>, r: seq<Block>)
    requires |o| == |r|
    ensures TopDown(Effects(mempool, NOTHING_UPDATED), o, r) ==
            Effects(MempoolAfter(o, r, mempool), UpdatedEntities(SumCounts(r), SumCounts(o)))
  {
    var e := Effects(mempool, NOTHING_UPDATED);
    TopDownMempool(e, o, r);
    TopDownCounts(e, o, r);
    ZeroPlus(SumCounts(r));
    ZeroPlus(SumCounts(o));
  }

  lemma ZeroPlus(c: Counts)
    ensures ZERO.Plus(c) == c
  {
  }

  lemma {:induction false} FinishUpdate(bs: seq<Block>, b: Block, branch: seq<Block>, mempool: map<TxId, bool>)
    requires Grown(bs) && WellFormed(bs, b) && !ParentMissing(bs, b)
    requires branch == if Rises(bs, b) then Under(bs, b) else Best(bs)
    ensures Grown(Accept(bs, b))
    ensures StoreBlock(Ref(bs, Hashes(branch), mempool), b, Rises(bs, b)) == Expected(Accept(bs, b), mempool)
  {
    if b.hash in Hashes(bs) {
      Redelivered(bs, b, mempool);
    } else {
      GrownExtend(bs, b);
      Stored(bs, b, mempool);
    }
  }

  lemma Redelivered(bs: seq<Block>, b: Block, mempool: map<TxId, bool>)
    requires Grown(bs) && WellFormed(bs, b) && b.hash in Hashes(bs)
    ensures !Rises(bs, b)
    ensures StoreBlock(Expected(bs, mempool), b, false) == Expected(bs, mempool)
  {
    NoSuchHash(bs, Hashes(Best(bs)), b.hash);
    var c :| c in bs && c.hash == b.hash;
    assert c.height <= Tip(bs).height;
  }

  lemma {:induction false} Stored(bs: seq<Block>, b: Block, mempool: map<TxId, bool>)
    requires Grown(bs) && Grown(bs + [b]) && WellFormed(bs, b) && !ParentMissing(bs, b) && b.hash !in Hashes(bs)
    ensures StoreBlock(Ref(bs, Hashes(if Rises(bs, b) then Under(bs, b) else Best(bs)), mempool), b, Rises(bs, b)) ==
            Expected(bs + [b], mempool)
  {
    var branch := if Rises(bs, b) then Under(bs, b) else Best(bs);
    BranchFromStore(bs, b);
    StoreNewBlock(bs, Hashes(branch), mempool, b, Rises(bs, b));
    NextBest(bs, b);
  }

  lemma {:induction false} NextBest(bs: seq<Block>, b: Block)
    requires Grown(bs) && Grown(bs + [b]) && !ParentMissing(bs, b)
    ensures Hashes(Best(bs + [b])) == if Rises(bs, b) then Hashes(Under(bs, b)) + {b.hash} else Hashes(Best(bs))
  {
    hide Branch, Lookup, Tip;
    BestExtend(bs, b);
    assert Hashes(Under(bs, b) + [b]) == Hashes(Under(bs, b)) + {b.hash};
  }

  lemma BranchFromStore(bs: seq<Block>, b: Block)
    requires Grown(bs) && !ParentMissing(bs, b)
    ensures Hashes(Best(bs)) <= Hashes(bs) && Hashes(Under(bs, b)) <= Hashes(bs)
  {
    if bs != [] { BranchShape(bs, Tip(bs)); }
    if Parent(bs, b).Some? { BranchShape(bs, Parent(bs, b).value); }
  }
}

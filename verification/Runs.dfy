/** Whole runs of the event server: block messages and mempool messages in any order, one at
    a time. What holds in every state that such a run reaches. */
module Runs {
  import opened Tables
  import opened Chain
  import opened Store
  import opened Reference
  import opened Reorg
  import opened Transaction

  datatype Event =
    | NewBlock(block: Block)
    | NewMempoolTxs(ids: set<TxId>)
    | DropMempoolTxs(ids: set<TxId>)

  /** A block message that fails is rolled back. */
  function Step(db: Db, ev: Event): Db {
    match ev
    case NewBlock(b) => (match Update(db, b) case Ok(w) => w.db case Err(_) => db)
    case NewMempoolTxs(ids) => db.(mempool := InsertMempool(db.mempool, ids))
    case DropMempoolTxs(ids) => db.(mempool := SetPruned(db.mempool, ids, true))
  }

  function Run(evs: seq<Event>): Db {
    if evs == [] then EMPTY else Step(Run(evs[..|evs| - 1]), evs[|evs| - 1])
  }

  /** The blocks a run stores, by arrival: those whose parent is there and whose hash is new. */
  function Accepted(evs: seq<Event>): seq<Block> {
    if evs == [] then [] else
    var bs := Accepted(evs[..|evs| - 1]);
    match evs[|evs| - 1] case NewBlock(b) => Accept(bs, b) case _ => bs
  }

  /** Heights start at 1, and one index hash denotes one block. */
  ghost predicate WellFormedRun(evs: seq<Event>) {
    && (forall i :: 0 <= i < |evs| && evs[i].NewBlock? ==> evs[i].block.height >= 1)
    && (forall i, j :: 0 <= i < |evs| && 0 <= j < |evs| && evs[i].NewBlock? && evs[j].NewBlock? &&
                       evs[i].block.hash == evs[j].block.hash ==>
                         evs[i].block.parent == evs[j].block.parent && evs[i].block.height == evs[j].block.height)
  }

  lemma {:induction false} AcceptedWereSent(evs: seq<Event>, b: Block)
    requires b in Accepted(evs)
    ensures NewBlock(b) in evs
  {
    var n := |evs| - 1;
    if b in Accepted(evs[..n]) {
      AcceptedWereSent(evs[..n], b);
    }
  }

  /** Safety of every run: after any number of forks, reorganisations, rejections and repeats,
      every table is exactly what recomputing it from the stored blocks gives. */
  lemma {:induction false} EveryRunIsRecomputed(evs: seq<Event>)
    requires WellFormedRun(evs)
    ensures Grown(Accepted(evs))
    ensures Run(evs) == Expected(Accepted(evs), Run(evs).mempool)
  {
    if evs == [] {
      assert Hashes([]) == {};
    } else {
      var n := |evs| - 1;
      EveryRunIsRecomputed(evs[..n]);
      var bs, db := Accepted(evs[..n]), Run(evs[..n]);
      match evs[n] {
        case NewBlock(b) =>
          forall c | c in bs && c.hash == b.hash ensures c.parent == b.parent && c.height == b.height {
            AcceptedWereSent(evs[..n], c);
            var i :| 0 <= i < n && evs[i] == NewBlock(c);
          }
          StepRecomputes(bs, b, db.mempool);
        case _ =>
      }
    }
  }

  lemma StepRecomputes(bs: seq<Block>, b: Block, mempool: map<TxId, bool>)
    requires Grown(bs) && WellFormed(bs, b)
    ensures Grown(Accept(bs, b))
    ensures var db := Step(Expected(bs, mempool), NewBlock(b)); db == Expected(Accept(bs, b), db.mempool)
  {
    if ParentMissing(bs, b) {
      UpdateRejects(bs, b, mempool);
    } else {
      UpdateRecomputes(bs, b, mempool);
    }
  }

  // ---- Which histories runs reach ---------------------------------------------------

  /** Parents come before their children. */
  ghost predicate InOrder(bs: seq<Block>) {
    forall i {:trigger bs[..i]} :: 0 <= i < |bs| && bs[i].height > 1 ==> Parent(bs[..i], bs[i]).Some?
  }

  function Deliveries(bs: seq<Block>): seq<Event> {
    seq(|bs|, i requires 0 <= i < |bs| => NewBlock(bs[i]))
  }

  /** What the queue may be given to store all of it. */
  ghost predicate Deliverable(bs: seq<Block>) {
    Distinct(bs) && InOrder(bs) && forall b :: b in bs ==> b.height >= 1
  }

  lemma DeliverablePrefix(bs: seq<Block>)
    requires Deliverable(bs) && bs != []
    ensures var low, b := bs[..|bs| - 1], bs[|bs| - 1];
            && bs == low + [b] && Deliverable(low) && b.height >= 1 && b.hash !in Hashes(low)
            && (b.height > 1 ==> Parent(low, b).Some?)
  {
    hide Parent;
    var low := bs[..|bs| - 1];
    forall i | 0 <= i < |low| && low[i].height > 1 ensures Parent(low[..i], low[i]).Some? {
      assert low[..i] == bs[..i];
    }
  }

  /** Every history of distinct blocks in which parents come first is reached: delivering its
      blocks stores all of them. */
  lemma {:induction false} HistoryIsReachable(bs: seq<Block>)
    requires Deliverable(bs)
    ensures Grown(bs) && WellFormedRun(Deliveries(bs)) && Accepted(Deliveries(bs)) == bs
    ensures Run(Deliveries(bs)) == Expected(bs, map[])
  {
    hide Expected, Run, Accepted, Step, Deliverable, Grown, Accept, WellFormedRun;
    DistinctDeliveries(bs);
    if bs == [] {
      NothingDelivered();
    } else {
      DeliverablePrefix(bs);
      var low, b := bs[..|bs| - 1], bs[|bs| - 1];
      HistoryIsReachable(low);
      assert Deliveries(bs) == Deliveries(low) + [NewBlock(b)];
      RunMore(Deliveries(low), NewBlock(b));
      ReachOneMore(low, b);
    }
  }

  lemma NothingDelivered()
    ensures Grown([]) && Deliveries([]) == [] && Accepted([]) == [] && Run([]) == Expected([], map[])
  {
    assert Hashes([]) == {};
  }

  lemma DeliverableMore(bs: seq<Block>, b: Block)
    requires Deliverable(bs) && b.height >= 1
    ensures Deliverable(Accept(bs, b))
  {
    hide Parent;
    var more := bs + [b];
    if b.hash !in Hashes(bs) && !ParentMissing(bs, b) {
      assert more[..|bs|] == bs;
      forall i | 0 <= i < |more| && more[i].height > 1 ensures Parent(more[..i], more[i]).Some? {
        if i < |bs| { assert more[..i] == bs[..i]; }
      }
    }
  }

  /** And no other history is: what a run stores could have been delivered as it stands. */
  lemma {:induction false} ReachedIsDeliverable(evs: seq<Event>)
    requires forall i :: 0 <= i < |evs| && evs[i].NewBlock? ==> evs[i].block.height >= 1
    ensures Deliverable(Accepted(evs))
  {
    if evs != [] {
      hide Accept, Deliverable;
      ReachedIsDeliverable(evs[..|evs| - 1]);
      match evs[|evs| - 1] {
        case NewBlock(b) => DeliverableMore(Accepted(evs[..|evs| - 1]), b);
        case _ =>
      }
    }
  }

  lemma RunMore(evs: seq<Event>, ev: Event)
    ensures Run(evs + [ev]) == Step(Run(evs), ev)
    ensures Accepted(evs + [ev]) == if ev.NewBlock? then Accept(Accepted(evs), ev.block) else Accepted(evs)
  {
    hide Step, Accept;
    assert (evs + [ev])[..|evs|] == evs;
  }

  lemma DistinctDeliveries(bs: seq<Block>)
    requires Deliverable(bs)
    ensures WellFormedRun(Deliveries(bs))
  {
    hide InOrder;
  }

  lemma FirstAreDeliverable(bs: seq<Block>)
    requires Distinct(bs) && forall c :: c in bs ==> c.height == 1
    ensures Deliverable(bs)
  {
  }

  lemma ReachOneMore(bs: seq<Block>, b: Block)
    requires Grown(bs) && b.height >= 1 && b.hash !in Hashes(bs) && (b.height > 1 ==> Parent(bs, b).Some?)
    ensures Grown(bs + [b]) && Accept(bs, b) == bs + [b]
    ensures Step(Expected(bs, map[]), NewBlock(b)) == Expected(bs + [b], map[])
  {
    hide Expected, Update, Orphaned, Restored;
    GrownExtend(bs, b);
    UpdateRecomputes(bs, b, map[]);
    assert NextMempool(bs, b, map[]) == map[];
  }

  // ---- What a reader of the tables can rely on -------------------------------------

  /** The canonical blocks are the first-stored block of greatest height and its ancestors. */
  lemma CanonicalBlocksAreBestBranch(evs: seq<Event>, i: nat)
    requires WellFormedRun(evs) && i < |Accepted(evs)|
    ensures |Run(evs).blocks| == |Accepted(evs)|
    ensures var bs, row := Accepted(evs), Run(evs).blocks[i];
            && row.hash == bs[i].hash && row.parent == bs[i].parent && row.height == bs[i].height
            && (row.canonical <==> bs[i] in Branch(bs, Tip(bs)))
  {
    EveryRunIsRecomputed(evs);
    CanonicalIsBest(Accepted(evs), Accepted(evs)[i]);
  }

  /** Exactly one canonical block at each height up to the tip, none above. */
  lemma OneCanonicalBlockPerHeight(evs: seq<Event>, height: int)
    requires WellFormedRun(evs)
    ensures var bs := Accepted(evs);
            |Select(Run(evs).blocks, IsCanonicalAt(height))| == if 1 <= height <= TipHeight(bs) then 1 else 0
  {
    EveryRunIsRecomputed(evs);
    CanonicalAtHeight(Accepted(evs), height);
  }

  lemma CanonicalAtHeight(bs: seq<Block>, height: int)
    requires Grown(bs)
    ensures |Best(bs)| == TipHeight(bs)
    ensures 1 <= height <= TipHeight(bs) ==>
              Select(BlockRows(bs, Hashes(Best(bs))), IsCanonicalAt(height)) ==
                [BlockRowOf(Best(bs)[height - 1], Hashes(Best(bs)))]
    ensures !(1 <= height <= TipHeight(bs)) ==>
              Select(BlockRows(bs, Hashes(Best(bs))), IsCanonicalAt(height)) == []
  {
    hide Select, Branch, Tip;
    var rows, p := BlockRows(bs, Hashes(Best(bs))), IsCanonicalAt(height);
    if bs != [] { BranchShape(bs, Tip(bs)); }
    forall i | 0 <= i < |bs|
      ensures p(rows[i]) ==> 1 <= height <= |Best(bs)| && bs[i] == Best(bs)[height - 1]
      ensures 1 <= height <= |Best(bs)| && bs[i] == Best(bs)[height - 1] ==> p(rows[i])
    {
      CanonicalIsBest(bs, bs[i]);
    }
    if 1 <= height <= TipHeight(bs) {
      var k :| 0 <= k < |bs| && bs[k] == Best(bs)[height - 1];
      forall i | 0 <= i < |bs| && i != k ensures !p(rows[i]) {
        assert bs[i].hash != bs[k].hash;
      }
      SelectUnique(rows, p, k);
    } else {
      SelectNone(rows, p);
    }
  }

  /** The two queries for the newest block agree, and name the tip. */
  lemma TipQueriesAgree(evs: seq<Event>)
    requires WellFormedRun(evs)
    ensures CurrentBlock(Run(evs).blocks) == ChainTip(Run(evs).blocks)
    ensures Accepted(evs) == [] ==> ChainTip(Run(evs).blocks) == None
    ensures Accepted(evs) != [] ==>
              ChainTip(Run(evs).blocks).Some? && ChainTip(Run(evs).blocks).value.hash == Tip(Accepted(evs)).hash
  {
    EveryRunIsRecomputed(evs);
    ChainTipIsTip(Accepted(evs));
    CurrentBlockIsTip(Accepted(evs));
  }

  /** Each row belongs to exactly one stored block, and has its flag and height. */
  ghost predicate FollowsBlocks<T(!new)>(rows: seq<Row<T>>, blocks: seq<BlockRow>) {
    forall r :: r in rows ==>
      && (exists b :: b in blocks && b.hash == r.block)
      && (forall b :: b in blocks && b.hash == r.block ==> b.canonical == r.canonical && b.height == r.height)
  }

  lemma TableFollowsBlocks<T(!new)>(bs: seq<Block>, items: Block -> seq<T>, canon: set<Hash>)
    requires Distinct(bs)
    ensures FollowsBlocks(TableOf(bs, items, canon), BlockRows(bs, canon))
  {
    TableRows(bs, items, canon);
    var rows := BlockRows(bs, canon);
    forall r | r in TableOf(bs, items, canon)
      ensures exists b :: b in rows && b.hash == r.block
      ensures forall b :: b in rows && b.hash == r.block ==> b.canonical == r.canonical && b.height == r.height
    {
      var x :| x in bs && r.block == x.hash && r.height == x.height && r.canonical == (x.hash in canon);
      var k :| 0 <= k < |bs| && bs[k] == x;
      assert rows[k] in rows;
      forall b | b in rows && b.hash == r.block ensures b == rows[k] {
        var i :| 0 <= i < |bs| && rows[i] == b;
        SameHashSameBlock(bs, bs[i], x);
      }
    }
  }

  /** In all eight tables, a row's flag is its block's flag. */
  lemma EntitiesFollowTheirBlock(evs: seq<Event>)
    requires WellFormedRun(evs)
    ensures var db := Run(evs);
            && FollowsBlocks(db.txs, db.blocks) && FollowsBlocks(db.minerRewards, db.blocks)
            && FollowsBlocks(db.stxLocks, db.blocks) && FollowsBlocks(db.stxEvents, db.blocks)
            && FollowsBlocks(db.ftEvents, db.blocks) && FollowsBlocks(db.nftEvents, db.blocks)
            && FollowsBlocks(db.contractLogs, db.blocks) && FollowsBlocks(db.smartContracts, db.blocks)
  {
    EveryRunIsRecomputed(evs);
    var bs := Accepted(evs);
    var canon := Hashes(Best(bs));
    TableFollowsBlocks(bs, Txs, canon);
    TableFollowsBlocks(bs, Rewards, canon);
    TableFollowsBlocks(bs, StxLocks, canon);
    TableFollowsBlocks(bs, StxEvents, canon);
    TableFollowsBlocks(bs, FtEvents, canon);
    TableFollowsBlocks(bs, NftEvents, canon);
    TableFollowsBlocks(bs, ContractLogs, canon);
    TableFollowsBlocks(bs, SmartContracts, canon);
  }

  /** A further message keeps the run well formed. */
  ghost predicate CanFollow(evs: seq<Event>, b: Block) {
    WellFormedRun(evs + [NewBlock(b)])
  }

  lemma FollowerIsWellFormed(evs: seq<Event>, b: Block)
    requires CanFollow(evs, b)
    ensures WellFormedRun(evs) && WellFormed(Accepted(evs), b)
  {
    var more := evs + [NewBlock(b)];
    assert more[|evs|] == NewBlock(b);
    assert forall i :: 0 <= i < |evs| ==> evs[i] == more[i];
    forall c | c in Accepted(evs) && c.hash == b.hash ensures c.parent == b.parent && c.height == b.height {
      AcceptedWereSent(evs, c);
      var i :| 0 <= i < |evs| && evs[i] == NewBlock(c);
      assert more[i] == NewBlock(c);
    }
  }

  /** Delivering a stored block again changes no table. */
  lemma RedeliveryChangesNothing(evs: seq<Event>, b: Block)
    requires CanFollow(evs, b) && b.hash in Hashes(Accepted(evs))
    ensures Update(Run(evs), b) == Ok(Walked(Run(evs), NOTHING_UPDATED))
  {
    FollowerIsWellFormed(evs, b);
    EveryRunIsRecomputed(evs);
    var bs, mempool := Accepted(evs), Run(evs).mempool;
    var c :| c in bs && c.hash == b.hash;
    assert Parent(bs, c) == Parent(bs, b);
    UpdateRecomputes(bs, b, mempool);
    Redelivered(bs, b, mempool);
    NothingToDo(Effects(mempool, NOTHING_UPDATED));
  }

  /** From a reachable state the transaction fails exactly when the parent is missing; the
      four other error branches never fire. */
  lemma OnlyMissingParentFails(evs: seq<Event>, b: Block)
    requires CanFollow(evs, b)
    ensures Update(Run(evs), b).Err? <==> ParentMissing(Accepted(evs), b)
    ensures Update(Run(evs), b).Err? ==> Update(Run(evs), b).error == MissingParent
  {
    FollowerIsWellFormed(evs, b);
    EveryRunIsRecomputed(evs);
    if ParentMissing(Accepted(evs), b) {
      UpdateRejects(Accepted(evs), b, Run(evs).mempool);
    } else {
      UpdateRecomputes(Accepted(evs), b, Run(evs).mempool);
    }
  }

  lemma {:induction false} SumCountsBlocks(bs: seq<Block>)
    ensures SumCounts(bs).blocks == |bs|
  {
    if bs != [] { SumCountsBlocks(bs[..|bs| - 1]); }
  }

  /** A reorganisation restores as many blocks as it orphans: the tip height minus the fork
      height. The other counts are the rows of those blocks, table by table. */
  lemma ReorgCounts(evs: seq<Event>, b: Block)
    requires CanFollow(evs, b) && !ParentMissing(Accepted(evs), b)
    ensures Update(Run(evs), b).Ok?
    ensures var bs, ent := Accepted(evs), Update(Run(evs), b).value.entities;
            && ent.markedCanonical == SumCounts(Restored(bs, b))
            && ent.markedNonCanonical == SumCounts(Orphaned(bs, b))
            && ent.markedCanonical.blocks == ent.markedNonCanonical.blocks
            && ent.markedCanonical.blocks == if Rises(bs, b) then TipHeight(bs) - ForkHeight(bs, b) else 0
  {
    FollowerIsWellFormed(evs, b);
    EveryRunIsRecomputed(evs);
    var bs := Accepted(evs);
    UpdateRecomputes(bs, b, Run(evs).mempool);
    BranchesMatch(bs, b);
    SumCountsBlocks(Restored(bs, b));
    SumCountsBlocks(Orphaned(bs, b));
  }
}

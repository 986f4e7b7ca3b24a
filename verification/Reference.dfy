/** The tables recomputed from scratch: given the stored blocks in arrival order and the set
    of hashes to show, every row of every table with its flag. The store's incremental
    updates are compared with this. */
module Reference {
  import opened Tables
  import opened Chain
  import opened Store

  function Flatten<T>(es: seq<TxEntry>, get: TxEntry -> seq<T>): seq<T> {
    if es == [] then [] else
    var n := |es| - 1;
    Flatten(es[..n], get) + get(es[n])
  }

  function EntryStxEvents(e: TxEntry): seq<StxEvent> { e.stxEvents }
  function EntryContractLogs(e: TxEntry): seq<ContractLog> { e.contractLogs }
  function EntryStxLocks(e: TxEntry): seq<StxLock> { e.stxLocks }
  function EntryFtEvents(e: TxEntry): seq<FtEvent> { e.ftEvents }
  function EntryNftEvents(e: TxEntry): seq<NftEvent> { e.nftEvents }
  function EntrySmartContracts(e: TxEntry): seq<SmartContract> { e.smartContracts }

  /** The transactions of the entries, the first of each id. */
  function DistinctTxs(es: seq<TxEntry>): seq<Tx> {
    if es == [] then [] else
    var n := |es| - 1;
    var r := DistinctTxs(es[..n]);
    if exists t :: t in r && t.txId == es[n].tx.txId then r else r + [es[n].tx]
  }

  lemma {:induction false} DistinctTxIds(es: seq<TxEntry>, id: TxId)
    ensures (exists t :: t in DistinctTxs(es) && t.txId == id) <==> exists e :: e in es && e.tx.txId == id
  {
    if es != [] {
      var n := |es| - 1;
      assert es == es[..n] + [es[n]];
      DistinctTxIds(es[..n], id);
      assert es[n] in es;
      if es[n].tx.txId == id && DistinctTxs(es) != DistinctTxs(es[..n]) {
        assert es[n].tx in DistinctTxs(es);
      }
      assert forall t :: t in DistinctTxs(es[..n]) ==> t in DistinctTxs(es);
    }
  }

  function Txs(b: Block): seq<Tx> { DistinctTxs(b.txs) }
  function Rewards(b: Block): seq<MinerReward> { b.rewards }
  function StxEvents(b: Block): seq<StxEvent> { Flatten(b.txs, EntryStxEvents) }
  function ContractLogs(b: Block): seq<ContractLog> { Flatten(b.txs, EntryContractLogs) }
  function StxLocks(b: Block): seq<StxLock> { Flatten(b.txs, EntryStxLocks) }
  function FtEvents(b: Block): seq<FtEvent> { Flatten(b.txs, EntryFtEvents) }
  function NftEvents(b: Block): seq<NftEvent> { Flatten(b.txs, EntryNftEvents) }
  function SmartContracts(b: Block): seq<SmartContract> { Flatten(b.txs, EntrySmartContracts) }

  /** Rows one block contributes to each table, the block's own row included. */
  function BlockCounts(b: Block): Counts {
    Counts(1, |Txs(b)|, |Rewards(b)|, |StxLocks(b)|, |StxEvents(b)|, |FtEvents(b)|, |NftEvents(b)|,
           |ContractLogs(b)|, |SmartContracts(b)|)
  }

  function SumCounts(bs: seq<Block>): Counts {
    if bs == [] then ZERO else
    var n := |bs| - 1;
    SumCounts(bs[..n]).Plus(BlockCounts(bs[n]))
  }

  /** One table: the rows of every stored block, flagged by membership in `canon`. */
  function TableOf<T>(bs: seq<Block>, items: Block -> seq<T>, canon: set<Hash>): seq<Row<T>> {
    if bs == [] then [] else
    var n := |bs| - 1;
    TableOf(bs[..n], items, canon) + RowsOf(bs[n], bs[n].hash in canon, items(bs[n]))
  }

  function BlockRowOf(b: Block, canon: set<Hash>): BlockRow {
    BlockRow(b.hash, b.parent, b.height, b.burnHeight, b.hash in canon)
  }

  function BlockRows(bs: seq<Block>, canon: set<Hash>): (r: seq<BlockRow>)
    ensures |r| == |bs|
    ensures forall i :: 0 <= i < |bs| ==> r[i] == BlockRowOf(bs[i], canon)
  {
    seq(|bs|, i requires 0 <= i < |bs| => BlockRowOf(bs[i], canon))
  }

  function Ref(bs: seq<Block>, canon: set<Hash>, mempool: map<TxId, bool>): Db {
    Db(BlockRows(bs, canon), TableOf(bs, Txs, canon), TableOf(bs, Rewards, canon), TableOf(bs, StxLocks, canon),
       TableOf(bs, StxEvents, canon), TableOf(bs, FtEvents, canon), TableOf(bs, NftEvents, canon),
       TableOf(bs, ContractLogs, canon), TableOf(bs, SmartContracts, canon), mempool)
  }

  /** The tables that the stored blocks call for: exactly the best branch is canonical. */
  function Expected(bs: seq<Block>, mempool: map<TxId, bool>): Db {
    Ref(bs, Hashes(Best(bs)), mempool)
  }

  /** Whether a mempool row ends up pruned when `orphaned` gives way to `restored` (both from
      the fork upwards): the lowest height at which either branch has the transaction decides. */
  function PrunedAfter(orphaned: seq<Block>, restored: seq<Block>, id: TxId, before: bool): bool
    requires |orphaned| == |restored|
  {
    if restored == [] then before
    else if id in TxIds(restored[0]) then true
    else if id in TxIds(orphaned[0]) then false
    else PrunedAfter(orphaned[1..], restored[1..], id, before)
  }

  function MempoolAfter(orphaned: seq<Block>, restored: seq<Block>, mempool: map<TxId, bool>): map<TxId, bool>
    requires |orphaned| == |restored|
  {
    map id | id in mempool :: PrunedAfter(orphaned, restored, id, mempool[id])
  }

  // ---- Flags of one table ----------------------------------------------------------

  /** Flipping one block's rows is the same as recomputing the table with that hash added to
      or removed from the set, whatever the set was. */
  lemma {:induction false} FlipTable<T>(bs: seq<Block>, items: Block -> seq<T>, canon: set<Hash>, h: Hash, c: bool)
    ensures SetCanonical(TableOf(bs, items, canon), h, c) ==
            TableOf(bs, items, if c then canon + {h} else canon - {h})
  {
    if bs != [] {
      var n := |bs| - 1;
      FlipTable(bs[..n], items, canon, h, c);
      var last := RowsOf(bs[n], bs[n].hash in canon, items(bs[n]));
      assert SetCanonical(last, h, c) ==
             RowsOf(bs[n], bs[n].hash in (if c then canon + {h} else canon - {h}), items(bs[n]));
      assert SetCanonical(TableOf(bs[..n], items, canon) + last, h, c) ==
             SetCanonical(TableOf(bs[..n], items, canon), h, c) + SetCanonical(last, h, c);
    }
  }

  lemma {:induction false} FlipRows<T>(b: Block, flag: bool, items: seq<T>, h: Hash, c: bool)
    ensures FlipCount(RowsOf(b, flag, items), h, c) == if b.hash == h && flag != c then |items| else 0
  {
    if items != [] {
      var n := |items| - 1;
      assert RowsOf(b, flag, items)[..n] == RowsOf(b, flag, items[..n]);
      FlipRows(b, flag, items[..n], h, c);
    }
  }

  /** Flipping a block changes exactly the rows that block brought. */
  lemma {:induction false} FlipTableCount<T>(bs: seq<Block>, items: Block -> seq<T>, canon: set<Hash>, k: nat, c: bool)
    requires SoleHash(bs, k) && (bs[k].hash in canon) != c
    ensures FlipCount(TableOf(bs, items, canon), bs[k].hash, c) == |items(bs[k])|
  {
    var n := |bs| - 1;
    var h := bs[k].hash;
    FlipCountConcat(TableOf(bs[..n], items, canon), RowsOf(bs[n], bs[n].hash in canon, items(bs[n])), h, c);
    FlipRows(bs[n], bs[n].hash in canon, items(bs[n]), h, c);
    if k == n {
      FlipTableNone(bs[..n], items, canon, h, c);
    } else {
      FlipTableCount(bs[..n], items, canon, k, c);
    }
  }

  lemma {:induction false} FlipTableNone<T>(bs: seq<Block>, items: Block -> seq<T>, canon: set<Hash>, h: Hash, c: bool)
    requires forall b :: b in bs ==> b.hash != h
    ensures FlipCount(TableOf(bs, items, canon), h, c) == 0
  {
    if bs != [] {
      var n := |bs| - 1;
      FlipCountConcat(TableOf(bs[..n], items, canon), RowsOf(bs[n], bs[n].hash in canon, items(bs[n])), h, c);
      FlipRows(bs[n], bs[n].hash in canon, items(bs[n]), h, c);
      FlipTableNone(bs[..n], items, canon, h, c);
    }
  }

  /** The rows of a table, described by the block they came from. */
  lemma {:induction false} TableRows<T(!new)>(bs: seq<Block>, items: Block -> seq<T>, canon: set<Hash>)
    ensures forall r :: r in TableOf(bs, items, canon) <==>
              exists b :: b in bs && r.block == b.hash && r.height == b.height &&
                          r.canonical == (b.hash in canon) && r.item in items(b)
  {
    if bs != [] {
      var n := |bs| - 1;
      assert bs == bs[..n] + [bs[n]];
      TableRows(bs[..n], items, canon);
      var last := RowsOf(bs[n], bs[n].hash in canon, items(bs[n]));
      forall r
        ensures r in last <==> r.block == bs[n].hash && r.height == bs[n].height &&
                               r.canonical == (bs[n].hash in canon) && r.item in items(bs[n])
      {
        if r.block == bs[n].hash && r.height == bs[n].height &&
           r.canonical == (bs[n].hash in canon) && r.item in items(bs[n]) {
          var i :| 0 <= i < |items(bs[n])| && items(bs[n])[i] == r.item;
          assert last[i] == r;
        }
      }
    }
  }

  // ---- All eight tables at once ----------------------------------------------------

  ghost predicate Tabled(db: Db, bs: seq<Block>, canon: set<Hash>) {
    db == Ref(bs, canon, db.mempool).(blocks := db.blocks)
  }

  lemma MarkTabled(db: Db, bs: seq<Block>, canon: set<Hash>, h: Hash, c: bool)
    requires Tabled(db, bs, canon)
    ensures Tabled(MarkEntities(db, h, c), bs, if c then canon + {h} else canon - {h})
  {
    FlipTable(bs, Txs, canon, h, c);
    FlipTable(bs, Rewards, canon, h, c);
    FlipTable(bs, StxLocks, canon, h, c);
    FlipTable(bs, StxEvents, canon, h, c);
    FlipTable(bs, FtEvents, canon, h, c);
    FlipTable(bs, NftEvents, canon, h, c);
    FlipTable(bs, ContractLogs, canon, h, c);
    FlipTable(bs, SmartContracts, canon, h, c);
  }

  ghost predicate SoleHash(bs: seq<Block>, k: nat) {
    k < |bs| && forall i :: 0 <= i < |bs| && i != k ==> bs[i].hash != bs[k].hash
  }

  lemma MarkCountsBase(db: Db, bs: seq<Block>, canon: set<Hash>, k: nat, c: bool)
    requires Tabled(db, bs, canon) && SoleHash(bs, k) && (bs[k].hash in canon) != c
    ensures FlipCount(db.txs, bs[k].hash, c) == |Txs(bs[k])|
    ensures FlipCount(db.minerRewards, bs[k].hash, c) == |Rewards(bs[k])|
    ensures FlipCount(db.stxLocks, bs[k].hash, c) == |StxLocks(bs[k])|
    ensures FlipCount(db.stxEvents, bs[k].hash, c) == |StxEvents(bs[k])|
  {
    FlipTableCount(bs, Txs, canon, k, c);
    FlipTableCount(bs, Rewards, canon, k, c);
    FlipTableCount(bs, StxLocks, canon, k, c);
    FlipTableCount(bs, StxEvents, canon, k, c);
  }

  lemma MarkCountsRest(db: Db, bs: seq<Block>, canon: set<Hash>, k: nat, c: bool)
    requires Tabled(db, bs, canon) && SoleHash(bs, k) && (bs[k].hash in canon) != c
    ensures FlipCount(db.ftEvents, bs[k].hash, c) == |FtEvents(bs[k])|
    ensures FlipCount(db.nftEvents, bs[k].hash, c) == |NftEvents(bs[k])|
    ensures FlipCount(db.contractLogs, bs[k].hash, c) == |ContractLogs(bs[k])|
    ensures FlipCount(db.smartContracts, bs[k].hash, c) == |SmartContracts(bs[k])|
  {
    FlipTableCount(bs, FtEvents, canon, k, c);
    FlipTableCount(bs, NftEvents, canon, k, c);
    FlipTableCount(bs, ContractLogs, canon, k, c);
    FlipTableCount(bs, SmartContracts, canon, k, c);
  }

  /** Marking block bs[k] reports the row counts of that block. */
  lemma MarkCounts(db: Db, bs: seq<Block>, canon: set<Hash>, k: nat, c: bool)
    requires Distinct(bs) && Tabled(db, bs, canon) && k < |bs| && (bs[k].hash in canon) != c
    ensures ONE_BLOCK.Plus(FlippedCounts(db, bs[k].hash, c)) == BlockCounts(bs[k])
  {
    hide FlipCount, TableOf, Flatten, DistinctTxs;
    MarkCountsBase(db, bs, canon, k, c);
    MarkCountsRest(db, bs, canon, k, c);
  }

  /** Marking block bs[k] returns the ids of that block's transactions. */
  lemma MarkIds(db: Db, bs: seq<Block>, canon: set<Hash>, k: nat, c: bool)
    requires Distinct(bs) && Tabled(db, bs, canon) && k < |bs| && (bs[k].hash in canon) != c
    ensures FlippedTxIds(db, bs[k].hash, c) == TxIds(bs[k])
  {
    var h := bs[k].hash;
    TableRows(bs, Txs, canon);
    forall id | id in FlippedTxIds(db, h, c) ensures id in TxIds(bs[k]) {
      var r :| r in db.txs && Flips(r, h, c) && r.item.txId == id;
      var b :| b in bs && r.block == b.hash && r.item in Txs(b);
      SameHashSameBlock(bs, b, bs[k]);
      DistinctTxIds(b.txs, id);
    }
    forall id | id in TxIds(bs[k]) ensures id in FlippedTxIds(db, h, c) {
      DistinctTxIds(bs[k].txs, id);
      var t :| t in Txs(bs[k]) && t.txId == id;
      var r := Row(h, bs[k].height, h in canon, t);
      assert bs[k] in bs;
      assert r in db.txs;
    }
  }
}

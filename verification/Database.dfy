/** The data store object: its tables are fields that the transaction for a block message
    rewrites statement by statement. Each method is proved against the function of module
    Store that specifies it. */
module Database {
  import opened Tables
  import opened Chain
  import opened Reference
  import opened Runs
  import Store

  type Db = Store.Db
  type UpdatedEntities = Store.UpdatedEntities
  type Counts = Store.Counts

  function Ids(ids: seq<TxId>): set<TxId> {
    set id | id in ids
  }

  /** UPDATE ... SET canonical = c WHERE index_block_hash = h AND canonical != c. */
  method UpdateFlags<T>(rows: seq<Row<T>>, h: Hash, c: bool) returns (updated: seq<Row<T>>, rowCount: nat)
    ensures updated == SetCanonical(rows, h, c) && rowCount == FlipCount(rows, h, c)
  {
    updated, rowCount := [], 0;
    for i := 0 to |rows|
      invariant updated == SetCanonical(rows[..i], h, c) && rowCount == FlipCount(rows[..i], h, c)
    {
      var row := rows[i];
      if row.block == h && row.canonical != c {
        row := row.(canonical := c);
        rowCount := rowCount + 1;
      }
      updated := updated + [row];
      assert rows[..i + 1][..i] == rows[..i];
    }
    assert rows[..|rows|] == rows;
  }

  /** The RETURNING list of that statement on `txs`. */
  method FlippedIds(rows: seq<Row<Tx>>, h: Hash, c: bool) returns (ids: seq<TxId>)
    ensures Ids(ids) == set r | r in rows && Flips(r, h, c) :: r.item.txId
  {
    ids := [];
    for i := 0 to |rows|
      invariant Ids(ids) == set r | r in rows[..i] && Flips(r, h, c) :: r.item.txId
    {
      var before := ids;
      if rows[i].block == h && rows[i].canonical != c {
        ids := ids + [rows[i].item.txId];
        assert Ids(ids) == Ids(before) + {rows[i].item.txId};
      }
      assert rows[..i + 1] == rows[..i] + [rows[i]];
    }
    assert rows[..|rows|] == rows;
  }

  /** UPDATE blocks SET canonical = c WHERE p RETURNING the rows, here as they were. */
  method UpdateBlockFlags(rows: seq<Store.BlockRow>, p: Store.BlockRow -> bool, c: bool)
    returns (updated: seq<Store.BlockRow>, hit: seq<Store.BlockRow>)
    ensures updated == Store.SetFlagWhere(rows, p, c) && hit == Select(rows, p)
  {
    updated, hit := [], [];
    for i := 0 to |rows|
      invariant |updated| == i && forall k :: 0 <= k < i ==> updated[k] == if p(rows[k]) then rows[k].(canonical := c) else rows[k]
      invariant hit == Select(rows[..i], p)
    {
      var row := rows[i];
      if p(row) {
        hit := hit + [row];
        row := row.(canonical := c);
      }
      updated := updated + [row];
      assert rows[..i + 1][..i] == rows[..i];
    }
    assert rows[..|rows|] == rows;
  }

  /** INSERT INTO ..., one row for each item. */
  method InsertRows<T>(table: seq<Row<T>>, b: Block, c: bool, items: seq<T>) returns (r: seq<Row<T>>)
    ensures r == table + Store.RowsOf(b, c, items)
  {
    r := table;
    for i := 0 to |items|
      invariant r == table + Store.RowsOf(b, c, items[..i])
    {
      r := r + [Row(b.hash, b.height, c, items[i])];
    }
    assert items[..|items|] == items;
  }

  /** INSERT INTO txs ... ON CONFLICT (tx_id, index_block_hash) DO NOTHING. */
  method InsertTx(rows: seq<Row<Tx>>, row: Row<Tx>) returns (r: seq<Row<Tx>>)
    ensures r == Store.InsertTx(rows, row)
  {
    for i := 0 to |rows|
      invariant forall k :: 0 <= k < i ==> rows[k].block != row.block || rows[k].item.txId != row.item.txId
    {
      if rows[i].block == row.block && rows[i].item.txId == row.item.txId {
        assert rows[i] in rows;
        return rows;
      }
    }
    r := rows + [row];
  }

  method CandidateTxIds(b: Block) returns (ids: seq<TxId>)
    ensures Ids(ids) == Store.TxIds(b)
  {
    ids := [];
    for i := 0 to |b.txs|
      invariant Ids(ids) == set e | e in b.txs[..i] :: e.tx.txId
    {
      var before := ids;
      ids := ids + [b.txs[i].tx.txId];
      assert Ids(ids) == Ids(before) + {b.txs[i].tx.txId};
      assert b.txs[..i + 1] == b.txs[..i] + [b.txs[i]];
    }
    assert b.txs[..|b.txs|] == b.txs;
  }

  class PgDataStore {
    var blocks: seq<Store.BlockRow>
    var txs: seq<Row<Tx>>
    var minerRewards: seq<Row<MinerReward>>
    var stxLocks: seq<Row<StxLock>>
    var stxEvents: seq<Row<StxEvent>>
    var ftEvents: seq<Row<FtEvent>>
    var nftEvents: seq<Row<NftEvent>>
    var contractLogs: seq<Row<ContractLog>>
    var smartContracts: seq<Row<SmartContract>>
    var mempool: map<TxId, bool>

    function Snapshot(): Db
      reads this
    {
      Store.Db(blocks, txs, minerRewards, stxLocks, stxEvents, ftEvents, nftEvents, contractLogs, smartContracts, mempool)
    }

    constructor ()
      ensures Snapshot() == Store.EMPTY
    {
      blocks, txs, minerRewards, stxLocks, stxEvents := [], [], [], [], [];
      ftEvents, nftEvents, contractLogs, smartContracts, mempool := [], [], [], [], map[];
    }

    /** UPDATE mempool_txs SET pruned = true WHERE tx_id = ANY(ids) RETURNING tx_id. */
    method PruneMempoolTxs(ids: seq<TxId>) returns (removed: seq<TxId>)
      modifies this`mempool
      ensures mempool.Keys == old(mempool.Keys)
      ensures forall id :: id in mempool ==> mempool[id] == (id in ids || old(mempool)[id])
      ensures forall id :: id in removed <==> id in ids && id in mempool
    {
      removed := [];
      for i := 0 to |ids|
        invariant mempool.Keys == old(mempool.Keys)
        invariant forall id :: id in mempool ==> mempool[id] == (id in ids[..i] || old(mempool)[id])
        invariant forall id :: id in removed <==> id in ids[..i] && id in mempool
      {
        if ids[i] in mempool {
          mempool := mempool[ids[i] := true];
          removed := removed + [ids[i]];
        }
        assert ids[..i + 1] == ids[..i] + [ids[i]];
      }
      assert ids[..|ids|] == ids;
    }

    /** The same with pruned = false. */
    method RestoreMempoolTxs(ids: seq<TxId>) returns (restored: seq<TxId>)
      modifies this`mempool
      ensures mempool.Keys == old(mempool.Keys)
      ensures forall id :: id in mempool ==> mempool[id] == (id !in ids && old(mempool)[id])
      ensures forall id :: id in restored <==> id in ids && id in mempool
    {
      restored := [];
      for i := 0 to |ids|
        invariant mempool.Keys == old(mempool.Keys)
        invariant forall id :: id in mempool ==> mempool[id] == (id !in ids[..i] && old(mempool)[id])
        invariant forall id :: id in restored <==> id in ids[..i] && id in mempool
      {
        if ids[i] in mempool {
          mempool := mempool[ids[i] := false];
          restored := restored + [ids[i]];
        }
        assert ids[..i + 1] == ids[..i] + [ids[i]];
      }
      assert ids[..|ids|] == ids;
    }

    /** Four of the eight UPDATE statements. */
    method MarkLedgerTables(h: Hash, c: bool) returns (counts: Counts)
      modifies this`txs, this`minerRewards, this`stxLocks, this`stxEvents
      ensures txs == SetCanonical(old(txs), h, c) && minerRewards == SetCanonical(old(minerRewards), h, c)
      ensures stxLocks == SetCanonical(old(stxLocks), h, c) && stxEvents == SetCanonical(old(stxEvents), h, c)
      ensures counts == Store.ZERO.(txs := FlipCount(old(txs), h, c), minerRewards := FlipCount(old(minerRewards), h, c),
                                    stxLocks := FlipCount(old(stxLocks), h, c), stxEvents := FlipCount(old(stxEvents), h, c))
    {
      hide SetCanonical, FlipCount;
      var n1, n2, n3, n4;
      txs, n1 := UpdateFlags(txs, h, c);
      minerRewards, n2 := UpdateFlags(minerRewards, h, c);
      stxLocks, n3 := UpdateFlags(stxLocks, h, c);
      stxEvents, n4 := UpdateFlags(stxEvents, h, c);
      counts := Store.ZERO.(txs := n1, minerRewards := n2, stxLocks := n3, stxEvents := n4);
    }

    /** The other four. */
    method MarkContractTables(h: Hash, c: bool) returns (counts: Counts)
      modifies this`ftEvents, this`nftEvents, this`contractLogs, this`smartContracts
      ensures ftEvents == SetCanonical(old(ftEvents), h, c) && nftEvents == SetCanonical(old(nftEvents), h, c)
      ensures contractLogs == SetCanonical(old(contractLogs), h, c) && smartContracts == SetCanonical(old(smartContracts), h, c)
      ensures counts == Store.ZERO.(ftEvents := FlipCount(old(ftEvents), h, c), nftEvents := FlipCount(old(nftEvents), h, c),
                                    contractLogs := FlipCount(old(contractLogs), h, c),
                                    smartContracts := FlipCount(old(smartContracts), h, c))
    {
      hide SetCanonical, FlipCount;
      var n1, n2, n3, n4;
      ftEvents, n1 := UpdateFlags(ftEvents, h, c);
      nftEvents, n2 := UpdateFlags(nftEvents, h, c);
      contractLogs, n3 := UpdateFlags(contractLogs, h, c);
      smartContracts, n4 := UpdateFlags(smartContracts, h, c);
      counts := Store.ZERO.(ftEvents := n1, nftEvents := n2, contractLogs := n3, smartContracts := n4);
    }

    /** All eight, each adding its row count to the side that grows. */
    method MarkEntitiesCanonical(h: Hash, c: bool, ent: UpdatedEntities)
      returns (txIds: seq<TxId>, updated: UpdatedEntities)
      modifies this
      ensures Snapshot() == Store.MarkEntities(old(Snapshot()), h, c)
      ensures Ids(txIds) == Store.FlippedTxIds(old(Snapshot()), h, c)
      ensures var counts := Store.FlippedCounts(old(Snapshot()), h, c);
              updated == if c then ent.(markedCanonical := ent.markedCanonical.Plus(counts))
                         else ent.(markedNonCanonical := ent.markedNonCanonical.Plus(counts))
    {
      hide SetCanonical, FlipCount, Flips;
      txIds := FlippedIds(txs, h, c);
      var ledger := MarkLedgerTables(h, c);
      var contracts := MarkContractTables(h, c);
      if c {
        updated := ent.(markedCanonical := ent.markedCanonical.Plus(ledger.Plus(contracts)));
      } else {
        updated := ent.(markedNonCanonical := ent.markedNonCanonical.Plus(ledger.Plus(contracts)));
      }
    }

    /** The displaced block's entities, and its transactions in the mempool. */
    method OrphanEntities(h: Hash, ent: UpdatedEntities) returns (updated: UpdatedEntities)
      modifies this
      ensures Store.Walked(Snapshot(), updated) == Store.MarkOrphaned(Store.Walked(old(Snapshot()), ent), h)
    {
      hide Store.MarkEntities, Store.FlippedCounts, Store.FlippedTxIds;
      var ids;
      updated := ent.(markedNonCanonical := ent.markedNonCanonical.Plus(Store.ONE_BLOCK));
      ids, updated := MarkEntitiesCanonical(h, false, updated);
      ghost var marked := Snapshot();
      var _ := RestoreMempoolTxs(ids);
      assert mempool == Store.SetPruned(marked.mempool, Ids(ids), false);
      assert Snapshot() == marked.(mempool := mempool);
    }

    /** The restored block's entities, and its transactions in the mempool. */
    method RestoreEntities(h: Hash, ent: UpdatedEntities) returns (updated: UpdatedEntities)
      modifies this
      ensures Store.Walked(Snapshot(), updated) == Store.MarkRestored(Store.Walked(old(Snapshot()), ent), h)
    {
      hide Store.MarkEntities, Store.FlippedCounts, Store.FlippedTxIds;
      var ids;
      updated := ent.(markedCanonical := ent.markedCanonical.Plus(Store.ONE_BLOCK));
      ids, updated := MarkEntitiesCanonical(h, true, updated);
      ghost var marked := Snapshot();
      var _ := PruneMempoolTxs(ids);
      assert mempool == Store.SetPruned(marked.mempool, Ids(ids), true);
      assert Snapshot() == marked.(mempool := mempool);
    }

    /** The two block updates of one level and the entity updates that go with them. */
    method RestoreLevel(h: Hash, height: nat, ent: UpdatedEntities) returns (updated: UpdatedEntities)
      modifies this
      ensures Store.Walked(Snapshot(), updated) == Store.RestoreLevel(old(Snapshot()), h, height, ent)
    {
      hide Store.MarkOrphaned, Store.MarkRestored, Store.SetFlagWhere, Select;
      var restored, orphaned;
      updated := ent;
      blocks, restored := UpdateBlockFlags(blocks, Store.IsOrphan(h), true);
      blocks, orphaned := UpdateBlockFlags(blocks, Store.ConflictsWith(height, h), false);
      if |orphaned| > 0 {
        updated := OrphanEntities(orphaned[0].hash, updated);
      }
      updated := RestoreEntities(h, updated);
    }

    method RestoreOrphanedChain(h: Hash, ent: UpdatedEntities) returns (r: Result<UpdatedEntities, Store.Error>)
      modifies this
      ensures match Store.RestoreOrphanedChain(old(Snapshot()), h, ent)
              case Ok(w) => r == Ok(w.entities) && Snapshot() == w.db
              case Err(e) => r == Err(e)
      decreases Store.LeastHeight(Select(blocks, Store.IsOrphan(h)))
    {
      hide Store.RestoreLevel, Store.LeastHeight, Select;
      var hit := Select(blocks, Store.IsOrphan(h));
      if |hit| == 0 {
        return Err(Store.OrphanNotFound);
      }
      if |hit| > 1 {
        return Err(Store.OrphanNotUnique);
      }
      ghost var start := Snapshot();
      var updated := RestoreLevel(h, hit[0].height, ent);
      var parents := Select(blocks, Store.IsOrphanAt(hit[0].height - 1, hit[0].parent));
      if |parents| > 1 {
        return Err(Store.OrphanParentNotUnique);
      }
      if |parents| == 0 {
        return Ok(updated);
      }
      Store.RestoreDescends(start, h, ent);
      r := RestoreOrphanedChain(parents[0].hash, updated);
    }

    method HandleReorg(b: Block, tipHeight: nat) returns (r: Result<UpdatedEntities, Store.Error>)
      modifies this
      ensures match Store.HandleReorg(old(Snapshot()), b, tipHeight)
              case Ok(w) => r == Ok(w.entities) && Snapshot() == w.db
              case Err(e) => r == Err(e)
    {
      r := Ok(Store.NOTHING_UPDATED);
      if b.height > 1 {
        var parents := Select(blocks, Store.IsBlockAt(b.height - 1, b.parent));
        if |parents| > 1 {
          return Err(Store.DuplicateParent);
        }
        if |parents| == 0 {
          return Err(Store.MissingParent);
        }
        if !parents[0].canonical && b.height > tipHeight {
          r := RestoreOrphanedChain(parents[0].hash, Store.NOTHING_UPDATED);
        }
      }
    }

    /** INSERT ... ON CONFLICT (index_block_hash) DO NOTHING; returns the row count. */
    method UpdateBlock(b: Block, c: bool) returns (rowCount: nat)
      modifies this`blocks
      ensures rowCount == 0 <==> exists r :: r in old(blocks) && r.hash == b.hash
      ensures rowCount == 0 ==> blocks == old(blocks)
      ensures rowCount != 0 ==> blocks == old(blocks) + [Store.BlockRow(b.hash, b.parent, b.height, b.burnHeight, c)]
    {
      var i := 0;
      while i < |blocks|
        invariant i <= |blocks| && blocks == old(blocks)
        invariant forall k :: 0 <= k < i ==> blocks[k].hash != b.hash
      {
        if blocks[i].hash == b.hash {
          assert blocks[i] in blocks;
          return 0;
        }
        i := i + 1;
      }
      blocks := blocks + [Store.BlockRow(b.hash, b.parent, b.height, b.burnHeight, c)];
      rowCount := 1;
    }

    method InsertEntry(b: Block, c: bool, e: TxEntry)
      modifies this
      ensures Snapshot() == Store.InsertEntry(old(Snapshot()), b, c, e)
    {
      hide Store.RowsOf, Store.InsertTx;
      txs := InsertTx(txs, Row(b.hash, b.height, c, e.tx));
      stxEvents := InsertRows(stxEvents, b, c, e.stxEvents);
      contractLogs := InsertRows(contractLogs, b, c, e.contractLogs);
      stxLocks := InsertRows(stxLocks, b, c, e.stxLocks);
      ftEvents := InsertRows(ftEvents, b, c, e.ftEvents);
      nftEvents := InsertRows(nftEvents, b, c, e.nftEvents);
      smartContracts := InsertRows(smartContracts, b, c, e.smartContracts);
    }

    /** ROLLBACK. */
    method Rollback(saved: Db)
      modifies this
      ensures Snapshot() == saved
    {
      blocks, txs, minerRewards, stxLocks := saved.blocks, saved.txs, saved.minerRewards, saved.stxLocks;
      stxEvents, ftEvents, nftEvents := saved.stxEvents, saved.ftEvents, saved.nftEvents;
      contractLogs, smartContracts, mempool := saved.contractLogs, saved.smartContracts, saved.mempool;
    }

    /** The block and its entities, once the reorganisation is done. */
    method InsertBlock(b: Block, c: bool)
      modifies this
      ensures Snapshot() == Store.StoreBlock(old(Snapshot()), b, c)
    {
      var blocksUpdated := UpdateBlock(b, c);
      if blocksUpdated != 0 {
        minerRewards := InsertRows(minerRewards, b, c, b.rewards);
        ghost var start := Snapshot();
        for i := 0 to |b.txs|
          invariant Snapshot() == Store.InsertEntries(start, b, c, b.txs[..i])
        {
          InsertEntry(b, c, b.txs[i]);
          assert b.txs[..i + 1][..i] == b.txs[..i];
        }
        assert b.txs[..|b.txs|] == b.txs;
      }
    }

    /** The transactions of a new tip leave the mempool. */
    method PruneMinedTxs(b: Block)
      modifies this`mempool
      ensures mempool == Store.SetPruned(old(mempool), Store.TxIds(b), true)
    {
      hide Store.TxIds;
      var candidates := CandidateTxIds(b);
      var _ := PruneMempoolTxs(candidates);
      assert forall id :: id in candidates <==> id in Ids(candidates);
      assert mempool == Store.SetPruned(old(mempool), Store.TxIds(b), true);
    }

    /** All or nothing: a failing message leaves every table as it was. */
    method Update(b: Block) returns (r: Result<UpdatedEntities, Store.Error>)
      modifies this
      ensures match Store.Update(old(Snapshot()), b)
              case Ok(w) => r == Ok(w.entities) && Snapshot() == w.db
              case Err(e) => r == Err(e) && Snapshot() == old(Snapshot())
    {
      var saved := Snapshot();
      var tipHeight := Store.ChainTipHeight(blocks);
      r := HandleReorg(b, tipHeight);
      if r.Err? {
        Rollback(saved);
        return;
      }
      var isCanonical := b.height > tipHeight;
      if isCanonical {
        PruneMinedTxs(b);
      }
      InsertBlock(b, isCanonical);
    }

    /** INSERT INTO mempool_txs ... ON CONFLICT DO NOTHING, one row for each transaction. */
    method UpdateMempoolTxs(ids: set<TxId>)
      modifies this`mempool
      ensures mempool.Keys == old(mempool.Keys) + ids
      ensures forall id :: id in mempool ==> mempool[id] == (id in old(mempool) && old(mempool)[id])
    {
      var rest := ids;
      while rest != {}
        invariant rest <= ids && forall id :: id in mempool <==> id in old(mempool) || (id in ids && id !in rest)
        invariant forall id :: id in mempool ==> mempool[id] == (id in old(mempool) && old(mempool)[id])
        decreases |rest|
      {
        var id :| id in rest;
        if id !in mempool {
          mempool := mempool[id := false];
        }
        rest := rest - {id};
      }
    }

    /** UPDATE mempool_txs SET pruned = true WHERE tx_id = ANY(ids). */
    method DropMempoolTxs(ids: set<TxId>)
      modifies this`mempool
      ensures mempool.Keys == old(mempool.Keys)
      ensures forall id :: id in mempool ==> mempool[id] == (id in ids || old(mempool)[id])
    {
      var rest := ids;
      while rest != {}
        invariant rest <= ids && mempool.Keys == old(mempool.Keys)
        invariant forall id :: id in mempool ==> mempool[id] == (id in ids - rest || old(mempool)[id])
        decreases |rest|
      {
        var id :| id in rest;
        if id in mempool {
          mempool := mempool[id := true];
        }
        rest := rest - {id};
      }
    }

    method Handle(ev: Event)
      modifies this
      ensures Snapshot() == Step(old(Snapshot()), ev)
    {
      match ev {
        case NewBlock(b) => var _ := Update(b);
        case NewMempoolTxs(ids) =>
          UpdateMempoolTxs(ids);
          assert mempool == Store.InsertMempool(old(mempool), ids);
        case DropMempoolTxs(ids) =>
          DropMempoolTxs(ids);
          assert mempool == Store.SetPruned(old(mempool), ids, true);
      }
    }
  }

  /** The message queue: one message at a time, on a new store. However the blocks forked, the
      tables end up as if computed from the stored blocks alone. */
  method ProcessQueue(evs: seq<Event>) returns (store: PgDataStore)
    ensures fresh(store) && store.Snapshot() == Run(evs)
    ensures WellFormedRun(evs) ==> store.Snapshot() == Expected(Accepted(evs), store.mempool)
  {
    store := new PgDataStore();
    for i := 0 to |evs|
      invariant fresh(store)
      invariant store.Snapshot() == Run(evs[..i])
    {
      store.Handle(evs[i]);
      assert evs[..i + 1][..i] == evs[..i];
    }
    assert evs[..|evs|] == evs;
    if WellFormedRun(evs) {
      EveryRunIsRecomputed(evs);
    }
  }
}

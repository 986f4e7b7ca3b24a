/** The block store: its tables and the transaction that a block message runs against them.
    A function takes the tables before and returns the tables after, or the error that
    makes the transaction roll back. */
module Store {
  import opened Tables
  import opened Chain

  datatype BlockRow = BlockRow(hash: Hash, parent: Hash, height: nat, burnHeight: nat, canonical: bool)

  datatype Db = Db(
    blocks: seq<BlockRow>,
    txs: seq<Row<Tx>>,
    minerRewards: seq<Row<MinerReward>>,
    stxLocks: seq<Row<StxLock>>,
    stxEvents: seq<Row<StxEvent>>,
    ftEvents: seq<Row<FtEvent>>,
    nftEvents: seq<Row<NftEvent>>,
    contractLogs: seq<Row<ContractLog>>,
    smartContracts: seq<Row<SmartContract>>,
    mempool: map<TxId, bool>)   // tx id to its `pruned` flag

  const EMPTY := Db([], [], [], [], [], [], [], [], [], map[])

  datatype Error =
    | MissingParent        // the incoming block's parent is not stored
    | DuplicateParent      // several rows for the incoming block's parent
    | OrphanNotFound       // nothing to restore under this hash
    | OrphanNotUnique      // several rows to restore under this hash
    | OrphanParentNotUnique

  /** Row counts logged after a reorganisation, one per table. */
  datatype Counts = Counts(blocks: nat, txs: nat, minerRewards: nat, stxLocks: nat, stxEvents: nat,
                           ftEvents: nat, nftEvents: nat, contractLogs: nat, smartContracts: nat)
  {
    function Plus(o: Counts): Counts {
      Counts(blocks + o.blocks, txs + o.txs, minerRewards + o.minerRewards, stxLocks + o.stxLocks,
             stxEvents + o.stxEvents, ftEvents + o.ftEvents, nftEvents + o.nftEvents,
             contractLogs + o.contractLogs, smartContracts + o.smartContracts)
    }
  }

  const ZERO := Counts(0, 0, 0, 0, 0, 0, 0, 0, 0)
  const ONE_BLOCK := Counts(1, 0, 0, 0, 0, 0, 0, 0, 0)

  datatype UpdatedEntities = UpdatedEntities(markedCanonical: Counts, markedNonCanonical: Counts)

  const NOTHING_UPDATED := UpdatedEntities(ZERO, ZERO)

  // ---- Queries on the blocks table -------------------------------------------------

  function MaxHeight(rows: seq<BlockRow>): (r: nat)
    ensures forall b :: b in rows ==> b.height <= r
    ensures rows != [] ==> exists b :: b in rows && b.height == r
  {
    if rows == [] then 0 else
    var n := |rows| - 1;
    assert rows == rows[..n] + [rows[n]];
    var m := MaxHeight(rows[..n]);
    if rows[n].height > m || n == 0 then rows[n].height else m
  }

  function IsCanonicalAt(height: int): BlockRow -> bool {
    (b: BlockRow) => b.canonical && b.height == height
  }

  /** The canonical row of greatest stored height, as `getChainTipHeight` reads it. */
  function ChainTip(rows: seq<BlockRow>): Option<BlockRow> {
    var hit := Select(rows, IsCanonicalAt(MaxHeight(rows)));
    if hit == [] then None else Some(hit[0])
  }

  function ChainTipHeight(rows: seq<BlockRow>): nat {
    match ChainTip(rows) case Some(b) => b.height case None => 0
  }

  function IsCanonical(): BlockRow -> bool {
    (b: BlockRow) => b.canonical
  }

  /** ORDER BY block_height DESC LIMIT 1. */
  function Highest(rows: seq<BlockRow>): Option<BlockRow> {
    var hit := Select(rows, IsAt(MaxHeight(rows)));
    if hit == [] then None else Some(hit[0])
  }

  function IsAt(height: int): BlockRow -> bool {
    (b: BlockRow) => b.height == height
  }

  function CurrentBlock(rows: seq<BlockRow>): Option<BlockRow> {
    Highest(Select(rows, IsCanonical()))
  }

  function BlockByHeight(rows: seq<BlockRow>, height: int): Option<BlockRow> {
    var hit := Select(rows, IsCanonicalAt(height));
    if hit == [] then None else Some(hit[0])
  }

  // ---- Mempool ---------------------------------------------------------------------

  function SetPruned(mempool: map<TxId, bool>, ids: set<TxId>, pruned: bool): map<TxId, bool> {
    map id | id in mempool :: if id in ids then pruned else mempool[id]
  }

  function InsertMempool(mempool: map<TxId, bool>, ids: set<TxId>): map<TxId, bool> {
    map id | id in mempool.Keys + ids :: if id in mempool then mempool[id] else false
  }

  // ---- Flipping the entities of one block ------------------------------------------

  /** Ids of the transactions whose flag the UPDATE on `txs` changes (its RETURNING list). */
  function FlippedTxIds(db: Db, h: Hash, c: bool): set<TxId> {
    set r | r in db.txs && Flips(r, h, c) :: r.item.txId
  }

  function FlippedCounts(db: Db, h: Hash, c: bool): Counts {
    Counts(0, FlipCount(db.txs, h, c), FlipCount(db.minerRewards, h, c), FlipCount(db.stxLocks, h, c),
           FlipCount(db.stxEvents, h, c), FlipCount(db.ftEvents, h, c), FlipCount(db.nftEvents, h, c),
           FlipCount(db.contractLogs, h, c), FlipCount(db.smartContracts, h, c))
  }

  function MarkEntities(db: Db, h: Hash, c: bool): Db {
    db.(txs := SetCanonical(db.txs, h, c),
        minerRewards := SetCanonical(db.minerRewards, h, c),
        stxLocks := SetCanonical(db.stxLocks, h, c),
        stxEvents := SetCanonical(db.stxEvents, h, c),
        ftEvents := SetCanonical(db.ftEvents, h, c),
        nftEvents := SetCanonical(db.nftEvents, h, c),
        contractLogs := SetCanonical(db.contractLogs, h, c),
        smartContracts := SetCanonical(db.smartContracts, h, c))
  }

  // ---- The reorganisation walk -----------------------------------------------------

  function IsOrphan(h: Hash): BlockRow -> bool {
    (b: BlockRow) => b.hash == h && !b.canonical
  }

  function ConflictsWith(height: int, h: Hash): BlockRow -> bool {
    (b: BlockRow) => b.height == height && b.hash != h && b.canonical
  }

  function IsOrphanAt(height: int, h: Hash): BlockRow -> bool {
    (b: BlockRow) => b.height == height && b.hash == h && !b.canonical
  }

  function SetFlagWhere(rows: seq<BlockRow>, p: BlockRow -> bool, c: bool): (r: seq<BlockRow>)
    ensures |r| == |rows|
    ensures forall i :: 0 <= i < |r| ==> r[i] == if p(rows[i]) then rows[i].(canonical := c) else rows[i]
  {
    seq(|rows|, i requires 0 <= i < |rows| => if p(rows[i]) then rows[i].(canonical := c) else rows[i])
  }

  function LeastHeight(rows: seq<BlockRow>): (r: nat)
    ensures forall b :: b in rows ==> r <= b.height
    ensures |rows| == 1 ==> r == rows[0].height
  {
    if |rows| <= 1 then if rows == [] then 0 else rows[0].height else
    var n := |rows| - 1;
    assert rows == rows[..n] + [rows[n]];
    var m := LeastHeight(rows[..n]);
    if rows[n].height < m then rows[n].height else m
  }

  datatype Walked = Walked(db: Db, entities: UpdatedEntities)

  /** The displaced block's entities become non-canonical, its transactions visible again. */
  function MarkOrphaned(w: Walked, o: Hash): Walked {
    var marked := MarkEntities(w.db, o, false);
    Walked(marked.(mempool := SetPruned(marked.mempool, FlippedTxIds(w.db, o, false), false)),
           w.entities.(markedNonCanonical :=
             w.entities.markedNonCanonical.Plus(ONE_BLOCK).Plus(FlippedCounts(w.db, o, false))))
  }

  /** The restored block's entities become canonical, its transactions pruned. */
  function MarkRestored(w: Walked, h: Hash): Walked {
    var marked := MarkEntities(w.db, h, true);
    Walked(marked.(mempool := SetPruned(marked.mempool, FlippedTxIds(w.db, h, true), true)),
           w.entities.(markedCanonical :=
             w.entities.markedCanonical.Plus(ONE_BLOCK).Plus(FlippedCounts(w.db, h, true))))
  }

  /** One level of the walk: restore block h at the given height, orphan the block it
      displaces, and flip the entities of both. */
  function RestoreLevel(db: Db, h: Hash, height: nat, ent: UpdatedEntities): Walked {
    var blocks1 := SetFlagWhere(db.blocks, IsOrphan(h), true);
    var orphaned := Select(blocks1, ConflictsWith(height, h));
    var w := Walked(db.(blocks := SetFlagWhere(blocks1, ConflictsWith(height, h), false)), ent);
    MarkRestored(if orphaned == [] then w else MarkOrphaned(w, orphaned[0].hash), h)
  }

  datatype Level = Level(walked: Walked, orphanedParent: Option<Hash>)

  /** One call of `restoreOrphanedChain` up to its recursive call: the level's effect, and the
      parent to go on with if that is orphaned too. */
  function RestoreOnce(db: Db, h: Hash, ent: UpdatedEntities): Result<Level, Error> {
    var hit := Select(db.blocks, IsOrphan(h));
    if |hit| == 0 then Err(OrphanNotFound)
    else if |hit| > 1 then Err(OrphanNotUnique)
    else
      var row := hit[0];
      var w := RestoreLevel(db, h, row.height, ent);
      var parents := Select(w.db.blocks, IsOrphanAt(row.height - 1, row.parent));
      if |parents| > 1 then Err(OrphanParentNotUnique)
      else if |parents| == 0 then Ok(Level(w, None))
      else Ok(Level(w, Some(parents[0].hash)))
  }

  /** The walk terminates: every call works at a smaller height. */
  lemma RestoreDescends(db: Db, h: Hash, ent: UpdatedEntities)
    ensures var r := RestoreOnce(db, h, ent);
            r.Ok? && r.value.orphanedParent.Some? ==>
              LeastHeight(Select(r.value.walked.db.blocks, IsOrphan(r.value.orphanedParent.value)))
              < LeastHeight(Select(db.blocks, IsOrphan(h)))
  {
    var r := RestoreOnce(db, h, ent);
    if r.Ok? && r.value.orphanedParent.Some? {
      var row := Select(db.blocks, IsOrphan(h))[0];
      var rows := r.value.walked.db.blocks;
      var p := Select(rows, IsOrphanAt(row.height - 1, row.parent))[0];
      SelectMember(rows, IsOrphanAt(row.height - 1, row.parent), p);
      SelectMember(rows, IsOrphan(row.parent), p);
    }
  }

  /** `restoreOrphanedChain`: walk down from block h while parents are orphaned. */
  function RestoreOrphanedChain(db: Db, h: Hash, ent: UpdatedEntities): Result<Walked, Error>
    decreases LeastHeight(Select(db.blocks, IsOrphan(h)))
  {
    RestoreDescends(db, h, ent);
    match RestoreOnce(db, h, ent)
    case Err(e) => Err(e)
    case Ok(Level(w, None)) => Ok(w)
    case Ok(Level(w, Some(p))) => RestoreOrphanedChain(w.db, p, w.entities)
  }

  function HandleReorg(db: Db, b: Block, tipHeight: nat): Result<Walked, Error> {
    if b.height <= 1 then Ok(Walked(db, NOTHING_UPDATED)) else
    var parents := Select(db.blocks, IsBlockAt(b.height - 1, b.parent));
    if |parents| > 1 then Err(DuplicateParent)
    else if |parents| == 0 then Err(MissingParent)
    else if !parents[0].canonical && b.height > tipHeight
      then RestoreOrphanedChain(db, parents[0].hash, NOTHING_UPDATED)
    else Ok(Walked(db, NOTHING_UPDATED))
  }

  function IsBlockAt(height: int, h: Hash): BlockRow -> bool {
    (b: BlockRow) => b.height == height && b.hash == h
  }

  // ---- Storing a block and its entities --------------------------------------------

  function RowsOf<T>(b: Block, c: bool, items: seq<T>): (r: seq<Row<T>>)
    ensures |r| == |items|
  {
    seq(|items|, i requires 0 <= i < |items| => Row(b.hash, b.height, c, items[i]))
  }

  /** INSERT ... ON CONFLICT (tx_id, index_block_hash) DO NOTHING. */
  function InsertTx(rows: seq<Row<Tx>>, row: Row<Tx>): seq<Row<Tx>> {
    if exists r :: r in rows && r.block == row.block && r.item.txId == row.item.txId then rows else rows + [row]
  }

  function InsertEntry(db: Db, b: Block, c: bool, e: TxEntry): Db {
    db.(txs := InsertTx(db.txs, Row(b.hash, b.height, c, e.tx)),
        stxEvents := db.stxEvents + RowsOf(b, c, e.stxEvents),
        contractLogs := db.contractLogs + RowsOf(b, c, e.contractLogs),
        stxLocks := db.stxLocks + RowsOf(b, c, e.stxLocks),
        ftEvents := db.ftEvents + RowsOf(b, c, e.ftEvents),
        nftEvents := db.nftEvents + RowsOf(b, c, e.nftEvents),
        smartContracts := db.smartContracts + RowsOf(b, c, e.smartContracts))
  }

  function InsertEntries(db: Db, b: Block, c: bool, entries: seq<TxEntry>): Db {
    if entries == [] then db else
    var n := |entries| - 1;
    InsertEntry(InsertEntries(db, b, c, entries[..n]), b, c, entries[n])
  }

  predicate HasHash(rows: seq<BlockRow>, h: Hash) {
    exists r :: r in rows && r.hash == h
  }

  /** INSERT ... ON CONFLICT (index_block_hash) DO NOTHING, then the entities if it inserted. */
  function StoreBlock(db: Db, b: Block, c: bool): Db {
    if HasHash(db.blocks, b.hash) then db else
    var db1 := db.(blocks := db.blocks + [BlockRow(b.hash, b.parent, b.height, b.burnHeight, c)],
                   minerRewards := db.minerRewards + RowsOf(b, c, b.rewards));
    InsertEntries(db1, b, c, b.txs)
  }

  function TxIds(b: Block): set<TxId> {
    set e | e in b.txs :: e.tx.txId
  }

  /** `update`: the whole transaction for one block message. */
  function Update(db: Db, b: Block): Result<Walked, Error> {
    var tipHeight := ChainTipHeight(db.blocks);
    match HandleReorg(db, b, tipHeight)
    case Err(e) => Err(e)
    case Ok(w) =>
      var isCanonical := b.height > tipHeight;
      var db1 := if isCanonical then w.db.(mempool := SetPruned(w.db.mempool, TxIds(b), true)) else w.db;
      Ok(Walked(StoreBlock(db1, b, isCanonical), w.entities))
  }
}

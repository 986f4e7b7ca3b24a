/** The address query and the socket compared, transaction by transaction: who is shown what,
    and how the totals add up to the balance. */
module AddressTotals {
  import opened Tables
  import opened Chain
  import opened Store
  import opened Reference
  import opened Transaction
  import opened Runs
  import opened Ledger
  import opened CanonicalRows
  import opened AddressQuery
  import opened AddressUpdates

  // ---- Both read the same events ---------------------------------------------------

  lemma {:induction false} CanonicalItemsConcat<T>(x: seq<Row<T>>, y: seq<Row<T>>)
    ensures CanonicalItems(x + y) == CanonicalItems(x) + CanonicalItems(y)
  {
    if y == [] {
      assert x + y == x;
    } else {
      assert (x + y)[..|x + y| - 1] == x + y[..|y| - 1];
      CanonicalItemsConcat(x, y[..|y| - 1]);
    }
  }

  lemma {:induction false} CanonicalItemsRows<T>(b: Block, c: bool, items: seq<T>)
    ensures CanonicalItems(RowsOf(b, c, items)) == if c then items else []
  {
    if items != [] {
      var n := |items| - 1;
      assert RowsOf(b, c, items)[..n] == RowsOf(b, c, items[..n]);
      CanonicalItemsRows(b, c, items[..n]);
      assert items == items[..n] + [items[n]];
    }
  }

  lemma {:induction false} SelectsCommute<T>(x: seq<T>, p: T -> bool, q: T -> bool)
    ensures Select(Select(x, p), q) == Select(Select(x, q), p)
  {
    if x != [] {
      var n := |x| - 1;
      var l := if p(x[n]) then [x[n]] else [];
      var m := if q(x[n]) then [x[n]] else [];
      SelectsCommute(x[..n], p, q);
      SelectConcat(Select(x[..n], p), l, q);
      SelectConcat(Select(x[..n], q), m, p);
      SelectOne(x[n], p, q);
      SelectOne(x[n], q, p);
    }
  }

  lemma SelectOne<T>(e: T, p: T -> bool, q: T -> bool)
    ensures Select(if p(e) then [e] else [], q) == if p(e) && q(e) then [e] else []
  {
    assert [e][..0] == [];
  }

  /** Every event names the transaction it was recorded under. */
  ghost predicate OwnEvents(es: seq<TxEntry>) {
    forall e, x :: e in es && x in e.stxEvents ==> x.txId == e.tx.txId
  }

  lemma {:induction false} NoEventsOfStranger(es: seq<TxEntry>, id: TxId)
    requires OwnEvents(es) && forall e :: e in es ==> e.tx.txId != id
    ensures Select(Flatten(es, EntryStxEvents), HasTx(id)) == []
  {
    if es != [] {
      var n := |es| - 1;
      assert es[n] in es;
      NoEventsOfStranger(es[..n], id);
      SelectConcat(Flatten(es[..n], EntryStxEvents), es[n].stxEvents, HasTx(id));
      SelectNone(es[n].stxEvents, HasTx(id));
    }
  }

  lemma {:induction false} EventsOfEntry(es: seq<TxEntry>, k: nat)
    requires OwnEvents(es) && k < |es| && forall i :: 0 <= i < |es| && i != k ==> es[i].tx.txId != es[k].tx.txId
    ensures Select(Flatten(es, EntryStxEvents), HasTx(es[k].tx.txId)) == es[k].stxEvents
  {
    var n := |es| - 1;
    var id := es[k].tx.txId;
    assert es[n] in es;
    SelectConcat(Flatten(es[..n], EntryStxEvents), es[n].stxEvents, HasTx(id));
    if k == n {
      NoEventsOfStranger(es[..n], id);
      SelectAll(es[n].stxEvents, HasTx(id));
    } else {
      EventsOfEntry(es[..n], k);
      SelectNone(es[n].stxEvents, HasTx(id));
    }
  }

  /** Among the canonical rows, the events with this transaction id are those of block k, when
      no other canonical block has the transaction. */
  lemma {:induction false} EventsInOneBlock(bs: seq<Block>, canon: set<Hash>, id: TxId, k: nat)
    requires k < |bs| && bs[k].hash in canon
    requires forall b :: b in bs ==> OwnEvents(b.txs)
    requires forall i :: 0 <= i < |bs| && i != k && bs[i].hash in canon ==> id !in TxIds(bs[i])
    ensures Select(CanonicalItems(TableOf(bs, StxEvents, canon)), HasTx(id)) == Select(StxEvents(bs[k]), HasTx(id))
  {
    hide TableOf, CanonicalItems, Select, StxEvents, OwnEvents, TxIds;
    var n := |bs| - 1;
    EventsByBlock(bs, canon, id);
    if k == n {
      NoEventsInBlocks(bs[..n], canon, id);
    } else {
      EventsInOneBlock(bs[..n], canon, id, k);
      if bs[n].hash in canon { NoEventsInBlock(bs[n], id); }
    }
  }

  lemma EventsByBlock(bs: seq<Block>, canon: set<Hash>, id: TxId)
    requires bs != []
    ensures var n := |bs| - 1;
            Select(CanonicalItems(TableOf(bs, StxEvents, canon)), HasTx(id)) ==
            Select(CanonicalItems(TableOf(bs[..n], StxEvents, canon)), HasTx(id)) +
            if bs[n].hash in canon then Select(StxEvents(bs[n]), HasTx(id)) else []
  {
    var n := |bs| - 1;
    CanonicalItemsConcat(TableOf(bs[..n], StxEvents, canon), RowsOf(bs[n], bs[n].hash in canon, StxEvents(bs[n])));
    CanonicalItemsRows(bs[n], bs[n].hash in canon, StxEvents(bs[n]));
    SelectConcat(CanonicalItems(TableOf(bs[..n], StxEvents, canon)),
                 if bs[n].hash in canon then StxEvents(bs[n]) else [], HasTx(id));
  }

  lemma NoEventsInBlock(b: Block, id: TxId)
    requires OwnEvents(b.txs) && id !in TxIds(b)
    ensures Select(StxEvents(b), HasTx(id)) == []
  {
    NoEventsOfStranger(b.txs, id);
  }

  lemma {:induction false} NoEventsInBlocks(bs: seq<Block>, canon: set<Hash>, id: TxId)
    requires forall b :: b in bs ==> OwnEvents(b.txs)
    requires forall b :: b in bs && b.hash in canon ==> id !in TxIds(b)
    ensures Select(CanonicalItems(TableOf(bs, StxEvents, canon)), HasTx(id)) == []
  {
    if bs != [] {
      var n := |bs| - 1;
      assert bs[n] in bs;
      EventsByBlock(bs, canon, id);
      NoEventsInBlocks(bs[..n], canon, id);
      if bs[n].hash in canon { NoEventsInBlock(bs[n], id); }
    }
  }

  /** No transaction id occurs twice on the best branch. */
  ghost predicate UniqueTxIds(branch: seq<Block>) {
    && (forall b, i, j :: b in branch && 0 <= i < j < |b.txs| ==> b.txs[i].tx.txId != b.txs[j].tx.txId)
    && (forall b, c :: b in branch && c in branch && b != c ==> TxIds(b) !! TxIds(c))
  }

  // ---- The order of the transfers --------------------------------------------------

  /** Events numbered in the order of the list, as the node sends them. */
  ghost predicate InIndexOrder(es: seq<StxEvent>) {
    forall i, j :: 0 <= i < j < |es| ==> es[i].eventIndex < es[j].eventIndex
  }

  lemma {:induction false} SelectKeepsOrder(es: seq<StxEvent>, p: StxEvent -> bool)
    requires InIndexOrder(es)
    ensures InIndexOrder(Select(es, p))
  {
    if es != [] {
      var n := |es| - 1;
      SelectKeepsOrder(es[..n], p);
      var low := Select(es[..n], p);
      forall i | 0 <= i < |low| ensures low[i].eventIndex < es[n].eventIndex {
        SelectMember(es[..n], p, low[i]);
      }
    }
  }

  ghost predicate Palindrome<T(!new)>(xs: seq<T>) {
    forall i :: 0 <= i < |xs| ==> xs[i] == xs[|xs| - 1 - i]
  }

  /** For given events: the query's totals are the socket's, and its transfers are the socket's
      backwards. */
  lemma ShownBackwards(a: Address, tx: Tx, es: seq<StxEvent>)
    ensures var query, socket := TotalsFor(a, tx, Newest(es)), TotalsFor(a, tx, es);
            && query.sent == socket.sent && query.received == socket.received
            && (InIndexOrder(es) ==> query.transfers == Reversed(socket.transfers) &&
                                     (query.transfers == socket.transfers <==> Palindrome(socket.transfers)))
  {
    OrderBySums(es, FallingIndex(), DebitFrom(a));
    OrderBySums(es, FallingIndex(), CreditTo(a));
    if InIndexOrder(es) {
      OrderByReverses(es, FallingIndex());
      hide Newest;
      assert Moves(Reversed(es)) == Reversed(Moves(es));
    }
  }

  /** After any run, for every canonical transaction and every address: the query shows the
      sent and received totals that were pushed over the socket when the block arrived. It
      shows the transfers in the opposite order, so in the same order exactly if they read
      the same backwards. */
  lemma QueryAgreesWithSocket(evs: seq<Event>, b: Block, k: nat, a: Address)
    requires WellFormedRun(evs) && b in Best(Accepted(evs)) && k < |b.txs|
    requires UniqueTxIds(Best(Accepted(evs))) && forall c :: c in Accepted(evs) ==> OwnEvents(c.txs)
    ensures var tx, es := b.txs[k].tx, b.txs[k].stxEvents;
            var query := Shown(a, tx, CanonicalItems(Run(evs).stxEvents));
            var socket := TotalsFor(a, tx, Select(es, Touches(a)));
            && query.sent == socket.sent && query.received == socket.received
            && (InIndexOrder(es) ==> query.transfers == Reversed(socket.transfers) &&
                                     (query.transfers == socket.transfers <==> Palindrome(socket.transfers)))
  {
    hide CanonicalItems, Select, Newest, TotalsFor, Best, Accepted, Run, WellFormedRun, UniqueTxIds, OwnEvents, InIndexOrder, Palindrome;
    EventsReadBack(evs, b, k, a);
    var es := b.txs[k].stxEvents;
    ShownBackwards(a, b.txs[k].tx, Select(es, Touches(a)));
    if InIndexOrder(es) { SelectKeepsOrder(es, Touches(a)); }
  }

  /** The canonical events of a transaction that touch an address are those of the message. */
  lemma EventsReadBack(evs: seq<Event>, b: Block, k: nat, a: Address)
    requires WellFormedRun(evs) && b in Best(Accepted(evs)) && k < |b.txs|
    requires UniqueTxIds(Best(Accepted(evs))) && forall c :: c in Accepted(evs) ==> OwnEvents(c.txs)
    ensures Mine(CanonicalItems(Run(evs).stxEvents), a, b.txs[k].tx.txId) == Select(b.txs[k].stxEvents, Touches(a))
  {
    hide TableOf, Select, CanonicalItems, Best, Run, Accepted, WellFormedRun, Flatten;
    EveryRunIsRecomputed(evs);
    var bs, canon, id := Accepted(evs), Hashes(Best(Accepted(evs))), b.txs[k].tx.txId;
    var events := CanonicalItems(Run(evs).stxEvents);
    BestIsStored(bs, b);
    var j :| 0 <= j < |bs| && bs[j] == b;
    assert b.txs[k] in b.txs;
    forall i | 0 <= i < |bs| && i != j && bs[i].hash in canon ensures id !in TxIds(bs[i]) {
      CanonicalIsBest(bs, bs[i]);
      assert bs[i].hash != bs[j].hash;
      assert id in TxIds(b);
    }
    CanonicalIsBest(bs, b);
    EventsInOneBlock(bs, canon, id, j);
    EventsOfEntry(b.txs, k);
    SelectsCommute(events, Touches(a), HasTx(id));
  }

  /** A block with one transaction of two transfers from a to b. */
  const TWO_TRANSFERS := TxEntry(Tx(TxId(1), 0, Address("a"), 0, None),
                                 [StxEvent(TxId(1), 0, Transfer(Address("a"), Address("b"), 1)),
                                  StxEvent(TxId(1), 1, Transfer(Address("a"), Address("b"), 2))], [], [], [], [], [])
  const TWO_TRANSFER_BLOCK := Block(Hash(1), Hash(0), 1, 0, [], [TWO_TRANSFERS])

  /** The lists of a stored transaction can differ: the query shows 2 before 1. */
  lemma TransfersRunBackwards()
    ensures var evs, a := [NewBlock(TWO_TRANSFER_BLOCK)], Address("a");
            var query := Shown(a, TWO_TRANSFERS.tx, CanonicalItems(Run(evs).stxEvents));
            var socket := TotalsFor(a, TWO_TRANSFERS.tx, Select(TWO_TRANSFERS.stxEvents, Touches(a)));
            WellFormedRun(evs) && query.transfers == Reversed(socket.transfers) && query.transfers != socket.transfers
  {
    hide Run, Accepted, WellFormedRun, Best, UniqueTxIds, OwnEvents, Shown, Select, Touches, TotalsFor, InIndexOrder, Palindrome, CanonicalItems;
    TwoTransfersStored();
    TwoTransfersSeen();
    assert TWO_TRANSFER_BLOCK.txs[0] == TWO_TRANSFERS;
    QueryAgreesWithSocket([NewBlock(TWO_TRANSFER_BLOCK)], TWO_TRANSFER_BLOCK, 0, Address("a"));
  }

  lemma TwoTransfersSeen()
    ensures var a, es := Address("a"), TWO_TRANSFERS.stxEvents;
            InIndexOrder(es) && !Palindrome(TotalsFor(a, TWO_TRANSFERS.tx, Select(es, Touches(a))).transfers)
  {
    var a, es := Address("a"), TWO_TRANSFERS.stxEvents;
    SelectAll(es, Touches(a));
    hide Select, Touches;
    TwoDiffer(Moves(es));
  }

  lemma TwoDiffer(moves: seq<StxMove>)
    requires |moves| == 2 && moves[0] != moves[1]
    ensures !Palindrome(moves)
  {
    assert moves[0] != moves[|moves| - 1 - 0];
  }

  lemma TwoTransfersStored()
    ensures var evs := [NewBlock(TWO_TRANSFER_BLOCK)];
            && WellFormedRun(evs) && Accepted(evs) == [TWO_TRANSFER_BLOCK] && Best(Accepted(evs)) == [TWO_TRANSFER_BLOCK]
            && UniqueTxIds(Best(Accepted(evs))) && forall c :: c in Accepted(evs) ==> OwnEvents(c.txs)
  {
    var bs := [TWO_TRANSFER_BLOCK];
    assert Deliveries(bs) == [NewBlock(TWO_TRANSFER_BLOCK)];
    FirstBlocks(bs);
  }

  lemma BestIsStored(bs: seq<Block>, b: Block)
    requires Grown(bs) && b in Best(bs)
    ensures b in bs
  {
    BranchShape(bs, Tip(bs));
  }

  // ---- And they add up to the balance ----------------------------------------------

  function CreditIn(a: Address): TxId -> StxEvent -> int {
    (id: TxId) => (e: StxEvent) => if e.txId == id then CreditTo(a)(e) else 0
  }

  function DebitIn(a: Address): TxId -> StxEvent -> int {
    (id: TxId) => (e: StxEvent) => if e.txId == id then DebitFrom(a)(e) else 0
  }

  /** Every canonical row lies at or below the height. */
  ghost predicate AllUpTo<T(!new)>(rows: seq<Row<T>>, height: int) {
    forall r :: r in rows && r.canonical ==> r.height <= height
  }

  lemma MineGrows(es: seq<StxEvent>, x: StxEvent, a: Address, id: TxId)
    ensures Mine(es + [x], a, id) == Mine(es, a, id) + if Touches(a)(x) && x.txId == id then [x] else []
  {
    SelectConcat(es, [x], Touches(a));
    assert [x][..0] == [];
    SelectConcat(Select(es, Touches(a)), if Touches(a)(x) then [x] else [], HasTx(id));
    SelectOne(x, Touches(a), HasTx(id));
  }

  lemma SumItemsGrows<T>(xs: seq<T>, x: T, f: T -> int)
    ensures SumItems(xs + [x], f) == SumItems(xs, f) + f(x)
  {
    assert (xs + [x])[..|xs|] == xs;
  }

  /** The totals of one transaction, as sums over the table. */
  lemma {:induction false} MineSums(rows: seq<Row<StxEvent>>, a: Address, id: TxId, height: int)
    requires AllUpTo(rows, height)
    ensures SumItems(Mine(CanonicalItems(rows), a, id), CreditTo(a)) == SumWhere(rows, height, CreditIn(a)(id))
    ensures SumItems(Mine(CanonicalItems(rows), a, id), DebitFrom(a)) == SumWhere(rows, height, DebitIn(a)(id))
  {
    hide Select, Mine;
    if rows == [] {
      assert Mine([], a, id) == [] by { NothingMine(a, id); }
    } else {
      var n := |rows| - 1;
      var low, x := CanonicalItems(rows[..n]), rows[n].item;
      assert rows[n] in rows;
      MineSums(rows[..n], a, id, height);
      if rows[n].canonical {
        MineGrows(low, x, a, id);
        SumItemsGrows(Mine(low, a, id), x, CreditTo(a));
        SumItemsGrows(Mine(low, a, id), x, DebitFrom(a));
        assert Mine(low, a, id) + [] == Mine(low, a, id);
      } else {
        assert CanonicalItems(rows) == low;
      }
    }
  }

  lemma NothingMine(a: Address, id: TxId)
    ensures Mine([], a, id) == []
  {
  }

  lemma {:induction false} SumAll<T(!new)>(rows: seq<Row<T>>, f: T -> int, height: int)
    requires AllUpTo(rows, height)
    ensures SumItems(CanonicalItems(rows), f) == SumWhere(rows, height, f)
  {
    if rows != [] {
      var n := |rows| - 1;
      assert rows[n] in rows;
      SumAll(rows[..n], f, height);
      assert CanonicalItems(rows[..n]) + [] == CanonicalItems(rows[..n]);
      SumItemsGrows(CanonicalItems(rows[..n]), rows[n].item, f);
    }
  }

  /** Received minus sent over a list of transactions, each with the totals the query gives it. */
  function NetOfTxs(txs: seq<Tx>, events: seq<StxEvent>, a: Address): int {
    if txs == [] then 0 else
    var t := txs[|txs| - 1];
    var totals := Shown(a, t, events);
    NetOfTxs(txs[..|txs| - 1], events, a) + totals.received - totals.sent
  }

  lemma {:induction false} NetByColumn(rows: seq<Row<StxEvent>>, txs: seq<Tx>, a: Address, height: int)
    requires AllUpTo(rows, height)
    ensures NetOfTxs(txs, CanonicalItems(rows), a) ==
            SumPerKey(Ids(txs), rows, height, CreditIn(a)) - SumPerKey(Ids(txs), rows, height, DebitIn(a))
            - SumItems(txs, FeeFrom(a))
  {
    if txs != [] {
      var n := |txs| - 1;
      assert Ids(txs)[..n] == Ids(txs[..n]);
      NetByColumn(rows, txs[..n], a, height);
      var mine := Mine(CanonicalItems(rows), a, txs[n].txId);
      OrderBySums(mine, FallingIndex(), CreditTo(a));
      OrderBySums(mine, FallingIndex(), DebitFrom(a));
      MineSums(rows, a, txs[n].txId, height);
    }
  }

  /** Received minus sent of a transaction, as the query shows it. */
  function NetOfRow(events: seq<StxEvent>, a: Address): Row<Tx> -> int {
    (r: Row<Tx>) => Shown(a, r.item, events).received - Shown(a, r.item, events).sent
  }

  /** Leaving out what is not selected changes no sum. */
  lemma {:induction false} SelectedNet(rows: seq<Row<Tx>>, events: seq<Row<StxEvent>>, a: Address)
    ensures SumItems(Select(rows, Matches(events, a, None)), NetOfRow(CanonicalItems(events), a)) ==
            NetOfTxs(CanonicalItems(rows), CanonicalItems(events), a)
  {
    if rows != [] {
      hide Shown, IsSelected;
      var n := |rows| - 1;
      SelectedNet(rows[..n], events, a);
      var low, items := Select(rows[..n], Matches(events, a, None)), CanonicalItems(rows[..n]);
      assert low + [] == low && items + [] == items;
      if rows[n].canonical {
        assert (items + [rows[n].item])[..|items|] == items;
        if IsSelected(events, a, rows[n].item) {
          SumItemsGrows(low, rows[n], NetOfRow(CanonicalItems(events), a));
        } else {
          UnselectedShowsNothing(events, a, rows[n].item);
        }
      }
    }
  }

  /** What the query shows of an address over all its pages, received minus sent. */
  function NetShown(db: Db, a: Address): int {
    SumItems(AddressTxRows(db, a, None), NetOfRow(CanonicalItems(db.stxEvents), a))
  }

  /** Over the transactions the query selects, what the address received minus what it sent,
      plus its miner rewards, is its balance: no event is missed and none is counted twice. */
  lemma TotalsAddUpToBalance(db: Db, a: Address, height: int)
    requires AllUpTo(db.stxEvents, height) && AllUpTo(db.txs, height)
    requires NoRepeats(Ids(CanonicalItems(db.txs)))
    requires forall r :: r in db.stxEvents && r.canonical ==> r.item.txId in Ids(CanonicalItems(db.txs))
    ensures NetShown(db, a) + SumWhere(db.minerRewards, height, RewardTo(a)) == Balance(db, a, height)
  {
    var txs := CanonicalItems(db.txs);
    var ids := Ids(txs);
    forall r | r in db.stxEvents && r.canonical
      ensures SharesOf(ids, CreditIn(a), r.item) == CreditTo(a)(r.item)
      ensures SharesOf(ids, DebitIn(a), r.item) == DebitFrom(a)(r.item)
    {
      SharesAreWhole(ids, CreditIn(a), r.item, r.item.txId);
      SharesAreWhole(ids, DebitIn(a), r.item, r.item.txId);
    }
    SwapSums(ids, db.stxEvents, height, CreditIn(a), CreditTo(a));
    SwapSums(ids, db.stxEvents, height, DebitIn(a), DebitFrom(a));
    NetByColumn(db.stxEvents, txs, a, height);
    SumAll(db.txs, FeeFrom(a), height);
    SelectedNet(db.txs, db.stxEvents, a);
    OrderBySums(Select(db.txs, Matches(db.stxEvents, a, None)), NewestTx(), NetOfRow(CanonicalItems(db.stxEvents), a));
  }

  // ---- In every run ----------------------------------------------------------------

  lemma {:induction false} DistinctTxsNoRepeats(es: seq<TxEntry>)
    ensures NoRepeats(Ids(DistinctTxs(es)))
  {
    if es != [] {
      var n := |es| - 1;
      DistinctTxsNoRepeats(es[..n]);
      var r := DistinctTxs(es[..n]);
      if !exists t :: t in r && t.txId == es[n].tx.txId {
        forall i | 0 <= i < |r| ensures Ids(r)[i] != es[n].tx.txId { assert r[i] in r; }
        assert Ids(r + [es[n].tx]) == Ids(r) + [es[n].tx.txId];
      }
    }
  }

  lemma BlockTxIds(b: Block, id: TxId)
    ensures id in Ids(Txs(b)) <==> id in TxIds(b)
  {
    DistinctTxIds(b.txs, id);
    var txs := Txs(b);
    assert forall i :: 0 <= i < |txs| ==> txs[i] in txs && Ids(txs)[i] == txs[i].txId;
  }

  lemma CanonicalTxsGrow(bs: seq<Block>, b: Block, canon: set<Hash>)
    ensures CanonicalItems(TableOf(bs + [b], Txs, canon)) ==
            CanonicalItems(TableOf(bs, Txs, canon)) + if b.hash in canon then Txs(b) else []
  {
    hide Txs;
    assert (bs + [b])[..|bs|] == bs;
    CanonicalItemsConcat(TableOf(bs, Txs, canon), RowsOf(b, b.hash in canon, Txs(b)));
    CanonicalItemsRows(b, b.hash in canon, Txs(b));
  }

  ghost predicate CanonicalTx(bs: seq<Block>, canon: set<Hash>, id: TxId) {
    exists b :: b in bs && b.hash in canon && id in TxIds(b)
  }

  /** The canonical rows of `txs` hold each transaction of the canonical blocks once. */
  lemma {:induction false} CanonicalTxIds(bs: seq<Block>, canon: set<Hash>)
    requires Distinct(bs)
    requires forall b, c :: b in bs && c in bs && b.hash in canon && c.hash in canon && b.hash != c.hash ==> TxIds(b) !! TxIds(c)
    ensures var ids := Ids(CanonicalItems(TableOf(bs, Txs, canon)));
            NoRepeats(ids) && forall id :: id in ids <==> CanonicalTx(bs, canon, id)
  {
    hide CanonicalItems, TableOf, Txs, TxIds;
    if bs == [] {
      NoCanonicalTx(canon);
    } else {
      var n := |bs| - 1;
      var low, b := bs[..n], bs[n];
      assert bs == low + [b];
      CanonicalTxIds(low, canon);
      CanonicalTxsGrow(low, b, canon);
      var x := Ids(CanonicalItems(TableOf(low, Txs, canon)));
      var y := if b.hash in canon then Ids(Txs(b)) else [];
      assert Ids(CanonicalItems(TableOf(bs, Txs, canon))) == x + y;
      forall id ensures id in x + y <==> CanonicalTx(bs, canon, id) { BlockTxIds(b, id); }
      BlockTxsNoRepeats(b);
      forall id | id in x ensures id !in y {
        BlockTxIds(b, id);
        var c :| c in low && c.hash in canon && id in TxIds(c);
        var i :| 0 <= i < n && bs[i] == c;
        assert c in bs && b in bs && bs[i].hash != bs[n].hash;
      }
      NoRepeatsConcat(x, y);
    }
  }

  lemma BlockTxsNoRepeats(b: Block)
    ensures NoRepeats(Ids(Txs(b)))
  {
    DistinctTxsNoRepeats(b.txs);
  }

  lemma NoCanonicalTx(canon: set<Hash>)
    ensures Ids(CanonicalItems(TableOf([], Txs, canon))) == [] && forall id :: !CanonicalTx([], canon, id)
  {
  }

  lemma NoRepeatsConcat<K>(x: seq<K>, y: seq<K>)
    requires NoRepeats(x) && NoRepeats(y) && forall k :: k in x ==> k !in y
    ensures NoRepeats(x + y)
  {
    forall i, j | 0 <= i < j < |x + y| ensures (x + y)[i] != (x + y)[j] {
      if i < |x| <= j { assert x[i] in x && y[j - |x|] in y; }
    }
  }

  /** The events of a block belong to its transactions. */
  lemma {:induction false} EventsBelong(es: seq<TxEntry>, e: StxEvent)
    requires OwnEvents(es) && e in Flatten(es, EntryStxEvents)
    ensures exists x :: x in es && x.tx.txId == e.txId
  {
    if es != [] {
      var n := |es| - 1;
      assert es == es[..n] + [es[n]];
      if e in Flatten(es[..n], EntryStxEvents) {
        EventsBelong(es[..n], e);
      } else {
        assert es[n] in es && e in es[n].stxEvents;
      }
    }
  }

  lemma CanonicalRowsUpToTip<T(!new)>(bs: seq<Block>, items: Block -> seq<T>)
    requires Grown(bs)
    ensures AllUpTo(TableOf(bs, items, Hashes(Best(bs))), TipHeight(bs))
  {
    hide TableOf, Best;
    TableRows(bs, items, Hashes(Best(bs)));
  }

  lemma CanonicalEventsHaveTx(bs: seq<Block>, canon: set<Hash>, r: Row<StxEvent>)
    requires forall c :: c in bs ==> OwnEvents(c.txs)
    requires r in TableOf(bs, StxEvents, canon) && r.canonical
    ensures CanonicalTx(bs, canon, r.item.txId)
  {
    hide TableOf;
    TableRows(bs, StxEvents, canon);
    var b :| b in bs && b.hash in canon && r.item in StxEvents(b);
    assert StxEvents(b) == Flatten(b.txs, EntryStxEvents);
    EventsBelong(b.txs, r.item);
  }

  lemma CanonicalIdsAreUnique(bs: seq<Block>)
    requires Grown(bs) && UniqueTxIds(Best(bs))
    ensures var canon := Hashes(Best(bs));
            var ids := Ids(CanonicalItems(TableOf(bs, Txs, canon)));
            NoRepeats(ids) && forall id :: id in ids <==> CanonicalTx(bs, canon, id)
  {
    hide TableOf, CanonicalItems, Branch, Best, TxIds;
    var canon := Hashes(Best(bs));
    forall b, c | b in bs && c in bs && b.hash in canon && c.hash in canon && b.hash != c.hash
      ensures TxIds(b) !! TxIds(c)
    {
      CanonicalIsBest(bs, b);
      CanonicalIsBest(bs, c);
    }
    CanonicalTxIds(bs, canon);
  }

  /** After any run, with or without a height, every page shows the transactions selected, newest
      first, each with the totals of its own canonical events; the total beside it is right
      exactly if the page shows a transaction or there is none. */
  lemma RunPageShowsTotals(evs: seq<Event>, a: Address, height: Option<int>, offset: nat, limit: nat)
    requires WellFormedRun(evs) && UniqueTxIds(Best(Accepted(evs)))
    ensures var db := Run(evs);
            var all, page := AddressTxRows(db, a, height), AddressPage(db, a, height, offset, limit);
            && NewestTxFirst(all) && (forall r :: r in all <==> r in db.txs && IsAddressTx(db, a, height, r))
            && (page.total == |all| <==> all == [] || (limit > 0 && offset < |all|))
            && forall i :: 0 <= i < |page.results| ==>
                 offset + i < |all| &&
                 page.results[i] == ShownTx(all[offset + i].item, Shown(a, all[offset + i].item, CanonicalItems(db.stxEvents)))
  {
    hide TableOf, CanonicalItems, AddressTxRows, AddressPage, Best, Run, Accepted, WellFormedRun, Shown, UniqueTxIds, NoRepeats, Hashes, NewestTxFirst, IsAddressTx;
    EveryRunIsRecomputed(evs);
    CanonicalIdsAreUnique(Accepted(evs));
    PageShowsTotals(Run(evs), a, height, offset, limit);
  }

  /** Each transaction carries its place in the block. */
  ghost predicate TxsInPlace(b: Block) {
    forall k :: 0 <= k < |b.txs| ==> b.txs[k].tx.txIndex == k
  }

  predicate TxBefore(x: Row<Tx>, y: Row<Tx>) {
    x.height < y.height || (x.height == y.height && x.item.txIndex < y.item.txIndex)
  }

  lemma {:induction false} TxsInOrder(b: Block, es: seq<TxEntry>)
    requires forall k :: 0 <= k < |es| ==> es[k].tx.txIndex == k
    ensures InOrderBy(RowsOf(b, true, DistinctTxs(es)), TxBefore)
    ensures forall t :: t in DistinctTxs(es) ==> t.txIndex < |es|
  {
    if es != [] {
      var n := |es| - 1;
      TxsInOrder(b, es[..n]);
      var x := DistinctTxs(es[..n]);
      assert RowsOf(b, true, x + [es[n].tx]) == RowsOf(b, true, x) + RowsOf(b, true, [es[n].tx]);
      assert forall i :: 0 <= i < |x| ==> x[i] in x;
      InOrderConcat(RowsOf(b, true, x), RowsOf(b, true, [es[n].tx]), TxBefore);
    }
  }

  lemma BranchTxsInOrder(bs: seq<Block>)
    requires Grown(bs) && forall b :: b in Best(bs) ==> TxsInPlace(b)
    ensures InOrderBy(BranchTable(Best(bs), Txs), TxBefore)
  {
    if bs != [] { BranchShape(bs, Tip(bs)); }
    hide Branch, BranchTable, InOrderBy;
    forall b | b in Best(bs) ensures InOrderBy(RowsOf(b, true, Txs(b)), TxBefore) { TxsInOrder(b, b.txs); }
    BranchInOrder(bs, Best(bs), Txs, TxBefore);
  }

  /** The transactions of an address along the canonical branch, in chain order. */
  function BranchTxs(db: Db, bs: seq<Block>, a: Address, height: Option<int>): seq<Row<Tx>> {
    Select(BranchTable(Best(bs), Txs), Matches(db.stxEvents, a, height))
  }

  lemma {:induction false} SelectInOrder<T>(rows: seq<Row<T>>, p: Row<T> -> bool, before: (Row<T>, Row<T>) -> bool)
    requires InOrderBy(rows, before)
    ensures InOrderBy(Select(rows, p), before)
  {
    if rows != [] {
      var n := |rows| - 1;
      SelectInOrder(rows[..n], p, before);
      var low := Select(rows[..n], p);
      forall i | 0 <= i < |low| ensures before(low[i], rows[n]) { SelectMember(rows[..n], p, low[i]); }
    }
  }

  /** After any run, what the query lists of an address is the canonical branch's transactions
      selected for it, from the last to the first. */
  lemma RunTxsBackwards(evs: seq<Event>, a: Address, height: Option<int>)
    requires WellFormedRun(evs) && forall b :: b in Best(Accepted(evs)) ==> TxsInPlace(b)
    ensures AddressTxRows(Run(evs), a, height) == Reversed(BranchTxs(Run(evs), Accepted(evs), a, height))
  {
    hide Best, TableOf, BranchTable, Select, Hashes, Run, Accepted, WellFormedRun, Grown, Txs, TxsInPlace, InOrderBy, OrderBy;
    EveryRunIsRecomputed(evs);
    var bs, db := Accepted(evs), Run(evs);
    var p := Matches(db.stxEvents, a, height);
    CanonicalRowsAreBranch(bs, Txs);
    SelectWithin(db.txs, p, IsCanonicalRow());
    SelectPermutes(Select(db.txs, IsCanonicalRow()), BranchTable(Best(bs), Txs), p);
    BranchTxsInOrder(bs);
    SelectInOrder(BranchTable(Best(bs), Txs), p, TxBefore);
    ChainOrderReverses(Select(db.txs, p), Select(BranchTable(Best(bs), Txs), p));
  }

  lemma ChainOrderReverses(x: seq<Row<Tx>>, y: seq<Row<Tx>>)
    requires multiset(x) == multiset(y) && InOrderBy(y, TxBefore)
    ensures OrderBy(x, NewestTx()) == Reversed(y)
  {
    forall i, j | 0 <= i < j < |y| ensures !NewestTx()(y[i], y[j]) { assert TxBefore(y[i], y[j]); }
    ShuffledReverses(x, y, NewestTx());
  }

  /** After any run, the totals shown for an address over the transactions selected, plus its
      rewards, are its balance in the replay of the canonical chain. */
  lemma RunTotalsAreReplayed(evs: seq<Event>, a: Address)
    requires WellFormedRun(evs)
    requires UniqueTxIds(Best(Accepted(evs))) && forall c :: c in Accepted(evs) ==> OwnEvents(c.txs)
    ensures var db := Run(evs);
            NetShown(db, a) + SumWhere(db.minerRewards, TipHeight(Accepted(evs)), RewardTo(a)) ==
            Held(Replay(Best(Accepted(evs))), a)
  {
    hide TableOf, CanonicalItems, Branch, Best, Replay, SumWhere, NetShown, Run, Accepted, WellFormedRun, Balance;
    EveryRunIsRecomputed(evs);
    var bs, db := Accepted(evs), Run(evs);
    var canon, tip := Hashes(Best(bs)), TipHeight(bs);
    CanonicalIdsAreUnique(bs);
    CanonicalRowsUpToTip(bs, StxEvents);
    CanonicalRowsUpToTip(bs, Txs);
    forall r | r in db.stxEvents && r.canonical ensures r.item.txId in Ids(CanonicalItems(db.txs)) {
      CanonicalEventsHaveTx(bs, canon, r);
    }
    TotalsAddUpToBalance(db, a, tip);
    BalanceIsReplay(evs, a, tip);
    CanonicalAtHeight(bs, 0);
    assert UpTo(Best(bs), tip) == Best(bs);
  }

  // ---- Who is told and what is listed ----------------------------------------------

  /** The query lists the transaction for the address. */
  ghost predicate ListedFor(db: Db, tx: Tx, a: Address) {
    exists r :: r in AddressTxRows(db, a, None) && r.item == tx
  }

  /** A stored block off the canonical branch has an event of the transaction that touches the
      address. */
  ghost predicate TouchedOffBranch(bs: seq<Block>, id: TxId, a: Address) {
    exists c, x :: c in bs && c !in Best(bs) && x in StxEvents(c) && x.txId == id && Touches(a)(x)
  }

  lemma {:induction false} AllDistinct(es: seq<TxEntry>, k: nat)
    requires k < |es| && forall i, j :: 0 <= i < j < |es| ==> es[i].tx.txId != es[j].tx.txId
    ensures es[k].tx in DistinctTxs(es)
  {
    var n := |es| - 1;
    DistinctTxIds(es[..n], es[n].tx.txId);
    if k < n { AllDistinct(es[..n], k); }
  }

  /** Listed means canonical and selected. */
  lemma ListedIsSelected(evs: seq<Event>, b: Block, k: nat, a: Address)
    requires WellFormedRun(evs) && b in Best(Accepted(evs)) && k < |b.txs| && UniqueTxIds(Best(Accepted(evs)))
    ensures ListedFor(Run(evs), b.txs[k].tx, a) <==> IsSelected(Run(evs).stxEvents, a, b.txs[k].tx)
  {
    hide TableOf, Select, OrderBy, Best, Run, Accepted, WellFormedRun, IsSelected, Hashes;
    EveryRunIsRecomputed(evs);
    var bs, db, tx := Accepted(evs), Run(evs), b.txs[k].tx;
    BestIsStored(bs, b);
    CanonicalIsBest(bs, b);
    AllDistinct(b.txs, k);
    var row, p := Row(b.hash, b.height, true, tx), Matches(db.stxEvents, a, None);
    TableRows(bs, Txs, Hashes(Best(bs)));
    assert row in db.txs;
    SelectMember(db.txs, p, row);
    OrderByMember(Select(db.txs, p), NewestTx(), row);
    if ListedFor(db, tx, a) {
      var r :| r in AddressTxRows(db, a, None) && r.item == tx;
      OrderByMember(Select(db.txs, p), NewestTx(), r);
      SelectMember(db.txs, p, r);
    }
  }

  /** The events of a canonical transaction in the canonical blocks are its own. */
  lemma EventsAreOwn(bs: seq<Block>, b: Block, k: nat, c: Block, x: StxEvent)
    requires Grown(bs) && b in Best(bs) && k < |b.txs| && UniqueTxIds(Best(bs)) && (forall d :: d in bs ==> OwnEvents(d.txs))
    requires c in Best(bs) && x in StxEvents(c) && x.txId == b.txs[k].tx.txId
    ensures x in b.txs[k].stxEvents
  {
    hide Best, Flatten;
    BestIsStored(bs, b);
    BestIsStored(bs, c);
    assert StxEvents(c) == Flatten(c.txs, EntryStxEvents);
    EventsBelong(c.txs, x);
    assert b.txs[k] in b.txs;
    assert x.txId in TxIds(b) && x.txId in TxIds(c);
    assert c == b;
    EventsOfEntry(b.txs, k);
    SelectMember(Flatten(b.txs, EntryStxEvents), HasTx(x.txId), x);
  }

  lemma {:induction false} OwnAreStored(es: seq<TxEntry>, k: nat, x: StxEvent)
    requires k < |es| && x in es[k].stxEvents
    ensures x in Flatten(es, EntryStxEvents)
  {
    if k < |es| - 1 { OwnAreStored(es[..|es| - 1], k, x); }
  }

  /** The query's selection, read off the stored blocks. */
  lemma SelectedInBlocks(evs: seq<Event>, b: Block, k: nat, a: Address)
    requires WellFormedRun(evs) && b in Best(Accepted(evs)) && k < |b.txs| && UniqueTxIds(Best(Accepted(evs)))
    requires forall c :: c in Accepted(evs) ==> OwnEvents(c.txs)
    ensures IsSelected(Run(evs).stxEvents, a, b.txs[k].tx) <==>
            Direct(b.txs[k], a) || TouchedOffBranch(Accepted(evs), b.txs[k].tx.txId, a)
  {
    hide TableOf, Best, Run, Accepted, WellFormedRun, IsSelected, Direct, TouchedOffBranch, OwnEvents, UniqueTxIds, Grown, Hashes;
    EveryRunIsRecomputed(evs);
    var bs, rows := Accepted(evs), Run(evs).stxEvents;
    if IsSelected(rows, a, b.txs[k].tx) { SelectedIsTouched(bs, b, k, a, rows); }
    if Direct(b.txs[k], a) { DirectIsSelected(bs, b, k, a, rows); }
    if TouchedOffBranch(bs, b.txs[k].tx.txId, a) { TouchedIsSelected(bs, b.txs[k].tx, a, rows); }
  }

  lemma SelectedIsTouched(bs: seq<Block>, b: Block, k: nat, a: Address, rows: seq<Row<StxEvent>>)
    requires Grown(bs) && b in Best(bs) && k < |b.txs| && UniqueTxIds(Best(bs)) && (forall c :: c in bs ==> OwnEvents(c.txs))
    requires rows == TableOf(bs, StxEvents, Hashes(Best(bs))) && IsSelected(rows, a, b.txs[k].tx)
    ensures Direct(b.txs[k], a) || TouchedOffBranch(bs, b.txs[k].tx.txId, a)
  {
    hide TableOf, Best, Hashes, Touches, StxEvents, OwnEvents, UniqueTxIds, Grown;
    TableRows(bs, StxEvents, Hashes(Best(bs)));
    if r :| r in rows && r.item.txId == b.txs[k].tx.txId && Touches(a)(r.item) {
      var c :| c in bs && r.item in StxEvents(c);
      if c in Best(bs) {
        EventsAreOwn(bs, b, k, c, r.item);
      }
    }
  }

  lemma DirectIsSelected(bs: seq<Block>, b: Block, k: nat, a: Address, rows: seq<Row<StxEvent>>)
    requires Grown(bs) && b in Best(bs) && k < |b.txs| && (forall c :: c in bs ==> OwnEvents(c.txs))
    requires rows == TableOf(bs, StxEvents, Hashes(Best(bs))) && Direct(b.txs[k], a)
    ensures IsSelected(rows, a, b.txs[k].tx)
  {
    hide TableOf, Best, Hashes, Touches, OwnEvents, Grown;
    if i :| 0 <= i < |b.txs[k].stxEvents| && Touches(a)(b.txs[k].stxEvents[i]) {
      OwnIsSelected(bs, b, k, b.txs[k].stxEvents[i], rows);
    }
  }

  lemma TouchedIsSelected(bs: seq<Block>, tx: Tx, a: Address, rows: seq<Row<StxEvent>>)
    requires rows == TableOf(bs, StxEvents, Hashes(Best(bs))) && TouchedOffBranch(bs, tx.txId, a)
    ensures IsSelected(rows, a, tx)
  {
    hide TableOf, Best, Hashes, Touches, StxEvents;
    TableRows(bs, StxEvents, Hashes(Best(bs)));
    var c, x :| c in bs && c !in Best(bs) && x in StxEvents(c) && x.txId == tx.txId && Touches(a)(x);
    var r := Row(c.hash, c.height, c.hash in Hashes(Best(bs)), x);
    assert r in rows;
  }

  lemma OwnIsSelected(bs: seq<Block>, b: Block, k: nat, x: StxEvent, rows: seq<Row<StxEvent>>)
    requires Grown(bs) && b in Best(bs) && k < |b.txs| && x in b.txs[k].stxEvents && (forall c :: c in bs ==> OwnEvents(c.txs))
    requires rows == TableOf(bs, StxEvents, Hashes(Best(bs)))
    ensures x.txId == b.txs[k].tx.txId && exists r :: r in rows && r.item == x
  {
    hide TableOf, Best, Flatten;
    BestIsStored(bs, b);
    assert b.txs[k] in b.txs;
    OwnAreStored(b.txs, k, x);
    assert StxEvents(b) == Flatten(b.txs, EntryStxEvents);
    TableRows(bs, StxEvents, Hashes(Best(bs)));
    var r := Row(b.hash, b.height, b.hash in Hashes(Best(bs)), x);
    assert r in rows;
  }

  /** After any run, for a canonical transaction and an address: it is listed exactly if it is
      direct or touched off the branch, told exactly if it is direct or indirect, so the two
      agree exactly if it is direct, or indirect and touched off the branch, or neither. */
  lemma ToldAndListedAgreeExactlyWhen(evs: seq<Event>, b: Block, k: nat, a: Address)
    requires WellFormedRun(evs) && b in Best(Accepted(evs)) && k < |b.txs| && UniqueTxIds(Best(Accepted(evs)))
    requires forall c :: c in Accepted(evs) ==> OwnEvents(c.txs)
    ensures var entry := b.txs[k];
            var listed, off := ListedFor(Run(evs), entry.tx, a), TouchedOffBranch(Accepted(evs), entry.tx.txId, a);
            && (listed <==> Direct(entry, a) || off)
            && ((Concerned(entry, a) <==> listed) <==>
                if a.text != "" then Direct(entry, a) || (Indirect(entry, a) <==> off) else !Direct(entry, a) && !off)
  {
    hide Best, Run, Accepted, WellFormedRun, Direct, Indirect, TouchedOffBranch, ListedFor, IsSelected, UniqueTxIds, OwnEvents;
    ListedIsSelected(evs, b, k, a);
    SelectedInBlocks(evs, b, k, a);
  }

  /** A transaction by a with the given STX events and locks. */
  function Entry(events: seq<StxEvent>, locks: seq<StxLock>): TxEntry {
    TxEntry(Tx(TxId(1), 0, Address("a"), 0, None), events, [], locks, [], [], [])
  }

  function First(hash: nat, e: TxEntry): Block {
    Block(Hash(hash), Hash(0), 1, 0, [], [e])
  }

  /** Blocks at height 1: the first one stays canonical. */
  lemma FirstBlocks(bs: seq<Block>)
    requires bs != [] && Distinct(bs) && forall c :: c in bs ==> c.height == 1 && |c.txs| == 1 && OwnEvents(c.txs)
    ensures var evs := Deliveries(bs);
            && WellFormedRun(evs) && Accepted(evs) == bs && Best(bs) == [bs[0]]
            && UniqueTxIds(Best(Accepted(evs))) && forall c :: c in Accepted(evs) ==> OwnEvents(c.txs)
  {
    hide Run, Accepted, WellFormedRun, Expected, Deliverable, Best, Grown;
    FirstAreDeliverable(bs);
    HistoryIsReachable(bs);
    FirstIsBest(bs);
  }

  lemma FirstIsBest(bs: seq<Block>)
    requires Grown(bs) && bs != [] && forall c :: c in bs ==> c.height == 1
    ensures Best(bs) == [bs[0]]
  {
    TipIsFirstHighest(bs, 0);
    BranchShape(bs, bs[0]);
    hide Branch;
  }

  /** An address whose only part in a transaction is a lock is told of it and not shown it. */
  lemma LockedAddressIsNotListed()
    ensures var c, e := Address("c"), Entry([], [StxLock(TxId(1), Address("c"), 1, 9)]);
            var evs := Deliveries([First(1, e)]);
            WellFormedRun(evs) && Concerned(e, c) && !ListedFor(Run(evs), e.tx, c)
  {
    var c, e := Address("c"), Entry([], [StxLock(TxId(1), Address("c"), 1, 9)]);
    var b := First(1, e);
    assert "a"[0] != "c"[0];
    assert Names(LockParties(e)[0], c);
    assert !Direct(e, c);
    FirstBlocks([b]);
    hide Run, Accepted, WellFormedRun, Best, UniqueTxIds, OwnEvents, ListedFor;
    assert !TouchedOffBranch([b], e.tx.txId, c);
    ToldAndListedAgreeExactlyWhen(Deliveries([b]), b, 0, c);
  }

  /** An address touched only by an orphaned copy of a transaction is shown it and not told. */
  lemma OrphanedTouchIsListed()
    ensures var c, e := Address("c"), Entry([], []);
            var o := Entry([StxEvent(TxId(1), 0, Mint(Address("c"), 1))], []);
            var evs := Deliveries([First(1, e), First(2, o)]);
            WellFormedRun(evs) && !Concerned(e, c) && ListedFor(Run(evs), e.tx, c)
  {
    var c, e := Address("c"), Entry([], []);
    var x := StxEvent(TxId(1), 0, Mint(Address("c"), 1));
    var b, d := First(1, e), First(2, Entry([x], []));
    var bs := [b, d];
    assert "a"[0] != "c"[0];
    assert !Direct(e, c) && !Indirect(e, c);
    FirstBlocks(bs);
    OwnAreStored(d.txs, 0, x);
    OffBranch(bs, d, x, c);
    hide Run, Accepted, WellFormedRun, Best, UniqueTxIds, OwnEvents, ListedFor, Direct, Indirect, StxEvents, TouchedOffBranch;
    ToldAndListedAgreeExactlyWhen(Deliveries(bs), b, 0, c);
  }

  lemma OffBranch(bs: seq<Block>, d: Block, x: StxEvent, a: Address)
    requires d in bs && d !in Best(bs) && x in Flatten(d.txs, EntryStxEvents) && Touches(a)(x)
    ensures TouchedOffBranch(bs, x.txId, a)
  {
    hide Best, Flatten, Touches;
    assert StxEvents(d) == Flatten(d.txs, EntryStxEvents);
  }
}

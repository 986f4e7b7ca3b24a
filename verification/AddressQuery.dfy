/** The transactions of an address with their STX transfers: the SQL query, its grouping loop,
    and its pages. */
module AddressQuery {
  import opened Tables
  import opened Chain
  import opened Store
  import opened Ledger

  // ---- The address query -----------------------------------------------------------

  /** A row of the query: a transaction, joined with one of its events or with none. */
  datatype JoinRow = JoinRow(tx: Tx, event: Option<StxEvent>)

  datatype TxTotals = TxTotals(sent: int, received: int, transfers: seq<StxMove>)

  function Touches(a: Address): StxEvent -> bool {
    (e: StxEvent) => (!e.move.Mint? && e.move.sender == a) || (!e.move.Burn? && e.move.recipient == a)
  }

  function HasTx(id: TxId): StxEvent -> bool {
    (e: StxEvent) => e.txId == id
  }

  /** The canonical events of one transaction that touch the address. */
  function Mine(events: seq<StxEvent>, a: Address, id: TxId): seq<StxEvent> {
    Select(Select(events, Touches(a)), HasTx(id))
  }

  /** ORDER BY event_index DESC. */
  function FallingIndex(): (StxEvent, StxEvent) -> bool {
    (x: StxEvent, y: StxEvent) => x.eventIndex >= y.eventIndex
  }

  function Newest(es: seq<StxEvent>): seq<StxEvent> {
    OrderBy(es, FallingIndex())
  }

  /** LEFT JOIN of transactions with the canonical events that touch the address, the events
      of a transaction in descending order. */
  function Join(txs: seq<Tx>, events: seq<StxEvent>, a: Address): seq<JoinRow> {
    if txs == [] then [] else
    Join(txs[..|txs| - 1], events, a) + JoinOne(txs[|txs| - 1], events, a)
  }

  function JoinOne(tx: Tx, events: seq<StxEvent>, a: Address): seq<JoinRow> {
    var mine := Newest(Mine(events, a, tx.txId));
    if mine == [] then [JoinRow(tx, None)] else seq(|mine|, i requires 0 <= i < |mine| => JoinRow(tx, Some(mine[i])))
  }

  function Moves(es: seq<StxEvent>): seq<StxMove> {
    seq(|es|, i requires 0 <= i < |es| => es[i].move)
  }

  /** What an address sees of a transaction: its own fee and its part of the moves. */
  function TotalsFor(a: Address, tx: Tx, es: seq<StxEvent>): TxTotals {
    TxTotals(FeeFrom(a)(tx) + SumItems(es, DebitFrom(a)), SumItems(es, CreditTo(a)), Moves(es))
  }

  function AddEvent(t: TxTotals, e: StxEvent, a: Address): TxTotals {
    TxTotals(t.sent + DebitFrom(a)(e), t.received + CreditTo(a)(e), t.transfers + [e.move])
  }

  function AddRow(txs: map<TxId, TxTotals>, r: JoinRow, a: Address): map<TxId, TxTotals> {
    var t := if r.tx.txId in txs then txs[r.tx.txId] else TxTotals(FeeFrom(a)(r.tx), 0, []);
    txs[r.tx.txId := match r.event case None => t case Some(e) => AddEvent(t, e, a)]
  }

  function AddRows(txs: map<TxId, TxTotals>, rows: seq<JoinRow>, a: Address): map<TxId, TxTotals> {
    if rows == [] then txs else AddRow(AddRows(txs, rows[..|rows| - 1], a), rows[|rows| - 1], a)
  }

  /** The grouping loop of `getAddressTxsWithStxTransfers`. */
  method GroupTransfers(rows: seq<JoinRow>, a: Address) returns (txs: map<TxId, TxTotals>)
    ensures txs == AddRows(map[], rows, a)
  {
    txs := map[];
    for i := 0 to |rows|
      invariant txs == AddRows(map[], rows[..i], a)
    {
      var r := rows[i];
      var id := r.tx.txId;
      var result;
      if id in txs {
        result := txs[id];
      } else {
        result := TxTotals(0, 0, []);
        if r.tx.sender == a {
          result := result.(sent := result.sent + r.tx.feeRate);
        }
      }
      if r.event.Some? {
        var e := r.event.value;
        result := result.(transfers := result.transfers + [e.move]);
        if !e.move.Mint? && e.move.sender == a {
          result := result.(sent := result.sent + e.move.amount);
        }
        if !e.move.Burn? && e.move.recipient == a {
          result := result.(received := result.received + e.move.amount);
        }
      }
      txs := txs[id := result];
      assert rows[..i + 1][..i] == rows[..i];
    }
    assert rows[..|rows|] == rows;
  }

  lemma TotalsGrow(a: Address, tx: Tx, es: seq<StxEvent>)
    requires es != []
    ensures TotalsFor(a, tx, es) == AddEvent(TotalsFor(a, tx, es[..|es| - 1]), es[|es| - 1], a)
  {
  }

  lemma {:induction false} AddRowsConcat(txs: map<TxId, TxTotals>, x: seq<JoinRow>, y: seq<JoinRow>, a: Address)
    ensures AddRows(txs, x + y, a) == AddRows(AddRows(txs, x, a), y, a)
  {
    if y == [] {
      assert x + y == x;
    } else {
      assert (x + y)[..|x + y| - 1] == x + y[..|y| - 1];
      AddRowsConcat(txs, x, y[..|y| - 1], a);
    }
  }

  function RowsFor(tx: Tx, es: seq<StxEvent>): seq<JoinRow> {
    seq(|es|, i requires 0 <= i < |es| => JoinRow(tx, Some(es[i])))
  }

  /** All rows of one new transaction leave that transaction's totals and nothing else. */
  lemma {:induction false} AddRowsOfOneTx(txs: map<TxId, TxTotals>, tx: Tx, es: seq<StxEvent>, a: Address)
    requires tx.txId !in txs && es != []
    ensures AddRows(txs, RowsFor(tx, es), a) == txs[tx.txId := TotalsFor(a, tx, es)]
  {
    var n := |es| - 1;
    assert RowsFor(tx, es)[..n] == RowsFor(tx, es[..n]);
    TotalsGrow(a, tx, es);
    if n > 0 {
      AddRowsOfOneTx(txs, tx, es[..n], a);
    } else {
      assert RowsFor(tx, es[..n]) == [] && Moves(es[..n]) == [];
    }
  }

  /** What the query shows of a transaction. */
  function Shown(a: Address, tx: Tx, events: seq<StxEvent>): TxTotals {
    TotalsFor(a, tx, Newest(Mine(events, a, tx.txId)))
  }

  lemma AddJoinedTx(txs: map<TxId, TxTotals>, tx: Tx, events: seq<StxEvent>, a: Address)
    requires tx.txId !in txs
    ensures AddRows(txs, JoinOne(tx, events, a), a) == txs[tx.txId := Shown(a, tx, events)]
  {
    hide Newest, Mine;
    var mine := Newest(Mine(events, a, tx.txId));
    if mine == [] {
      var rows := [JoinRow(tx, None)];
      assert rows[..0] == [];
      assert AddRows(txs, rows, a) == AddRow(txs, rows[0], a);
      assert Moves(mine) == [];
    } else {
      assert JoinOne(tx, events, a) == RowsFor(tx, mine);
      AddRowsOfOneTx(txs, tx, mine, a);
    }
  }

  function Ids(txs: seq<Tx>): seq<TxId> {
    seq(|txs|, i requires 0 <= i < |txs| => txs[i].txId)
  }

  /** The grouped query gives each listed transaction the totals of its own events. */
  lemma {:induction false} QueryTotals(txs: seq<Tx>, events: seq<StxEvent>, a: Address)
    requires NoRepeats(Ids(txs))
    ensures var r := AddRows(map[], Join(txs, events, a), a);
            && r.Keys == (set t | t in txs :: t.txId)
            && forall t :: t in txs ==> r[t.txId] == Shown(a, t, events)
  {
    hide JoinOne, Shown, AddRow;
    if txs != [] {
      var n := |txs| - 1;
      var low := AddRows(map[], Join(txs[..n], events, a), a);
      assert Ids(txs[..n]) == Ids(txs)[..n];
      QueryTotals(txs[..n], events, a);
      AddRowsConcat(map[], Join(txs[..n], events, a), JoinOne(txs[n], events, a), a);
      assert txs == txs[..n] + [txs[n]];
      assert forall i :: 0 <= i < |txs| ==> Ids(txs)[i] == txs[i].txId;
      assert txs[n].txId !in low.Keys;
      AddJoinedTx(low, txs[n], events, a);
    }
  }

  // ---- The order of the events -----------------------------------------------------

  lemma {:induction false} InsertBySums<T>(x: T, rows: seq<T>, first: (T, T) -> bool, f: T -> int)
    ensures SumItems(InsertBy(x, rows, first), f) == f(x) + SumItems(rows, f)
  {
    SumFront([x] + rows, f);
    if rows != [] && !first(x, rows[0]) {
      InsertBySums(x, rows[1..], first, f);
      SumFront(rows, f);
      SumFront([rows[0]] + InsertBy(x, rows[1..], first), f);
    }
  }

  lemma {:induction false} SumFront<T>(xs: seq<T>, f: T -> int)
    requires xs != []
    ensures SumItems(xs, f) == f(xs[0]) + SumItems(xs[1..], f)
  {
    var n := |xs| - 1;
    if n > 0 {
      SumFront(xs[..n], f);
      assert xs[..n][1..] == xs[1..][..n - 1];
    }
  }

  /** Ordering changes no sum. */
  lemma {:induction false} OrderBySums<T>(rows: seq<T>, first: (T, T) -> bool, f: T -> int)
    ensures SumItems(OrderBy(rows, first), f) == SumItems(rows, f)
  {
    if rows != [] {
      OrderBySums(rows[..|rows| - 1], first, f);
      InsertBySums(rows[|rows| - 1], OrderBy(rows[..|rows| - 1], first), first, f);
    }
  }

  /** Whatever order the events come in, the query shows the same ones by falling index. */
  lemma NewestSorts(es: seq<StxEvent>)
    ensures multiset(Newest(es)) == multiset(es)
    ensures forall i, j :: 0 <= i < j < |Newest(es)| ==> Newest(es)[i].eventIndex >= Newest(es)[j].eventIndex
  {
    OrderByOrders(es, FallingIndex());
    assert Ordered(Newest(es), FallingIndex());
    forall i, j | 0 <= i < j < |Newest(es)| ensures Newest(es)[i].eventIndex >= Newest(es)[j].eventIndex {
      assert FallingIndex()(Newest(es)[i], Newest(es)[j]);
    }
  }

  // ---- The transactions selected and their pages -----------------------------------

  /** The items of the canonical rows of a table. */
  function CanonicalItems<T>(rows: seq<Row<T>>): seq<T> {
    if rows == [] then [] else
    var r := rows[|rows| - 1];
    CanonicalItems(rows[..|rows| - 1]) + if r.canonical then [r.item] else []
  }

  /** The WHERE clauses of the two halves of `transactions`: the address is the sender or the
      target, or some event of the transaction, canonical or not, touches it. */
  predicate IsSelected(events: seq<Row<StxEvent>>, a: Address, t: Tx) {
    t.sender == a || t.target == Some(a) || exists r :: r in events && r.item.txId == t.txId && Touches(a)(r.item)
  }

  /** A row of `tx_results`: canonical, selected, and at the height asked for, if any. */
  function Matches(events: seq<Row<StxEvent>>, a: Address, height: Option<int>): Row<Tx> -> bool {
    (r: Row<Tx>) => r.canonical && IsSelected(events, a, r.item) && (height.Some? ==> r.height == height.value)
  }

  /** ORDER BY block_height DESC, tx_index DESC. */
  function NewestTx(): (Row<Tx>, Row<Tx>) -> bool {
    (x: Row<Tx>, y: Row<Tx>) => x.height > y.height || (x.height == y.height && x.item.txIndex >= y.item.txIndex)
  }

  function AddressTxRows(db: Db, a: Address, height: Option<int>): seq<Row<Tx>> {
    OrderBy(Select(db.txs, Matches(db.stxEvents, a, height)), NewestTx())
  }

  function Items<T>(rows: seq<Row<T>>): (r: seq<T>)
    ensures |r| == |rows| && forall i :: 0 <= i < |rows| ==> r[i] == rows[i].item
  {
    seq(|rows|, i requires 0 <= i < |rows| => rows[i].item)
  }

  datatype ShownTx = ShownTx(tx: Tx, totals: TxTotals)

  function Labelled(grouped: map<TxId, TxTotals>, tx: Tx): ShownTx
    requires tx.txId in grouped
  {
    ShownTx(tx, grouped[tx.txId])
  }

  /** `getAddressTxsWithStxTransfers`: the page's transactions joined with their events and
      grouped again; the total is read off the first row. */
  function AddressPage(db: Db, a: Address, height: Option<int>, offset: nat, limit: nat): (r: Page<ShownTx>)
    ensures |r.results| == |Slice(AddressTxRows(db, a, height), offset, limit)|
  {
    var page := PageOf(AddressTxRows(db, a, height), offset, limit);
    var txs := Items(page.results);
    var events := CanonicalItems(db.stxEvents);
    var grouped := AddRows(map[], Join(txs, events, a), a);
    GroupedHasAll(txs, events, a);
    Page(seq(|txs|, i requires 0 <= i < |txs| => assert txs[i] in txs; Labelled(grouped, txs[i])), page.total)
  }

  lemma {:induction false} RowsKeepKeys(txs: map<TxId, TxTotals>, rows: seq<JoinRow>, a: Address)
    ensures txs.Keys <= AddRows(txs, rows, a).Keys && forall r :: r in rows ==> r.tx.txId in AddRows(txs, rows, a)
  {
    if rows != [] {
      RowsKeepKeys(txs, rows[..|rows| - 1], a);
      assert rows == rows[..|rows| - 1] + [rows[|rows| - 1]];
    }
  }

  lemma {:induction false} GroupedHasAll(txs: seq<Tx>, events: seq<StxEvent>, a: Address)
    ensures forall t :: t in txs ==> t.txId in AddRows(map[], Join(txs, events, a), a)
  {
    if txs != [] {
      var n := |txs| - 1;
      GroupedHasAll(txs[..n], events, a);
      assert txs == txs[..n] + [txs[n]];
      var low, last := Join(txs[..n], events, a), JoinOne(txs[n], events, a);
      assert last != [] && last[0].tx == txs[n] && last[0] in last;
      hide Join, JoinOne;
      AddRowsConcat(map[], low, last, a);
      RowsKeepKeys(AddRows(map[], low, a), last, a);
    }
  }

  lemma {:induction false} CanonicalItemRow<T>(rows: seq<Row<T>>, x: T)
    ensures x in CanonicalItems(rows) <==> exists r :: r in rows && r.canonical && r.item == x
  {
    if rows != [] {
      var n := |rows| - 1;
      CanonicalItemRow(rows[..n], x);
      assert rows == rows[..n] + [rows[n]];
      assert rows[n] in rows;
    }
  }

  /** A transaction that is not selected shows nothing sent and nothing received. */
  lemma UnselectedShowsNothing(rows: seq<Row<StxEvent>>, a: Address, t: Tx)
    requires !IsSelected(rows, a, t)
    ensures Shown(a, t, CanonicalItems(rows)) == TxTotals(0, 0, [])
  {
    var mine := Mine(CanonicalItems(rows), a, t.txId);
    if mine != [] {
      var e := mine[0];
      SelectMember(Select(CanonicalItems(rows), Touches(a)), HasTx(t.txId), e);
      SelectMember(CanonicalItems(rows), Touches(a), e);
      CanonicalItemRow(rows, e);
    }
    assert mine == [];
    assert Moves([]) == [];
  }

  /** No transaction id occurs twice. */
  ghost predicate UniqueRows(rows: seq<Row<Tx>>) {
    forall i, j :: 0 <= i < j < |rows| ==> RowId(rows[i]) != RowId(rows[j])
  }

  function RowId(r: Row<Tx>): TxId { r.item.txId }

  lemma {:induction false} SelectUniqueRows(rows: seq<Row<Tx>>, p: Row<Tx> -> bool)
    requires NoRepeats(Ids(CanonicalItems(rows))) && forall r :: p(r) ==> r.canonical
    ensures UniqueRows(Select(rows, p))
  {
    if rows != [] {
      var n := |rows| - 1;
      var items := CanonicalItems(rows[..n]);
      assert Ids(items) == Ids(CanonicalItems(rows))[..|items|];
      SelectUniqueRows(rows[..n], p);
      var low := Select(rows[..n], p);
      if p(rows[n]) {
        forall i | 0 <= i < |low| ensures RowId(low[i]) != RowId(rows[n]) {
          SelectMember(rows[..n], p, low[i]);
          CanonicalItemRow(rows[..n], low[i].item);
          var k :| 0 <= k < |items| && items[k] == low[i].item;
          assert Ids(CanonicalItems(rows))[k] != Ids(CanonicalItems(rows))[|items|];
        }
      }
    }
  }

  /** Falling heights, and falling places within a block. */
  ghost predicate NewestTxFirst(rows: seq<Row<Tx>>) {
    forall i, j :: 0 <= i < j < |rows| ==>
      rows[i].height > rows[j].height || (rows[i].height == rows[j].height && rows[i].item.txIndex >= rows[j].item.txIndex)
  }

  /** A canonical transaction at the height asked for, if any, that the address sent or is the
      target of, or of which some stored event names it. */
  ghost predicate IsAddressTx(db: Db, a: Address, height: Option<int>, r: Row<Tx>) {
    && r.canonical && (height.None? || r.height == height.value)
    && (r.item.sender == a || r.item.target == Some(a) ||
        exists e :: e in db.stxEvents && e.item.txId == r.item.txId && NamedIn(e.item.move, a))
  }

  predicate NamedIn(m: StxMove, a: Address) {
    match m
    case Transfer(sender, recipient, _) => sender == a || recipient == a
    case Mint(recipient, _) => recipient == a
    case Burn(sender, _) => sender == a
  }

  lemma AddressTxRowsAre(db: Db, a: Address, height: Option<int>)
    ensures NewestTxFirst(AddressTxRows(db, a, height))
    ensures forall r :: r in AddressTxRows(db, a, height) <==> r in db.txs && IsAddressTx(db, a, height, r)
  {
    var p := Matches(db.stxEvents, a, height);
    OrderByOrders(Select(db.txs, p), NewestTx());
    assert forall x, y :: NewestTx()(x, y) ==> x.height > y.height || (x.height == y.height && x.item.txIndex >= y.item.txIndex);
    forall r ensures r in AddressTxRows(db, a, height) <==> r in db.txs && IsAddressTx(db, a, height, r) {
      OrderByMember(Select(db.txs, p), NewestTx(), r);
      SelectMember(db.txs, p, r);
      MatchesIsAddressTx(db, a, height, r);
    }
  }

  lemma MatchesIsAddressTx(db: Db, a: Address, height: Option<int>, r: Row<Tx>)
    ensures Matches(db.stxEvents, a, height)(r) <==> IsAddressTx(db, a, height, r)
  {
    assert forall e: StxEvent :: Touches(a)(e) <==> NamedIn(e.move, a);
    hide NamedIn;
    if IsAddressTx(db, a, height, r) && r.item.sender != a && r.item.target != Some(a) {
      var e :| e in db.stxEvents && e.item.txId == r.item.txId && NamedIn(e.item.move, a);
      assert Touches(a)(e.item);
    }
    if Matches(db.stxEvents, a, height)(r) && r.item.sender != a && r.item.target != Some(a) {
      var e :| e in db.stxEvents && e.item.txId == r.item.txId && Touches(a)(e.item);
      assert NamedIn(e.item.move, a);
    }
  }

  /** Every page, with or without a height: the transactions are those selected, newest first,
      each with the totals of its own canonical events; the total is right exactly if the page
      shows a transaction or there is none. */
  lemma PageShowsTotals(db: Db, a: Address, height: Option<int>, offset: nat, limit: nat)
    requires NoRepeats(Ids(CanonicalItems(db.txs)))
    ensures var all, page := AddressTxRows(db, a, height), AddressPage(db, a, height, offset, limit);
            && NewestTxFirst(all) && (forall r :: r in all <==> r in db.txs && IsAddressTx(db, a, height, r))
            && (page.total == |all| <==> all == [] || (limit > 0 && offset < |all|))
            && forall i :: 0 <= i < |page.results| ==>
                 offset + i < |all| &&
                 page.results[i] == ShownTx(all[offset + i].item, Shown(a, all[offset + i].item, CanonicalItems(db.stxEvents)))
  {
    hide CanonicalItems, Shown, AddressTxRows, AddressPage, NewestTxFirst, IsAddressTx, NoRepeats, Ids;
    AddressTxRowsAre(db, a, height);
    PageResults(db, a, height, offset, limit);
  }

  lemma PageResults(db: Db, a: Address, height: Option<int>, offset: nat, limit: nat)
    requires NoRepeats(Ids(CanonicalItems(db.txs)))
    ensures var all, page := AddressTxRows(db, a, height), AddressPage(db, a, height, offset, limit);
            && (page.total == |all| <==> all == [] || (limit > 0 && offset < |all|))
            && forall i :: 0 <= i < |page.results| ==>
                 offset + i < |all| &&
                 page.results[i] == ShownTx(all[offset + i].item, Shown(a, all[offset + i].item, CanonicalItems(db.stxEvents)))
  {
    var all := AddressTxRows(db, a, height);
    AddressTxsUnique(db, a, height);
    hide CanonicalItems, Shown, AddRows, Join, AddressTxRows, NoRepeats, Ids, UniqueRows, Slice;
    PageTotalExactlyWhen(all, offset, limit);
    PageIdsDiffer(all, offset, limit);
    SlicePlaces(all, offset, limit);
    var txs := Items(Slice(all, offset, limit));
    QueryTotals(txs, CanonicalItems(db.stxEvents), a);
    forall i | 0 <= i < |txs| ensures txs[i] in txs { }
  }

  lemma SlicePlaces<T>(rows: seq<T>, offset: nat, limit: nat)
    ensures var page := Slice(rows, offset, limit);
            forall i :: 0 <= i < |page| ==> offset + i < |rows| && page[i] == rows[offset + i]
  {
  }

  lemma AddressTxsUnique(db: Db, a: Address, height: Option<int>)
    requires NoRepeats(Ids(CanonicalItems(db.txs)))
    ensures UniqueRows(AddressTxRows(db, a, height))
  {
    SelectUniqueRows(db.txs, Matches(db.stxEvents, a, height));
    OrderByDistinct(Select(db.txs, Matches(db.stxEvents, a, height)), NewestTx(), RowId);
  }

  lemma PageIdsDiffer(all: seq<Row<Tx>>, offset: nat, limit: nat)
    requires UniqueRows(all)
    ensures NoRepeats(Ids(Items(Slice(all, offset, limit))))
  {
    var txs := Items(Slice(all, offset, limit));
    forall i, j | 0 <= i < j < |txs| ensures Ids(txs)[i] != Ids(txs)[j] {
      assert RowId(all[offset + i]) != RowId(all[offset + j]);
    }
  }
}

/** The canonical rows of a recomputed table are, up to order, the rows of the best branch: what
    that says about queries that return rows instead of sums. */
module CanonicalRows {
  import opened Tables
  import opened Chain
  import opened Store
  import opened Reference
  import opened Transaction
  import opened Runs
  import opened Ledger

  /** The rows a branch calls for, from its first block up. */
  function BranchTable<T>(branch: seq<Block>, items: Block -> seq<T>): seq<Row<T>> {
    if branch == [] then [] else
    var n := |branch| - 1;
    BranchTable(branch[..n], items) + RowsOf(branch[n], true, items(branch[n]))
  }

  function IsCanonicalRow<T>(): Row<T> -> bool {
    (r: Row<T>) => r.canonical
  }

  /** How often a block brings a given canonical row. */
  function Brings<T(==)>(items: Block -> seq<T>, r: Row<T>): Block -> int {
    (b: Block) => multiset(RowsOf(b, true, items(b)))[r]
  }

  lemma CanonicalOfBlock<T>(b: Block, c: bool, items: seq<T>)
    ensures Select(RowsOf(b, c, items), IsCanonicalRow()) == if c then RowsOf(b, c, items) else []
  {
    var rows := RowsOf(b, c, items);
    assert forall r :: r in rows ==> r.canonical == c;
    if c { SelectAll(rows, IsCanonicalRow()); } else { SelectNone(rows, IsCanonicalRow()); }
  }

  lemma {:induction false} TableCount<T>(bs: seq<Block>, items: Block -> seq<T>, chosen: set<Hash>, r: Row<T>)
    ensures multiset(Select(TableOf(bs, items, chosen), IsCanonicalRow()))[r] == SumChosen(bs, chosen, Brings(items, r))
  {
    if bs != [] {
      hide RowsOf, Select;
      var n := |bs| - 1;
      var c := bs[n].hash in chosen;
      TableCount(bs[..n], items, chosen, r);
      var low, rows := TableOf(bs[..n], items, chosen), RowsOf(bs[n], c, items(bs[n]));
      SelectConcat(low, rows, IsCanonicalRow());
      CanonicalOfBlock(bs[n], c, items(bs[n]));
      var x, y := Select(low, IsCanonicalRow()), Select(rows, IsCanonicalRow());
      assert multiset(x + y) == multiset(x) + multiset(y);
    } else {
      assert Select<Row<T>>([], IsCanonicalRow()) == [];
    }
  }

  lemma {:induction false} BranchCount<T>(branch: seq<Block>, items: Block -> seq<T>, r: Row<T>)
    ensures multiset(BranchTable(branch, items))[r] == SumBranch(branch, Brings(items, r))
  {
    if branch != [] {
      hide RowsOf;
      var n := |branch| - 1;
      BranchCount(branch[..n], items, r);
      var x, y := BranchTable(branch[..n], items), RowsOf(branch[n], true, items(branch[n]));
      assert multiset(x + y) == multiset(x) + multiset(y);
    }
  }

  /** In whatever order blocks arrived and branches won, the canonical rows are those of the
      best branch, each as often. */
  lemma CanonicalRowsAreBranch<T(!new)>(bs: seq<Block>, items: Block -> seq<T>)
    requires Grown(bs)
    ensures multiset(Select(TableOf(bs, items, Hashes(Best(bs))), IsCanonicalRow())) == multiset(BranchTable(Best(bs), items))
  {
    hide TableOf, BranchTable, Select, SumChosen, SumBranch, Hashes;
    if bs != [] { BranchShape(bs, Tip(bs)); }
    var x, y := Select(TableOf(bs, items, Hashes(Best(bs))), IsCanonicalRow()), BranchTable(Best(bs), items);
    hide Branch;
    forall r ensures multiset(x)[r] == multiset(y)[r] {
      TableCount(bs, items, Hashes(Best(bs)), r);
      BranchCount(Best(bs), items, r);
      SumChosenIsBranch(bs, Best(bs), Brings(items, r));
    }
  }

  lemma {:induction false} BranchTableRow<T>(branch: seq<Block>, items: Block -> seq<T>, r: Row<T>)
    requires r in BranchTable(branch, items)
    ensures r.canonical && exists i :: 0 <= i < |branch| && r.block == branch[i].hash && r.height == branch[i].height && r.item in items(branch[i])
  {
    var n := |branch| - 1;
    if r in BranchTable(branch[..n], items) {
      BranchTableRow(branch[..n], items, r);
      var i :| 0 <= i < n && r.block == branch[i].hash && r.height == branch[i].height && r.item in items(branch[i]);
    }
  }

  // ---- Chain order -----------------------------------------------------------------

  ghost predicate InOrderBy<T>(rows: seq<Row<T>>, before: (Row<T>, Row<T>) -> bool) {
    forall i, j :: 0 <= i < j < |rows| ==> before(rows[i], rows[j])
  }

  /** A branch's rows are in order if those of each block are and lower blocks come first. */
  lemma {:induction false} BranchInOrder<T(!new)>(bs: seq<Block>, branch: seq<Block>, items: Block -> seq<T>, before: (Row<T>, Row<T>) -> bool)
    requires Levelled(bs, branch) && forall x: Row<T>, y: Row<T> :: x.height < y.height ==> before(x, y)
    requires forall b :: b in branch ==> InOrderBy(RowsOf(b, true, items(b)), before)
    ensures InOrderBy(BranchTable(branch, items), before)
  {
    if branch != [] {
      var n := |branch| - 1;
      BranchInOrder(bs, branch[..n], items, before);
      var x, y := BranchTable(branch[..n], items), RowsOf(branch[n], true, items(branch[n]));
      forall i | 0 <= i < |x| ensures x[i].height < branch[n].height {
        BranchTableRow(branch[..n], items, x[i]);
      }
      InOrderConcat(x, y, before);
    }
  }

  lemma InOrderConcat<T>(x: seq<Row<T>>, y: seq<Row<T>>, before: (Row<T>, Row<T>) -> bool)
    requires InOrderBy(x, before) && InOrderBy(y, before)
    requires forall i, j :: 0 <= i < |x| && 0 <= j < |y| ==> before(x[i], y[j])
    ensures InOrderBy(x + y, before)
  {
  }

  // ---- Locks -----------------------------------------------------------------------

  /** The locks of an address that are active at a block of the branch: set at or below its
      height, and to be unlocked above its burn height. */
  function ActiveLocks(branch: seq<Block>, a: Address, height: nat): seq<Row<StxLock>>
    requires 1 <= height <= |branch|
  {
    var burnHeight := branch[height - 1].burnHeight;
    Select(BranchTable(branch, StxLocks),
           (r: Row<StxLock>) => r.item.address == a && r.height <= height && r.item.unlockHeight > burnHeight)
  }

  lemma LocksOfBranch(bs: seq<Block>, a: Address, height: nat)
    requires Grown(bs) && 1 <= height <= |Best(bs)|
    ensures var table, p := TableOf(bs, StxLocks, Hashes(Best(bs))), IsActiveLock(a, height, Best(bs)[height - 1].burnHeight);
            var x, y := Select(table, p), ActiveLocks(Best(bs), a, height);
            |x| == |y| && (|x| == 1 ==> x == y)
  {
    hide TableOf, BranchTable, Select, Best, Hashes, StxLocks;
    var burnHeight := Best(bs)[height - 1].burnHeight;
    var table, rows := TableOf(bs, StxLocks, Hashes(Best(bs))), BranchTable(Best(bs), StxLocks);
    var p := IsActiveLock(a, height, burnHeight);
    var q := (r: Row<StxLock>) => r.item.address == a && r.height <= height && r.item.unlockHeight > burnHeight;
    CanonicalRowsAreBranch(bs, StxLocks);
    SelectWithin(table, p, IsCanonicalRow());
    SelectPermutes(Select(table, IsCanonicalRow()), rows, p);
    forall r | r in rows ensures p(r) <==> q(r) { BranchTableRow(Best(bs), StxLocks, r); }
    SelectSame(rows, p, q);
  }

  /** The balance query after any run: several locks are an error exactly when several are
      active on the canonical branch; otherwise the one that is active is reported, with the
      burn height of the block that brought it, or nothing is. */
  lemma BalanceReportsActiveLock(evs: seq<Event>, a: Address, height: nat)
    requires WellFormedRun(evs) && 1 <= height <= TipHeight(Accepted(evs))
    ensures |Best(Accepted(evs))| == TipHeight(Accepted(evs))
    ensures var best, r := Best(Accepted(evs)), BalanceAtBlock(Run(evs), a, height);
            var active := ActiveLocks(best, a, height);
            && (r == Err(SeveralLocks) <==> |active| > 1)
            && (|active| == 0 ==> r.Ok? && r.value.lockTxId == None && r.value.locked == 0 && r.value.lockHeight == 0 &&
                                  r.value.burnchainLockHeight == 0 && r.value.burnchainUnlockHeight == 0)
            && (|active| == 1 ==> var l := active[0];
                  && 1 <= l.height <= height && l.item in StxLocks(best[l.height - 1])
                  && r.Ok? && r.value.lockTxId == Some(l.item.txId) && r.value.locked == l.item.amount
                  && r.value.lockHeight == l.height && r.value.burnchainLockHeight == best[l.height - 1].burnHeight
                  && r.value.burnchainUnlockHeight == l.item.unlockHeight)
  {
    hide TableOf, BranchTable, Select, Best, Hashes, StxLocks, Balance, SumWhere, Run, Accepted, WellFormedRun;
    EveryRunIsRecomputed(evs);
    var bs := Accepted(evs);
    var best := Best(bs);
    CanonicalAtHeight(bs, height);
    LocksOfBranch(bs, a, height);
    var active := ActiveLocks(best, a, height);
    if |active| == 1 {
      ActiveLockRow(bs, a, height, active[0]);
      CanonicalAtHeight(bs, active[0].height);
    }
  }

  lemma ActiveLockRow(bs: seq<Block>, a: Address, height: nat, l: Row<StxLock>)
    requires Grown(bs) && 1 <= height <= |Best(bs)| && l in ActiveLocks(Best(bs), a, height)
    ensures 1 <= l.height <= height && l.item in StxLocks(Best(bs)[l.height - 1])
  {
    hide BranchTable, StxLocks, Branch;
    var best := Best(bs);
    var burnHeight := best[height - 1].burnHeight;
    SelectMember(BranchTable(best, StxLocks),
                 (r: Row<StxLock>) => r.item.address == a && r.height <= height && r.item.unlockHeight > burnHeight, l);
    BranchTableRow(best, StxLocks, l);
    if bs != [] { BranchShape(bs, Tip(bs)); }
  }
}

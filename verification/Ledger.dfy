/** The STX queries over the flagged tables, and the ledger they stand for: a replay of the
    canonical branch, block by block from the first. */
module Ledger {
  import opened Tables
  import opened Chain
  import opened Store
  import opened Reference
  import opened Transaction
  import opened Runs

  // ---- The queries -----------------------------------------------------------------

  /** SELECT sum(amount) ... WHERE canonical = true AND block_height <= height, NULL read as 0. */
  function SumWhere<T>(rows: seq<Row<T>>, height: int, amount: T -> int): int {
    if rows == [] then 0 else
    var r := rows[|rows| - 1];
    SumWhere(rows[..|rows| - 1], height, amount) + if r.canonical && r.height <= height then amount(r.item) else 0
  }

  function CreditTo(a: Address): StxEvent -> int {
    (e: StxEvent) => if !e.move.Burn? && e.move.recipient == a then e.move.amount else 0
  }

  function DebitFrom(a: Address): StxEvent -> int {
    (e: StxEvent) => if !e.move.Mint? && e.move.sender == a then e.move.amount else 0
  }

  function FeeFrom(a: Address): Tx -> int {
    (t: Tx) => if t.sender == a then t.feeRate else 0
  }

  function RewardTo(a: Address): MinerReward -> int {
    (m: MinerReward) =>
      if m.recipient == a then m.coinbase + m.feesAnchored + m.feesConfirmed + m.feesProduced else 0
  }

  /** The `balance` column of the balance query. */
  function Balance(db: Db, a: Address, height: int): int {
    SumWhere(db.stxEvents, height, CreditTo(a)) - SumWhere(db.stxEvents, height, DebitFrom(a))
    - SumWhere(db.txs, height, FeeFrom(a)) + SumWhere(db.minerRewards, height, RewardTo(a))
  }

  datatype BalanceError = NoBlockAtHeight | SeveralLocks

  datatype StxBalance = StxBalance(balance: int, totalSent: int, totalReceived: int, totalFeesSent: int,
                                   totalMinerRewardsReceived: int, lockTxId: Option<TxId>, locked: nat, lockHeight: nat,
                                   burnchainLockHeight: nat, burnchainUnlockHeight: nat)

  function IsActiveLock(a: Address, height: int, burnHeight: nat): Row<StxLock> -> bool {
    (r: Row<StxLock>) => r.canonical && r.item.address == a && r.height <= height && r.item.unlockHeight > burnHeight
  }

  function BalanceAtBlock(db: Db, a: Address, height: int): Result<StxBalance, BalanceError> {
    match BlockByHeight(db.blocks, height)
    case None => Err(NoBlockAtHeight)
    case Some(b) =>
      var locks := Select(db.stxLocks, IsActiveLock(a, height, b.burnHeight));
      if |locks| > 1 then Err(SeveralLocks) else
      var lockHeight := if locks == [] then 0 else locks[0].height;
      Ok(StxBalance(Balance(db, a, height), SumWhere(db.stxEvents, height, DebitFrom(a)),
                    SumWhere(db.stxEvents, height, CreditTo(a)), SumWhere(db.txs, height, FeeFrom(a)),
                    SumWhere(db.minerRewards, height, RewardTo(a)),
                    if locks == [] then None else Some(locks[0].item.txId),
                    if locks == [] then 0 else locks[0].item.amount,
                    lockHeight,
                    if locks == [] then 0 else
                      (match BlockByHeight(db.blocks, lockHeight) case Some(l) => l.burnHeight case None => 0),
                    if locks == [] then 0 else locks[0].item.unlockHeight))
  }

  function Minted(): StxEvent -> int { (e: StxEvent) => if e.move.Mint? then e.move.amount else 0 }
  function Burned(): StxEvent -> int { (e: StxEvent) => if e.move.Burn? then e.move.amount else 0 }
  function Coinbase(): MinerReward -> int { (m: MinerReward) => m.coinbase }
  function Anchored(): MinerReward -> int { (m: MinerReward) => m.feesAnchored }
  function Confirmed(): MinerReward -> int { (m: MinerReward) => m.feesConfirmed }
  function Produced(): MinerReward -> int { (m: MinerReward) => m.feesProduced }
  function AnyFee(): Tx -> int { (t: Tx) => t.feeRate }

  /** Some row enters a sum. */
  predicate AnyWhere<T(==)>(rows: seq<Row<T>>, height: int, which: T -> bool) {
    exists r :: r in rows && r.canonical && r.height <= height && which(r.item)
  }

  /** SQL's SUM of no rows is NULL, and NULL terms do not enter a SUM. */
  function SqlSum<T(==)>(rows: seq<Row<T>>, height: int, which: T -> bool, amount: T -> int): Option<int> {
    if AnyWhere(rows, height, which) then Some(SumWhere(rows, height, amount)) else None
  }

  function SqlPlus(x: Option<int>, y: Option<int>): Option<int> {
    if x.None? then y else if y.None? then x else Some(x.value + y.value)
  }

  function Negated(x: Option<int>): Option<int> {
    match x case None => None case Some(v) => Some(0 - v)
  }

  function IsMint(): StxEvent -> bool { (e: StxEvent) => e.move.Mint? }
  function IsBurn(): StxEvent -> bool { (e: StxEvent) => e.move.Burn? }
  function AnyReward(): MinerReward -> bool { (m: MinerReward) => true }

  /** The supply query: mints - burns + coinbase. */
  function SupplyTotal(db: Db, height: int): Option<int> {
    SqlPlus(SqlPlus(SqlSum(db.stxEvents, height, IsMint(), Minted()), Negated(SqlSum(db.stxEvents, height, IsBurn(), Burned()))),
            SqlSum(db.minerRewards, height, AnyReward(), Coinbase()))
  }

  datatype SupplyError = NoCurrentBlock | NullTotal
  datatype Supply = Supply(stx: int, height: int)

  /** `getUnlockedStxSupply`: the total at a height, or at the current block; a NULL total
      cannot be made a big integer. */
  function UnlockedSupply(db: Db, height: Option<int>): Result<Supply, SupplyError> {
    if height.None? && CurrentBlock(db.blocks).None? then Err(NoCurrentBlock) else
    var at := if height.Some? then height.value else CurrentBlock(db.blocks).value.height;
    match SupplyTotal(db, at) case None => Err(NullTotal) case Some(v) => Ok(Supply(v, at))
  }

  // ---- The replay ------------------------------------------------------------------

  type Accounts = map<Address, int>

  function Held(acc: Accounts, a: Address): int {
    if a in acc then acc[a] else 0
  }

  function Add(acc: Accounts, a: Address, amount: int): Accounts {
    acc[a := Held(acc, a) + amount]
  }

  function ApplyMove(acc: Accounts, m: StxMove): Accounts {
    match m
    case Transfer(s, r, n) => Add(Add(acc, s, 0 - n), r, n)
    case Mint(r, n) => Add(acc, r, n)
    case Burn(s, n) => Add(acc, s, 0 - n)
  }

  function ApplyFees(acc: Accounts, txs: seq<Tx>): Accounts {
    if txs == [] then acc else
    var t := txs[|txs| - 1];
    Add(ApplyFees(acc, txs[..|txs| - 1]), t.sender, 0 - t.feeRate)
  }

  function ApplyEvents(acc: Accounts, es: seq<StxEvent>): Accounts {
    if es == [] then acc else ApplyMove(ApplyEvents(acc, es[..|es| - 1]), es[|es| - 1].move)
  }

  function ApplyRewards(acc: Accounts, ms: seq<MinerReward>): Accounts {
    if ms == [] then acc else
    var m := ms[|ms| - 1];
    Add(ApplyRewards(acc, ms[..|ms| - 1]), m.recipient,
        m.coinbase + m.feesAnchored + m.feesConfirmed + m.feesProduced)
  }

  function ApplyBlock(acc: Accounts, b: Block): Accounts {
    ApplyRewards(ApplyEvents(ApplyFees(acc, Txs(b)), StxEvents(b)), Rewards(b))
  }

  /** Every block of a branch in turn, from the first. */
  function Replay(branch: seq<Block>): Accounts {
    if branch == [] then map[] else ApplyBlock(Replay(branch[..|branch| - 1]), branch[|branch| - 1])
  }

  // ---- Sums over tables are sums over branches -------------------------------------

  function SumItems<T>(items: seq<T>, amount: T -> int): int {
    if items == [] then 0 else SumItems(items[..|items| - 1], amount) + amount(items[|items| - 1])
  }

  /** What one block adds to a sum up to a height. */
  function Weight<T>(items: Block -> seq<T>, amount: T -> int, height: int): Block -> int {
    (b: Block) => if b.height <= height then SumItems(items(b), amount) else 0
  }

  /** The sum of weights over the stored blocks whose hash is in the set. */
  function SumChosen(bs: seq<Block>, chosen: set<Hash>, w: Block -> int): int {
    if bs == [] then 0 else
    var b := bs[|bs| - 1];
    SumChosen(bs[..|bs| - 1], chosen, w) + if b.hash in chosen then w(b) else 0
  }

  lemma {:induction false} SumWhereConcat<T>(x: seq<Row<T>>, y: seq<Row<T>>, height: int, amount: T -> int)
    ensures SumWhere(x + y, height, amount) == SumWhere(x, height, amount) + SumWhere(y, height, amount)
  {
    if y == [] {
      assert x + y == x;
    } else {
      assert (x + y)[..|x + y| - 1] == x + y[..|y| - 1];
      SumWhereConcat(x, y[..|y| - 1], height, amount);
    }
  }

  lemma {:induction false} SumWhereRows<T>(b: Block, c: bool, items: seq<T>, height: int, amount: T -> int)
    ensures SumWhere(RowsOf(b, c, items), height, amount) ==
            if c && b.height <= height then SumItems(items, amount) else 0
  {
    if items != [] {
      assert RowsOf(b, c, items)[..|items| - 1] == RowsOf(b, c, items[..|items| - 1]);
      SumWhereRows(b, c, items[..|items| - 1], height, amount);
    }
  }

  /** A flag-filtered sum over a table is a sum over the chosen blocks. */
  lemma {:induction false} SumOverTable<T>(bs: seq<Block>, items: Block -> seq<T>, chosen: set<Hash>, height: int, amount: T -> int)
    ensures SumWhere(TableOf(bs, items, chosen), height, amount) == SumChosen(bs, chosen, Weight(items, amount, height))
  {
    if bs != [] {
      var n := |bs| - 1;
      SumOverTable(bs[..n], items, chosen, height, amount);
      SumWhereConcat(TableOf(bs[..n], items, chosen), RowsOf(bs[n], bs[n].hash in chosen, items(bs[n])), height, amount);
      SumWhereRows(bs[n], bs[n].hash in chosen, items(bs[n]), height, amount);
    }
  }

  lemma {:induction false} SumChosenSplit(bs: seq<Block>, chosen: set<Hash>, h: Hash, w: Block -> int)
    requires h !in chosen
    ensures SumChosen(bs, chosen + {h}, w) == SumChosen(bs, chosen, w) + SumChosen(bs, {h}, w)
  {
    if bs != [] { SumChosenSplit(bs[..|bs| - 1], chosen, h, w); }
  }

  lemma {:induction false} SumChosenNone(bs: seq<Block>, chosen: set<Hash>, w: Block -> int)
    requires forall b :: b in bs ==> b.hash !in chosen
    ensures SumChosen(bs, chosen, w) == 0
  {
    if bs != [] { SumChosenNone(bs[..|bs| - 1], chosen, w); }
  }

  lemma {:induction false} SumChosenOne(bs: seq<Block>, k: nat, w: Block -> int)
    requires Distinct(bs) && k < |bs|
    ensures SumChosen(bs, {bs[k].hash}, w) == w(bs[k])
  {
    var n := |bs| - 1;
    if k == n {
      SumChosenNone(bs[..n], {bs[n].hash}, w);
    } else {
      SumChosenOne(bs[..n], k, w);
    }
  }

  function SumBranch(branch: seq<Block>, w: Block -> int): int {
    if branch == [] then 0 else SumBranch(branch[..|branch| - 1], w) + w(branch[|branch| - 1])
  }

  /** Arrival order does not matter: summing the stored blocks of a branch is summing the
      branch from its first block up. */
  lemma {:induction false} SumChosenIsBranch(bs: seq<Block>, branch: seq<Block>, w: Block -> int)
    requires Distinct(bs) && Levelled(bs, branch)
    ensures SumChosen(bs, Hashes(branch), w) == SumBranch(branch, w)
  {
    if branch == [] {
      assert Hashes(branch) == {};
      SumChosenNone(bs, {}, w);
    } else {
      var n := |branch| - 1;
      var x := branch[n];
      SumChosenIsBranch(bs, branch[..n], w);
      assert x.hash !in Hashes(branch[..n]) by {
        forall y | y in branch[..n] ensures y.hash != x.hash {
          if y.hash == x.hash { SameHashSameBlock(bs, x, y); }
        }
      }
      SumChosenSplit(bs, Hashes(branch[..n]), x.hash, w);
      assert branch == branch[..n] + [x];
      assert Hashes(branch) == Hashes(branch[..n]) + {x.hash};
      var k :| 0 <= k < |bs| && bs[k] == x;
      SumChosenOne(bs, k, w);
    }
  }

  /** What one block adds to a sum without a height limit. */
  function Total<T>(items: Block -> seq<T>, amount: T -> int): Block -> int {
    (b: Block) => SumItems(items(b), amount)
  }

  /** The part of a branch that a query up to a height covers. */
  function UpTo(branch: seq<Block>, height: nat): seq<Block> {
    branch[..if height < |branch| then height else |branch|]
  }

  /** Blocks above the height weigh nothing. */
  lemma {:induction false} SumBranchCut<T>(bs: seq<Block>, branch: seq<Block>, items: Block -> seq<T>, amount: T -> int, height: nat)
    requires Levelled(bs, branch)
    ensures SumBranch(branch, Weight(items, amount, height)) == SumBranch(UpTo(branch, height), Total(items, amount))
  {
    if branch != [] {
      var n := |branch| - 1;
      SumBranchCut(bs, branch[..n], items, amount, height);
      if height <= n {
        assert UpTo(branch[..n], height) == UpTo(branch, height);
      } else {
        assert UpTo(branch[..n], height) == branch[..n] && UpTo(branch, height) == branch;
      }
    }
  }

  /** A query sum over the recomputed tables is a sum along the best branch. */
  lemma QuerySum<T>(bs: seq<Block>, items: Block -> seq<T>, amount: T -> int, height: nat)
    requires Grown(bs)
    ensures SumWhere(TableOf(bs, items, Hashes(Best(bs))), height, amount) ==
            SumBranch(UpTo(Best(bs), height), Total(items, amount))
  {
    if bs != [] { BranchShape(bs, Tip(bs)); }
    SumOverTable(bs, items, Hashes(Best(bs)), height, amount);
    SumChosenIsBranch(bs, Best(bs), Weight(items, amount, height));
    SumBranchCut(bs, Best(bs), items, amount, height);
  }

  // ---- The replay adds up ----------------------------------------------------------

  lemma {:induction false} FeesApplied(acc: Accounts, txs: seq<Tx>, a: Address)
    ensures Held(ApplyFees(acc, txs), a) == Held(acc, a) - SumItems(txs, FeeFrom(a))
  {
    if txs != [] { FeesApplied(acc, txs[..|txs| - 1], a); }
  }

  lemma {:induction false} EventsApplied(acc: Accounts, es: seq<StxEvent>, a: Address)
    ensures Held(ApplyEvents(acc, es), a) == Held(acc, a) + SumItems(es, CreditTo(a)) - SumItems(es, DebitFrom(a))
  {
    if es != [] { EventsApplied(acc, es[..|es| - 1], a); }
  }

  lemma {:induction false} RewardsApplied(acc: Accounts, ms: seq<MinerReward>, a: Address)
    ensures Held(ApplyRewards(acc, ms), a) == Held(acc, a) + SumItems(ms, RewardTo(a))
  {
    if ms != [] { RewardsApplied(acc, ms[..|ms| - 1], a); }
  }

  lemma {:induction false} ReplayAddsUp(branch: seq<Block>, a: Address)
    ensures Held(Replay(branch), a) ==
            SumBranch(branch, Total(StxEvents, CreditTo(a))) - SumBranch(branch, Total(StxEvents, DebitFrom(a)))
            - SumBranch(branch, Total(Txs, FeeFrom(a))) + SumBranch(branch, Total(Rewards, RewardTo(a)))
  {
    if branch != [] {
      var b := branch[|branch| - 1];
      var acc := Replay(branch[..|branch| - 1]);
      ReplayAddsUp(branch[..|branch| - 1], a);
      FeesApplied(acc, Txs(b), a);
      EventsApplied(ApplyFees(acc, Txs(b)), StxEvents(b), a);
      RewardsApplied(ApplyEvents(ApplyFees(acc, Txs(b)), StxEvents(b)), Rewards(b), a);
    }
  }

  /** After any run, the flag-filtered balance query of any address at any height is what the
      address holds when the canonical branch is replayed up to that height. */
  lemma BalanceIsReplay(evs: seq<Event>, a: Address, height: nat)
    requires WellFormedRun(evs)
    ensures Balance(Run(evs), a, height) == Held(Replay(UpTo(Best(Accepted(evs)), height)), a)
  {
    EveryRunIsRecomputed(evs);
    var bs := Accepted(evs);
    QuerySum(bs, StxEvents, CreditTo(a), height);
    QuerySum(bs, StxEvents, DebitFrom(a), height);
    QuerySum(bs, Txs, FeeFrom(a), height);
    QuerySum(bs, Rewards, RewardTo(a), height);
    ReplayAddsUp(UpTo(Best(bs), height), a);
  }

  /** The whole query: it fails for want of a block exactly outside 1..tip, and otherwise only
      on several active locks; its balance is the replayed one, its columns the sums along the
      canonical path. */
  lemma BalanceAtBlockIsReplay(evs: seq<Event>, a: Address, height: nat)
    requires WellFormedRun(evs)
    ensures var bs, r := Accepted(evs), BalanceAtBlock(Run(evs), a, height);
            && (r == Err(NoBlockAtHeight) <==> !(1 <= height <= TipHeight(bs)))
            && (r.Ok? ==> var path := UpTo(Best(bs), height);
                          && |path| == height && r.value.balance == Held(Replay(path), a)
                          && r.value.totalSent == SumBranch(path, Total(StxEvents, DebitFrom(a)))
                          && r.value.totalReceived == SumBranch(path, Total(StxEvents, CreditTo(a)))
                          && r.value.totalFeesSent == SumBranch(path, Total(Txs, FeeFrom(a)))
                          && r.value.totalMinerRewardsReceived ==
                             SumBranch(path, Total(Rewards, ColumnTo(a, Coinbase()))) + SumBranch(path, Total(Rewards, ColumnTo(a, Anchored())))
                             + SumBranch(path, Total(Rewards, ColumnTo(a, Confirmed()))) + SumBranch(path, Total(Rewards, ColumnTo(a, Produced()))))
  {
    hide TableOf, SumWhere, SumBranch, Best, Balance, Replay, Run, Accepted, WellFormedRun, Select;
    EveryRunIsRecomputed(evs);
    var bs := Accepted(evs);
    CanonicalAtHeight(bs, height);
    BalanceIsReplay(evs, a, height);
    QuerySum(bs, StxEvents, DebitFrom(a), height);
    QuerySum(bs, StxEvents, CreditTo(a), height);
    QuerySum(bs, Txs, FeeFrom(a), height);
    QuerySum(bs, Rewards, RewardTo(a), height);
    RewardColumns(UpTo(Best(bs), height), a);
  }

  /** One column of the rewards of an address. */
  function ColumnTo(a: Address, column: MinerReward -> int): MinerReward -> int {
    (m: MinerReward) => if m.recipient == a then column(m) else 0
  }

  lemma {:induction false} RewardItemColumns(ms: seq<MinerReward>, a: Address)
    ensures SumItems(ms, RewardTo(a)) ==
            SumItems(ms, ColumnTo(a, Coinbase())) + SumItems(ms, ColumnTo(a, Anchored()))
            + SumItems(ms, ColumnTo(a, Confirmed())) + SumItems(ms, ColumnTo(a, Produced()))
  {
    if ms != [] { RewardItemColumns(ms[..|ms| - 1], a); }
  }

  /** A reward is its four columns. */
  lemma {:induction false} RewardColumns(path: seq<Block>, a: Address)
    ensures SumBranch(path, Total(Rewards, RewardTo(a))) ==
            SumBranch(path, Total(Rewards, ColumnTo(a, Coinbase()))) + SumBranch(path, Total(Rewards, ColumnTo(a, Anchored())))
            + SumBranch(path, Total(Rewards, ColumnTo(a, Confirmed()))) + SumBranch(path, Total(Rewards, ColumnTo(a, Produced())))
  {
    if path != [] {
      var n := |path| - 1;
      RewardColumns(path[..n], a);
      RewardItemColumns(Rewards(path[n]), a);
    }
  }

  // ---- Conservation ----------------------------------------------------------------

  function SumAddresses(addrs: seq<Address>, f: Address -> int): int {
    if addrs == [] then 0 else SumAddresses(addrs[..|addrs| - 1], f) + f(addrs[|addrs| - 1])
  }

  function BalanceOf(db: Db, height: int): Address -> int {
    (a: Address) => Balance(db, a, height)
  }

  ghost predicate NoRepeats<K>(keys: seq<K>) {
    forall i, j :: 0 <= i < j < |keys| ==> keys[i] != keys[j]
  }

  /** The sum, over the listed keys (addresses, transaction ids), of a per-key query sum. */
  function SumPerKey<K, T>(keys: seq<K>, rows: seq<Row<T>>, height: int, amount: K -> T -> int): int {
    if keys == [] then 0 else
    SumPerKey(keys[..|keys| - 1], rows, height, amount) + SumWhere(rows, height, amount(keys[|keys| - 1]))
  }

  /** The amounts of one row, summed over the listed keys. */
  function SharesOf<K, T>(keys: seq<K>, amount: K -> T -> int, x: T): int {
    if keys == [] then 0 else
    SharesOf(keys[..|keys| - 1], amount, x) + amount(keys[|keys| - 1])(x)
  }

  /** Summing by key and then by row is summing by row and then by key. */
  lemma {:induction false} SwapSums<K, T(!new)>(keys: seq<K>, rows: seq<Row<T>>, height: int,
                                      amount: K -> T -> int, whole: T -> int)
    requires forall r :: r in rows && r.canonical ==> SharesOf(keys, amount, r.item) == whole(r.item)
    ensures SumPerKey(keys, rows, height, amount) == SumWhere(rows, height, whole)
  {
    if rows == [] {
      NoRowsNoShares(keys, rows, height, amount);
    } else {
      var n := |rows| - 1;
      assert rows[n] in rows;
      SwapSums(keys, rows[..n], height, amount, whole);
      SplitLastRow(keys, rows, height, amount);
    }
  }

  lemma {:induction false} NoRowsNoShares<K, T>(keys: seq<K>, rows: seq<Row<T>>, height: int, amount: K -> T -> int)
    requires rows == []
    ensures SumPerKey(keys, rows, height, amount) == 0
  {
    if keys != [] { NoRowsNoShares(keys[..|keys| - 1], rows, height, amount); }
  }

  lemma {:induction false} SplitLastRow<K, T>(keys: seq<K>, rows: seq<Row<T>>, height: int, amount: K -> T -> int)
    requires rows != []
    ensures var n := |rows| - 1;
            SumPerKey(keys, rows, height, amount) ==
            SumPerKey(keys, rows[..n], height, amount) +
            if rows[n].canonical && rows[n].height <= height then SharesOf(keys, amount, rows[n].item) else 0
  {
    if keys != [] { SplitLastRow(keys[..|keys| - 1], rows, height, amount); }
  }

  /** A row that concerns one key is shared out in full exactly when that key is listed. */
  lemma {:induction false} SharesAreWhole<K(!new), T>(keys: seq<K>, amount: K -> T -> int, x: T, who: K)
    requires NoRepeats(keys) && forall a :: a != who ==> amount(a)(x) == 0
    ensures SharesOf(keys, amount, x) == if who in keys then amount(who)(x) else 0
  {
    if keys != [] {
      var n := |keys| - 1;
      assert keys == keys[..n] + [keys[n]];
      SharesAreWhole(keys[..n], amount, x, who);
    }
  }

  lemma {:induction false} SharesAreNone<K(!new), T>(keys: seq<K>, amount: K -> T -> int, x: T)
    requires forall a :: amount(a)(x) == 0
    ensures SharesOf(keys, amount, x) == 0
  {
    if keys != [] { SharesAreNone(keys[..|keys| - 1], amount, x); }
  }

  function Credited(): StxEvent -> int { (e: StxEvent) => if e.move.Burn? then 0 else e.move.amount }
  function Debited(): StxEvent -> int { (e: StxEvent) => if e.move.Mint? then 0 else e.move.amount }
  function Rewarded(): MinerReward -> int { (m: MinerReward) => m.coinbase + m.feesAnchored + m.feesConfirmed + m.feesProduced }

  /** The list names every address that a canonical row names. */
  ghost predicate Covers(addrs: seq<Address>, db: Db) {
    && (forall r :: r in db.stxEvents && r.canonical ==>
          (r.item.move.Burn? || r.item.move.recipient in addrs) && (r.item.move.Mint? || r.item.move.sender in addrs))
    && (forall r :: r in db.txs && r.canonical ==> r.item.sender in addrs)
    && (forall r :: r in db.minerRewards && r.canonical ==> r.item.recipient in addrs)
  }

  lemma {:induction false} BalancesByColumn(db: Db, addrs: seq<Address>, height: int)
    ensures SumAddresses(addrs, BalanceOf(db, height)) ==
            SumPerKey(addrs, db.stxEvents, height, CreditTo) - SumPerKey(addrs, db.stxEvents, height, DebitFrom)
            - SumPerKey(addrs, db.txs, height, FeeFrom) + SumPerKey(addrs, db.minerRewards, height, RewardTo)
  {
    if addrs != [] { BalancesByColumn(db, addrs[..|addrs| - 1], height); }
  }

  lemma CreditsAreShared(db: Db, addrs: seq<Address>, height: int)
    requires NoRepeats(addrs) && Covers(addrs, db)
    ensures SumPerKey(addrs, db.stxEvents, height, CreditTo) == SumWhere(db.stxEvents, height, Credited())
    ensures SumPerKey(addrs, db.stxEvents, height, DebitFrom) == SumWhere(db.stxEvents, height, Debited())
  {
    forall r | r in db.stxEvents && r.canonical
      ensures SharesOf(addrs, CreditTo, r.item) == Credited()(r.item)
      ensures SharesOf(addrs, DebitFrom, r.item) == Debited()(r.item)
    {
      var m := r.item.move;
      if m.Burn? { SharesAreNone(addrs, CreditTo, r.item); } else { SharesAreWhole(addrs, CreditTo, r.item, m.recipient); }
      if m.Mint? { SharesAreNone(addrs, DebitFrom, r.item); } else { SharesAreWhole(addrs, DebitFrom, r.item, m.sender); }
    }
    SwapSums(addrs, db.stxEvents, height, CreditTo, Credited());
    SwapSums(addrs, db.stxEvents, height, DebitFrom, Debited());
  }

  lemma FeesAndRewardsAreShared(db: Db, addrs: seq<Address>, height: int)
    requires NoRepeats(addrs) && Covers(addrs, db)
    ensures SumPerKey(addrs, db.txs, height, FeeFrom) == SumWhere(db.txs, height, AnyFee())
    ensures SumPerKey(addrs, db.minerRewards, height, RewardTo) == SumWhere(db.minerRewards, height, Rewarded())
  {
    forall r | r in db.txs && r.canonical ensures SharesOf(addrs, FeeFrom, r.item) == AnyFee()(r.item) {
      SharesAreWhole(addrs, FeeFrom, r.item, r.item.sender);
    }
    forall r | r in db.minerRewards && r.canonical ensures SharesOf(addrs, RewardTo, r.item) == Rewarded()(r.item) {
      SharesAreWhole(addrs, RewardTo, r.item, r.item.recipient);
    }
    SwapSums(addrs, db.txs, height, FeeFrom, AnyFee());
    SwapSums(addrs, db.minerRewards, height, RewardTo, Rewarded());
  }

  lemma {:induction false} TransfersCancel(rows: seq<Row<StxEvent>>, height: int)
    ensures SumWhere(rows, height, Credited()) - SumWhere(rows, height, Debited()) ==
            SumWhere(rows, height, Minted()) - SumWhere(rows, height, Burned())
  {
    if rows != [] { TransfersCancel(rows[..|rows| - 1], height); }
  }

  lemma {:induction false} RewardsSplit(rows: seq<Row<MinerReward>>, height: int)
    ensures SumWhere(rows, height, Rewarded()) == SumWhere(rows, height, Coinbase()) + SumWhere(rows, height, Anchored())
                                                + SumWhere(rows, height, Confirmed()) + SumWhere(rows, height, Produced())
  {
    if rows != [] { RewardsSplit(rows[..|rows| - 1], height); }
  }

  /** The supply query answers exactly when a mint, burn or reward is canonical at or below the
      height. */
  ghost predicate SupplyMoved(db: Db, height: int) {
    || (exists r :: r in db.stxEvents && r.canonical && r.height <= height && !r.item.move.Transfer?)
    || (exists r :: r in db.minerRewards && r.canonical && r.height <= height)
  }

  lemma SupplyAnswersExactlyWhen(db: Db, height: Option<int>)
    ensures height.Some? ==> (UnlockedSupply(db, height).Ok? <==> SupplyMoved(db, height.value))
    ensures height.None? ==> (UnlockedSupply(db, height).Ok? <==>
                              CurrentBlock(db.blocks).Some? && SupplyMoved(db, CurrentBlock(db.blocks).value.height))
  {
    hide SumWhere, CurrentBlock;
    if height.Some? {
      TotalExactlyWhen(db, height.value);
    } else if CurrentBlock(db.blocks).Some? {
      TotalExactlyWhen(db, CurrentBlock(db.blocks).value.height);
    }
  }

  /** The height reported is the height used: the one asked for, or after any run the tip's. */
  lemma SupplyHeight(evs: seq<Event>, height: Option<int>)
    requires WellFormedRun(evs)
    ensures var r := UnlockedSupply(Run(evs), height);
            var at := if height.Some? then height.value else TipHeight(Accepted(evs));
            && (r.Ok? ==> r.value.height == at)
            && (height.None? && Accepted(evs) == [] ==> r == Err(NoCurrentBlock))
            && (height.None? && Accepted(evs) != [] ==> r == UnlockedSupply(Run(evs), Some(at)))
  {
    hide SupplyTotal, CurrentBlock, ChainTip, TableOf, Best, Run, Accepted, WellFormedRun;
    EveryRunIsRecomputed(evs);
    ChainTipIsTip(Accepted(evs));
    TipQueriesAgree(evs);
  }

  lemma TotalExactlyWhen(db: Db, height: int)
    ensures SupplyTotal(db, height).Some? <==> SupplyMoved(db, height)
  {
    hide SumWhere;
    if SupplyMoved(db, height) {
      if r :| r in db.stxEvents && r.canonical && r.height <= height && !r.item.move.Transfer? {
        assert if r.item.move.Mint? then IsMint()(r.item) else IsBurn()(r.item);
      } else {
        var m :| m in db.minerRewards && m.canonical && m.height <= height;
        assert AnyReward()(m.item);
      }
    }
  }

  lemma {:induction false} SumOfNone<T>(rows: seq<Row<T>>, height: int, amount: T -> int)
    requires forall r :: r in rows && r.canonical && r.height <= height ==> amount(r.item) == 0
    ensures SumWhere(rows, height, amount) == 0
  {
    if rows != [] { SumOfNone(rows[..|rows| - 1], height, amount); }
  }

  /** Where it answers, the total is the three sums; where it does not, they are 0. */
  lemma TotalIsSums(db: Db, height: int)
    ensures var sums := SumWhere(db.stxEvents, height, Minted()) - SumWhere(db.stxEvents, height, Burned())
                        + SumWhere(db.minerRewards, height, Coinbase());
            sums == match SupplyTotal(db, height) case Some(v) => v case None => 0
  {
    hide SumWhere;
    if !AnyWhere(db.stxEvents, height, IsMint()) { SumOfNone(db.stxEvents, height, Minted()); }
    if !AnyWhere(db.stxEvents, height, IsBurn()) { SumOfNone(db.stxEvents, height, Burned()); }
    if !AnyWhere(db.minerRewards, height, AnyReward()) { SumOfNone(db.minerRewards, height, Coinbase()); }
  }

  /** After a first block without mints or rewards the supply cannot be asked for. */
  lemma SupplyOfQuietChainFails()
    ensures var evs := [NewBlock(Block(Hash(1), Hash(0), 1, 0, [], []))];
            WellFormedRun(evs) && UnlockedSupply(Run(evs), Some(1)) == Err(NullTotal)
  {
    hide TableOf, Run, Accepted, WellFormedRun, Deliverable, Grown, Best, Hashes, SupplyTotal, BlockRows;
    var b := Block(Hash(1), Hash(0), 1, 0, [], []);
    FirstAreDeliverable([b]);
    HistoryIsReachable([b]);
    var evs := Deliveries([b]);
    assert evs == [NewBlock(b)];
    NoRows(b, StxEvents);
    NoRows(b, Rewards);
    TotalExactlyWhen(Run(evs), 1);
  }

  lemma NoRows<T>(b: Block, items: Block -> seq<T>)
    requires items(b) == []
    ensures TableOf([b], items, Hashes(Best([b]))) == []
  {
    assert [b][..0] == [];
  }

  /** Nothing is lost: at any height, all balances together are the unlocked supply, less the
      fees paid, plus the fee parts of matured rewards; where the supply query fails, they are
      the fees paid. */
  lemma BalancesAddUpToSupply(db: Db, addrs: seq<Address>, height: int)
    requires NoRepeats(addrs) && Covers(addrs, db)
    ensures var all, fees := SumAddresses(addrs, BalanceOf(db, height)), SumWhere(db.txs, height, AnyFee());
            match UnlockedSupply(db, Some(height))
            case Ok(supply) =>
              all == supply.stx - fees + SumWhere(db.minerRewards, height, Anchored())
                     + SumWhere(db.minerRewards, height, Confirmed()) + SumWhere(db.minerRewards, height, Produced())
            case Err(_) => all == 0 - fees
  {
    TotalIsSums(db, height);
    TotalExactlyWhen(db, height);
    if SupplyTotal(db, height).None? {
      SumOfNone(db.minerRewards, height, Anchored());
      SumOfNone(db.minerRewards, height, Confirmed());
      SumOfNone(db.minerRewards, height, Produced());
    }
    hide SupplyTotal;
    BalancesByColumn(db, addrs, height);
    CreditsAreShared(db, addrs, height);
    FeesAndRewardsAreShared(db, addrs, height);
    TransfersCancel(db.stxEvents, height);
    RewardsSplit(db.minerRewards, height);
  }
}

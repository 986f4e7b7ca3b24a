/** Burn block messages: the reward and slot-holder tables, where a message invalidates every
    row of the same burn block and every row at or above its height. The two tables are
    updated in separate transactions, either of which may fail. */
module Burnchain {
  import opened Tables

  datatype Reward = Reward(recipient: string, amount: nat, index: nat)
  datatype SlotHolder = SlotHolder(address: string, slotIndex: nat)

  /** A row of either table. */
  datatype BurnRow<+T> = BurnRow(hash: Hash, height: nat, canonical: bool, item: T)

  /** Where the handling of a message throws, if it does. */
  datatype Fault = NoFault | InRewards | InSlotHolders

  datatype BurnMsg = BurnMsg(hash: Hash, height: nat, rewards: seq<Reward>, slotHolders: seq<SlotHolder>, fault: Fault)

  /** A table: the rows a message brings, and the messages whose transaction on it commits. */
  datatype Table<!T> = Table(items: BurnMsg -> seq<T>, commits: BurnMsg -> bool)

  const REWARDS := Table((m: BurnMsg) => m.rewards, (m: BurnMsg) => !m.fault.InRewards?)
  const SLOT_HOLDERS := Table((m: BurnMsg) => m.slotHolders, (m: BurnMsg) => m.fault.NoFault?)

  /** The condition of the UPDATE: same burn block, or at or above the height. */
  predicate Invalidates(m: BurnMsg, hash: Hash, height: nat) {
    hash == m.hash || height >= m.height
  }

  predicate Hit<T>(r: BurnRow<T>, m: BurnMsg) {
    r.canonical && Invalidates(m, r.hash, r.height)
  }

  function Invalidate<T>(rows: seq<BurnRow<T>>, m: BurnMsg): (r: seq<BurnRow<T>>)
    ensures |r| == |rows|
  {
    seq(|rows|, i requires 0 <= i < |rows| => if Hit(rows[i], m) then rows[i].(canonical := false) else rows[i])
  }

  function HitCount<T>(rows: seq<BurnRow<T>>, m: BurnMsg): nat {
    if rows == [] then 0 else
    HitCount(rows[..|rows| - 1], m) + if Hit(rows[|rows| - 1], m) then 1 else 0
  }

  function RowsOf<T>(m: BurnMsg, canonical: bool, items: seq<T>): (r: seq<BurnRow<T>>)
    ensures |r| == |items|
  {
    seq(|items|, i requires 0 <= i < |items| => BurnRow(m.hash, m.height, canonical, items[i]))
  }

  /** One table after one message. */
  function StepTable<T>(rows: seq<BurnRow<T>>, m: BurnMsg, t: Table<T>): seq<BurnRow<T>> {
    if t.commits(m) then Invalidate(rows, m) + RowsOf(m, true, t.items(m)) else rows
  }

  /** One table after a sequence of messages. */
  function RunTable<T>(ms: seq<BurnMsg>, t: Table<T>): seq<BurnRow<T>> {
    if ms == [] then [] else StepTable(RunTable(ms[..|ms| - 1], t), ms[|ms| - 1], t)
  }

  /** Message i still stands: no later committed message has its hash or a height at or below
      its own. */
  predicate Stands<T>(ms: seq<BurnMsg>, t: Table<T>, i: nat)
    requires i < |ms|
  {
    forall j :: i < j < |ms| && t.commits(ms[j]) ==> ms[j].hash != ms[i].hash && ms[j].height > ms[i].height
  }

  /** The rows that message i left in the table a sequence of messages calls for. */
  function Left<T>(ms: seq<BurnMsg>, t: Table<T>, i: nat): seq<BurnRow<T>>
    requires i < |ms|
  {
    if t.commits(ms[i]) then RowsOf(ms[i], Stands(ms, t, i), t.items(ms[i])) else []
  }

  /** That table, message by message. */
  function Standing<T>(ms: seq<BurnMsg>, n: nat, t: Table<T>): seq<BurnRow<T>>
    requires n <= |ms|
  {
    if n == 0 then [] else Standing(ms, n - 1, t) + Left(ms, t, n - 1)
  }

  lemma StandsStep<T>(ms: seq<BurnMsg>, m: BurnMsg, t: Table<T>, i: nat)
    requires i < |ms|
    ensures Stands(ms + [m], t, i) <==> Stands(ms, t, i) && !(t.commits(m) && Invalidates(m, ms[i].hash, ms[i].height))
  {
    var more := ms + [m];
    assert more[|ms|] == m;
    assert forall j :: 0 <= j < |ms| ==> more[j] == ms[j];
  }

  /** The rows already there, after one more message. */
  function Kept<T>(rows: seq<BurnRow<T>>, m: BurnMsg, t: Table<T>): seq<BurnRow<T>> {
    if t.commits(m) then Invalidate(rows, m) else rows
  }

  lemma KeptConcat<T>(x: seq<BurnRow<T>>, y: seq<BurnRow<T>>, m: BurnMsg, t: Table<T>)
    ensures Kept(x + y, m, t) == Kept(x, m, t) + Kept(y, m, t)
  {
  }

  lemma LeftStep<T>(ms: seq<BurnMsg>, m: BurnMsg, t: Table<T>, i: nat)
    requires i < |ms|
    ensures Left(ms + [m], t, i) == Kept(Left(ms, t, i), m, t)
  {
    StandsStep(ms, m, t, i);
    hide Stands;
    assert (ms + [m])[i] == ms[i];
  }

  lemma {:induction false} StandingStep<T>(ms: seq<BurnMsg>, m: BurnMsg, n: nat, t: Table<T>)
    requires n <= |ms|
    ensures Standing(ms + [m], n, t) == Kept(Standing(ms, n, t), m, t)
  {
    if n > 0 {
      hide Left, Kept;
      StandingStep(ms, m, n - 1, t);
      LeftStep(ms, m, t, n - 1);
      KeptConcat(Standing(ms, n - 1, t), Left(ms, t, n - 1), m, t);
    }
  }

  /** For every sequence of messages: each committed row is there, in arrival order, and it is
      canonical exactly when no later committed message has its hash or a height at or below
      its own. */
  lemma {:induction false} TableIsStanding<T>(ms: seq<BurnMsg>, t: Table<T>)
    ensures RunTable(ms, t) == Standing(ms, |ms|, t)
  {
    if ms != [] {
      hide Invalidate, RowsOf;
      var n := |ms| - 1;
      TableIsStanding(ms[..n], t);
      StandingStep(ms[..n], ms[n], n, t);
      assert ms == ms[..n] + [ms[n]];
      assert Stands(ms, t, n);
      assert Standing(ms, n, t) + [] == Standing(ms, n, t);
    }
  }

  function Repeated(i: nat, times: nat): (r: seq<nat>)
    ensures |r| == times && forall k :: 0 <= k < times ==> r[k] == i
  {
    seq(times, _ => i)
  }

  /** For each row of the table, the message it came with. */
  function Origins<T>(ms: seq<BurnMsg>, n: nat, t: Table<T>): seq<nat>
    requires n <= |ms|
  {
    if n == 0 then [] else Origins(ms, n - 1, t) + Repeated(n - 1, |Left(ms, t, n - 1)|)
  }

  lemma {:induction false} RowOrigin<T>(ms: seq<BurnMsg>, n: nat, t: Table<T>, p: nat)
    requires n <= |ms| && p < |Standing(ms, n, t)|
    ensures |Origins(ms, n, t)| == |Standing(ms, n, t)| && Origins(ms, n, t)[p] < n
    ensures var i, r := Origins(ms, n, t)[p], Standing(ms, n, t)[p];
            r.hash == ms[i].hash && r.height == ms[i].height && r.canonical == Stands(ms, t, i) &&
            t.commits(ms[i]) && r.item in t.items(ms[i])
  {
    hide Stands;
    OriginsLength(ms, n, t);
    OriginsLength(ms, n - 1, t);
    if p < |Standing(ms, n - 1, t)| {
      RowOrigin(ms, n - 1, t, p);
    }
  }

  lemma {:induction false} OriginsLength<T>(ms: seq<BurnMsg>, n: nat, t: Table<T>)
    requires n <= |ms|
    ensures |Origins(ms, n, t)| == |Standing(ms, n, t)|
  {
    if n > 0 { OriginsLength(ms, n - 1, t); }
  }

  lemma {:induction false} OriginsAscend<T>(ms: seq<BurnMsg>, n: nat, t: Table<T>, p: nat, q: nat)
    requires n <= |ms| && p <= q < |Origins(ms, n, t)|
    ensures Origins(ms, n, t)[p] <= Origins(ms, n, t)[q] < n
  {
    hide Repeated;
    if n > 0 {
      var low := Origins(ms, n - 1, t);
      if q < |low| {
        OriginsAscend(ms, n - 1, t, p, q);
      } else if p < |low| {
        OriginsAscend(ms, n - 1, t, p, p);
      }
    }
  }

  /** Along the table, the burn heights of canonical rows never fall, and rows of different
      messages have different heights and hashes. */
  lemma SurvivorsIncrease<T>(ms: seq<BurnMsg>, t: Table<T>, p: nat, q: nat)
    requires p < q < |RunTable(ms, t)| && RunTable(ms, t)[p].canonical && RunTable(ms, t)[q].canonical
    ensures |Origins(ms, |ms|, t)| == |RunTable(ms, t)|
    ensures var x, y, from := RunTable(ms, t)[p], RunTable(ms, t)[q], Origins(ms, |ms|, t);
            && x.height <= y.height
            && (x.height == y.height <==> from[p] == from[q])
            && (x.hash == y.hash <==> from[p] == from[q])
  {
    TableIsStanding(ms, t);
    hide RunTable, Standing, Origins;
    RowOrigin(ms, |ms|, t, p);
    RowOrigin(ms, |ms|, t, q);
    OriginsAscend(ms, |ms|, t, p, q);
  }

  lemma {:induction false} StandingRow<T>(ms: seq<BurnMsg>, n: nat, t: Table<T>, r: BurnRow<T>)
    requires n <= |ms|
    ensures r in Standing(ms, n, t) <==>
            exists i :: 0 <= i < n && t.commits(ms[i]) && r.hash == ms[i].hash && r.height == ms[i].height &&
                        r.canonical == Stands(ms, t, i) && r.item in t.items(ms[i])
  {
    hide Stands;
    if n > 0 {
      StandingRow(ms, n - 1, t, r);
      var m, low, left := ms[n - 1], Standing(ms, n - 1, t), Left(ms, t, n - 1);
      if t.commits(m) && r.hash == m.hash && r.height == m.height && r.canonical == Stands(ms, t, n - 1) && r.item in t.items(m) {
        var k :| 0 <= k < |t.items(m)| && t.items(m)[k] == r.item;
        assert left[k] == r;
      }
      assert r in low + left <==> r in low || r in left;
    }
  }

  /** Both tables hold the rows of a message handled to the end. Their flags agree if and only
      if every later invalidation of it that stopped after the rewards is matched by one that
      was handled to the end. */
  lemma TablesKeepSameMessages(ms: seq<BurnMsg>, i: nat, r: Reward, s: SlotHolder)
    requires i < |ms| && ms[i].fault.NoFault? && r in ms[i].rewards && s in ms[i].slotHolders
    ensures BurnRow(ms[i].hash, ms[i].height, Stands(ms, REWARDS, i), r) in RunTable(ms, REWARDS)
    ensures BurnRow(ms[i].hash, ms[i].height, Stands(ms, SLOT_HOLDERS, i), s) in RunTable(ms, SLOT_HOLDERS)
    ensures Stands(ms, REWARDS, i) == Stands(ms, SLOT_HOLDERS, i) <==>
            (Undercut(ms, i, InSlotHolders) ==> Undercut(ms, i, NoFault))
  {
    hide RunTable, Stands, Undercut;
    KeepsRow(ms, REWARDS, i, r);
    KeepsRow(ms, SLOT_HOLDERS, i, s);
    FlagsAgree(ms, i);
  }

  lemma KeepsRow<T>(ms: seq<BurnMsg>, t: Table<T>, i: nat, x: T)
    requires i < |ms| && t.commits(ms[i]) && x in t.items(ms[i])
    ensures BurnRow(ms[i].hash, ms[i].height, Stands(ms, t, i), x) in RunTable(ms, t)
  {
    hide RunTable, Stands, Standing;
    TableIsStanding(ms, t);
    StandingRow(ms, |ms|, t, BurnRow(ms[i].hash, ms[i].height, Stands(ms, t, i), x));
  }

  lemma FlagsAgree(ms: seq<BurnMsg>, i: nat)
    requires i < |ms|
    ensures Stands(ms, SLOT_HOLDERS, i) <==> !Undercut(ms, i, NoFault)
    ensures Stands(ms, REWARDS, i) <==> !Undercut(ms, i, NoFault) && !Undercut(ms, i, InSlotHolders)
  {
    assert forall j :: i < j < |ms| ==> (REWARDS.commits(ms[j]) <==> ms[j].fault == NoFault || ms[j].fault == InSlotHolders);
    assert forall j :: i < j < |ms| ==> (SLOT_HOLDERS.commits(ms[j]) <==> ms[j].fault == NoFault);
  }

  /** A later message with this fault has the hash of message i or a height at or below its. */
  ghost predicate Undercut(ms: seq<BurnMsg>, i: nat, fault: Fault)
    requires i < |ms|
  {
    exists j :: i < j < |ms| && ms[j].fault == fault && Invalidates(ms[j], ms[i].hash, ms[i].height)
  }

  /** A burn block replaced by one whose second transaction fails: its reward is invalidated
      and its slot holder is not. */
  lemma FaultSplitsTables()
    ensures var r, s := Reward("r", 1, 0), SlotHolder("s", 0);
            var ms := [BurnMsg(Hash(1), 5, [r], [s], NoFault), BurnMsg(Hash(2), 5, [r], [s], InSlotHolders)];
            BurnRow(Hash(1), 5, false, r) in RunTable(ms, REWARDS) && BurnRow(Hash(1), 5, true, s) in RunTable(ms, SLOT_HOLDERS)
  {
    var r, s := Reward("r", 1, 0), SlotHolder("s", 0);
    var ms := [BurnMsg(Hash(1), 5, [r], [s], NoFault), BurnMsg(Hash(2), 5, [r], [s], InSlotHolders)];
    TablesKeepSameMessages(ms, 0, r, s);
    hide RunTable;
    assert Invalidates(ms[1], ms[0].hash, ms[0].height);
    assert REWARDS.commits(ms[1]) && !SLOT_HOLDERS.commits(ms[1]);
  }

  // ---- The store -------------------------------------------------------------------

  /** UPDATE ... SET canonical = false WHERE canonical = true AND (...); with its row count. */
  method InvalidateRows<T>(rows: seq<BurnRow<T>>, m: BurnMsg) returns (updated: seq<BurnRow<T>>, rowCount: nat)
    ensures updated == Invalidate(rows, m) && rowCount == HitCount(rows, m)
  {
    updated, rowCount := [], 0;
    for i := 0 to |rows|
      invariant updated == Invalidate(rows[..i], m) && rowCount == HitCount(rows[..i], m)
    {
      var row := rows[i];
      if row.canonical && (row.hash == m.hash || row.height >= m.height) {
        row := row.(canonical := false);
        rowCount := rowCount + 1;
      }
      updated := updated + [row];
      assert rows[..i + 1][..i] == rows[..i];
    }
    assert rows[..|rows|] == rows;
  }

  /** INSERT INTO ..., one row for each item. */
  method AppendRows<T>(table: seq<BurnRow<T>>, m: BurnMsg, items: seq<T>) returns (r: seq<BurnRow<T>>)
    ensures r == table + RowsOf(m, true, items)
  {
    r := table;
    for i := 0 to |items|
      invariant r == table + RowsOf(m, true, items[..i])
    {
      r := r + [BurnRow(m.hash, m.height, true, items[i])];
      assert RowsOf(m, true, items[..i + 1]) == RowsOf(m, true, items[..i]) + [BurnRow(m.hash, m.height, true, items[i])];
    }
    assert items[..|items|] == items;
  }

  class BurnStore {
    var rewards: seq<BurnRow<Reward>>
    var slotHolders: seq<BurnRow<SlotHolder>>

    constructor ()
      ensures rewards == [] && slotHolders == []
    {
      rewards, slotHolders := [], [];
    }

    method UpdateBurnchainRewards(m: BurnMsg) returns (ok: bool)
      modifies this`rewards
      ensures rewards == StepTable(old(rewards), m, REWARDS) && ok == REWARDS.commits(m)
    {
      var saved := rewards;
      var invalidated;
      rewards, invalidated := InvalidateRows(rewards, m);
      rewards := AppendRows(rewards, m, m.rewards);
      ok := !m.fault.InRewards?;
      if !ok {
        rewards := saved;
      }
    }

    method UpdateBurnchainRewardSlotHolders(m: BurnMsg) returns (ok: bool)
      modifies this`slotHolders
      ensures slotHolders == StepTable(old(slotHolders), m, SLOT_HOLDERS) && ok == SLOT_HOLDERS.commits(m)
    {
      var saved := slotHolders;
      var invalidated;
      slotHolders, invalidated := InvalidateRows(slotHolders, m);
      if m.slotHolders != [] {
        slotHolders := AppendRows(slotHolders, m, m.slotHolders);
      } else {
        assert slotHolders + RowsOf(m, true, m.slotHolders) == slotHolders;
      }
      ok := m.fault.NoFault?;
      if !ok {
        slotHolders := saved;
      }
    }

    /** The second transaction starts only when the first has committed. */
    method HandleBurnBlockMessage(m: BurnMsg)
      modifies this
      ensures rewards == StepTable(old(rewards), m, REWARDS)
      ensures slotHolders == StepTable(old(slotHolders), m, SLOT_HOLDERS)
    {
      var ok := UpdateBurnchainRewards(m);
      if ok {
        ok := UpdateBurnchainRewardSlotHolders(m);
      }
    }
  }

  /** Any sequence of messages, handled one at a time. */
  method ProcessBurnBlocks(ms: seq<BurnMsg>) returns (store: BurnStore)
    ensures fresh(store)
    ensures store.rewards == Standing(ms, |ms|, REWARDS) && store.slotHolders == Standing(ms, |ms|, SLOT_HOLDERS)
  {
    store := new BurnStore();
    for i := 0 to |ms|
      invariant fresh(store)
      invariant store.rewards == RunTable(ms[..i], REWARDS) && store.slotHolders == RunTable(ms[..i], SLOT_HOLDERS)
    {
      store.HandleBurnBlockMessage(ms[i]);
      assert ms[..i + 1][..i] == ms[..i];
    }
    assert ms[..|ms|] == ms;
    TableIsStanding(ms, REWARDS);
    TableIsStanding(ms, SLOT_HOLDERS);
  }
}

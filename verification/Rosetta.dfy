/** Rosetta operations of a transaction, built while the transaction object itself is being
    overwritten by its events. */
module Rosetta {
  import opened Tables
  import Chain
  import Ledger

  type Account = Chain.Address
  type Reward = Chain.MinerReward

  datatype TxKind = TokenTransfer | SmartContract | ContractCall | PoisonMicroblock | Coinbase
  {
    function Name(): string {
      match this
      case TokenTransfer => "token_transfer"
      case SmartContract => "smart_contract"
      case ContractCall => "contract_call"
      case PoisonMicroblock => "poison_microblock"
      case Coinbase => "coinbase"
    }

    predicate ShowsFee() { TokenTransfer? || SmartContract? || ContractCall? }
  }

  /** What a contract call names, as far as it does; the arguments are bytes. */
  datatype Call = Call(contractId: Option<string>, functionName: Option<string>, functionArgs: Option<seq<int>>,
                       rawResult: Option<string>)

  datatype Tx = Tx(kind: TxKind, txId: string, status: string, feeRate: nat, call: Call,
                   sender: Account, recipient: Option<Account>, amount: Option<nat>)

  datatype DbEvent =
    | Transfer(sender: Option<Account>, recipient: Option<Account>, amount: nat)
    | Mint(recipient: Option<Account>, amount: nat)
    | Burn(sender: Option<Account>, amount: nat)
    | Lock(address: Account)
    | NotStx

  datatype Coin = Spent(txId: string, index: nat) | Created(txId: string, index: nat)
  datatype SubAccount = SubAccount(address: string, functionName: Option<string>, functionArgs: seq<int>, rawResult: Option<string>)
  datatype Operation = Operation(index: nat, related: Option<int>, kind: string, status: string,
                                 account: Account, amount: Option<int>, coin: Option<Coin>,
                                 subAccount: Option<SubAccount> := None)

  datatype Error = MissingSender | MissingRecipient | MissingAmount

  /** What a call leaves behind: the transaction as overwritten, the operations pushed, and
      the exception thrown, if any. */
  datatype Outcome = Outcome(tx: Tx, ops: seq<Operation>, error: Option<Error>)

  /** An optional list argument, absent read as empty. */
  function Given<T>(list: Option<seq<T>>): seq<T> {
    match list case None => [] case Some(items) => items
  }

  // ---- Builders --------------------------------------------------------------------

  function FeeOp(tx: Tx): Operation {
    Operation(0, None, "fee", "success", tx.sender, Some(0 - tx.feeRate), None)
  }

  function BareOp(tx: Tx, index: nat): Operation {
    Operation(index, None, tx.kind.Name(), tx.status, tx.sender, None, None)
  }

  function CallOp(tx: Tx, index: nat): Operation {
    BareOp(tx, index).(subAccount := Some(SubAccount(
      if tx.call.contractId.Some? then tx.call.contractId.value else "",
      tx.call.functionName, Given(tx.call.functionArgs), tx.call.rawResult)))
  }

  function RewardOp(m: Reward, index: nat): Operation {
    Operation(index, None, "miner_reward", "success", m.recipient,
              Some(m.coinbase + m.feesAnchored + m.feesConfirmed + m.feesProduced), None)
  }

  function SenderOp(tx: Tx, index: nat): Result<Operation, Error> {
    if tx.amount.None? then Err(MissingAmount) else
    Ok(Operation(index, None, tx.kind.Name(), tx.status, tx.sender, Some(0 - tx.amount.value), Some(Spent(tx.txId, index))))
  }

  function ReceiverOp(tx: Tx, index: nat): Result<Operation, Error> {
    if tx.recipient.None? then Err(MissingRecipient) else
    if tx.amount.None? then Err(MissingAmount) else
    Ok(Operation(index, Some(index - 1), tx.kind.Name(), tx.status, tx.recipient.value, Some(tx.amount.value), Some(Created(tx.txId, index))))
  }

  function BurnOp(amount: nat, tx: Tx, index: nat): Operation {
    Operation(index, None, "burn", tx.status, tx.sender, Some(0 - amount), None)
  }

  function MintOp(recipient: Account, amount: nat, tx: Tx, index: nat): Operation {
    Operation(index, None, "mint", tx.status, recipient, Some(amount), None)
  }

  function LockOp(address: Account, tx: Tx, index: nat): Operation {
    Operation(index, None, "stx_lock", tx.status, address, None, None)
  }

  // ---- The call as a function ------------------------------------------------------

  function PushTransfer(o: Outcome): Outcome {
    var s := SenderOp(o.tx, |o.ops|);
    if s.Err? then o.(error := Some(s.error)) else
    var r := ReceiverOp(o.tx, |o.ops| + 1);
    if r.Err? then o.(ops := o.ops + [s.value], error := Some(r.error)) else
    o.(ops := o.ops + [s.value, r.value])
  }

  function EventStep(o: Outcome, e: DbEvent): Outcome {
    match e
    case Transfer(s, r, a) =>
      if o.tx.kind.TokenTransfer? then o
      else if s.None? then o.(error := Some(MissingSender))
      else if r.None? then o.(tx := o.tx.(sender := s.value), error := Some(MissingRecipient))
      else PushTransfer(o.(tx := o.tx.(sender := s.value, recipient := r, amount := Some(a))))
    case Burn(_, a) => o.(ops := o.ops + [BurnOp(a, o.tx, |o.ops|)])
    case Mint(r, a) =>
      if r.None? then o.(error := Some(MissingRecipient))
      else o.(ops := o.ops + [MintOp(r.value, a, o.tx, |o.ops|)])
    case Lock(x) => o.(ops := o.ops + [LockOp(x, o.tx, |o.ops|)])
    case NotStx => o
  }

  function EventSteps(o: Outcome, es: seq<DbEvent>): Outcome {
    if es == [] then o else
    var p := EventSteps(o, es[..|es| - 1]);
    if p.error.Some? then p else EventStep(p, es[|es| - 1])
  }

  function RewardOps(ops: seq<Operation>, ms: seq<Reward>): seq<Operation> {
    if ms == [] then ops else
    var p := RewardOps(ops, ms[..|ms| - 1]);
    p + [RewardOp(ms[|ms| - 1], |p|)]
  }

  function Start(tx: Tx, rewards: Option<seq<Reward>>): Outcome {
    match tx.kind
    case TokenTransfer => PushTransfer(Outcome(tx, [FeeOp(tx)], None))
    case ContractCall => Outcome(tx, [FeeOp(tx), CallOp(tx, 1)], None)
    case SmartContract => Outcome(tx, [FeeOp(tx), BareOp(tx, 1)], None)
    case Coinbase => Outcome(tx, RewardOps([BareOp(tx, 0)], Given(rewards)), None)
    case PoisonMicroblock => Outcome(tx, [BareOp(tx, 0)], None)
  }

  function Operations(tx: Tx, rewards: Option<seq<Reward>>, events: Option<seq<DbEvent>>): Outcome {
    var o := Start(tx, rewards);
    if o.error.Some? then o else EventSteps(o, Given(events))
  }

  // ---- The call as the source makes it ---------------------------------------------

  /** The transaction object; the events overwrite its last three fields. */
  class BaseTx {
    const kind: TxKind
    const txId: string
    const status: string
    const feeRate: nat
    const call: Call
    var sender: Account
    var recipient: Option<Account>
    var amount: Option<nat>

    constructor (tx: Tx)
      ensures Value() == tx
    {
      kind, txId, status, feeRate, call := tx.kind, tx.txId, tx.status, tx.feeRate, tx.call;
      sender, recipient, amount := tx.sender, tx.recipient, tx.amount;
    }

    function Value(): Tx
      reads this
    {
      Tx(kind, txId, status, feeRate, call, sender, recipient, amount)
    }
  }

  method AddTransfer(baseTx: BaseTx, operations: seq<Operation>) returns (ops: seq<Operation>, error: Option<Error>)
    ensures Outcome(baseTx.Value(), ops, error) == PushTransfer(Outcome(baseTx.Value(), operations, None))
  {
    ops, error := operations, None;
    var spent := SenderOp(baseTx.Value(), |ops|);
    if spent.Err? { error := Some(spent.error); return; }
    ops := ops + [spent.value];
    var created := ReceiverOp(baseTx.Value(), |ops|);
    if created.Err? { error := Some(created.error); return; }
    ops := ops + [created.value];
    assert ops == operations + [spent.value, created.value];
  }

  method ProcessEvent(event: DbEvent, baseTx: BaseTx, operations: seq<Operation>) returns (ops: seq<Operation>, error: Option<Error>)
    modifies baseTx
    ensures Outcome(baseTx.Value(), ops, error) == EventStep(Outcome(old(baseTx.Value()), operations, None), event)
  {
    ops, error := operations, None;
    match event
    case Transfer(s, r, a) =>
      if baseTx.kind.TokenTransfer? { return; }
      if s.None? { error := Some(MissingSender); return; }
      baseTx.sender := s.value;
      if r.None? { error := Some(MissingRecipient); return; }
      baseTx.recipient := r;
      baseTx.amount := Some(a);
      ops, error := AddTransfer(baseTx, ops);
    case Burn(_, a) =>
      ops := ops + [BurnOp(a, baseTx.Value(), |ops|)];
    case Mint(r, a) =>
      if r.None? { error := Some(MissingRecipient); return; }
      ops := ops + [MintOp(r.value, a, baseTx.Value(), |ops|)];
    case Lock(x) =>
      ops := ops + [LockOp(x, baseTx.Value(), |ops|)];
    case NotStx =>
  }

  method ProcessEvents(events: seq<DbEvent>, baseTx: BaseTx, operations: seq<Operation>) returns (ops: seq<Operation>, error: Option<Error>)
    modifies baseTx
    ensures Outcome(baseTx.Value(), ops, error) == EventSteps(Outcome(old(baseTx.Value()), operations, None), events)
  {
    hide EventStep;
    ops, error := operations, None;
    ghost var start := Outcome(baseTx.Value(), operations, None);
    for i := 0 to |events|
      invariant error.None? && Outcome(baseTx.Value(), ops, error) == EventSteps(start, events[..i])
    {
      assert events[..i + 1][..i] == events[..i];
      ops, error := ProcessEvent(events[i], baseTx, ops);
      if error.Some? {
        StopsAtError(start, events, i + 1);
        return;
      }
    }
    assert events[..|events|] == events;
  }

  lemma {:induction false} StopsAtError(o: Outcome, es: seq<DbEvent>, i: nat)
    requires i <= |es| && EventSteps(o, es[..i]).error.Some?
    ensures EventSteps(o, es) == EventSteps(o, es[..i])
  {
    if i < |es| {
      assert es[..|es| - 1][..i] == es[..i];
      StopsAtError(o, es[..|es| - 1], i);
    } else {
      assert es[..i] == es;
    }
  }

  method GetMinerOperations(rewards: seq<Reward>, operations: seq<Operation>) returns (ops: seq<Operation>)
    ensures ops == RewardOps(operations, rewards)
  {
    ops := operations;
    for i := 0 to |rewards|
      invariant ops == RewardOps(operations, rewards[..i])
    {
      assert rewards[..i + 1][..i] == rewards[..i];
      ops := ops + [RewardOp(rewards[i], |ops|)];
    }
    assert rewards[..|rewards|] == rewards;
  }

  /** `getOperations`. */
  method GetOperations(tx: BaseTx, minerRewards: Option<seq<Reward>>, events: Option<seq<DbEvent>>)
    returns (operations: seq<Operation>, error: Option<Error>)
    modifies tx
    ensures Outcome(tx.Value(), operations, error) == Operations(old(tx.Value()), minerRewards, events)
  {
    operations, error := [], None;
    match tx.kind {
      case TokenTransfer =>
        operations := operations + [FeeOp(tx.Value())];
        assert operations == [FeeOp(tx.Value())];
        operations, error := AddTransfer(tx, operations);
        if error.Some? { return; }
      case ContractCall =>
        operations := operations + [FeeOp(tx.Value())];
        operations := operations + [CallOp(tx.Value(), |operations|)];
        assert operations == [FeeOp(tx.Value()), CallOp(tx.Value(), 1)];
      case SmartContract =>
        operations := operations + [FeeOp(tx.Value())];
        operations := operations + [BareOp(tx.Value(), |operations|)];
        assert operations == [FeeOp(tx.Value()), BareOp(tx.Value(), 1)];
      case Coinbase =>
        operations := operations + [BareOp(tx.Value(), 0)];
        assert operations == [BareOp(tx.Value(), 0)];
        if minerRewards.Some? {
          operations := GetMinerOperations(minerRewards.value, operations);
        }
      case PoisonMicroblock =>
        operations := operations + [BareOp(tx.Value(), 0)];
        assert operations == [BareOp(tx.Value(), 0)];
    }
    if events.Some? {
      operations, error := ProcessEvents(events.value, tx, operations);
    }
  }

  // ---- Numbering -------------------------------------------------------------------

  /** Operation k has index k, its coin is named after k, and a related operation is the one
      just before: the spending half of the same transfer. */
  ghost predicate InPlace(ops: seq<Operation>, k: nat)
    requires k < |ops|
  {
    ops[k].index == k &&
    (ops[k].coin.Some? ==> ops[k].coin.value.index == k) &&
    (ops[k].related.Some? <==> ops[k].coin.Some? && ops[k].coin.value.Created?) &&
    (ops[k].related.Some? ==> k > 0 && ops[k].related.value == k - 1 && Halves(ops[k - 1], ops[k]))
  }

  ghost predicate Halves(spent: Operation, created: Operation) {
    spent.coin.Some? && spent.coin.value.Spent? && spent.related.None? && spent.kind == created.kind &&
    spent.amount.Some? && created.amount == Some(0 - spent.amount.value)
  }

  ghost predicate Numbered(ops: seq<Operation>) {
    forall k :: 0 <= k < |ops| ==> InPlace(ops, k)
  }

  lemma PushKeepsNumbers(ops: seq<Operation>, op: Operation)
    requires Numbered(ops) && InPlace(ops + [op], |ops|)
    ensures Numbered(ops + [op])
  {
    forall k | 0 <= k < |ops| ensures InPlace(ops + [op], k) { assert InPlace(ops, k); }
  }

  lemma TransferKeepsNumbers(o: Outcome)
    requires Numbered(o.ops)
    ensures Numbered(PushTransfer(o).ops)
  {
    var s := SenderOp(o.tx, |o.ops|);
    if s.Ok? {
      PushKeepsNumbers(o.ops, s.value);
      var r := ReceiverOp(o.tx, |o.ops| + 1);
      if r.Ok? {
        PushKeepsNumbers(o.ops + [s.value], r.value);
        assert o.ops + [s.value] + [r.value] == o.ops + [s.value, r.value];
      }
    }
  }

  lemma {:induction false} EventsKeepNumbers(o: Outcome, es: seq<DbEvent>)
    requires Numbered(o.ops)
    ensures Numbered(EventSteps(o, es).ops)
  {
    if es != [] {
      EventsKeepNumbers(o, es[..|es| - 1]);
      var p := EventSteps(o, es[..|es| - 1]);
      if p.error.None? {
        match es[|es| - 1]
        case Transfer(s, r, a) =>
          if s.Some? { TransferKeepsNumbers(p.(tx := p.tx.(sender := s.value, recipient := r, amount := Some(a)))); }
        case Burn(_, a) => PushKeepsNumbers(p.ops, BurnOp(a, p.tx, |p.ops|));
        case Mint(r, a) => if r.Some? { PushKeepsNumbers(p.ops, MintOp(r.value, a, p.tx, |p.ops|)); }
        case Lock(x) => PushKeepsNumbers(p.ops, LockOp(x, p.tx, |p.ops|));
        case NotStx =>
      }
    }
  }

  lemma {:induction false} RewardsKeepNumbers(ops: seq<Operation>, ms: seq<Reward>)
    requires Numbered(ops)
    ensures Numbered(RewardOps(ops, ms))
  {
    if ms != [] {
      RewardsKeepNumbers(ops, ms[..|ms| - 1]);
      var p := RewardOps(ops, ms[..|ms| - 1]);
      PushKeepsNumbers(p, RewardOp(ms[|ms| - 1], |p|));
    }
  }

  lemma OperationsAreNumbered(tx: Tx, rewards: Option<seq<Reward>>, events: Option<seq<DbEvent>>)
    ensures Numbered(Operations(tx, rewards, events).ops)
  {
    if tx.kind.TokenTransfer? { TransferKeepsNumbers(Outcome(tx, [FeeOp(tx)], None)); }
    if tx.kind.Coinbase? { RewardsKeepNumbers([BareOp(tx, 0)], Given(rewards)); }
    EventsKeepNumbers(Start(tx, rewards), Given(events));
  }

  // ---- What each operation says ----------------------------------------------------

  /** The type text of a transaction. */
  function KindText(kind: TxKind): string {
    if kind.TokenTransfer? then "token_transfer" else if kind.ContractCall? then "contract_call"
    else if kind.SmartContract? then "smart_contract" else if kind.Coinbase? then "coinbase" else "poison_microblock"
  }

  /** The operations of the transaction alone: its fee and its transfer, call or deployment, or
      for a coinbase the rewards that mature with it. */
  lemma OwnOperations(tx: Tx, rewards: Option<seq<Reward>>)
    requires CompleteTx(tx)
    ensures var ops, kind := Operations(tx, rewards, None).ops, KindText(tx.kind);
            var fee := Operation(0, None, "fee", "success", tx.sender, Some(0 - tx.feeRate), None, None);
            match tx.kind
            case TokenTransfer =>
              ops == [fee, Operation(1, None, kind, tx.status, tx.sender, Some(0 - tx.amount.value), Some(Spent(tx.txId, 1)), None),
                      Operation(2, Some(1), kind, tx.status, tx.recipient.value, Some(tx.amount.value), Some(Created(tx.txId, 2)), None)]
            case ContractCall =>
              ops == [fee, Operation(1, None, kind, tx.status, tx.sender, None, None,
                                     Some(SubAccount(if tx.call.contractId.None? then "" else tx.call.contractId.value, tx.call.functionName,
                                                     if tx.call.functionArgs.None? then [] else tx.call.functionArgs.value, tx.call.rawResult)))]
            case SmartContract => ops == [fee, Operation(1, None, kind, tx.status, tx.sender, None, None, None)]
            case PoisonMicroblock => ops == [Operation(0, None, kind, tx.status, tx.sender, None, None, None)]
            case Coinbase =>
              && |ops| == 1 + |Given(rewards)| && ops[0] == Operation(0, None, kind, tx.status, tx.sender, None, None, None)
              && forall i :: 0 <= i < |Given(rewards)| ==>
                   var m := Given(rewards)[i];
                   ops[i + 1] == Operation(i + 1, None, "miner_reward", "success", m.recipient,
                                           Some(m.coinbase + m.feesAnchored + m.feesConfirmed + m.feesProduced), None, None)
  {
    if tx.kind.Coinbase? { RewardOperations([BareOp(tx, 0)], Given(rewards)); }
  }

  lemma {:induction false} RewardOperations(ops: seq<Operation>, ms: seq<Reward>)
    ensures var r := RewardOps(ops, ms);
            && |r| == |ops| + |ms| && r[..|ops|] == ops
            && forall i :: 0 <= i < |ms| ==>
                 r[|ops| + i] == Operation(|ops| + i, None, "miner_reward", "success", ms[i].recipient,
                                           Some(ms[i].coinbase + ms[i].feesAnchored + ms[i].feesConfirmed + ms[i].feesProduced), None, None)
  {
    if ms != [] {
      var n := |ms| - 1;
      RewardOperations(ops, ms[..n]);
      assert forall i :: 0 <= i < n ==> ms[..n][i] == ms[i];
    }
  }

  /** What one more event adds, after the operations built so far: type, status, account, amount,
      coin and related operation of each operation. */
  lemma EventOperations(tx: Tx, rewards: Option<seq<Reward>>, es: seq<DbEvent>, e: DbEvent)
    requires Operations(tx, rewards, Some(es + [e])).error.None?
    ensures var before, after := Operations(tx, rewards, Some(es)).ops, Operations(tx, rewards, Some(es + [e])).ops;
            var n, kind := |before|, KindText(tx.kind);
            match e
            case Transfer(sender, recipient, amount) =>
              if tx.kind.TokenTransfer? then after == before else
              sender.Some? && recipient.Some? &&
              after == before + [Operation(n, None, kind, tx.status, sender.value, Some(0 - amount), Some(Spent(tx.txId, n)), None),
                                 Operation(n + 1, Some(n), kind, tx.status, recipient.value, Some(amount), Some(Created(tx.txId, n + 1)), None)]
            case Mint(recipient, amount) =>
              recipient.Some? && after == before + [Operation(n, None, "mint", tx.status, recipient.value, Some(amount), None, None)]
            case Burn(_, amount) =>
              after == before + [Operation(n, None, "burn", tx.status, LastSender(tx, es), Some(0 - amount), None, None)]
            case Lock(address) =>
              after == before + [Operation(n, None, "stx_lock", tx.status, address, None, None, None)]
            case NotStx => after == before
  {
    var more := es + [e];
    assert more[..|es|] == es;
    var start := Start(tx, rewards);
    hide Start, EventStep, LastSender;
    StartKeepsTx(tx, rewards);
    EventStepIs(EventSteps(start, es), e);
    StepsKeepTx(start, es);
  }

  lemma StartKeepsTx(tx: Tx, rewards: Option<seq<Reward>>)
    ensures Start(tx, rewards).tx == tx
  {
  }

  /** Events overwrite sender, recipient and amount, and nothing else. */
  lemma {:induction false} StepsKeepTx(o: Outcome, es: seq<DbEvent>)
    ensures var tx := EventSteps(o, es).tx;
            tx.kind == o.tx.kind && tx.txId == o.tx.txId && tx.status == o.tx.status && tx.feeRate == o.tx.feeRate && tx.call == o.tx.call
    ensures EventSteps(o, es).error.None? ==> EventSteps(o, es).tx.sender == LastSender(o.tx, es)
  {
    if es != [] { StepsKeepTx(o, es[..|es| - 1]); }
  }

  lemma EventStepIs(o: Outcome, e: DbEvent)
    requires o.error.None? && EventStep(o, e).error.None?
    ensures var n, kind, tx, after := |o.ops|, KindText(o.tx.kind), o.tx, EventStep(o, e).ops;
            match e
            case Transfer(sender, recipient, amount) =>
              if tx.kind.TokenTransfer? then after == o.ops else
              sender.Some? && recipient.Some? &&
              after == o.ops + [Operation(n, None, kind, tx.status, sender.value, Some(0 - amount), Some(Spent(tx.txId, n)), None),
                                Operation(n + 1, Some(n), kind, tx.status, recipient.value, Some(amount), Some(Created(tx.txId, n + 1)), None)]
            case Mint(recipient, amount) =>
              recipient.Some? && after == o.ops + [Operation(n, None, "mint", tx.status, recipient.value, Some(amount), None, None)]
            case Burn(_, amount) => after == o.ops + [Operation(n, None, "burn", tx.status, tx.sender, Some(0 - amount), None, None)]
            case Lock(address) => after == o.ops + [Operation(n, None, "stx_lock", tx.status, address, None, None, None)]
            case NotStx => after == o.ops
  {
  }

  // ---- Failing ---------------------------------------------------------------------

  /** The parties an event must name for its operation to be built. */
  predicate Complete(kind: TxKind, e: DbEvent) {
    match e
    case Transfer(s, r, _) => kind.TokenTransfer? || (s.Some? && r.Some?)
    case Mint(r, _) => r.Some?
    case _ => true
  }

  predicate CompleteTx(tx: Tx) {
    tx.kind.TokenTransfer? ==> tx.recipient.Some? && tx.amount.Some?
  }

  lemma EventSucceeds(o: Outcome, e: DbEvent)
    requires o.error.None?
    ensures EventStep(o, e).error.None? <==> Complete(o.tx.kind, e)
    ensures EventStep(o, e).tx.kind == o.tx.kind
  {
  }

  lemma {:induction false} EventsSucceed(o: Outcome, es: seq<DbEvent>)
    requires o.error.None?
    ensures EventSteps(o, es).error.None? <==> forall e :: e in es ==> Complete(o.tx.kind, e)
    ensures EventSteps(o, es).tx.kind == o.tx.kind
  {
    hide EventStep, Complete;
    if es != [] {
      var before, e := es[..|es| - 1], es[|es| - 1];
      EventsSucceed(o, before);
      assert e in es;
      assert es == before + [e];
      var p := EventSteps(o, before);
      if p.error.None? { EventSucceeds(p, e); }
    }
  }

  /** An exception is thrown exactly when a party or the transferred amount is missing. */
  lemma SucceedsExactlyWhenComplete(tx: Tx, rewards: Option<seq<Reward>>, events: Option<seq<DbEvent>>)
    ensures Operations(tx, rewards, events).error.None? <==>
            CompleteTx(tx) && forall e :: e in Given(events) ==> Complete(tx.kind, e)
  {
    var o := Start(tx, rewards);
    if o.error.None? { EventsSucceed(o, Given(events)); }
  }

  // ---- Amounts ---------------------------------------------------------------------

  /** The part of an amount on the given account that counts for `who`; no `who` counts all. */
  function Share(who: Option<Account>, account: Option<Account>, amount: int): int {
    if who.None? || who == account then amount else 0
  }

  function AmountFor(who: Option<Account>): Operation -> int {
    (op: Operation) => if op.amount.Some? then Share(who, Some(op.account), op.amount.value) else 0
  }

  /** What an event does to `who`, by the event alone. The transfer event of a token transfer
      repeats the transaction and does nothing more. */
  function Effect(who: Option<Account>, kind: TxKind): DbEvent -> int {
    (e: DbEvent) =>
      match e
      case Transfer(s, r, a) => if kind.TokenTransfer? then 0 else Share(who, r, a) - Share(who, s, a)
      case Mint(r, a) => Share(who, r, a)
      case Burn(s, a) => 0 - Share(who, s, a)
      case _ => 0
  }

  function RewardFor(who: Option<Account>): Reward -> int {
    (m: Reward) => Share(who, Some(m.recipient), m.coinbase + m.feesAnchored + m.feesConfirmed + m.feesProduced)
  }

  /** What the transaction itself does to `who`: its fee where one is shown, its transfer, and
      for a coinbase the matured rewards. */
  function OwnEffect(who: Option<Account>, tx: Tx, rewards: Option<seq<Reward>>): int {
    (if tx.kind.ShowsFee() then 0 - Share(who, Some(tx.sender), tx.feeRate) else 0) +
    (if tx.kind.TokenTransfer? && tx.amount.Some? then
       Share(who, tx.recipient, tx.amount.value) - Share(who, Some(tx.sender), tx.amount.value) else 0) +
    (if tx.kind.Coinbase? then Ledger.SumItems(Given(rewards), RewardFor(who)) else 0)
  }

  function Expected(who: Option<Account>, tx: Tx, rewards: Option<seq<Reward>>, es: seq<DbEvent>): int {
    OwnEffect(who, tx, rewards) + Ledger.SumItems(es, Effect(who, tx.kind))
  }

  function Net(who: Option<Account>, ops: seq<Operation>): int {
    Ledger.SumItems(ops, AmountFor(who))
  }

  /** The sender of the last transfer event, or of the transaction before any. */
  function LastSender(tx: Tx, es: seq<DbEvent>): Account {
    if es == [] then tx.sender else
    var e := es[|es| - 1];
    if e.Transfer? && e.sender.Some? && !tx.kind.TokenTransfer? then e.sender.value
    else LastSender(tx, es[..|es| - 1])
  }

  /** What `who` is owed because burns are booked on the last sender. */
  function Misbooked(who: Option<Account>, tx: Tx, es: seq<DbEvent>): int {
    if es == [] then 0 else
    var before, e := es[..|es| - 1], es[|es| - 1];
    Misbooked(who, tx, before) +
    if e.Burn? then Share(who, e.sender, e.amount) - Share(who, Some(LastSender(tx, before)), e.amount) else 0
  }

  lemma NetPush(who: Option<Account>, ops: seq<Operation>, op: Operation)
    ensures Net(who, ops + [op]) == Net(who, ops) + AmountFor(who)(op)
  {
    assert (ops + [op])[..|ops|] == ops;
  }

  lemma NetOne(who: Option<Account>, op: Operation)
    ensures Net(who, [op]) == AmountFor(who)(op)
  {
    NetPush(who, [], op);
    assert [] + [op] == [op];
  }

  lemma NetTransfer(who: Option<Account>, o: Outcome)
    requires o.error.None? && PushTransfer(o).error.None?
    ensures Net(who, PushTransfer(o).ops) ==
            Net(who, o.ops) + Share(who, o.tx.recipient, o.tx.amount.value) - Share(who, Some(o.tx.sender), o.tx.amount.value)
  {
    var s, r := SenderOp(o.tx, |o.ops|).value, ReceiverOp(o.tx, |o.ops| + 1).value;
    NetPush(who, o.ops, s);
    NetPush(who, o.ops + [s], r);
    assert o.ops + [s] + [r] == o.ops + [s, r];
  }

  lemma NetEvent(who: Option<Account>, o: Outcome, e: DbEvent)
    requires o.error.None? && EventStep(o, e).error.None?
    ensures Net(who, EventStep(o, e).ops) == Net(who, o.ops) + Effect(who, o.tx.kind)(e) +
            if e.Burn? then Share(who, e.sender, e.amount) - Share(who, Some(o.tx.sender), e.amount) else 0
  {
    hide Net;
    match e
    case Transfer(s, r, a) =>
      if !o.tx.kind.TokenTransfer? {
        NetTransfer(who, o.(tx := o.tx.(sender := s.value, recipient := r, amount := Some(a))));
      }
    case Burn(_, a) => NetPush(who, o.ops, BurnOp(a, o.tx, |o.ops|));
    case Mint(r, a) => NetPush(who, o.ops, MintOp(r.value, a, o.tx, |o.ops|));
    case Lock(x) => NetPush(who, o.ops, LockOp(x, o.tx, |o.ops|));
    case NotStx =>
  }

  lemma {:induction false} NetEvents(who: Option<Account>, o: Outcome, es: seq<DbEvent>)
    requires EventSteps(o, es).error.None?
    ensures var p := EventSteps(o, es);
            p.tx.kind == o.tx.kind && p.tx.sender == LastSender(o.tx, es) &&
            Net(who, p.ops) == Net(who, o.ops) + Ledger.SumItems(es, Effect(who, o.tx.kind)) + Misbooked(who, o.tx, es)
  {
    if es != [] {
      var before := es[..|es| - 1];
      NetEvents(who, o, before);
      NetEvent(who, EventSteps(o, before), es[|es| - 1]);
    }
  }

  lemma {:induction false} NetRewards(who: Option<Account>, ops: seq<Operation>, ms: seq<Reward>)
    ensures Net(who, RewardOps(ops, ms)) == Net(who, ops) + Ledger.SumItems(ms, RewardFor(who))
  {
    if ms != [] {
      NetRewards(who, ops, ms[..|ms| - 1]);
      var p := RewardOps(ops, ms[..|ms| - 1]);
      NetPush(who, p, RewardOp(ms[|ms| - 1], |p|));
    }
  }

  lemma NetStart(who: Option<Account>, tx: Tx, rewards: Option<seq<Reward>>)
    requires Start(tx, rewards).error.None?
    ensures Net(who, Start(tx, rewards).ops) == OwnEffect(who, tx, rewards) && Start(tx, rewards).tx == tx
  {
    hide Net;
    var fee := FeeOp(tx);
    var bare := if tx.kind.ContractCall? then CallOp(tx, 1) else BareOp(tx, if tx.kind.ShowsFee() then 1 else 0);
    NetOne(who, fee);
    NetOne(who, bare);
    NetPush(who, [fee], bare);
    assert [fee] + [bare] == [fee, bare];
    if tx.kind.TokenTransfer? { NetTransfer(who, Outcome(tx, [fee], None)); }
    if tx.kind.Coinbase? { NetRewards(who, [bare], Given(rewards)); }
  }

  /** Operations that were built at all book, on every account, what fee, transfers, mints,
      rewards and burns do to it, corrected by the burns booked on someone else. */
  lemma OperationsBook(who: Option<Account>, tx: Tx, rewards: Option<seq<Reward>>, es: seq<DbEvent>)
    requires Operations(tx, rewards, Some(es)).error.None?
    ensures Net(who, Operations(tx, rewards, Some(es)).ops) == Expected(who, tx, rewards, es) + Misbooked(who, tx, es)
    ensures Operations(tx, rewards, Some(es)).tx.sender == LastSender(tx, es)
  {
    hide Net, OwnEffect, Start;
    NetStart(who, tx, rewards);
    NetEvents(who, Start(tx, rewards), es);
  }

  function MintedBy(e: DbEvent): int { if e.Mint? then e.amount else 0 }
  function BurnedBy(e: DbEvent): int { if e.Burn? then e.amount else 0 }

  lemma {:induction false} TotalEffect(tx: Tx, es: seq<DbEvent>)
    ensures Ledger.SumItems(es, Effect(None, tx.kind)) == Ledger.SumItems(es, MintedBy) - Ledger.SumItems(es, BurnedBy)
    ensures Misbooked(None, tx, es) == 0
  {
    if es != [] { TotalEffect(tx, es[..|es| - 1]); }
  }

  /** Over all accounts the amounts are mints less burns and fee, plus a coinbase's matured
      rewards: transfers cancel and misbooked burns do not show. Poison microblocks and
      coinbases show no fee, so for them a positive fee is missing. */
  lemma AmountsAddUp(tx: Tx, rewards: Option<seq<Reward>>, es: seq<DbEvent>)
    requires Operations(tx, rewards, Some(es)).error.None?
    ensures var matured := if tx.kind.Coinbase? then Ledger.SumItems(Given(rewards), RewardFor(None)) else 0;
            Net(None, Operations(tx, rewards, Some(es)).ops) ==
              Ledger.SumItems(es, MintedBy) - Ledger.SumItems(es, BurnedBy) - tx.feeRate + matured
            <==> tx.kind.ShowsFee() || tx.feeRate == 0
  {
    OperationsBook(None, tx, rewards, es);
    TotalEffect(tx, es);
  }

  const NO_CALL := Call(None, None, None, None)

  /** A poison-microblock transaction with fee 1: its only operation has no amount. */
  lemma PoisonFeeIsMissing()
    ensures var tx := Tx(PoisonMicroblock, "t", "success", 1, NO_CALL, Chain.Address("a"), None, None);
            var r := Operations(tx, None, Some([]));
            r.error.None? && |r.ops| == 1 && r.ops[0].amount.None? && Net(None, r.ops) == 0 != 0 - tx.feeRate
  {
    var tx := Tx(PoisonMicroblock, "t", "success", 1, NO_CALL, Chain.Address("a"), None, None);
    assert Operations(tx, None, Some([])).ops == [BareOp(tx, 0)];
    NetOne(None, BareOp(tx, 0));
  }

  // ---- Accounts --------------------------------------------------------------------

  /** After the first i events every account is booked what those events do to it. */
  ghost predicate AccountsAgree(tx: Tx, rewards: Option<seq<Reward>>, es: seq<DbEvent>) {
    forall a :: Net(Some(a), Operations(tx, rewards, Some(es)).ops) == Expected(Some(a), tx, rewards, es)
  }

  /** Every burn is made by the sender of the last transfer before it. */
  ghost predicate BurnsByLastSender(tx: Tx, es: seq<DbEvent>) {
    forall i :: 0 <= i < |es| && es[i].Burn? && es[i].amount > 0 ==> es[i].sender == Some(LastSender(tx, es[..i]))
  }

  lemma PrefixSucceeds(tx: Tx, rewards: Option<seq<Reward>>, es: seq<DbEvent>, i: nat)
    requires Operations(tx, rewards, Some(es)).error.None? && i <= |es|
    ensures Operations(tx, rewards, Some(es[..i])).error.None?
  {
    hide Operations;
    SucceedsExactlyWhenComplete(tx, rewards, Some(es));
    SucceedsExactlyWhenComplete(tx, rewards, Some(es[..i]));
  }

  lemma {:induction false} NothingMisbooked(a: Account, tx: Tx, es: seq<DbEvent>)
    requires BurnsByLastSender(tx, es)
    ensures Misbooked(Some(a), tx, es) == 0
  {
    if es != [] {
      var before := es[..|es| - 1];
      forall i | 0 <= i < |before| && before[i].Burn? && before[i].amount > 0
        ensures before[i].sender == Some(LastSender(tx, before[..i]))
      {
        assert es[i] == before[i] && before[..i] == es[..i];
      }
      NothingMisbooked(a, tx, before);
    }
  }

  /** Account by account the operations are right, however far the events have come, exactly
      when every burn is made by the sender of the last transfer before it. */
  lemma AccountsAgreeExactlyWhen(tx: Tx, rewards: Option<seq<Reward>>, es: seq<DbEvent>)
    requires Operations(tx, rewards, Some(es)).error.None?
    ensures (forall i :: 0 <= i <= |es| ==> AccountsAgree(tx, rewards, es[..i])) <==> BurnsByLastSender(tx, es)
  {
    if BurnsByLastSender(tx, es) {
      forall i | 0 <= i <= |es| ensures AccountsAgree(tx, rewards, es[..i]) { AgreeOnPrefix(tx, rewards, es, i); }
    }
    if forall i :: 0 <= i <= |es| ==> AccountsAgree(tx, rewards, es[..i]) {
      forall i | 0 <= i < |es| && es[i].Burn? && es[i].amount > 0
        ensures es[i].sender == Some(LastSender(tx, es[..i]))
      {
        AgreementNamesBurner(tx, rewards, es, i);
      }
    }
  }

  lemma AgreeOnPrefix(tx: Tx, rewards: Option<seq<Reward>>, es: seq<DbEvent>, i: nat)
    requires Operations(tx, rewards, Some(es)).error.None? && i <= |es| && BurnsByLastSender(tx, es)
    ensures AccountsAgree(tx, rewards, es[..i])
  {
    hide Operations, Net, Expected;
    PrefixSucceeds(tx, rewards, es, i);
    assert forall j :: 0 <= j < i ==> es[..i][..j] == es[..j];
    forall a ensures Net(Some(a), Operations(tx, rewards, Some(es[..i])).ops) == Expected(Some(a), tx, rewards, es[..i]) {
      OperationsBook(Some(a), tx, rewards, es[..i]);
      NothingMisbooked(a, tx, es[..i]);
    }
  }

  lemma AgreementNamesBurner(tx: Tx, rewards: Option<seq<Reward>>, es: seq<DbEvent>, i: nat)
    requires Operations(tx, rewards, Some(es)).error.None? && i < |es| && es[i].Burn? && es[i].amount > 0
    requires AccountsAgree(tx, rewards, es[..i]) && AccountsAgree(tx, rewards, es[..i + 1])
    ensures es[i].sender == Some(LastSender(tx, es[..i]))
  {
    hide Operations, Net, Expected, LastSender;
    var a := LastSender(tx, es[..i]);
    PrefixSucceeds(tx, rewards, es, i);
    PrefixSucceeds(tx, rewards, es, i + 1);
    OperationsBook(Some(a), tx, rewards, es[..i]);
    OperationsBook(Some(a), tx, rewards, es[..i + 1]);
    assert es[..i + 1][..i] == es[..i] && es[..i + 1][i] == es[i];
  }

  /** The burns booked on each account amount to the burns it made. */
  ghost predicate BurnsBalance(tx: Tx, es: seq<DbEvent>) {
    forall a :: BookedBurns(tx, es, a) == MadeBurns(es, a)
  }

  /** For the list itself: every account is right in the end exactly when the burns booked on
      each account amount to the burns it made. */
  lemma FinalAccountsAgreeExactlyWhen(tx: Tx, rewards: Option<seq<Reward>>, es: seq<DbEvent>)
    requires Operations(tx, rewards, Some(es)).error.None?
    ensures AccountsAgree(tx, rewards, es) <==> BurnsBalance(tx, es)
  {
    if AccountsAgree(tx, rewards, es) {
      forall a ensures BookedBurns(tx, es, a) == MadeBurns(es, a) { AccountAgrees(tx, rewards, es, a); }
    }
    if BurnsBalance(tx, es) {
      forall a ensures Net(Some(a), Operations(tx, rewards, Some(es)).ops) == Expected(Some(a), tx, rewards, es) {
        AccountAgrees(tx, rewards, es, a);
      }
    }
  }

  lemma AccountAgrees(tx: Tx, rewards: Option<seq<Reward>>, es: seq<DbEvent>, a: Account)
    requires Operations(tx, rewards, Some(es)).error.None?
    ensures Net(Some(a), Operations(tx, rewards, Some(es)).ops) == Expected(Some(a), tx, rewards, es) <==>
            BookedBurns(tx, es, a) == MadeBurns(es, a)
  {
    hide Operations, Net, Expected;
    OperationsBook(Some(a), tx, rewards, es);
    MisbookedIsDifference(tx, es, a);
  }

  /** What an account burned by the events. */
  function MadeBurns(es: seq<DbEvent>, a: Account): int {
    if es == [] then 0 else
    var e := es[|es| - 1];
    MadeBurns(es[..|es| - 1], a) + if e.Burn? && e.sender == Some(a) then e.amount else 0
  }

  /** What is burned while the account is the last sender. */
  function BookedBurns(tx: Tx, es: seq<DbEvent>, a: Account): int {
    if es == [] then 0 else
    var before, e := es[..|es| - 1], es[|es| - 1];
    BookedBurns(tx, before, a) + if e.Burn? && LastSender(tx, before) == a then e.amount else 0
  }

  lemma {:induction false} MisbookedIsDifference(tx: Tx, es: seq<DbEvent>, a: Account)
    ensures Misbooked(Some(a), tx, es) == MadeBurns(es, a) - BookedBurns(tx, es, a)
  {
    if es != [] { MisbookedIsDifference(tx, es[..|es| - 1], a); }
  }

  /** Without burns every account is right. */
  lemma BurnFreeAccountsAgree(tx: Tx, rewards: Option<seq<Reward>>, es: seq<DbEvent>)
    requires Operations(tx, rewards, Some(es)).error.None? && forall e :: e in es ==> !e.Burn?
    ensures AccountsAgree(tx, rewards, es)
  {
    AgreeOnPrefix(tx, rewards, es, |es|);
    assert es[..|es|] == es;
  }

  /** A contract call by `a` in which `b` pays `c` and then `a` burns: the burn is booked on b. */
  lemma BurnBookedOnWrongAccount()
    ensures var a, b, c := Chain.Address("a"), Chain.Address("b"), Chain.Address("c");
            var tx := Tx(ContractCall, "t", "success", 0, NO_CALL, a, None, None);
            var es := [Transfer(Some(b), Some(c), 1), Burn(Some(a), 5)];
            var ops := Operations(tx, None, Some(es)).ops;
            |ops| == 5 && ops[4].account == b && ops[4].amount == Some(-5) && !AccountsAgree(tx, None, es)
  {
    var a, b, c := Chain.Address("a"), Chain.Address("b"), Chain.Address("c");
    var tx := Tx(ContractCall, "t", "success", 0, NO_CALL, a, None, None);
    var es := [Transfer(Some(b), Some(c), 1), Burn(Some(a), 5)];
    assert "a"[0] != "b"[0];
    assert a != b;
    assert es[..1] == [es[0]] && es[..1][..0] == [];
    assert es == es[..1] + [es[1]];
    var start := Start(tx, None);
    assert EventSteps(start, es[..1][..0]) == start;
    assert |EventSteps(start, es[..1]).ops| == 4 && EventSteps(start, es[..1]).tx.sender == b;
    OperationsBook(Some(a), tx, None, es);
    assert LastSender(tx, es[..1]) == b;
    assert Misbooked(Some(a), tx, es[..1]) == 0;
    assert Misbooked(Some(a), tx, es) == 5;
  }
}

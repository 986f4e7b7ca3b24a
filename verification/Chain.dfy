/** The forking chain as the node reports it, and the branch a reader should see: the
    ancestors of the first-stored block of greatest height. Nothing here mentions flags or
    reorganisation; the store is compared with these definitions. */
module Chain {
  import opened Tables

  datatype TxId = TxId(value: nat)
  datatype Address = Address(text: string)

  /** `target` is the contract called or deployed, or the recipient of a token transfer. */
  datatype Tx = Tx(txId: TxId, txIndex: nat, sender: Address, feeRate: nat, target: Option<Address>)
  /** The node's message carries the sender and recipient that each kind has. */
  datatype StxMove =
    | Transfer(sender: Address, recipient: Address, amount: nat)
    | Mint(recipient: Address, amount: nat)
    | Burn(sender: Address, amount: nat)
  datatype StxEvent = StxEvent(txId: TxId, eventIndex: nat, move: StxMove)
  datatype StxLock = StxLock(txId: TxId, address: Address, amount: nat, unlockHeight: nat)
  datatype MinerReward = MinerReward(recipient: Address, coinbase: nat, feesAnchored: nat,
                                     feesConfirmed: nat, feesProduced: nat)
  /** An asset identifier and a token value, compared only for equality. */
  datatype Asset = Asset(id: nat)
  datatype TokenValue = TokenValue(id: nat)
  datatype FtEvent = FtEvent(asset: Asset, sender: Option<Address>, recipient: Option<Address>, amount: nat)
  datatype NftEvent = NftEvent(asset: Asset, value: TokenValue, sender: Option<Address>, recipient: Option<Address>,
                               txIndex: nat, eventIndex: nat)
  datatype ContractLog = ContractLog(contract: string, topic: string, value: string)
  datatype SmartContract = SmartContract(contractId: string, source: string, abi: string)

  /** One transaction of a block message with everything it produced. */
  datatype TxEntry = TxEntry(tx: Tx, stxEvents: seq<StxEvent>, contractLogs: seq<ContractLog>,
                             stxLocks: seq<StxLock>, ftEvents: seq<FtEvent>, nftEvents: seq<NftEvent>,
                             smartContracts: seq<SmartContract>)

  /** One block message. Its entities carry the block's own hash and height. */
  datatype Block = Block(hash: Hash, parent: Hash, height: nat, burnHeight: nat,
                         rewards: seq<MinerReward>, txs: seq<TxEntry>)

  /** The stored block with this hash and height. */
  function Lookup(bs: seq<Block>, hash: Hash, height: int): (r: Option<Block>)
    ensures r.Some? ==> r.value in bs && r.value.hash == hash && r.value.height == height
    ensures r.None? ==> forall b :: b in bs ==> b.hash != hash || b.height != height
  {
    if bs == [] then None else
    var n := |bs| - 1;
    assert bs == bs[..n] + [bs[n]];
    var r := Lookup(bs[..n], hash, height);
    if r.Some? then r
    else if bs[n].hash == hash && bs[n].height == height then Some(bs[n]) else None
  }

  function Parent(bs: seq<Block>, b: Block): (r: Option<Block>)
    ensures r.Some? ==> r.value in bs && r.value.hash == b.parent && r.value.height + 1 == b.height
  {
    Lookup(bs, b.parent, b.height - 1)
  }

  /** The parent-link ancestors of b, oldest first, b last. */
  function Branch(bs: seq<Block>, b: Block): (r: seq<Block>)
    decreases b.height
  {
    match Parent(bs, b)
    case Some(p) => Branch(bs, p) + [b]
    case None => [b]
  }

  /** The first-stored block among those of greatest height. */
  function Tip(bs: seq<Block>): (r: Block)
    requires bs != []
    ensures r in bs
    ensures forall b :: b in bs ==> b.height <= r.height
  {
    var n := |bs| - 1;
    assert bs == bs[..n] + [bs[n]];
    if n == 0 || bs[n].height > Tip(bs[..n]).height then bs[n] else Tip(bs[..n])
  }

  /** The branch that should be canonical. */
  function Best(bs: seq<Block>): seq<Block> {
    if bs == [] then [] else Branch(bs, Tip(bs))
  }

  function Hashes(bs: seq<Block>): set<Hash> {
    set b | b in bs :: b.hash
  }

  /** What a store holds once orphans without a parent have been turned away. */
  ghost predicate Grown(bs: seq<Block>) {
    && Distinct(bs)
    && (forall b :: b in bs ==> b.height >= 1)
    && (forall b {:trigger Parent(bs, b)} :: b in bs && b.height > 1 ==> Parent(bs, b).Some?)
  }

  /** The primary key: no two stored blocks share a hash. */
  ghost predicate Distinct(bs: seq<Block>) {
    forall i, j :: 0 <= i < j < |bs| ==> bs[i].hash != bs[j].hash
  }

  lemma SameHashSameBlock(bs: seq<Block>, a: Block, b: Block)
    requires Distinct(bs) && a in bs && b in bs && a.hash == b.hash
    ensures a == b
  {
  }

  /** A branch has exactly one block per height, starting at height 1. */
  lemma {:induction false} BranchShape(bs: seq<Block>, b: Block)
    requires Grown(bs) && b in bs
    ensures |Branch(bs, b)| == b.height && Branch(bs, b)[b.height - 1] == b
    ensures Levelled(bs, Branch(bs, b))
    decreases b.height
  {
    if b.height > 1 {
      BranchShape(bs, Parent(bs, b).value);
    }
  }

  /** A sequence of stored blocks holding one block for each height from 1 up. */
  ghost predicate Levelled(bs: seq<Block>, a: seq<Block>) {
    forall k :: 0 <= k < |a| ==> a[k] in bs && a[k].height == k + 1
  }

  /** Every prefix of a branch is the branch of its own last block. */
  lemma {:induction false} BranchPrefix(bs: seq<Block>, b: Block, k: nat)
    requires Grown(bs) && b in bs && k < b.height
    ensures |Branch(bs, b)| == b.height
    ensures Branch(bs, b)[..k + 1] == Branch(bs, Branch(bs, b)[k])
    decreases b.height
  {
    BranchShape(bs, b);
    if k < b.height - 1 {
      var p := Parent(bs, b).value;
      BranchShape(bs, p);
      BranchPrefix(bs, p, k);
      assert Branch(bs, b)[..k + 1] == Branch(bs, p)[..k + 1];
    } else {
      assert Branch(bs, b)[..k + 1] == Branch(bs, b);
    }
  }

  /** Links of a branch are parent links. */
  lemma BranchLink(bs: seq<Block>, b: Block, k: nat)
    requires Grown(bs) && b in bs && 0 < k < b.height
    ensures |Branch(bs, b)| == b.height
    ensures Parent(bs, Branch(bs, b)[k]) == Some(Branch(bs, b)[k - 1])
  {
    BranchShape(bs, b);
    var x := Branch(bs, b)[k];
    BranchPrefix(bs, b, k);
    var p := Parent(bs, x).value;
    BranchShape(bs, p);
    assert Branch(bs, x)[k - 1] == p;
    assert Branch(bs, b)[..k + 1][k - 1] == p;
  }

  lemma LookupStable(bs: seq<Block>, x: Block, hash: Hash, height: int)
    ensures Lookup(bs, hash, height).Some? ==> Lookup(bs + [x], hash, height) == Lookup(bs, hash, height)
  {
    assert (bs + [x])[..|bs|] == bs;
  }

  /** Later arrivals do not change the branch of a stored block. */
  lemma {:induction false} BranchStable(bs: seq<Block>, x: Block, b: Block)
    requires Grown(bs) && b in bs && x.height >= 1
    ensures Branch(bs + [x], b) == Branch(bs, b)
    decreases b.height
  {
    LookupStable(bs, x, b.parent, b.height - 1);
    if b.height > 1 {
      BranchStable(bs, x, Parent(bs, b).value);
    }
  }

  /** Storing a new block whose parent is present keeps the set well grown. */
  lemma GrownExtend(bs: seq<Block>, x: Block)
    requires Grown(bs) && x.height >= 1 && x.hash !in Hashes(bs)
    requires x.height > 1 ==> Parent(bs, x).Some?
    ensures Grown(bs + [x])
  {
    forall b | b in bs + [x] && b.height > 1
      ensures Parent(bs + [x], b).Some?
    {
      LookupStable(bs, x, b.parent, b.height - 1);
      assert Parent(bs, b).Some?;
    }
    forall i, j | 0 <= i < j < |bs + [x]|
      ensures (bs + [x])[i].hash != (bs + [x])[j].hash
    {
      assert bs != [] ==> (bs + [x])[i] in bs;
    }
  }

  /** How the branch to show changes when a block arrives: it moves only for a strictly
      higher block, and then to that block's own ancestors. */
  lemma BestExtend(bs: seq<Block>, x: Block)
    requires x.height > 1 ==> Parent(bs, x).Some?
    requires Grown(bs) && Grown(bs + [x])
    ensures bs != [] && x.height <= Tip(bs).height ==> Best(bs + [x]) == Best(bs)
    ensures (bs == [] || x.height > Tip(bs).height) ==>
              Best(bs + [x]) == (if x.height > 1 then Branch(bs, Parent(bs, x).value) else []) + [x]
  {
    assert (bs + [x])[..|bs|] == bs;
    assert x in bs + [x];
    if bs != [] && x.height <= Tip(bs).height {
      BranchStable(bs, x, Tip(bs));
    } else {
      assert Tip(bs + [x]) == x;
      if x.height > 1 {
        LookupStable(bs, x, x.parent, x.height - 1);
        BranchStable(bs, x, Parent(bs, x).value);
      } else if Parent(bs + [x], x).Some? {
        assert false;
      }
    }
  }

  /** Tip is characterised by order of arrival: no block is higher, and every block stored
      before it is lower. */
  lemma {:induction false} TipIsFirstHighest(bs: seq<Block>, i: nat)
    requires Grown(bs) && i < |bs|
    ensures bs[i] == Tip(bs) <==>
            (forall j :: 0 <= j < |bs| ==> bs[j].height <= bs[i].height) &&
            (forall j :: 0 <= j < i ==> bs[j].height < bs[i].height)
  {
    var k := TipIndex(bs);
    assert bs[k] in bs && bs[i] in bs;
  }

  /** The place of the tip in arrival order. */
  lemma {:induction false} TipIndex(bs: seq<Block>) returns (k: nat)
    requires bs != []
    ensures k < |bs| && bs[k] == Tip(bs)
    ensures forall j :: 0 <= j < k ==> bs[j].height < bs[k].height
  {
    var n := |bs| - 1;
    if n == 0 || bs[n].height > Tip(bs[..n]).height {
      k := n;
      forall j | 0 <= j < n ensures bs[j].height < bs[n].height {
        assert bs[j] in bs[..n];
      }
    } else {
      k := TipIndex(bs[..n]);
      forall j | 0 <= j < k ensures bs[j].height < bs[k].height {
        assert bs[..n][j].height < bs[..n][k].height;
      }
    }
  }

  /** Length of the common prefix: the fork height of two branches. */
  function Fork(a: seq<Block>, b: seq<Block>): (f: nat)
    ensures f <= |a| && f <= |b| && a[..f] == b[..f]
    ensures f < |a| && f < |b| ==> a[f] != b[f]
  {
    if a == [] || b == [] || a[0] != b[0] then 0 else
    var f := 1 + Fork(a[1..], b[1..]);
    assert a[..f] == [a[0]] + a[1..][..f - 1];
    assert b[..f] == [b[0]] + b[1..][..f - 1];
    f
  }

  lemma ForkAbove(a: seq<Block>, b: seq<Block>, k: nat)
    requires k < |a| && k < |b| && a[..k + 1] == b[..k + 1]
    ensures k < Fork(a, b)
  {
    forall i | 0 <= i <= k ensures a[i] == b[i] {
      assert a[i] == a[..k + 1][i] == b[..k + 1][i] == b[i];
    }
  }

  /** Two branches that part never meet again. */
  lemma BranchesPartForGood(bs: seq<Block>, a: Block, b: Block, k: nat)
    requires Grown(bs) && a in bs && b in bs && k < a.height && k < b.height
    ensures |Branch(bs, a)| == a.height && |Branch(bs, b)| == b.height
    ensures Branch(bs, a)[k] == Branch(bs, b)[k] <==> k < Fork(Branch(bs, a), Branch(bs, b))
  {
    BranchShape(bs, a);
    BranchShape(bs, b);
    var A, B := Branch(bs, a), Branch(bs, b);
    var f := Fork(A, B);
    if k < f {
      assert A[..f][k] == B[..f][k];
    } else if A[k] == B[k] {
      BranchPrefix(bs, a, k);
      BranchPrefix(bs, b, k);
      ForkAbove(A, B, k);
      assert false;
    }
  }
}

/** What addresses are told about a transaction: the sets collected when its block arrives and
    the totals the socket handler computes from them. */
module AddressUpdates {
  import opened Tables
  import opened Chain
  import opened Ledger
  import opened AddressQuery

  // ---- The socket handler ----------------------------------------------------------

  /** The `addressUpdate` handler: `es` are the events recorded for the address by
      `emitAddressTxUpdates`, each once. */
  method SocketTotals(tx: Tx, es: seq<StxEvent>, a: Address) returns (t: TxTotals)
    ensures t == TotalsFor(a, tx, es)
  {
    var stxSent, stxReceived, stxTransfers := 0, 0, [];
    for i := 0 to |es|
      invariant stxSent == SumItems(es[..i], DebitFrom(a)) && stxReceived == SumItems(es[..i], CreditTo(a))
      invariant stxTransfers == Moves(es[..i])
    {
      var m := es[i].move;
      assert es[..i + 1][..i] == es[..i];
      if !m.Burn? && m.recipient == a {
        stxReceived := stxReceived + m.amount;
      }
      if !m.Mint? && m.sender == a {
        stxSent := stxSent + m.amount;
      }
      stxTransfers := stxTransfers + [m];
    }
    assert es[..|es|] == es;
    if tx.sender == a {
      stxSent := stxSent + tx.feeRate;
    }
    t := TxTotals(stxSent, stxReceived, stxTransfers);
  }

  // ---- Who is told about a transaction ---------------------------------------------

  /** Per address, the places in the transaction's event list of the events it is told about.
      A place stands for the event object, so that a set holds it once. */
  type Updates = map<Address, seq<nat>>

  function Told(u: Updates, a: Address): seq<nat> {
    if a in u then u[a] else []
  }

  /** An empty string counts as no address. */
  predicate IsPresent(a: Address) { a.text != "" }

  /** `addAddressTx`: the address is known, and the event, if any, is in its set. */
  function AddAddressTx(u: Updates, a: Address, event: Option<nat>): Updates {
    if !IsPresent(a) then u else
    u[a := if event.Some? && event.value !in Told(u, a) then Told(u, a) + [event.value] else Told(u, a)]
  }

  function AddParties(u: Updates, sender: Option<Address>, recipient: Option<Address>, event: Option<nat>): Updates {
    var v := match sender case Some(s) => AddAddressTx(u, s, event) case None => u;
    match recipient case Some(r) => AddAddressTx(v, r, event) case None => v
  }

  function SenderOf(m: StxMove): Option<Address> { if m.Mint? then None else Some(m.sender) }
  function RecipientOf(m: StxMove): Option<Address> { if m.Burn? then None else Some(m.recipient) }

  /** The places of the events that touch an address. */
  function Touching(es: seq<StxEvent>, a: Address): (r: seq<nat>)
    ensures forall p :: p in r ==> p < |es|
  {
    if es == [] then [] else
    var n := |es| - 1;
    Touching(es[..n], a) + if Touches(a)(es[n]) then [n] else []
  }

  /** A transfer to oneself names the address twice and is recorded once. */
  lemma PartiesAreTold(u: Updates, e: StxEvent, n: nat, a: Address)
    requires n !in Told(u, a)
    ensures var v := AddParties(u, SenderOf(e.move), RecipientOf(e.move), Some(n));
            && Told(v, a) == Told(u, a) + (if IsPresent(a) && Touches(a)(e) then [n] else [])
            && (a in v <==> a in u || (IsPresent(a) && Touches(a)(e)))
  {
  }

  /** The address is the sender or the target, or an STX event of the transaction touches it. */
  ghost predicate Direct(entry: TxEntry, a: Address) {
    || a == entry.tx.sender || entry.tx.target == Some(a)
    || (exists i :: 0 <= i < |entry.stxEvents| && Touches(a)(entry.stxEvents[i]))
  }

  /** The address is a party of a lock or a token event, or a deployed contract. */
  ghost predicate Indirect(entry: TxEntry, a: Address) {
    || (exists i :: 0 <= i < |entry.stxLocks| && entry.stxLocks[i].address == a)
    || (exists i :: 0 <= i < |entry.ftEvents| && (entry.ftEvents[i].sender == Some(a) || entry.ftEvents[i].recipient == Some(a)))
    || (exists i :: 0 <= i < |entry.nftEvents| && (entry.nftEvents[i].sender == Some(a) || entry.nftEvents[i].recipient == Some(a)))
    || (exists i :: 0 <= i < |entry.smartContracts| && Address(entry.smartContracts[i].contractId) == a)
  }

  lemma ConcernedIs(entry: TxEntry, a: Address)
    ensures Concerned(entry, a) <==>
            IsPresent(a) &&
            (a == entry.tx.sender || entry.tx.target == Some(a) ||
             (exists i :: 0 <= i < |entry.stxEvents| && Touches(a)(entry.stxEvents[i])) ||
             Named(LockParties(entry), a) || Named(FtParties(entry), a) || Named(NftParties(entry), a) || Named(Contracts(entry), a))
  {
    hide Indirect, Named, LockParties, FtParties, NftParties, Contracts, Touches;
    IndirectIsNamed(entry, a);
  }

  lemma IndirectIsNamed(entry: TxEntry, a: Address)
    ensures Indirect(entry, a) <==>
            Named(LockParties(entry), a) || Named(FtParties(entry), a) || Named(NftParties(entry), a) || Named(Contracts(entry), a)
  {
    if i :| 0 <= i < |entry.stxLocks| && entry.stxLocks[i].address == a { assert Names(LockParties(entry)[i], a); }
    if i :| 0 <= i < |entry.ftEvents| && (entry.ftEvents[i].sender == Some(a) || entry.ftEvents[i].recipient == Some(a)) {
      assert Names(FtParties(entry)[i], a);
    }
    if i :| 0 <= i < |entry.nftEvents| && (entry.nftEvents[i].sender == Some(a) || entry.nftEvents[i].recipient == Some(a)) {
      assert Names(NftParties(entry)[i], a);
    }
    if i :| 0 <= i < |entry.smartContracts| && Address(entry.smartContracts[i].contractId) == a { assert Names(Contracts(entry)[i], a); }
  }

  /** The addresses a transaction concerns. */
  ghost predicate Concerned(entry: TxEntry, a: Address) {
    a.text != "" && (Direct(entry, a) || Indirect(entry, a))
  }

  datatype Parties = Parties(sender: Option<Address>, recipient: Option<Address>)

  predicate Names(p: Parties, a: Address) {
    p.sender == Some(a) || p.recipient == Some(a)
  }

  ghost predicate Named(ps: seq<Parties>, a: Address) {
    exists i :: 0 <= i < |ps| && Names(ps[i], a)
  }

  function LockParties(e: TxEntry): seq<Parties> {
    seq(|e.stxLocks|, i requires 0 <= i < |e.stxLocks| => Parties(Some(e.stxLocks[i].address), None))
  }

  function FtParties(e: TxEntry): seq<Parties> {
    seq(|e.ftEvents|, i requires 0 <= i < |e.ftEvents| => Parties(e.ftEvents[i].sender, e.ftEvents[i].recipient))
  }

  function NftParties(e: TxEntry): seq<Parties> {
    seq(|e.nftEvents|, i requires 0 <= i < |e.nftEvents| => Parties(e.nftEvents[i].sender, e.nftEvents[i].recipient))
  }

  function Contracts(e: TxEntry): seq<Parties> {
    seq(|e.smartContracts|, i requires 0 <= i < |e.smartContracts| => Parties(Some(Address(e.smartContracts[i].contractId)), None))
  }

  lemma PartiesAreKnown(u: Updates, p: Parties, a: Address)
    ensures var v := AddParties(u, p.sender, p.recipient, None);
            Told(v, a) == Told(u, a) && (a in v <==> a in u || (IsPresent(a) && Names(p, a)))
  {
  }

  /** Locks, token events and deployed contracts add addresses, not events. */
  method AddAddresses(before: Updates, ps: seq<Parties>) returns (u: Updates)
    ensures forall a :: Told(u, a) == Told(before, a)
    ensures forall a :: a in u <==> a in before || (IsPresent(a) && Named(ps, a))
  {
    u := before;
    for i := 0 to |ps|
      invariant forall a :: Told(u, a) == Told(before, a)
      invariant forall a :: a in u <==> a in before || (IsPresent(a) && exists j :: 0 <= j < i && Names(ps[j], a))
    {
      ghost var was := u;
      u := AddParties(u, ps[i].sender, ps[i].recipient, None);
      hide AddParties, Told, Names, IsPresent;
      forall a ensures Told(u, a) == Told(was, a) && (a in u <==> a in was || (IsPresent(a) && Names(ps[i], a))) {
        PartiesAreKnown(was, ps[i], a);
      }
    }
  }

  /** The first n events have been added. */
  ghost predicate Added(before: Updates, u: Updates, es: seq<StxEvent>, n: nat)
    requires n <= |es|
  {
    && (forall a :: Told(u, a) == if IsPresent(a) then Touching(es[..n], a) else [])
    && (forall a :: a in u <==> a in before || (IsPresent(a) && exists i :: 0 <= i < n && Touches(a)(es[i])))
  }

  lemma AddOneMore(before: Updates, u: Updates, es: seq<StxEvent>, n: nat)
    requires n < |es| && Added(before, u, es, n)
    ensures Added(before, AddParties(u, SenderOf(es[n].move), RecipientOf(es[n].move), Some(n)), es, n + 1)
  {
    hide AddParties, Touching, Touches, Told, IsPresent;
    var v := AddParties(u, SenderOf(es[n].move), RecipientOf(es[n].move), Some(n));
    forall a
      ensures Told(v, a) == if IsPresent(a) then Touching(es[..n + 1], a) else []
      ensures a in v <==> a in u || (IsPresent(a) && Touches(a)(es[n]))
    {
      TouchingGrows(es, n, a);
      PartiesAreTold(u, es[n], n, a);
    }
  }

  /** Each event is added for its sender and for its recipient. */
  method AddEvents(before: Updates, es: seq<StxEvent>) returns (u: Updates)
    requires forall a :: Told(before, a) == []
    ensures Added(before, u, es, |es|)
  {
    u := before;
    for i := 0 to |es|
      invariant Added(before, u, es, i)
    {
      hide Added, AddParties;
      AddOneMore(before, u, es, i);
      u := AddParties(u, SenderOf(es[i].move), RecipientOf(es[i].move), Some(i));
    }
  }

  lemma TouchingGrows(es: seq<StxEvent>, i: nat, a: Address)
    requires i < |es|
    ensures i !in Touching(es[..i], a)
    ensures Touching(es[..i + 1], a) == Touching(es[..i], a) + if Touches(a)(es[i]) then [i] else []
  {
    assert es[..i + 1][..i] == es[..i];
  }

  /** `emitAddressTxUpdates` for one transaction: the addresses told are those it concerns, each
      about exactly the transfers, mints and burns that touch it, once and in order. */
  method EmitAddressTxUpdates(entry: TxEntry) returns (u: Updates)
    ensures forall a :: a in u <==> Concerned(entry, a)
    ensures forall a :: a in u ==> u[a] == Touching(entry.stxEvents, a)
  {
    hide LockParties, FtParties, NftParties, Contracts, Named, Touching, IsPresent, Concerned;
    u := AddAddressTx(map[], entry.tx.sender, None);
    u := AddAddresses(u, LockParties(entry));
    u := AddEvents(u, entry.stxEvents);
    assert entry.stxEvents[..|entry.stxEvents|] == entry.stxEvents;
    u := AddAddresses(u, FtParties(entry));
    u := AddAddresses(u, NftParties(entry));
    u := AddAddresses(u, Contracts(entry));
    if entry.tx.target.Some? {
      ghost var before := u;
      u := AddAddressTx(u, entry.tx.target.value, None);
      assert forall a :: Told(u, a) == Told(before, a);
    }
    forall a ensures a in u <==> Concerned(entry, a) { ConcernedIs(entry, a); }
  }

  function EventsAt(es: seq<StxEvent>, places: seq<nat>): seq<StxEvent>
    requires forall p :: p in places ==> p < |es|
  {
    seq(|places|, i requires 0 <= i < |places| => assert places[i] in places; es[places[i]])
  }

  lemma {:induction false} ToldEvents(es: seq<StxEvent>, a: Address)
    ensures EventsAt(es, Touching(es, a)) == Select(es, Touches(a))
  {
    if es != [] {
      var n := |es| - 1;
      ToldEvents(es[..n], a);
      var low := Touching(es[..n], a);
      forall i | 0 <= i < |low| ensures EventsAt(es, Touching(es, a))[i] == EventsAt(es[..n], low)[i] {
        assert low[i] in low;
      }
    }
  }

  /** The whole push for one address: it is told of a transaction exactly if it is concerned,
      with the totals of the events that touch it. */
  method PushAddressUpdate(entry: TxEntry, a: Address) returns (t: Option<TxTotals>)
    ensures t.Some? <==> Concerned(entry, a)
    ensures t.Some? ==> t.value == TotalsFor(a, entry.tx, Select(entry.stxEvents, Touches(a)))
  {
    var u := EmitAddressTxUpdates(entry);
    if a !in u {
      return None;
    }
    ToldEvents(entry.stxEvents, a);
    var totals := SocketTotals(entry.tx, EventsAt(entry.stxEvents, u[a]), a);
    t := Some(totals);
  }
}

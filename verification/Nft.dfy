/** Counting non-fungible tokens: received minus sent, against the last canonical event of
    each token. */
module Nft {
  import opened Tables
  import opened Chain
  import opened Store
  import opened Reference
  import opened Runs
  import opened CanonicalRows

  type NftRow = Row<NftEvent>

  /** (asset_identifier, value). */
  datatype Token = Token(asset: Asset, value: TokenValue)

  function TokenOf(r: NftRow): Token {
    Token(r.item.asset, r.item.value)
  }

  // ---- The queries -----------------------------------------------------------------

  /** COUNT(*) ... WHERE canonical = true AND recipient = a, for one asset. */
  function Received(rows: seq<NftRow>, a: Address, asset: Asset): nat {
    if rows == [] then 0 else
    var r := rows[|rows| - 1];
    Received(rows[..|rows| - 1], a, asset) +
    if r.canonical && r.item.asset == asset && r.item.recipient == Some(a) then 1 else 0
  }

  function Sent(rows: seq<NftRow>, a: Address, asset: Asset): nat {
    if rows == [] then 0 else
    var r := rows[|rows| - 1];
    Sent(rows[..|rows| - 1], a, asset) +
    if r.canonical && r.item.asset == asset && r.item.sender == Some(a) then 1 else 0
  }

  /** The `count` column of `getNonFungibleTokenCounts`. */
  function NftCount(rows: seq<NftRow>, a: Address, asset: Asset): int {
    Received(rows, a, asset) - Sent(rows, a, asset)
  }

  /** ORDER BY block_height, tx_index, event_index. */
  predicate Before(x: NftRow, y: NftRow) {
    || x.height < y.height
    || (x.height == y.height && x.item.txIndex < y.item.txIndex)
    || (x.height == y.height && x.item.txIndex == y.item.txIndex && x.item.eventIndex < y.item.eventIndex)
  }

  /** DISTINCT ON (asset_identifier, value) ... DESC: the last canonical event of its token. */
  ghost predicate IsLast(rows: seq<NftRow>, r: NftRow) {
    r in rows && r.canonical &&
    forall x :: x in rows && x.canonical && TokenOf(x) == TokenOf(r) ==> x == r || Before(x, r)
  }

  /** The values of an asset whose last canonical event names the address as recipient. */
  ghost function HeldValues(rows: seq<NftRow>, a: Address, asset: Asset): set<TokenValue> {
    set r | r in rows && IsLast(rows, r) && r.item.asset == asset && r.item.recipient == Some(a) :: r.item.value
  }

  // ---- Replaying a history ---------------------------------------------------------

  type Owners = map<Token, Address>

  /** A mint needs an unowned token, a move or burn the owner. */
  predicate LegalStep(owners: Owners, r: NftRow) {
    var t, e := TokenOf(r), r.item;
    match e.sender
    case None => t !in owners && e.recipient.Some?
    case Some(s) => t in owners && owners[t] == s
  }

  function StepOwners(owners: Owners, r: NftRow): Owners {
    match r.item.recipient
    case Some(a) => owners[TokenOf(r) := a]
    case None => owners - {TokenOf(r)}
  }

  function OwnersAfter(hist: seq<NftRow>): Owners {
    if hist == [] then map[] else StepOwners(OwnersAfter(hist[..|hist| - 1]), hist[|hist| - 1])
  }

  /** The canonical events in chain order: each comes after all before it, and is legal. */
  ghost predicate LegalHistory(hist: seq<NftRow>) {
    hist == [] ||
    var low, last := hist[..|hist| - 1], hist[|hist| - 1];
    && LegalHistory(low) && last.canonical && LegalStep(OwnersAfter(low), last)
    && (forall x :: x in low ==> Before(x, last))
  }

  function OwnedBy(owners: Owners, a: Address, asset: Asset): set<Token> {
    set t | t in owners && t.asset == asset && owners[t] == a
  }

  /** Replay: received minus sent counts the tokens owned. */
  lemma {:induction false} CountIsOwned(hist: seq<NftRow>, a: Address, asset: Asset)
    requires LegalHistory(hist)
    ensures NftCount(hist, a, asset) == |OwnedBy(OwnersAfter(hist), a, asset)|
  {
    if hist == [] {
      assert OwnedBy(map[], a, asset) == {};
    } else {
      var low, r := hist[..|hist| - 1], hist[|hist| - 1];
      CountIsOwned(low, a, asset);
      OwnedStep(OwnersAfter(low), r, a, asset);
    }
  }

  lemma {:induction false} OwnedStep(owners: Owners, r: NftRow, a: Address, asset: Asset)
    requires LegalStep(owners, r)
    ensures |OwnedBy(StepOwners(owners, r), a, asset)| ==
            |OwnedBy(owners, a, asset)| + (if r.item.asset == asset && r.item.recipient == Some(a) then 1 else 0)
                                        - (if r.item.asset == asset && r.item.sender == Some(a) then 1 else 0)
  {
    var t, s := TokenOf(r), OwnedBy(owners, a, asset);
    assert t in s <==> r.item.asset == asset && r.item.sender == Some(a);
    OwnedElsewhere(owners, r, a, asset);
    SizeWith(s, t);
    SizeWith(OwnedBy(StepOwners(owners, r), a, asset), t);
  }

  lemma SizeWith(s: set<Token>, t: Token)
    ensures |s| == |s - {t}| + if t in s then 1 else 0
  {
    if t in s { assert s == s - {t} + {t}; } else { assert s == s - {t}; }
  }

  /** A step moves its own token and no other. */
  lemma OwnedElsewhere(owners: Owners, r: NftRow, a: Address, asset: Asset)
    ensures var s, t := OwnedBy(StepOwners(owners, r), a, asset), TokenOf(r);
            s - {t} == OwnedBy(owners, a, asset) - {t} && (t in s <==> t.asset == asset && r.item.recipient == Some(a))
  {
  }

  /** The last event of the token names this recipient. */
  ghost predicate LastNames(hist: seq<NftRow>, t: Token, a: Address) {
    exists r :: r in hist && IsLast(hist, r) && TokenOf(r) == t && r.item.recipient == Some(a)
  }

  lemma LastNamesStep(low: seq<NftRow>, r: NftRow, t: Token, a: Address)
    requires r.canonical && forall x :: x in low ==> Before(x, r)
    ensures LastNames(low + [r], t, a) <==> if TokenOf(r) == t then r.item.recipient == Some(a) else LastNames(low, t, a)
  {
    LastStep(low, r);
    assert r in low + [r];
    if LastNames(low + [r], t, a) {
      var x :| x in low + [r] && IsLast(low + [r], x) && TokenOf(x) == t && x.item.recipient == Some(a);
    }
    if LastNames(low, t, a) && TokenOf(r) != t {
      var x :| x in low && IsLast(low, x) && TokenOf(x) == t && x.item.recipient == Some(a);
      assert x in low + [r];
    }
  }

  ghost predicate Owns(owners: Owners, t: Token, a: Address) {
    t in owners && owners[t] == a
  }

  lemma OwnsStep(owners: Owners, r: NftRow, t: Token, a: Address)
    ensures Owns(StepOwners(owners, r), t, a) <==>
            if TokenOf(r) == t then r.item.recipient == Some(a) else Owns(owners, t, a)
  {
  }

  /** Replay: a token is owned exactly when its last event names a recipient, and by that one. */
  lemma {:induction false} OwnerIsLastRecipient(hist: seq<NftRow>, t: Token, a: Address)
    requires LegalHistory(hist)
    ensures Owns(OwnersAfter(hist), t, a) <==> LastNames(hist, t, a)
  {
    if hist != [] {
      hide LastNames;
      var n := |hist| - 1;
      OwnerIsLastRecipient(hist[..n], t, a);
      assert hist == hist[..n] + [hist[n]];
      LastNamesStep(hist[..n], hist[n], t, a);
      OwnsStep(OwnersAfter(hist[..n]), hist[n], t, a);
    }
  }

  /** A later event is the last of its own token and leaves the others alone. */
  lemma LastStep(low: seq<NftRow>, r: NftRow)
    requires r.canonical && forall x :: x in low ==> Before(x, r)
    ensures IsLast(low + [r], r)
    ensures forall x :: x in low && TokenOf(x) != TokenOf(r) ==> (IsLast(low + [r], x) <==> IsLast(low, x))
    ensures forall x :: x in low && TokenOf(x) == TokenOf(r) ==> !IsLast(low + [r], x)
  {
    var hist := low + [r];
    assert r in hist;
    forall x | x in low && TokenOf(x) != TokenOf(r) ensures IsLast(hist, x) <==> IsLast(low, x) {
      assert x in hist;
    }
  }

  /** In a legal history, the two queries agree. */
  lemma HistoryCountIsHeld(hist: seq<NftRow>, a: Address, asset: Asset)
    requires LegalHistory(hist)
    ensures NftCount(hist, a, asset) == |HeldValues(hist, a, asset)|
  {
    CountIsOwned(hist, a, asset);
    var owned, held := OwnedBy(OwnersAfter(hist), a, asset), HeldValues(hist, a, asset);
    forall t: Token
      ensures t in owned <==> t.asset == asset && t.value in held
    {
      OwnerIsLastRecipient(hist, t, a);
    }
    SameSize(owned, held, asset);
  }

  lemma {:induction false} SameSize(owned: set<Token>, held: set<TokenValue>, asset: Asset)
    requires forall t: Token :: t in owned <==> t.asset == asset && t.value in held
    ensures |owned| == |held|
  {
    if held == {} {
      if t :| t in owned { assert false; }
      assert owned == {};
    } else {
      var v :| v in held;
      assert Token(asset, v) in owned;
      forall t: Token ensures t in owned - {Token(asset, v)} <==> t.asset == asset && t.value in held - {v} { }
      SameSize(owned - {Token(asset, v)}, held - {v}, asset);
    }
  }

  // ---- The table need not be in chain order ----------------------------------------

  lemma {:induction false} CountConcat(x: seq<NftRow>, y: seq<NftRow>, a: Address, asset: Asset)
    ensures Received(x + y, a, asset) == Received(x, a, asset) + Received(y, a, asset)
    ensures Sent(x + y, a, asset) == Sent(x, a, asset) + Sent(y, a, asset)
  {
    if y == [] {
      assert x + y == x;
    } else {
      assert (x + y)[..|x + y| - 1] == x + y[..|y| - 1];
      CountConcat(x, y[..|y| - 1], a, asset);
    }
  }

  /** Counting does not depend on the order of the rows. */
  lemma {:induction false} CountPermutes(x: seq<NftRow>, y: seq<NftRow>, a: Address, asset: Asset)
    requires multiset(x) == multiset(y)
    ensures NftCount(x, a, asset) == NftCount(y, a, asset)
  {
    if x == [] {
      assert |y| == |multiset(y)| == |multiset(x)|;
    } else {
      var n := |x| - 1;
      var r := x[n];
      assert x == x[..n] + [r];
      assert r in multiset(y);
      var k :| 0 <= k < |y| && y[k] == r;
      var rest := y[..k] + y[k + 1..];
      assert y == y[..k] + ([r] + y[k + 1..]);
      assert multiset(y) == multiset(y[..k]) + multiset{r} + multiset(y[k + 1..]);
      assert multiset(x) == multiset(x[..n]) + multiset{r};
      assert multiset(rest) == multiset(y[..k]) + multiset(y[k + 1..]);
      assert multiset(rest) == multiset(y) - multiset{r};
      CountPermutes(x[..n], rest, a, asset);
      CountConcat(x[..n], [r], a, asset);
      CountConcat(y[..k], [r] + y[k + 1..], a, asset);
      CountConcat([r], y[k + 1..], a, asset);
      CountConcat(y[..k], y[k + 1..], a, asset);
    }
  }

  lemma {:induction false} CountIgnoresOrphans(rows: seq<NftRow>, a: Address, asset: Asset)
    ensures NftCount(Select(rows, IsCanonicalRow()), a, asset) == NftCount(rows, a, asset)
  {
    if rows != [] {
      var n := |rows| - 1;
      CountIgnoresOrphans(rows[..n], a, asset);
      var low := Select(rows[..n], IsCanonicalRow());
      if rows[n].canonical {
        CountConcat(low, [rows[n]], a, asset);
        CountConcat(rows[..n], [rows[n]], a, asset);
        assert rows == rows[..n] + [rows[n]];
      } else {
        assert low + [] == low;
      }
    }
  }

  lemma SameRows(rows: seq<NftRow>, hist: seq<NftRow>)
    requires multiset(hist) == multiset(Select(rows, IsCanonicalRow()))
    ensures forall r :: r in hist <==> r in rows && r.canonical
  {
    var canon := Select(rows, IsCanonicalRow());
    forall r ensures r in hist <==> r in rows && r.canonical {
      SelectMember(rows, IsCanonicalRow(), r);
      assert r in hist <==> r in multiset(hist);
      assert r in canon <==> r in multiset(canon);
    }
  }

  /** For a table in any order whose canonical rows, put in chain order, form a legal history:
      received minus sent is the number of values the address holds by the last-event query. */
  lemma NftCountIsHeld(rows: seq<NftRow>, hist: seq<NftRow>, a: Address, asset: Asset)
    requires LegalHistory(hist) && multiset(hist) == multiset(Select(rows, IsCanonicalRow()))
    ensures NftCount(rows, a, asset) == |HeldValues(rows, a, asset)|
  {
    var canon := Select(rows, IsCanonicalRow());
    CountIgnoresOrphans(rows, a, asset);
    CountPermutes(hist, canon, a, asset);
    HistoryCountIsHeld(hist, a, asset);
    SameRows(rows, hist);
    forall r | r in hist ensures IsLast(hist, r) <==> IsLast(rows, r) { }
    assert HeldValues(rows, a, asset) == HeldValues(hist, a, asset);
  }

  // ---- The paged listing -----------------------------------------------------------

  /** The rows `getAddressNFTEvent` joins for an asset: every receipt by the address of a token
      whose last event also names it. */
  ghost function Listing(hist: seq<NftRow>, a: Address, asset: Asset): set<NftRow> {
    set r | r in hist && r.canonical && r.item.asset == asset && r.item.recipient == Some(a) && LastNames(hist, TokenOf(r), a)
  }

  ghost predicate ReceivedOnce(rows: set<NftRow>) {
    forall x, y :: x in rows && y in rows && x.item.value == y.item.value ==> x == y
  }

  function Values(rows: set<NftRow>): set<TokenValue> {
    set r | r in rows :: r.item.value
  }

  lemma {:induction false} ImageSize(rows: set<NftRow>)
    ensures |Values(rows)| <= |rows|
    ensures |Values(rows)| == |rows| <==> ReceivedOnce(rows)
  {
    if rows == {} {
      assert Values(rows) == {};
    } else {
      var r :| r in rows;
      var rest := rows - {r};
      ImageSize(rest);
      assert Values(rows) == Values(rest) + {r.item.value};
      if r.item.value in Values(rest) {
        var x :| x in rest && x.item.value == r.item.value;
        assert !ReceivedOnce(rows);
      } else {
        assert ReceivedOnce(rows) <==> ReceivedOnce(rest);
      }
    }
  }

  /** Receipts and sends of one token by one address. */
  function Receipts(hist: seq<NftRow>, a: Address, t: Token): nat {
    if hist == [] then 0 else
    var r := hist[|hist| - 1];
    Receipts(hist[..|hist| - 1], a, t) + if TokenOf(r) == t && r.item.recipient == Some(a) then 1 else 0
  }

  function Sends(hist: seq<NftRow>, a: Address, t: Token): nat {
    if hist == [] then 0 else
    var r := hist[|hist| - 1];
    Sends(hist[..|hist| - 1], a, t) + if TokenOf(r) == t && r.item.sender == Some(a) then 1 else 0
  }

  /** Token by token, an address has received once more than it sent if it is the owner, and as
      often otherwise. */
  lemma {:induction false} TokenBalance(hist: seq<NftRow>, a: Address, t: Token)
    requires LegalHistory(hist)
    ensures Receipts(hist, a, t) - Sends(hist, a, t) == if Owns(OwnersAfter(hist), t, a) then 1 else 0
  {
    if hist != [] {
      var n := |hist| - 1;
      TokenBalance(hist[..n], a, t);
      OwnsStep(OwnersAfter(hist[..n]), hist[n], t, a);
    }
  }

  ghost predicate IsReceipt(r: NftRow, a: Address, t: Token) {
    TokenOf(r) == t && r.item.recipient == Some(a)
  }

  lemma {:induction false} SentAtAll(hist: seq<NftRow>, a: Address, t: Token)
    ensures Sends(hist, a, t) > 0 <==> exists r :: r in hist && TokenOf(r) == t && r.item.sender == Some(a)
  {
    if hist != [] {
      var n := |hist| - 1;
      SentAtAll(hist[..n], a, t);
      assert hist == hist[..n] + [hist[n]];
      assert hist[n] in hist;
    }
  }

  lemma {:induction false} ReceivedAtAll(hist: seq<NftRow>, a: Address, t: Token)
    ensures Receipts(hist, a, t) > 0 <==> exists r :: r in hist && IsReceipt(r, a, t)
  {
    if hist != [] {
      var n := |hist| - 1;
      ReceivedAtAll(hist[..n], a, t);
      assert hist == hist[..n] + [hist[n]];
      assert hist[n] in hist;
    }
  }

  /** Two receipts of a token are two different rows. */
  lemma {:induction false} ReceivedTwice(hist: seq<NftRow>, a: Address, t: Token)
    requires LegalHistory(hist)
    ensures Receipts(hist, a, t) > 1 <==>
            exists x, y :: x in hist && y in hist && x != y && IsReceipt(x, a, t) && IsReceipt(y, a, t)
  {
    if hist != [] {
      var n := |hist| - 1;
      var low, r := hist[..n], hist[n];
      ReceivedTwice(low, a, t);
      ReceivedAtAll(low, a, t);
      assert hist == low + [r];
      if Receipts(hist, a, t) > 1 && Receipts(low, a, t) == 1 {
        var x :| x in low && IsReceipt(x, a, t);
        assert Before(x, r) && x in hist && r in hist;
      }
    }
  }

  /** The address never sent a token that it now holds. */
  ghost predicate NeverReturned(rows: seq<NftRow>, a: Address, asset: Asset) {
    forall r :: r in rows && r.canonical && r.item.asset == asset && r.item.sender == Some(a) ==> !LastNames(rows, TokenOf(r), a)
  }

  lemma {:induction false} HistoryIsCanonical(hist: seq<NftRow>)
    requires LegalHistory(hist)
    ensures forall r :: r in hist ==> r.canonical
  {
    if hist != [] {
      HistoryIsCanonical(hist[..|hist| - 1]);
      assert hist == hist[..|hist| - 1] + [hist[|hist| - 1]];
    }
  }

  /** A listed token was received twice exactly if the address once sent it away. */
  lemma ReceivedOnceIsNeverReturned(hist: seq<NftRow>, a: Address, asset: Asset)
    requires LegalHistory(hist)
    ensures ReceivedOnce(Listing(hist, a, asset)) <==> NeverReturned(hist, a, asset)
  {
    hide LastNames, LegalHistory, Receipts, Sends, Owns;
    HistoryIsCanonical(hist);
    var listed := Listing(hist, a, asset);
    if !ReceivedOnce(listed) {
      var x, y :| x in listed && y in listed && x.item.value == y.item.value && x != y;
      var t := TokenOf(x);
      TokenCounts(hist, a, t);
      assert IsReceipt(x, a, t) && IsReceipt(y, a, t);
      var r :| r in hist && TokenOf(r) == t && r.item.sender == Some(a);
      assert !NeverReturned(hist, a, asset);
    }
    if !NeverReturned(hist, a, asset) {
      var r :| r in hist && r.item.asset == asset && r.item.sender == Some(a) && LastNames(hist, TokenOf(r), a);
      var t := TokenOf(r);
      TokenCounts(hist, a, t);
      var x, y :| x in hist && y in hist && x != y && IsReceipt(x, a, t) && IsReceipt(y, a, t);
      assert x in listed && y in listed && x.item.value == y.item.value;
    }
  }

  /** For a token held: it was sent at all exactly if it was received in two rows. */
  lemma TokenCounts(hist: seq<NftRow>, a: Address, t: Token)
    requires LegalHistory(hist)
    ensures LastNames(hist, t, a) ==>
            ((exists r :: r in hist && TokenOf(r) == t && r.item.sender == Some(a)) <==>
             (exists x, y :: x in hist && y in hist && x != y && IsReceipt(x, a, t) && IsReceipt(y, a, t)))
  {
    hide LastNames, LegalHistory, Owns;
    TokenBalance(hist, a, t);
    OwnerIsLastRecipient(hist, t, a);
    SentAtAll(hist, a, t);
    ReceivedTwice(hist, a, t);
  }

  /** The listing shows at least as many rows as the count, and exactly as many if and only if
      the address never sent a token that it now holds: one that left and came back is listed
      again. */
  lemma ListingAgainstCount(hist: seq<NftRow>, a: Address, asset: Asset)
    requires LegalHistory(hist)
    ensures NftCount(hist, a, asset) <= |Listing(hist, a, asset)|
    ensures NftCount(hist, a, asset) == |Listing(hist, a, asset)| <==> NeverReturned(hist, a, asset)
  {
    hide LegalHistory, NeverReturned, NftCount;
    HistoryCountIsHeld(hist, a, asset);
    var listed := Listing(hist, a, asset);
    ListedIsHeld(hist, a, asset);
    ImageSize(listed);
    ReceivedOnceIsNeverReturned(hist, a, asset);
  }

  lemma ListedIsHeld(hist: seq<NftRow>, a: Address, asset: Asset)
    ensures Values(Listing(hist, a, asset)) == HeldValues(hist, a, asset)
  {
    var listed := Listing(hist, a, asset);
    forall v ensures v in Values(listed) <==> v in HeldValues(hist, a, asset) {
      if v in Values(listed) {
        var r :| r in listed && r.item.value == v;
        var x :| x in hist && IsLast(hist, x) && TokenOf(x) == TokenOf(r) && x.item.recipient == Some(a);
        assert x.item.value == v;
      }
      if v in HeldValues(hist, a, asset) {
        var r :| r in hist && IsLast(hist, r) && r.item.asset == asset && r.item.recipient == Some(a) && r.item.value == v;
        assert LastNames(hist, TokenOf(r), a);
        assert r in listed;
      }
    }
  }

  /** Whatever is not canonical, and the order of the rows, does not matter to either. */
  lemma SameTable(rows: seq<NftRow>, hist: seq<NftRow>, a: Address, asset: Asset)
    requires LegalHistory(hist) && forall r :: r in hist <==> r in rows && r.canonical
    ensures Listing(rows, a, asset) == Listing(hist, a, asset)
    ensures NeverReturned(rows, a, asset) <==> NeverReturned(hist, a, asset)
  {
    HistoryIsCanonical(hist);
    hide LegalHistory;
    forall t ensures LastNames(rows, t, a) <==> LastNames(hist, t, a) { SameLast(rows, hist, t, a); }
    hide LastNames;
  }

  lemma SameLast(rows: seq<NftRow>, hist: seq<NftRow>, t: Token, a: Address)
    requires forall r :: r in hist <==> r in rows && r.canonical
    ensures LastNames(rows, t, a) <==> LastNames(hist, t, a)
  {
    forall r | r in hist ensures IsLast(hist, r) <==> IsLast(rows, r) { }
  }

  /** The same for a table in any order. */
  lemma TableListingAgainstCount(rows: seq<NftRow>, hist: seq<NftRow>, a: Address, asset: Asset)
    requires LegalHistory(hist) && multiset(hist) == multiset(Select(rows, IsCanonicalRow()))
    ensures NftCount(rows, a, asset) <= |Listing(rows, a, asset)|
    ensures NftCount(rows, a, asset) == |Listing(rows, a, asset)| <==> NeverReturned(rows, a, asset)
  {
    hide LegalHistory, Listing, NeverReturned, NftCount;
    SameRows(rows, hist);
    SameTable(rows, hist, a, asset);
    ListingAgainstCount(hist, a, asset);
    CountIgnoresOrphans(rows, a, asset);
    CountPermutes(hist, Select(rows, IsCanonicalRow()), a, asset);
  }

  // ---- Paging ----------------------------------------------------------------------

  ghost function IsListed(rows: seq<NftRow>, a: Address): NftRow -> bool {
    (r: NftRow) => r.canonical && r.item.recipient == Some(a) && LastNames(rows, TokenOf(r), a)
  }

  /** ORDER BY block_height DESC, tx_index DESC, event_index DESC. */
  function NewestFirst(): (NftRow, NftRow) -> bool {
    (x: NftRow, y: NftRow) => !Before(x, y)
  }

  /** The joined rows of all assets, newest first. */
  ghost function ListedRows(rows: seq<NftRow>, a: Address): seq<NftRow> {
    OrderBy(Select(rows, IsListed(rows, a)), NewestFirst())
  }

  /** `getAddressNFTEvent`. */
  ghost function AddressNftEvents(rows: seq<NftRow>, a: Address, limit: nat, offset: nat): Page<NftRow> {
    PageOf(ListedRows(rows, a), offset, limit)
  }

  /** The listed rows are ordered and are those selected, each as often; the total beside a page
      is their number exactly if the page shows a row or there is none. */
  lemma NftTotalExactlyWhen(rows: seq<NftRow>, a: Address, limit: nat, offset: nat)
    ensures var all := ListedRows(rows, a);
            && Ordered(all, NewestFirst()) && multiset(all) == multiset(Select(rows, IsListed(rows, a)))
            && (AddressNftEvents(rows, a, limit, offset).total == |all| <==> all == [] || (limit > 0 && offset < |all|))
  {
    OrderByOrders(Select(rows, IsListed(rows, a)), NewestFirst());
    PageTotalExactlyWhen(ListedRows(rows, a), offset, limit);
  }

  lemma {:induction false} ListedInOrder(hist: seq<NftRow>, p: NftRow -> bool)
    requires LegalHistory(hist)
    ensures forall i, j :: 0 <= i < j < |Select(hist, p)| ==> Before(Select(hist, p)[i], Select(hist, p)[j])
  {
    if hist != [] {
      var n := |hist| - 1;
      ListedInOrder(hist[..n], p);
      var low := Select(hist[..n], p);
      forall i | 0 <= i < |low| ensures Before(low[i], hist[n]) { SelectMember(hist[..n], p, low[i]); }
    }
  }

  /** The history's listed rows from the last to the first. */
  ghost function ListedBackwards(hist: seq<NftRow>, a: Address): seq<NftRow> {
    Reversed(Select(hist, IsListed(hist, a)))
  }

  lemma SameListed(rows: seq<NftRow>, hist: seq<NftRow>, a: Address)
    requires multiset(hist) == multiset(Select(rows, IsCanonicalRow()))
    ensures multiset(Select(rows, IsListed(rows, a))) == multiset(Select(hist, IsListed(hist, a)))
  {
    SameRows(rows, hist);
    hide LastNames, Select;
    var p, q := IsListed(rows, a), IsListed(hist, a);
    forall r ensures p(r) <==> q(r) { SameLast(rows, hist, TokenOf(r), a); }
    SelectWithin(rows, p, IsCanonicalRow());
    SelectPermutes(Select(rows, IsCanonicalRow()), hist, p);
    SelectSame(hist, p, q);
  }

  /** Only the canonical rows count, in whatever order the table has them. */
  lemma ListedOfTable(rows: seq<NftRow>, hist: seq<NftRow>, a: Address)
    requires LegalHistory(hist) && multiset(hist) == multiset(Select(rows, IsCanonicalRow()))
    ensures ListedRows(rows, a) == ListedBackwards(hist, a)
  {
    hide LegalHistory, IsListed, Select, OrderBy;
    SameListed(rows, hist, a);
    ListedInOrder(hist, IsListed(hist, a));
    ShuffledReverses(Select(rows, IsListed(rows, a)), Select(hist, IsListed(hist, a)), NewestFirst());
  }

  /** Enough pages of any size show the history's listed rows from the newest to the oldest: of
      each asset, exactly its listing, every row once. */
  lemma PagesShowListing(rows: seq<NftRow>, hist: seq<NftRow>, a: Address, asset: Asset, limit: nat, n: nat)
    requires LegalHistory(hist) && multiset(hist) == multiset(Select(rows, IsCanonicalRow()))
    requires n * limit >= |ListedRows(rows, a)|
    ensures var shown := Pages(ListedRows(rows, a), limit, n);
            && shown == ListedBackwards(hist, a)
            && (forall i, j :: 0 <= i < j < |shown| ==> Before(shown[j], shown[i]))
            && forall r :: r in Listing(rows, a, asset) <==> r.item.asset == asset && r in shown
  {
    ListedInOrder(hist, IsListed(hist, a));
    hide LegalHistory, LastNames, Pages, Select;
    PagesShowAll(ListedRows(rows, a), limit, n);
    ListedOfTable(rows, hist, a);
    OrderByOrders(Select(rows, IsListed(rows, a)), NewestFirst());
    var all := ListedRows(rows, a);
    forall r ensures r in Listing(rows, a, asset) <==> r.item.asset == asset && r in all {
      SelectMember(rows, IsListed(rows, a), r);
      assert r in all <==> r in multiset(all);
      assert r in Select(rows, IsListed(rows, a)) <==> r in multiset(Select(rows, IsListed(rows, a)));
    }
  }

  // ---- In every run ----------------------------------------------------------------

  /** Each move is legal after the ones before it. */
  ghost predicate LegalMoves(hist: seq<NftRow>) {
    hist == [] ||
    var low, last := hist[..|hist| - 1], hist[|hist| - 1];
    LegalMoves(low) && LegalStep(OwnersAfter(low), last)
  }

  /** A block's NFT events carry the place of their transaction as tx_index, and within a
      transaction their event_index rises. */
  ghost predicate NftInPlace(b: Block) {
    forall k :: 0 <= k < |b.txs| ==> EntryInPlace(b.txs[k], k)
  }

  ghost predicate EntryInPlace(e: TxEntry, k: nat) {
    && (forall i :: 0 <= i < |e.nftEvents| ==> e.nftEvents[i].txIndex == k)
    && (forall i, j :: 0 <= i < j < |e.nftEvents| ==> e.nftEvents[i].eventIndex < e.nftEvents[j].eventIndex)
  }

  /** Then, in the order in which they were delivered, they are in the order of the queries. */
  lemma {:induction false} EntriesInOrder(b: Block, es: seq<TxEntry>)
    requires forall k :: 0 <= k < |es| ==> EntryInPlace(es[k], k)
    ensures InOrderBy(RowsOf(b, true, Flatten(es, EntryNftEvents)), Before)
    ensures forall e :: e in Flatten(es, EntryNftEvents) ==> e.txIndex < |es|
  {
    if es != [] {
      var n := |es| - 1;
      EntriesInOrder(b, es[..n]);
      var x, y := Flatten(es[..n], EntryNftEvents), es[n].nftEvents;
      assert EntryInPlace(es[n], n);
      assert RowsOf(b, true, x + y) == RowsOf(b, true, x) + RowsOf(b, true, y);
      assert forall i :: 0 <= i < |x| ==> x[i] in x;
      InOrderConcat(RowsOf(b, true, x), RowsOf(b, true, y), Before);
    }
  }

  lemma BlockInOrder(b: Block)
    requires NftInPlace(b)
    ensures InOrderBy(RowsOf(b, true, NftEvents(b)), Before)
  {
    EntriesInOrder(b, b.txs);
  }

  /** The NFT events of the canonical branch in their own order. */
  ghost function BranchHistory(bs: seq<Block>): seq<NftRow> {
    BranchTable(Best(bs), NftEvents)
  }

  lemma BranchHistoryInOrder(bs: seq<Block>)
    requires Grown(bs) && forall b :: b in Best(bs) ==> NftInPlace(b)
    ensures InOrderBy(BranchHistory(bs), Before)
  {
    if bs != [] { BranchShape(bs, Tip(bs)); }
    hide Branch, BranchTable, NftInPlace, InOrderBy, NftEvents;
    forall b | b in Best(bs) ensures InOrderBy(RowsOf(b, true, NftEvents(b)), Before) { BlockInOrder(b); }
    BranchInOrder(bs, Best(bs), NftEvents, Before);
  }

  lemma {:induction false} OrderedMovesAreLegal(hist: seq<NftRow>)
    requires LegalMoves(hist) && InOrderBy(hist, Before) && forall r :: r in hist ==> r.canonical
    ensures LegalHistory(hist)
  {
    if hist != [] {
      var n := |hist| - 1;
      OrderedMovesAreLegal(hist[..n]);
      forall x | x in hist[..n] ensures Before(x, hist[n]) {
        var i :| 0 <= i < n && hist[..n][i] == x;
      }
    }
  }

  /** What a run may deliver: blocks with their events in place, and legal moves of tokens along
      the canonical branch. */
  ghost predicate LegalRun(evs: seq<Event>) {
    && WellFormedRun(evs) && (forall b :: b in Best(Accepted(evs)) ==> NftInPlace(b))
    && LegalMoves(BranchHistory(Accepted(evs)))
  }

  lemma RunHistory(evs: seq<Event>)
    requires LegalRun(evs)
    ensures var hist := BranchHistory(Accepted(evs));
            LegalHistory(hist) && multiset(hist) == multiset(Select(Run(evs).nftEvents, IsCanonicalRow()))
  {
    hide Best, TableOf, BranchTable, Select, Hashes, Run, Accepted, WellFormedRun, Grown, NftEvents, LegalMoves, LegalHistory, InOrderBy;
    EveryRunIsRecomputed(evs);
    var bs := Accepted(evs);
    CanonicalRowsAreBranch(bs, NftEvents);
    BranchHistoryInOrder(bs);
    forall r | r in BranchHistory(bs) ensures r.canonical { BranchTableRow(Best(bs), NftEvents, r); }
    OrderedMovesAreLegal(BranchHistory(bs));
  }

  /** After any such run the count is that of the tokens owned after replaying the canonical
      branch as delivered, and that of the values held by the last-event query; the listing has
      as many rows exactly if the address never sent a token that it now holds. */
  lemma RunCountIsHeld(evs: seq<Event>, a: Address, asset: Asset)
    requires LegalRun(evs)
    ensures var rows, hist := Run(evs).nftEvents, BranchHistory(Accepted(evs));
            && NftCount(rows, a, asset) == |OwnedBy(OwnersAfter(hist), a, asset)|
            && NftCount(rows, a, asset) == |HeldValues(rows, a, asset)|
            && (NftCount(rows, a, asset) == |Listing(rows, a, asset)| <==> NeverReturned(rows, a, asset))
  {
    hide LegalHistory, Listing, NeverReturned, NftCount, HeldValues, OwnedBy, OwnersAfter, Select, Run, Accepted, BranchHistory;
    RunHistory(evs);
    var rows, hist := Run(evs).nftEvents, BranchHistory(Accepted(evs));
    NftCountIsHeld(rows, hist, a, asset);
    TableListingAgainstCount(rows, hist, a, asset);
    CountIsOwned(hist, a, asset);
    CountIgnoresOrphans(rows, a, asset);
    CountPermutes(hist, Select(rows, IsCanonicalRow()), a, asset);
  }

  /** After any such run the last-event query names the owner of each token: the one that
      replaying the canonical branch as delivered ends with. */
  lemma RunOwnerIsLastRecipient(evs: seq<Event>, t: Token, a: Address)
    requires LegalRun(evs)
    ensures LastNames(Run(evs).nftEvents, t, a) <==> Owns(OwnersAfter(BranchHistory(Accepted(evs))), t, a)
  {
    hide LegalHistory, LastNames, Owns, Select, Run, Accepted, BranchHistory;
    RunHistory(evs);
    var rows, hist := Run(evs).nftEvents, BranchHistory(Accepted(evs));
    SameRows(rows, hist);
    SameLast(rows, hist, t, a);
    OwnerIsLastRecipient(hist, t, a);
  }

  /** After any such run, enough pages of the listing show the listed events of the canonical
      branch from the last delivered to the first. */
  lemma RunPagesShowListing(evs: seq<Event>, a: Address, asset: Asset, limit: nat, n: nat)
    requires LegalRun(evs) && n * limit >= |ListedRows(Run(evs).nftEvents, a)|
    ensures var rows := Run(evs).nftEvents;
            var shown := Pages(ListedRows(rows, a), limit, n);
            && shown == ListedBackwards(BranchHistory(Accepted(evs)), a)
            && forall r :: r in Listing(rows, a, asset) <==> r.item.asset == asset && r in shown
  {
    hide LegalHistory, Listing, Select, Run, Accepted, BranchHistory, ListedRows, Pages, ListedBackwards;
    RunHistory(evs);
    PagesShowListing(Run(evs).nftEvents, BranchHistory(Accepted(evs)), a, asset, limit, n);
  }

  function Sole(height: nat, sender: Option<Address>, recipient: Option<Address>): NftRow {
    Row(Hash(height), height, true, NftEvent(Asset(0), TokenValue(0), sender, recipient, 0, 0))
  }

  /** Minted to a, sent to b, sent back: a holds one token and is shown two rows. */
  lemma ReturnedTokenIsListedTwice()
    ensures var a, b := Address("a"), Address("b");
            var hist := [Sole(1, None, Some(a)), Sole(2, Some(a), Some(b)), Sole(3, Some(b), Some(a))];
            LegalHistory(hist) && NftCount(hist, a, Asset(0)) == 1 && |Listing(hist, a, Asset(0))| >= 2
  {
    var a, b := Address("a"), Address("b");
    assert "a"[0] != "b"[0];
    assert a != b;
    var x, y, z := Sole(1, None, Some(a)), Sole(2, Some(a), Some(b)), Sole(3, Some(b), Some(a));
    var hist := [x, y, z];
    assert hist[..2] == [x, y] && [x, y][..1] == [x];
    Single(x, a);
    assert OwnersAfter([x])[TokenOf(x)] == a && LegalHistory([x, y]);
    assert OwnersAfter([x, y])[TokenOf(x)] == b && LegalHistory(hist);
    assert NftCount([x, y], a, Asset(0)) == 0;
    assert NftCount(hist, a, Asset(0)) == 1;
    assert IsLast(hist, z);
    assert x in Listing(hist, a, Asset(0)) && z in Listing(hist, a, Asset(0));
    var two := {x, z};
    assert two <= Listing(hist, a, Asset(0));
    SubsetSize(two, Listing(hist, a, Asset(0)));
  }

  /** One token held, asked for from the second row on: the total reads 0. */
  lemma TotalIsLostPastTheEnd()
    ensures var a, hist := Address("a"), [Sole(1, None, Some(Address("a")))];
            LegalHistory(hist) && |ListedRows(hist, a)| == 1 && AddressNftEvents(hist, a, 10, 1).total == 0
  {
    var a, x := Address("a"), Sole(1, None, Some(Address("a")));
    var hist := [x];
    Single(x, a);
    assert x in hist && IsLast(hist, x);
    assert LastNames(hist, TokenOf(x), a);
    SelectAll(hist, IsListed(hist, a));
    OrderByOrders(hist, NewestFirst());
    NftTotalExactlyWhen(hist, a, 10, 1);
  }

  lemma Single(x: NftRow, a: Address)
    requires x.canonical && x.item.sender == None && x.item.recipient == Some(a)
    ensures LegalHistory([x]) && OwnersAfter([x]) == map[TokenOf(x) := a] && NftCount([x], a, x.item.asset) == 1
  {
    var hist := [x];
    var none := hist[..|hist| - 1];
    assert none == [] && OwnersAfter(none) == map[] && LegalHistory(none);
    assert Received(none, a, x.item.asset) == 0 && Sent(none, a, x.item.asset) == 0;
    assert Received(hist, a, x.item.asset) == 1 && Sent(hist, a, x.item.asset) == 0;
  }

  lemma SubsetSize(x: set<NftRow>, y: set<NftRow>)
    requires x <= y
    ensures |x| <= |y|
  {
    assert y == x + (y - x);
  }
}

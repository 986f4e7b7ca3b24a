/** Numbering a transaction's events, and paging through them by number. */
module Events {
  import opened Tables

  // ---- Sorting ---------------------------------------------------------------------

  /** The order of a stable sort by key: position p comes before position q. */
  predicate Less(keys: seq<nat>, p: nat, q: nat)
    requires p < |keys| && q < |keys|
  {
    keys[p] < keys[q] || (keys[p] == keys[q] && p < q)
  }

  ghost predicate Positions(keys: seq<nat>, order: seq<nat>) {
    forall i :: 0 <= i < |order| ==> order[i] < |keys|
  }

  ghost predicate Sorted(keys: seq<nat>, order: seq<nat>) {
    Positions(keys, order) && forall i, j :: 0 <= i < j < |order| ==> Less(keys, order[i], order[j])
  }

  function ElementsOf(order: seq<nat>): set<nat> {
    set p | p in order
  }

  function InsertPosition(keys: seq<nat>, p: nat, order: seq<nat>): (r: seq<nat>)
    requires p < |keys| && Sorted(keys, order) && p !in order
    ensures Sorted(keys, r) && |r| == |order| + 1 && ElementsOf(r) == ElementsOf(order) + {p}
  {
    if order == [] || Less(keys, p, order[0]) then
      var r := [p] + order;
      assert ElementsOf(r) == ElementsOf(order) + {p};
      r
    else
      var rest := InsertPosition(keys, p, order[1..]);
      InsertedAfter(keys, p, order, rest);
      [order[0]] + rest
  }

  lemma InsertedAfter(keys: seq<nat>, p: nat, order: seq<nat>, rest: seq<nat>)
    requires p < |keys| && Sorted(keys, order) && p !in order && order != [] && !Less(keys, p, order[0])
    requires Sorted(keys, rest) && ElementsOf(rest) == ElementsOf(order[1..]) + {p}
    ensures Sorted(keys, [order[0]] + rest) && ElementsOf([order[0]] + rest) == ElementsOf(order) + {p}
  {
    forall j | 0 <= j < |rest| ensures Less(keys, order[0], rest[j]) {
      assert rest[j] in ElementsOf(rest);
      if rest[j] != p {
        assert rest[j] in ElementsOf(order[1..]);
        var k :| 0 <= k < |order[1..]| && order[1..][k] == rest[j];
        assert order[k + 1] == rest[j];
      } else {
        assert order[0] in order;
      }
    }
    assert order == [order[0]] + order[1..];
    assert forall x :: x in [order[0]] + rest <==> x == order[0] || x in rest;
    assert forall x :: x in rest <==> x in ElementsOf(rest);
    assert forall x :: x in order <==> x == order[0] || x in order[1..];
  }

  function FirstPositions(n: nat): (r: set<nat>)
    ensures forall p: nat :: p in r <==> p < n
  {
    if n == 0 then {} else FirstPositions(n - 1) + {n - 1}
  }

  /** The first n positions in sorted order, as Array.prototype.sort leaves them. */
  function SortPositions(keys: seq<nat>, n: nat): (r: seq<nat>)
    requires n <= |keys|
    ensures Sorted(keys, r) && |r| == n && ElementsOf(r) == FirstPositions(n)
  {
    if n == 0 then [] else
    var low := SortPositions(keys, n - 1);
    assert n - 1 !in ElementsOf(low);
    var r := InsertPosition(keys, n - 1, low);
    assert ElementsOf(r) == FirstPositions(n);
    r
  }

  // ---- Numbering -------------------------------------------------------------------

  /** The positions that sort before p, and how many they are: the number p should get. */
  ghost function Earlier(keys: seq<nat>, p: nat): set<nat>
    requires p < |keys|
  {
    set q: nat | q < |keys| && Less(keys, q, p)
  }

  ghost function Rank(keys: seq<nat>, p: nat): nat
    requires p < |keys|
  {
    |Earlier(keys, p)|
  }

  lemma {:induction false} PrefixSize(order: seq<nat>, i: nat)
    requires i <= |order| && forall j, k :: 0 <= j < k < |order| ==> order[j] != order[k]
    ensures |ElementsOf(order[..i])| == i
  {
    if i > 0 {
      PrefixSize(order, i - 1);
      assert order[..i] == order[..i - 1] + [order[i - 1]];
      assert ElementsOf(order[..i]) == ElementsOf(order[..i - 1]) + {order[i - 1]};
      assert order[i - 1] !in order[..i - 1];
    }
  }

  /** In the sorted order of all positions, place and rank coincide. */
  lemma PlaceIsRank(keys: seq<nat>, order: seq<nat>, i: nat)
    requires Sorted(keys, order) && ElementsOf(order) == FirstPositions(|keys|) && i < |order|
    ensures Rank(keys, order[i]) == i
  {
    forall q ensures q in Earlier(keys, order[i]) <==> q in ElementsOf(order[..i]) {
      if q in Earlier(keys, order[i]) {
        assert q in ElementsOf(order);
        var k :| 0 <= k < |order| && order[k] == q;
        assert k < i;
        assert order[..i][k] == q;
      }
    }
    assert Earlier(keys, order[i]) == ElementsOf(order[..i]);
    PrefixSize(order, i);
  }

  /** The normalisation of `handleClientMessage` for one transaction: `index` holds the
      event_index of its contract log, FT, NFT, STX and lock events, list after list. */
  method NormaliseEventIndexes(index: array<nat>) returns (eventCount: nat)
    modifies index
    ensures eventCount == index.Length
    ensures forall p: nat :: p < index.Length ==> index[p] == Rank(old(index[..]), p)
  {
    var keys := index[..];
    var sorted := SortPositions(keys, |keys|);
    eventCount := |sorted|;
    for i := 0 to |sorted|
      invariant forall k :: 0 <= k < i ==> index[sorted[k]] == k
    {
      index[sorted[i]] := i;
    }
    forall p: nat | p < index.Length ensures index[p] == Rank(keys, p) {
      assert p in ElementsOf(sorted);
      var k :| 0 <= k < |sorted| && sorted[k] == p;
      PlaceIsRank(keys, sorted, k);
    }
  }

  /** The new numbers are 0 .. n - 1, each once. */
  lemma RanksAreBijective(keys: seq<nat>, i: nat) returns (p: nat)
    requires i < |keys|
    ensures p < |keys| && Rank(keys, p) == i
    ensures forall q: nat :: q < |keys| && Rank(keys, q) == i ==> q == p
    ensures forall q: nat :: q < |keys| ==> Rank(keys, q) < |keys|
  {
    var order := SortPositions(keys, |keys|);
    p := order[i];
    PlaceIsRank(keys, order, i);
    forall q: nat | q < |keys|
      ensures Rank(keys, q) < |keys| && (Rank(keys, q) == i ==> q == p)
    {
      assert q in ElementsOf(order);
      var k :| 0 <= k < |order| && order[k] == q;
      PlaceIsRank(keys, order, k);
    }
  }

  /** The original order is kept, events with equal index staying in list order. */
  lemma RanksKeepOrder(keys: seq<nat>, p: nat, q: nat)
    requires p < |keys| && q < |keys|
    ensures keys[p] < keys[q] || (keys[p] == keys[q] && p < q) <==> Rank(keys, p) < Rank(keys, q)
  {
    var order := SortPositions(keys, |keys|);
    assert p in ElementsOf(order) && q in ElementsOf(order);
    var i :| 0 <= i < |order| && order[i] == p;
    var j :| 0 <= j < |order| && order[j] == q;
    PlaceIsRank(keys, order, i);
    PlaceIsRank(keys, order, j);
    if j < i { assert Less(keys, q, p); }
  }

  // ---- Paging ----------------------------------------------------------------------

  datatype Kind = Lock | Stx | Ft | Nft | Log
  datatype TxEvent = TxEvent(kind: Kind, eventIndex: nat, data: string)

  /** The five tables' rows of one transaction in one block. */
  datatype TxEvents = TxEvents(locks: seq<TxEvent>, stx: seq<TxEvent>, ft: seq<TxEvent>, nft: seq<TxEvent>, logs: seq<TxEvent>)
  {
    /** The lists as the query concatenates them. */
    function All(): seq<TxEvent> { locks + stx + ft + nft + logs }

    /** The lists as the normalisation flattens them. */
    function Listed(): seq<TxEvent> { logs + ft + nft + stx + locks }
  }

  /** WHERE event_index BETWEEN lo AND hi. */
  function Between(es: seq<TxEvent>, lo: int, hi: int): (r: seq<TxEvent>)
    ensures forall e :: e in r <==> e in es && lo <= e.eventIndex <= hi
  {
    if es == [] then [] else
    assert es == [es[0]] + es[1..];
    (if lo <= es[0].eventIndex <= hi then [es[0]] else []) + Between(es[1..], lo, hi)
  }

  function InsertEvent(e: TxEvent, es: seq<TxEvent>): seq<TxEvent> {
    if es == [] || e.eventIndex <= es[0].eventIndex then [e] + es else [es[0]] + InsertEvent(e, es[1..])
  }

  /** events.sort((a, b) => a.event_index - b.event_index). */
  function SortEvents(es: seq<TxEvent>): seq<TxEvent> {
    if es == [] then [] else InsertEvent(es[0], SortEvents(es[1..]))
  }

  /** `getTxEvents`. */
  function GetTxEvents(t: TxEvents, offset: nat, limit: nat): seq<TxEvent> {
    var lo, hi := offset, offset + limit - 1;
    SortEvents(Between(t.locks, lo, hi) + Between(t.stx, lo, hi) + Between(t.ft, lo, hi) +
               Between(t.nft, lo, hi) + Between(t.logs, lo, hi))
  }

  ghost predicate Ascending(es: seq<TxEvent>) {
    forall i, j :: 0 <= i < j < |es| ==> es[i].eventIndex < es[j].eventIndex
  }

  /** No two of the events share a number. */
  ghost predicate DistinctIndexes(es: seq<TxEvent>) {
    forall i, j :: 0 <= i < j < |es| ==> es[i].eventIndex != es[j].eventIndex
  }

  lemma {:induction false} InsertEventSorts(e: TxEvent, es: seq<TxEvent>)
    requires Ascending(es) && forall x :: x in es ==> x.eventIndex != e.eventIndex
    ensures Ascending(InsertEvent(e, es)) && |InsertEvent(e, es)| == |es| + 1
    ensures forall x :: x in InsertEvent(e, es) <==> x in es || x == e
  {
    if es != [] && es[0].eventIndex < e.eventIndex {
      assert es == [es[0]] + es[1..];
      InsertEventSorts(e, es[1..]);
      var r := InsertEvent(e, es[1..]);
      forall j | 0 <= j < |r| ensures es[0].eventIndex < r[j].eventIndex {
        assert r[j] in r;
        if r[j] in es[1..] {
          var k :| 0 <= k < |es[1..]| && es[1..][k] == r[j];
          assert es[k + 1] == r[j];
        }
      }
    }
  }

  lemma {:induction false} SortEventsSorts(es: seq<TxEvent>)
    requires DistinctIndexes(es)
    ensures Ascending(SortEvents(es)) && |SortEvents(es)| == |es|
    ensures forall x :: x in SortEvents(es) <==> x in es
  {
    if es != [] {
      assert es == [es[0]] + es[1..];
      assert forall k :: 0 <= k < |es[1..]| ==> es[1..][k] == es[k + 1];
      SortEventsSorts(es[1..]);
      InsertEventSorts(es[0], SortEvents(es[1..]));
    }
  }

  lemma NotAgain(a: seq<TxEvent>)
    requires Ascending(a) && a != []
    ensures a[0] !in a[1..] && forall x :: x in a[1..] <==> x in a && x != a[0]
  {
    assert forall k :: 0 <= k < |a[1..]| ==> a[1..][k] == a[k + 1];
    assert a == [a[0]] + a[1..];
  }

  /** An ascending sequence is determined by its elements. */
  lemma {:induction false} AscendingUnique(a: seq<TxEvent>, b: seq<TxEvent>)
    requires Ascending(a) && Ascending(b) && forall x :: x in a <==> x in b
    ensures a == b
  {
    assert |b| > 0 ==> b[0] in b;
    if a != [] {
      assert a[0] in b && b != [];
      assert b[0] in a;
      assert a[0] == b[0];
      assert a == [a[0]] + a[1..] && b == [b[0]] + b[1..];
      NotAgain(a);
      NotAgain(b);
      AscendingUnique(a[1..], b[1..]);
    }
  }

  /** What normalisation establishes: the events carry 0 .. n - 1, each once. */
  ghost predicate Numbered(es: seq<TxEvent>) {
    DistinctIndexes(es) && forall e :: e in es ==> e.eventIndex < |es|
  }

  lemma {:induction false} AtLeastPlace(es: seq<TxEvent>, i: nat)
    requires Ascending(es) && i < |es|
    ensures es[i].eventIndex >= i
  {
    if i > 0 { AtLeastPlace(es, i - 1); }
  }

  lemma {:induction false} AtMostPlace(es: seq<TxEvent>, i: nat)
    requires Ascending(es) && i < |es| && es[|es| - 1].eventIndex < |es|
    ensures es[i].eventIndex <= i
    decreases |es| - i
  {
    if i < |es| - 1 { AtMostPlace(es, i + 1); }
  }

  /** The full sorted list has event number i at place i. */
  lemma FullList(es: seq<TxEvent>, i: nat)
    requires Numbered(es) && i < |es|
    ensures |SortEvents(es)| == |es| && SortEvents(es)[i].eventIndex == i
  {
    SortEventsSorts(es);
    var f := SortEvents(es);
    assert f[|f| - 1] in f;
    AtLeastPlace(f, i);
    AtMostPlace(f, i);
  }

  lemma {:induction false} BetweenKeepsDistinct(es: seq<TxEvent>, lo: int, hi: int)
    requires DistinctIndexes(es)
    ensures DistinctIndexes(Between(es, lo, hi))
  {
    if es != [] {
      assert forall k :: 0 <= k < |es[1..]| ==> es[1..][k] == es[k + 1];
      BetweenKeepsDistinct(es[1..], lo, hi);
      var rest := Between(es[1..], lo, hi);
      forall j | 0 <= j < |rest| ensures rest[j].eventIndex != es[0].eventIndex {
        assert rest[j] in rest;
      }
    }
  }

  lemma {:induction false} BetweenConcat(x: seq<TxEvent>, y: seq<TxEvent>, lo: int, hi: int)
    ensures Between(x + y, lo, hi) == Between(x, lo, hi) + Between(y, lo, hi)
  {
    if x == [] {
      assert x + y == y;
    } else {
      assert (x + y)[1..] == x[1..] + y && (x + y)[0] == x[0];
      BetweenConcat(x[1..], y, lo, hi);
    }
  }

  lemma SelectedPage(es: seq<TxEvent>, offset: nat, limit: nat)
    requires Numbered(es)
    ensures SortEvents(Between(es, offset, offset + limit - 1)) == Slice(SortEvents(es), offset, limit)
  {
    hide SortEvents, Slice;
    var lo, hi := offset, offset + limit - 1;
    var f, page := SortEvents(es), Between(es, lo, hi);
    SortEventsSorts(es);
    BetweenKeepsDistinct(es, lo, hi);
    SortEventsSorts(page);
    var slice := Slice(f, offset, limit);
    forall i | 0 <= i < |f| ensures f[i].eventIndex == i { FullList(es, i); }
    SliceElements(f, offset, limit);
    AscendingUnique(SortEvents(page), slice);
  }

  lemma SliceElements(f: seq<TxEvent>, offset: nat, limit: nat)
    requires Ascending(f) && forall i :: 0 <= i < |f| ==> f[i].eventIndex == i
    ensures var s := Slice(f, offset, limit);
            Ascending(s) && forall e :: e in s <==> e in f && offset <= e.eventIndex <= offset + limit - 1
  {
    var s := Slice(f, offset, limit);
    assert forall k :: 0 <= k < |s| ==> s[k] == f[offset + k];
    forall e | e in f && offset <= e.eventIndex <= offset + limit - 1 ensures e in s {
      var i :| 0 <= i < |f| && f[i] == e;
      assert s[i - offset] == e;
    }
  }

  /** Every page is that slice of the full sorted list. */
  lemma PageIsSlice(t: TxEvents, offset: nat, limit: nat)
    requires Numbered(t.All())
    ensures GetTxEvents(t, offset, limit) == Slice(SortEvents(t.All()), offset, limit)
  {
    hide SortEvents, Slice, Between, Numbered;
    var lo, hi := offset, offset + limit - 1;
    BetweenConcat(t.locks + t.stx + t.ft + t.nft, t.logs, lo, hi);
    BetweenConcat(t.locks + t.stx + t.ft, t.nft, lo, hi);
    BetweenConcat(t.locks + t.stx, t.ft, lo, hi);
    BetweenConcat(t.locks, t.stx, lo, hi);
    SelectedPage(t.All(), offset, limit);
  }

  /** Successive pages follow each other without gap or overlap, whatever their sizes. */
  lemma PagesPartition(t: TxEvents, offset: nat, m: nat, n: nat)
    requires Numbered(t.All())
    ensures GetTxEvents(t, offset, m) + GetTxEvents(t, offset + m, n) == GetTxEvents(t, offset, m + n)
  {
    hide GetTxEvents, SortEvents, Slice, Numbered;
    PageIsSlice(t, offset, m);
    PageIsSlice(t, offset + m, n);
    PageIsSlice(t, offset, m + n);
    SlicesMeet(SortEvents(t.All()), offset, m, n);
  }

  /** Together with normalisation: events renumbered by rank are numbered. */
  lemma RenumberedIsNumbered(es: seq<TxEvent>, keys: seq<nat>)
    requires |keys| == |es| && forall p: nat :: p < |es| ==> es[p].eventIndex == Rank(keys, p)
    ensures Numbered(es)
  {
    forall i, j | 0 <= i < j < |es| ensures es[i].eventIndex != es[j].eventIndex {
      RanksKeepOrder(keys, i, j);
      RanksKeepOrder(keys, j, i);
    }
    forall e | e in es ensures e.eventIndex < |es| {
      var p :| 0 <= p < |es| && es[p] == e;
      var _ := RanksAreBijective(keys, p);
    }
  }

  // ---- From the message to the pages -----------------------------------------------

  function IndexCount(es: seq<TxEvent>, k: nat): nat {
    if es == [] then 0 else IndexCount(es[..|es| - 1], k) + if es[|es| - 1].eventIndex == k then 1 else 0
  }

  lemma {:induction false} IndexCountConcat(x: seq<TxEvent>, y: seq<TxEvent>, k: nat)
    ensures IndexCount(x + y, k) == IndexCount(x, k) + IndexCount(y, k)
  {
    if y == [] {
      assert x + y == x;
    } else {
      assert (x + y)[..|x + y| - 1] == x + y[..|y| - 1];
      IndexCountConcat(x, y[..|y| - 1], k);
    }
  }

  lemma {:induction false} CountedAtAll(es: seq<TxEvent>, k: nat)
    ensures IndexCount(es, k) > 0 <==> exists i :: 0 <= i < |es| && es[i].eventIndex == k
  {
    if es != [] {
      var n := |es| - 1;
      CountedAtAll(es[..n], k);
      if i :| 0 <= i < |es| && es[i].eventIndex == k {
        if i < n { assert es[..n][i].eventIndex == k; }
      }
    }
  }

  ghost predicate CountedOnce(es: seq<TxEvent>) {
    forall k: nat :: IndexCount(es, k) <= 1
  }

  lemma {:induction false} DistinctByCount(es: seq<TxEvent>)
    ensures DistinctIndexes(es) <==> CountedOnce(es)
  {
    if es != [] {
      var n := |es| - 1;
      var low, last := es[..n], es[n].eventIndex;
      DistinctByCount(low);
      CountedAtAll(low, last);
      assert forall i :: 0 <= i < n ==> low[i] == es[i];
      if CountedOnce(es) {
        forall k: nat ensures IndexCount(low, k) <= 1 { assert IndexCount(es, k) <= 1; }
        assert IndexCount(es, last) <= 1;
        assert forall i :: 0 <= i < n ==> low[i].eventIndex != last;
        assert DistinctIndexes(es);
      }
      if DistinctIndexes(es) {
        forall k: nat ensures IndexCount(es, k) <= 1 { assert IndexCount(low, k) <= 1; }
      }
    }
  }

  lemma SameCounts(t: TxEvents, k: nat)
    ensures IndexCount(t.All(), k) == IndexCount(t.Listed(), k)
  {
    IndexCountConcat(t.locks + t.stx + t.ft + t.nft, t.logs, k);
    IndexCountConcat(t.locks + t.stx + t.ft, t.nft, k);
    IndexCountConcat(t.locks + t.stx, t.ft, k);
    IndexCountConcat(t.locks, t.stx, k);
    IndexCountConcat(t.logs + t.ft + t.nft + t.stx, t.locks, k);
    IndexCountConcat(t.logs + t.ft + t.nft, t.stx, k);
    IndexCountConcat(t.logs + t.ft, t.nft, k);
    IndexCountConcat(t.logs, t.ft, k);
  }

  /** Both orders of the five lists are numbered, or neither is. */
  lemma NumberedInEitherOrder(t: TxEvents)
    ensures Numbered(t.All()) <==> Numbered(t.Listed())
    ensures forall e :: e in t.All() <==> e in t.Listed()
  {
    hide DistinctIndexes, IndexCount;
    DistinctByCount(t.All());
    DistinctByCount(t.Listed());
    if CountedOnce(t.All()) {
      forall k: nat ensures IndexCount(t.Listed(), k) <= 1 { SameCounts(t, k); assert IndexCount(t.All(), k) <= 1; }
    }
    if CountedOnce(t.Listed()) {
      forall k: nat ensures IndexCount(t.All(), k) <= 1 { SameCounts(t, k); assert IndexCount(t.Listed(), k) <= 1; }
    }
    assert |t.All()| == |t.Listed()|;
    assert forall e :: e in t.All() <==> e in t.Listed();
  }

  function Keys(es: seq<TxEvent>): (r: seq<nat>)
    ensures |r| == |es| && forall p :: 0 <= p < |es| ==> r[p] == es[p].eventIndex
  {
    seq(|es|, p requires 0 <= p < |es| => es[p].eventIndex)
  }

  /** The events in the order of their original indexes, equal ones by list, numbered anew. */
  function OriginalOrder(es: seq<TxEvent>): (r: seq<TxEvent>)
    ensures |r| == |es|
  {
    var order := SortPositions(Keys(es), |es|);
    seq(|es|, i requires 0 <= i < |es| => es[order[i]].(eventIndex := i))
  }

  /** An event comes before another exactly if its index was smaller, or equal and it was listed
      first; and it is otherwise as it was. */
  lemma OriginalOrderKeeps(es: seq<TxEvent>, p: nat, q: nat)
    requires p < |es| && q < |es|
    ensures var keys, f := Keys(es), OriginalOrder(es);
            && Rank(keys, p) < |f| && f[Rank(keys, p)] == es[p].(eventIndex := Rank(keys, p))
            && (es[p].eventIndex < es[q].eventIndex || (es[p].eventIndex == es[q].eventIndex && p < q) <==>
                Rank(keys, p) < Rank(keys, q))
  {
    hide SortPositions, Rank;
    var keys := Keys(es);
    var order := SortPositions(keys, |es|);
    assert p in ElementsOf(order);
    var k :| 0 <= k < |order| && order[k] == p;
    PlaceIsRank(keys, order, k);
    RanksKeepOrder(keys, p, q);
  }

  /** Each event has its rank as index and is otherwise as it was. */
  ghost predicate Renumbers(es: seq<TxEvent>, us: seq<TxEvent>) {
    |us| == |es| && forall p: nat :: p < |es| ==> us[p] == es[p].(eventIndex := Rank(Keys(es), p))
  }

  lemma RenumberedSorted(es: seq<TxEvent>, us: seq<TxEvent>)
    requires Renumbers(es, us)
    ensures Numbered(us) && Ascending(OriginalOrder(es)) && forall e :: e in OriginalOrder(es) <==> e in us
  {
    hide SortPositions, Rank;
    RenumberedIsNumbered(us, Keys(es));
    var keys, f := Keys(es), OriginalOrder(es);
    var order := SortPositions(keys, |es|);
    forall i: nat | i < |es| ensures f[i] == us[order[i]] { PlaceIsRank(keys, order, i); }
    forall p: nat | p < |es| ensures us[p] in f {
      assert p in ElementsOf(order);
      var k :| 0 <= k < |order| && order[k] == p;
      assert f[k] == us[p];
    }
  }

  /** From the message to the reader: once the five lists are renumbered, every page is that
      slice of the events in their original order. */
  lemma PagesFollowOriginalOrder(t: TxEvents, u: TxEvents, offset: nat, limit: nat)
    requires Renumbers(t.Listed(), u.Listed())
    ensures GetTxEvents(u, offset, limit) == Slice(OriginalOrder(t.Listed()), offset, limit)
  {
    hide Numbered, OriginalOrder, Renumbers, GetTxEvents, Slice;
    RenumberedSorted(t.Listed(), u.Listed());
    NumberedInEitherOrder(u);
    PageIsSlice(u, offset, limit);
    SortedAll(u, OriginalOrder(t.Listed()));
  }

  lemma SortedAll(u: TxEvents, f: seq<TxEvent>)
    requires Numbered(u.All()) && Ascending(f) && forall e :: e in f <==> e in u.All()
    ensures SortEvents(u.All()) == f
  {
    hide SortEvents, Ascending;
    var es := u.All();
    SortEventsSorts(es);
    AscendingUnique(SortEvents(es), f);
  }

  /** The loop over a transaction's events in `handleClientMessage`: the five lists flattened,
      renumbered in place, and stored with their new numbers. */
  method NormaliseTx(t: TxEvents) returns (u: TxEvents, eventCount: nat)
    ensures eventCount == |t.Listed()| && Renumbers(t.Listed(), u.Listed())
    ensures forall offset: nat, limit: nat {:trigger GetTxEvents(u, offset, limit)} ::
              GetTxEvents(u, offset, limit) == Slice(OriginalOrder(t.Listed()), offset, limit)
  {
    hide Rank, GetTxEvents, Slice, OriginalOrder;
    var es := t.Listed();
    var index := new nat[|es|](i requires 0 <= i < |es| => es[i].eventIndex);
    assert index[..] == Keys(es);
    eventCount := NormaliseEventIndexes(index);
    var us := seq(|es|, i requires 0 <= i < |es| reads index requires index.Length == |es| => es[i].(eventIndex := index[i]));
    var a := |t.logs|;
    var b := a + |t.ft|;
    var c := b + |t.nft|;
    var d := c + |t.stx|;
    u := TxEvents(us[d..], us[c..d], us[a..b], us[b..c], us[..a]);
    assert u.Listed() == us;
    forall offset: nat, limit: nat
      ensures GetTxEvents(u, offset, limit) == Slice(OriginalOrder(t.Listed()), offset, limit)
    {
      PagesFollowOriginalOrder(t, u, offset, limit);
    }
  }
}

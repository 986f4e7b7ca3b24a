/** The faucet's rate limit: what is recorded over any run of requests, although the handler
    looks only at the five newest rows. */
module Faucet {
  import opened Tables

  datatype Currency = BTC | STX

  datatype Grant = Grant(currency: Currency, address: string, occurredAt: int)

  /** One request as it reaches the handler: its moment, whether the payment goes through, and
      whether the row can be inserted. */
  datatype Request = Request(currency: Currency, address: string, stacking: bool, now: int, paid: bool, recorded: bool)

  datatype Response = Granted | TooManyRequests | PaymentFailed | RecordFailed

  const WINDOW := 5 * 60 * 1000
  const TRIGGER_COUNT := 5
  const STACKING_WINDOW := 2 * 24 * 60 * 60 * 1000
  const STACKING_TRIGGER_COUNT := 1

  // ---- The query -------------------------------------------------------------------

  /** The moments of one address and currency, in insertion order. */
  function Times(rows: seq<Grant>, c: Currency, a: string): seq<int> {
    if rows == [] then [] else
    var r := rows[|rows| - 1];
    Times(rows[..|rows| - 1], c, a) + if r.currency == c && r.address == a then [r.occurredAt] else []
  }

  function Insert(x: int, sorted: seq<int>): seq<int> {
    if sorted == [] || sorted[0] <= x then [x] + sorted else [sorted[0]] + Insert(x, sorted[1..])
  }

  /** ORDER BY occurred_at DESC. */
  function SortDescending(xs: seq<int>): seq<int> {
    if xs == [] then [] else Insert(xs[|xs| - 1], SortDescending(xs[..|xs| - 1]))
  }

  /** ... LIMIT 5. */
  function NewestFive(xs: seq<int>): seq<int> {
    var s := SortDescending(xs);
    if |s| <= 5 then s else s[..5]
  }

  function CountRecent(xs: seq<int>, now: int, window: int): nat {
    if xs == [] then 0 else
    CountRecent(xs[..|xs| - 1], now, window) + if now - xs[|xs| - 1] <= window then 1 else 0
  }

  function Window(q: Request): int {
    if q.currency.STX? && q.stacking then STACKING_WINDOW else WINDOW
  }

  function TriggerCount(q: Request): int {
    if q.currency.STX? && q.stacking then STACKING_TRIGGER_COUNT else TRIGGER_COUNT
  }

  /** The guard lets the request through. */
  predicate Allowed(rows: seq<Grant>, q: Request) {
    CountRecent(NewestFive(Times(rows, q.currency, q.address)), q.now, Window(q)) < TriggerCount(q)
  }

  function Step(rows: seq<Grant>, q: Request): seq<Grant> {
    if Allowed(rows, q) && q.paid && q.recorded then rows + [Grant(q.currency, q.address, q.now)] else rows
  }

  function Run(qs: seq<Request>): seq<Grant> {
    if qs == [] then [] else Step(Run(qs[..|qs| - 1]), qs[|qs| - 1])
  }

  /** The two handlers, each behind its queue. */
  class FaucetHandler {
    var rows: seq<Grant>

    constructor ()
      ensures rows == []
    {
      rows := [];
    }

    method Handle(q: Request) returns (r: Response)
      modifies this
      ensures rows == Step(old(rows), q)
      ensures r == if !Allowed(old(rows), q) then TooManyRequests else if !q.paid then PaymentFailed
                   else if q.currency.BTC? && !q.recorded then RecordFailed else Granted
    {
      var lastRequests := NewestFive(Times(rows, q.currency, q.address));
      var requestsInWindow := 0;
      for i := 0 to |lastRequests|
        invariant requestsInWindow == CountRecent(lastRequests[..i], q.now, Window(q))
      {
        assert lastRequests[..i + 1][..i] == lastRequests[..i];
        if q.now - lastRequests[i] <= Window(q) {
          requestsInWindow := requestsInWindow + 1;
        }
      }
      assert lastRequests[..|lastRequests|] == lastRequests;
      if requestsInWindow >= TriggerCount(q) {
        return TooManyRequests;
      }
      if !q.paid {
        return PaymentFailed;
      }
      r := Granted;   // the STX handler answers before it records
      if q.recorded {
        rows := rows + [Grant(q.currency, q.address, q.now)];
      } else if q.currency.BTC? {
        r := RecordFailed;
      }
    }
  }

  // ---- The five newest of a growing list -------------------------------------------

  ghost predicate Ascending(xs: seq<int>) {
    forall i, j :: 0 <= i < j < |xs| ==> xs[i] <= xs[j]
  }

  lemma {:induction false} SortReverses(xs: seq<int>)
    requires Ascending(xs)
    ensures SortDescending(xs) == Reversed(xs)
  {
    if xs != [] {
      SortReverses(xs[..|xs| - 1]);
      assert Reversed(xs) == [xs[|xs| - 1]] + Reversed(xs[..|xs| - 1]);
    }
  }

  lemma {:induction false} CountBounds(xs: seq<int>, now: int, window: int)
    ensures CountRecent(xs, now, window) <= |xs|
    ensures CountRecent(xs, now, window) == |xs| <==> forall i :: 0 <= i < |xs| ==> now - xs[i] <= window
    ensures CountRecent(xs, now, window) == 0 <==> forall i :: 0 <= i < |xs| ==> now - xs[i] > window
  {
    if xs != [] {
      var n := |xs| - 1;
      CountBounds(xs[..n], now, window);
      assert forall i :: 0 <= i < n ==> xs[..n][i] == xs[i];
    }
  }

  /** Six grants never fit: the sixth is later than the first by more than the window. */
  ghost predicate Spaced(xs: seq<int>) {
    forall i, j {:trigger Apart(xs[i], xs[j])} :: 0 <= i && j == i + 5 && j < |xs| ==> Apart(xs[i], xs[j])
  }

  ghost predicate Apart(x: int, y: int) {
    y - x > WINDOW
  }

  /** A request that passes the guard comes long enough after the fifth grant from the end,
      and a stacking request long enough after every grant. */
  lemma AllowedIsLate(xs: seq<int>, q: Request)
    requires Ascending(xs) && (forall x :: x in xs ==> x <= q.now)
    requires CountRecent(NewestFive(xs), q.now, Window(q)) < TriggerCount(q)
    ensures |xs| >= 5 ==> Apart(xs[|xs| - 5], q.now)
    ensures q.currency.STX? && q.stacking ==> forall x :: x in xs ==> q.now - x > STACKING_WINDOW
  {
    SortReverses(xs);
    var five := NewestFive(xs);
    CountBounds(five, q.now, Window(q));
    if |xs| >= 5 {
      assert five[4] == xs[|xs| - 5];
      assert forall i :: 0 <= i < 5 ==> five[i] >= five[4];
    }
    if q.currency.STX? && q.stacking && xs != [] {
      assert five[0] == xs[|xs| - 1];
      forall x | x in xs ensures x <= xs[|xs| - 1] { }
    }
  }

  lemma {:induction false} TimesSnoc(rows: seq<Grant>, g: Grant, c: Currency, a: string)
    ensures Times(rows + [g], c, a) == Times(rows, c, a) + if g.currency == c && g.address == a then [g.occurredAt] else []
  {
    assert (rows + [g])[..|rows|] == rows;
  }

  lemma SpacedGrows(xs: seq<int>, now: int)
    requires Ascending(xs) && Spaced(xs) && (forall x :: x in xs ==> x <= now)
    requires |xs| >= 5 ==> Apart(xs[|xs| - 5], now)
    ensures Ascending(xs + [now]) && Spaced(xs + [now])
  {
    var ys := xs + [now];
    forall i, j | 0 <= i < j < |ys| ensures ys[i] <= ys[j] {
      assert ys[i] in xs;
    }
    forall i, j | 0 <= i && j == i + 5 && j < |ys| ensures Apart(ys[i], ys[j]) {
      if j < |xs| { assert Apart(xs[i], xs[j]); }
    }
  }

  /** The clock does not go back. */
  ghost predicate ClockAscends(qs: seq<Request>) {
    forall i, j :: 0 <= i < j < |qs| ==> qs[i].now <= qs[j].now
  }

  /** The moments recorded so far are in order, none after `now`, and spaced. */
  ghost predicate WellSpaced(xs: seq<int>, now: int) {
    Ascending(xs) && Spaced(xs) && forall x :: x in xs ==> x <= now
  }

  lemma StepIsSpaced(rows: seq<Grant>, q: Request, c: Currency, a: string)
    requires WellSpaced(Times(rows, c, a), q.now)
    ensures WellSpaced(Times(Step(rows, q), c, a), q.now)
  {
    hide Times, Ascending, Spaced, CountRecent, NewestFive;
    assert Times(rows, c, a) + [] == Times(rows, c, a);
    if Allowed(rows, q) && q.paid && q.recorded {
      TimesSnoc(rows, Grant(q.currency, q.address, q.now), c, a);
      if q.currency == c && q.address == a {
        AllowedIsLate(Times(rows, c, a), q);
        SpacedGrows(Times(rows, c, a), q.now);
      }
    }
  }

  lemma {:induction false} EveryRunIsSpaced(qs: seq<Request>, c: Currency, a: string, now: int)
    requires ClockAscends(qs) && (qs != [] ==> qs[|qs| - 1].now <= now)
    ensures WellSpaced(Times(Run(qs), c, a), now)
  {
    if qs != [] {
      var n := |qs| - 1;
      EveryRunIsSpaced(qs[..n], c, a, qs[n].now);
      hide Times, Step, Ascending, Spaced;
      StepIsSpaced(Run(qs[..n]), qs[n], c, a);
    }
  }

  function CountBetween(xs: seq<int>, from: int, to: int): nat {
    if xs == [] then 0 else
    CountBetween(xs[..|xs| - 1], from, to) + if from <= xs[|xs| - 1] <= to then 1 else 0
  }

  /** At most five in any closed window. */
  ghost predicate Bounded(xs: seq<int>) {
    forall from :: CountInWindow(xs, from) <= 5
  }

  function CountInWindow(xs: seq<int>, from: int): nat {
    CountBetween(xs, from, from + 300000)
  }

  lemma {:induction false} CountBetweenBounds(xs: seq<int>, from: int, to: int)
    ensures CountBetween(xs, from, to) <= |xs|
    ensures (forall i :: 0 <= i < |xs| ==> xs[i] < from) ==> CountBetween(xs, from, to) == 0
  {
    if xs != [] { CountBetweenBounds(xs[..|xs| - 1], from, to); }
  }

  lemma {:induction false} CountBetweenConcat(xs: seq<int>, ys: seq<int>, from: int, to: int)
    ensures CountBetween(xs + ys, from, to) == CountBetween(xs, from, to) + CountBetween(ys, from, to)
  {
    if ys == [] {
      assert xs + ys == xs;
    } else {
      assert (xs + ys)[..|xs + ys| - 1] == xs + ys[..|ys| - 1];
      CountBetweenConcat(xs, ys[..|ys| - 1], from, to);
    }
  }

  lemma {:induction false} SpacedCount(xs: seq<int>, from: int)
    requires Ascending(xs) && Spaced(xs)
    ensures CountBetween(xs, from, from + WINDOW) <= 5
  {
    hide CountBetween;
    var n := |xs|;
    if n <= 5 {
      CountBetweenBounds(xs, from, from + WINDOW);
    } else if from <= xs[n - 1] <= from + WINDOW {
      var low, high := xs[..n - 5], xs[n - 5..];
      assert xs == low + high;
      CountBetweenConcat(low, high, from, from + WINDOW);
      assert Apart(xs[n - 6], xs[n - 6 + 5]);
      assert forall i :: 0 <= i < |low| ==> low[i] <= xs[n - 6];
      CountBetweenBounds(low, from, from + WINDOW);
      CountBetweenBounds(high, from, from + WINDOW);
    } else {
      var low := xs[..n - 1];
      forall i, j | 0 <= i && j == i + 5 && j < |low| ensures Apart(low[i], low[j]) {
        assert Apart(xs[i], xs[j]);
      }
      SpacedCount(low, from);
      assert xs == low + [xs[n - 1]];
      CountBetweenStep(low, xs[n - 1], from, from + WINDOW);
    }
  }

  /** No run records more than five grants to one address in any closed five-minute window,
      stacking grants included. */
  lemma AtMostFivePerWindow(qs: seq<Request>, c: Currency, a: string, from: int)
    requires ClockAscends(qs)
    ensures |RowsBetween(Run(qs), c, a, from, from + 300000)| <= 5
  {
    CountIsRows(Run(qs), c, a, from, from + 300000);
    EveryRunIsSpaced(qs, c, a, if qs == [] then 0 else qs[|qs| - 1].now);
    SpacedCount(Times(Run(qs), c, a), from);
  }

  /** A stacking request is granted only if the address got nothing in the two days before. */
  lemma StackingGrantIsRare(rows: seq<Grant>, q: Request)
    requires q.currency.STX? && q.stacking && Allowed(rows, q)
    ensures forall g :: g in rows && g.currency == STX && g.address == q.address ==> q.now - g.occurredAt > 172800000
  {
    hide Allowed;
    AdmittedExactlyWhen(rows, q);
    forall g | g in rows && g.currency == STX && g.address == q.address ensures q.now - g.occurredAt > 172800000 {
      var i :| 0 <= i < |rows| && rows[i] == g;
      assert i !in RecentRows(rows, q, 172800000);
    }
  }

  // ---- The guard, exactly ----------------------------------------------------------

  ghost predicate Falling(xs: seq<int>) {
    forall i, j :: 0 <= i < j < |xs| ==> xs[i] >= xs[j]
  }

  lemma {:induction false} InsertMember(x: int, s: seq<int>, e: int)
    ensures e in Insert(x, s) <==> e == x || e in s
  {
    if s != [] && s[0] > x {
      InsertMember(x, s[1..], e);
      assert s == [s[0]] + s[1..];
    }
  }

  lemma {:induction false} InsertFalls(x: int, s: seq<int>)
    requires Falling(s)
    ensures Falling(Insert(x, s)) && |Insert(x, s)| == |s| + 1
  {
    if s != [] && s[0] > x {
      InsertFalls(x, s[1..]);
      var r := Insert(x, s[1..]);
      forall j | 0 <= j < |r| ensures s[0] >= r[j] {
        InsertMember(x, s[1..], r[j]);
      }
    }
  }

  lemma {:induction false} InsertCounts(x: int, s: seq<int>, now: int, window: int)
    ensures CountRecent(Insert(x, s), now, window) == CountRecent(s, now, window) + if now - x <= window then 1 else 0
  {
    hide CountRecent;
    if s == [] || s[0] <= x {
      CountFront([x] + s, now, window);
      assert ([x] + s)[1..] == s;
    } else {
      InsertCounts(x, s[1..], now, window);
      var r := Insert(x, s[1..]);
      CountFront([s[0]] + r, now, window);
      assert ([s[0]] + r)[1..] == r;
      CountFront(s, now, window);
    }
  }

  lemma {:induction false} CountFront(xs: seq<int>, now: int, window: int)
    requires xs != []
    ensures CountRecent(xs, now, window) == (if now - xs[0] <= window then 1 else 0) + CountRecent(xs[1..], now, window)
  {
    var n := |xs| - 1;
    if n > 0 {
      CountFront(xs[..n], now, window);
      assert xs[..n][1..] == xs[1..][..n - 1];
    }
  }

  lemma {:induction false} SortFalls(xs: seq<int>, now: int, window: int)
    ensures Falling(SortDescending(xs)) && |SortDescending(xs)| == |xs|
    ensures CountRecent(SortDescending(xs), now, window) == CountRecent(xs, now, window)
  {
    if xs != [] {
      SortFalls(xs[..|xs| - 1], now, window);
      InsertFalls(xs[|xs| - 1], SortDescending(xs[..|xs| - 1]));
      InsertCounts(xs[|xs| - 1], SortDescending(xs[..|xs| - 1]), now, window);
    }
  }

  lemma {:induction false} CountSplit(xs: seq<int>, n: nat, now: int, window: int)
    requires n <= |xs|
    ensures CountRecent(xs, now, window) == CountRecent(xs[..n], now, window) + CountRecent(xs[n..], now, window)
  {
    if n < |xs| {
      var m := |xs| - 1;
      CountSplit(xs[..m], n, now, window);
      assert xs[..m][..n] == xs[..n] && xs[..m][n..] == xs[n..][..m - n];
    } else {
      assert xs[..n] == xs && xs[n..] == [];
    }
  }

  /** Of falling moments the first five have as many recent ones as all, up to five. */
  lemma FirstFive(s: seq<int>, now: int, window: int)
    requires Falling(s) && |s| > 5
    ensures CountRecent(s[..5], now, window) == 5 || CountRecent(s[..5], now, window) == CountRecent(s, now, window)
    ensures CountRecent(s, now, window) >= CountRecent(s[..5], now, window)
  {
    CountSplit(s, 5, now, window);
    if now - s[4] <= window {
      CountBounds(s[..5], now, window);
    } else {
      CountBounds(s[5..], now, window);
    }
  }

  /** The rows of an address and currency between two moments. */
  ghost function RowsBetween(rows: seq<Grant>, c: Currency, a: string, from: int, to: int): set<nat> {
    set i: nat | i < |rows| && rows[i].currency == c && rows[i].address == a && from <= rows[i].occurredAt <= to
  }

  lemma RowsBetweenStep(rows: seq<Grant>, g: Grant, c: Currency, a: string, from: int, to: int)
    ensures |RowsBetween(rows + [g], c, a, from, to)| ==
            |RowsBetween(rows, c, a, from, to)| + if g.currency == c && g.address == a && from <= g.occurredAt <= to then 1 else 0
  {
    var low, n := RowsBetween(rows, c, a, from, to), |rows|;
    var hit := g.currency == c && g.address == a && from <= g.occurredAt <= to;
    assert RowsBetween(rows + [g], c, a, from, to) == if hit then low + {n} else low;
  }

  lemma CountBetweenStep(xs: seq<int>, x: int, from: int, to: int)
    ensures CountBetween(xs + [x], from, to) == CountBetween(xs, from, to) + if from <= x <= to then 1 else 0
  {
    assert (xs + [x])[..|xs|] == xs;
  }

  /** Counting moments is counting rows. */
  lemma {:induction false} CountIsRows(rows: seq<Grant>, c: Currency, a: string, from: int, to: int)
    ensures CountBetween(Times(rows, c, a), from, to) == |RowsBetween(rows, c, a, from, to)|
  {
    if rows == [] {
      assert RowsBetween(rows, c, a, from, to) == {};
    } else {
      var n := |rows| - 1;
      var low, g := rows[..n], rows[n];
      assert rows == low + [g];
      CountIsRows(low, c, a, from, to);
      TimesSnoc(low, g, c, a);
      RowsBetweenStep(low, g, c, a, from, to);
      hide Times, CountBetween, RowsBetween;
      CountBetweenStep(Times(low, c, a), g.occurredAt, from, to);
      assert Times(low, c, a) + [] == Times(low, c, a);
    }
  }

  /** The rows of an address and currency not older than the window. */
  ghost function RecentRows(rows: seq<Grant>, q: Request, window: int): set<nat> {
    set i: nat | i < |rows| && rows[i].currency == q.currency && rows[i].address == q.address && q.now - rows[i].occurredAt <= window
  }

  lemma RecentRowsStep(rows: seq<Grant>, g: Grant, q: Request, window: int)
    ensures |RecentRows(rows + [g], q, window)| ==
            |RecentRows(rows, q, window)| + if g.currency == q.currency && g.address == q.address && q.now - g.occurredAt <= window then 1 else 0
  {
    var low, n := RecentRows(rows, q, window), |rows|;
    var hit := g.currency == q.currency && g.address == q.address && q.now - g.occurredAt <= window;
    assert RecentRows(rows + [g], q, window) == if hit then low + {n} else low;
  }

  lemma CountRecentStep(xs: seq<int>, x: int, now: int, window: int)
    ensures CountRecent(xs + [x], now, window) == CountRecent(xs, now, window) + if now - x <= window then 1 else 0
  {
    assert (xs + [x])[..|xs|] == xs;
  }

  lemma {:induction false} RecentIsRows(rows: seq<Grant>, q: Request, window: int)
    ensures CountRecent(Times(rows, q.currency, q.address), q.now, window) == |RecentRows(rows, q, window)|
  {
    if rows == [] {
      assert RecentRows(rows, q, window) == {};
    } else {
      var n := |rows| - 1;
      var low, g := rows[..n], rows[n];
      assert rows == low + [g];
      RecentIsRows(low, q, window);
      TimesSnoc(low, g, q.currency, q.address);
      RecentRowsStep(low, g, q, window);
      hide Times, CountRecent, RecentRows;
      CountRecentStep(Times(low, q.currency, q.address), g.occurredAt, q.now, window);
      assert Times(low, q.currency, q.address) + [] == Times(low, q.currency, q.address);
    }
  }

  /** Whatever is recorded: a request is admitted exactly if fewer than 5 grants to the address
      lie in the last 300000 ms, and a stacking request exactly if none lies in the last
      172800000 ms. */
  lemma AdmittedExactlyWhen(rows: seq<Grant>, q: Request)
    ensures Allowed(rows, q) <==>
              if q.currency.STX? && q.stacking then RecentRows(rows, q, 172800000) == {}
              else |RecentRows(rows, q, 300000)| < 5
  {
    RecentIsRows(rows, q, Window(q));
    hide RecentRows, Times, SortDescending, CountRecent;
    var xs := Times(rows, q.currency, q.address);
    SortFalls(xs, q.now, Window(q));
    var s := SortDescending(xs);
    if |s| > 5 { FirstFive(s, q.now, Window(q)); }
    CountBounds(xs, q.now, Window(q));
  }

  // ---- Payments --------------------------------------------------------------------

  /** The request is admitted and paid, recorded or not. */
  predicate Pays(rows: seq<Grant>, q: Request, c: Currency, a: string) {
    Allowed(rows, q) && q.paid && q.currency == c && q.address == a
  }

  /** The moments at which an address is paid. */
  function PaidTimes(qs: seq<Request>, c: Currency, a: string): seq<int> {
    if qs == [] then [] else
    var before, q := qs[..|qs| - 1], qs[|qs| - 1];
    PaidTimes(before, c, a) + if Pays(Run(before), q, c, a) then [q.now] else []
  }

  /** When the request is paid, fewer than five payments lie in the window before it. */
  ghost predicate FewPaidBefore(qs: seq<Request>, q: Request, c: Currency, a: string) {
    Pays(Run(qs), q, c, a) ==> CountBetween(PaidTimes(qs, c, a), q.now - 300000, q.now) < 5
  }

  lemma {:induction false} CountOfAscending(xs: seq<int>, now: int)
    requires Ascending(xs) && (forall x :: x in xs ==> x <= now) && |xs| >= 5
    requires CountBetween(xs, now - WINDOW, now) < 5
    ensures Apart(xs[|xs| - 5], now)
  {
    hide CountBetween, Ascending;
    var n := |xs| - 5;
    var tail := xs[n..];
    assert xs == xs[..n] + tail;
    CountBetweenConcat(xs[..n], tail, now - WINDOW, now);
    LastFive(xs, now);
    if now - WINDOW <= xs[n] {
      CountWithin(tail, now - WINDOW, now);
      assert false;
    }
  }

  lemma LastFive(xs: seq<int>, now: int)
    requires Ascending(xs) && (forall x :: x in xs ==> x <= now) && |xs| >= 5
    ensures var tail := xs[|xs| - 5..]; forall i :: 0 <= i < |tail| ==> xs[|xs| - 5] <= tail[i] <= now
  {
    var tail := xs[|xs| - 5..];
    forall i | 0 <= i < |tail| ensures xs[|xs| - 5] <= tail[i] <= now {
      assert tail[i] == xs[|xs| - 5 + i];
      assert tail[i] in xs;
    }
  }

  lemma {:induction false} CountWithin(xs: seq<int>, from: int, to: int)
    requires forall i :: 0 <= i < |xs| ==> from <= xs[i] <= to
    ensures CountBetween(xs, from, to) == |xs|
  {
    if xs != [] { CountWithin(xs[..|xs| - 1], from, to); }
  }

  lemma PaymentIsSpaced(xs: seq<int>, now: int)
    requires WellSpaced(xs, now) && CountBetween(xs, now - WINDOW, now) < TRIGGER_COUNT
    ensures WellSpaced(xs + [now], now)
  {
    hide CountBetween, Ascending, Spaced;
    if |xs| >= 5 { CountOfAscending(xs, now); }
    SpacedGrows(xs, now);
  }

  lemma {:induction false} FewPaidIsSpaced(qs: seq<Request>, c: Currency, a: string, now: int)
    requires ClockAscends(qs) && (qs != [] ==> qs[|qs| - 1].now <= now)
    requires forall i :: 0 <= i < |qs| ==> FewPaidBefore(qs[..i], qs[i], c, a)
    ensures WellSpaced(PaidTimes(qs, c, a), now)
  {
    hide Spaced, Ascending, ClockAscends, Pays, CountBetween, Run;
    if qs == [] {
      NothingIsSpaced(now);
    } else {
      var n := |qs| - 1;
      var q, xs := qs[n], PaidTimes(qs[..n], c, a);
      FewPaidPrefix(qs, c, a);
      FewPaidIsSpaced(qs[..n], c, a, q.now);
      assert FewPaidBefore(qs[..n], q, c, a);
      if Pays(Run(qs[..n]), q, c, a) { PaymentIsSpaced(xs, q.now); }
      assert xs + [] == xs;
    }
  }

  lemma NothingIsSpaced(now: int)
    ensures WellSpaced([], now)
  {
  }

  lemma FewPaidPrefix(qs: seq<Request>, c: Currency, a: string)
    requires qs != [] && ClockAscends(qs) && forall i :: 0 <= i < |qs| ==> FewPaidBefore(qs[..i], qs[i], c, a)
    ensures var low := qs[..|qs| - 1];
            ClockAscends(low) && (low != [] ==> low[|low| - 1].now <= qs[|qs| - 1].now) &&
            forall i :: 0 <= i < |low| ==> FewPaidBefore(low[..i], low[i], c, a)
  {
    hide FewPaidBefore;
    var low := qs[..|qs| - 1];
    forall i | 0 <= i < |low| ensures FewPaidBefore(low[..i], low[i], c, a) {
      assert low[..i] == qs[..i] && FewPaidBefore(qs[..i], qs[i], c, a);
    }
  }

  lemma {:induction false} PaidPrefix(qs: seq<Request>, i: nat, c: Currency, a: string, from: int, to: int)
    requires i <= |qs|
    ensures CountBetween(PaidTimes(qs[..i], c, a), from, to) <= CountBetween(PaidTimes(qs, c, a), from, to)
    decreases |qs|
  {
    if i < |qs| {
      var before := qs[..|qs| - 1];
      PaidPrefix(before, i, c, a, from, to);
      assert before[..i] == qs[..i];
      var x := PaidTimes(before, c, a);
      CountBetweenConcat(x, if Pays(Run(before), qs[|qs| - 1], c, a) then [qs[|qs| - 1].now] else [], from, to);
    } else {
      assert qs[..i] == qs;
    }
  }

  /** Payments, recorded or not: no closed window holds more than five to one address exactly
      when every payment has fewer than five in the window before it. */
  lemma PaymentsBoundedExactlyWhen(qs: seq<Request>, c: Currency, a: string)
    requires ClockAscends(qs)
    ensures Bounded(PaidTimes(qs, c, a)) <==> forall i :: 0 <= i < |qs| ==> FewPaidBefore(qs[..i], qs[i], c, a)
  {
    hide FewPaidBefore, PaidTimes;
    if forall i :: 0 <= i < |qs| ==> FewPaidBefore(qs[..i], qs[i], c, a) {
      FewPaidIsSpaced(qs, c, a, if qs == [] then 0 else qs[|qs| - 1].now);
      forall from ensures CountInWindow(PaidTimes(qs, c, a), from) <= TRIGGER_COUNT {
        SpacedCount(PaidTimes(qs, c, a), from);
      }
    }
    if Bounded(PaidTimes(qs, c, a)) {
      forall i | 0 <= i < |qs| ensures FewPaidBefore(qs[..i], qs[i], c, a) {
        ManyPaidBreaks(qs, i, c, a);
        assert CountInWindow(PaidTimes(qs, c, a), qs[i].now - WINDOW) <= TRIGGER_COUNT;
      }
    }
  }

  lemma ManyPaidBreaks(qs: seq<Request>, i: nat, c: Currency, a: string)
    requires i < |qs|
    ensures !FewPaidBefore(qs[..i], qs[i], c, a) ==>
            CountBetween(PaidTimes(qs, c, a), qs[i].now - WINDOW, qs[i].now) > TRIGGER_COUNT
  {
    hide Allowed, Run;
    if !FewPaidBefore(qs[..i], qs[i], c, a) {
      var from, to, x := qs[i].now - WINDOW, qs[i].now, PaidTimes(qs[..i], c, a);
      assert qs[..i + 1][..i] == qs[..i];
      assert PaidTimes(qs[..i + 1], c, a) == x + [to];
      hide PaidTimes, Pays, CountBetween;
      CountBetweenConcat(x, [to], from, to);
      CountWithin([to], from, to);
      PaidPrefix(qs, i + 1, c, a, from, to);
    }
  }

  /** If every payment is recorded, the payments are the rows, and bounded like them. */
  lemma {:induction false} RecordedPaymentsAreRows(qs: seq<Request>, c: Currency, a: string)
    requires forall i :: 0 <= i < |qs| && qs[i].paid ==> qs[i].recorded
    ensures PaidTimes(qs, c, a) == Times(Run(qs), c, a)
  {
    if qs != [] {
      var n := |qs| - 1;
      RecordedPaymentsAreRows(qs[..n], c, a);
      TimesSnoc(Run(qs[..n]), Grant(qs[n].currency, qs[n].address, qs[n].now), c, a);
    }
  }

  const UNRECORDED := Request(STX, "a", false, 0, true, false)
  const SIX_UNRECORDED := [UNRECORDED, UNRECORDED, UNRECORDED, UNRECORDED, UNRECORDED, UNRECORDED]

  lemma {:induction false} UnrecordedPay(qs: seq<Request>)
    requires forall i :: 0 <= i < |qs| ==> qs[i] == UNRECORDED
    ensures Run(qs) == [] && |PaidTimes(qs, STX, "a")| == |qs|
    ensures forall i :: 0 <= i < |qs| ==> PaidTimes(qs, STX, "a")[i] == 0
  {
    if qs != [] {
      UnrecordedPay(qs[..|qs| - 1]);
      assert Times([], STX, "a") == [];
    }
  }

  /** Six payments in one window, none recorded: each is admitted. */
  lemma UnrecordedPaymentsAreUnbounded()
    ensures ClockAscends(SIX_UNRECORDED) && CountBetween(PaidTimes(SIX_UNRECORDED, STX, "a"), 0, 300000) == 6
  {
    UnrecordedPay(SIX_UNRECORDED);
    CountWithin(PaidTimes(SIX_UNRECORDED, STX, "a"), 0, WINDOW);
  }
}

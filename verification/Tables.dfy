/** Generic pieces of the relational store: rows tied to a block, the SQL statements that
    select rows or flip their `canonical` flag, and the two wrapper types. */
module Tables {
  datatype Option<+T> = None | Some(value: T)

  datatype Result<+T, +E> = Ok(value: T) | Err(error: E)

  /** An `index_block_hash`: a byte string, compared only for equality, so its value as a number. */
  datatype Hash = Hash(value: nat)

  /** A row of a table whose rows belong to a block: the block's index hash and height, the
      row's flag, and the table's own columns. */
  datatype Row<+T> = Row(block: Hash, height: nat, canonical: bool, item: T)

  /** SELECT ... WHERE p, in table order. */
  function Select<T>(rows: seq<T>, p: T -> bool): seq<T> {
    if rows == [] then [] else
    var n := |rows| - 1;
    Select(rows[..n], p) + (if p(rows[n]) then [rows[n]] else [])
  }

  /** Rows that `UPDATE t SET canonical = c WHERE index_block_hash = h AND canonical != c` changes. */
  predicate Flips<T>(row: Row<T>, h: Hash, c: bool) {
    row.block == h && row.canonical != c
  }

  /** The table after that UPDATE. */
  function SetCanonical<T>(rows: seq<Row<T>>, h: Hash, c: bool): (r: seq<Row<T>>)
    ensures |r| == |rows|
  {
    seq(|rows|, i requires 0 <= i < |rows| =>
      if Flips(rows[i], h, c) then rows[i].(canonical := c) else rows[i])
  }

  /** The `rowCount` of that UPDATE. */
  function FlipCount<T>(rows: seq<Row<T>>, h: Hash, c: bool): nat {
    if rows == [] then 0 else
    var n := |rows| - 1;
    FlipCount(rows[..n], h, c) + if Flips(rows[n], h, c) then 1 else 0
  }

  /** The items from last to first. */
  function Reversed<T>(xs: seq<T>): (r: seq<T>)
    ensures |r| == |xs| && forall i :: 0 <= i < |r| ==> r[i] == xs[|xs| - 1 - i]
  {
    seq(|xs|, i requires 0 <= i < |xs| => xs[|xs| - 1 - i])
  }

  /** A row that matches alone, at an index of its own, is the whole answer. */
  lemma {:induction false} SelectUnique<T>(rows: seq<T>, p: T -> bool, k: nat)
    requires k < |rows| && p(rows[k])
    requires forall i :: 0 <= i < |rows| && i != k ==> !p(rows[i])
    ensures Select(rows, p) == [rows[k]]
  {
    var n := |rows| - 1;
    if k == n {
      SelectNone(rows[..n], p);
    } else {
      SelectUnique(rows[..n], p, k);
    }
  }

  lemma {:induction false} SelectNone<T>(rows: seq<T>, p: T -> bool)
    requires forall x :: x in rows ==> !p(x)
    ensures Select(rows, p) == []
  {
    if rows != [] {
      SelectNone(rows[..|rows| - 1], p);
    }
  }

  lemma {:induction false} SelectMember<T>(rows: seq<T>, p: T -> bool, x: T)
    ensures x in Select(rows, p) <==> x in rows && p(x)
  {
    if rows != [] {
      var n := |rows| - 1;
      assert rows == rows[..n] + [rows[n]];
      SelectMember(rows[..n], p, x);
    }
  }

  lemma {:induction false} SelectConcat<T>(x: seq<T>, y: seq<T>, p: T -> bool)
    ensures Select(x + y, p) == Select(x, p) + Select(y, p)
  {
    if y == [] {
      assert x + y == x;
    } else {
      assert (x + y)[..|x + y| - 1] == x + y[..|y| - 1];
      SelectConcat(x, y[..|y| - 1], p);
    }
  }

  lemma {:induction false} SelectAll<T>(x: seq<T>, p: T -> bool)
    requires forall e :: e in x ==> p(e)
    ensures Select(x, p) == x
  {
    if x != [] {
      var n := |x| - 1;
      assert x == x[..n] + [x[n]];
      SelectAll(x[..n], p);
    }
  }

  /** Selecting by a condition that implies another one, with or without the other first. */
  lemma {:induction false} SelectWithin<T(!new)>(x: seq<T>, p: T -> bool, q: T -> bool)
    requires forall e :: p(e) ==> q(e)
    ensures Select(Select(x, q), p) == Select(x, p)
  {
    if x != [] {
      var n := |x| - 1;
      SelectWithin(x[..n], p, q);
      var l := if q(x[n]) then [x[n]] else [];
      SelectConcat(Select(x[..n], q), l, p);
      assert l != [] ==> l[..|l| - 1] == [];
    }
  }

  lemma {:induction false} SelectSame<T>(x: seq<T>, p: T -> bool, q: T -> bool)
    requires forall e :: e in x ==> (p(e) <==> q(e))
    ensures Select(x, p) == Select(x, q)
  {
    if x != [] { SelectSame(x[..|x| - 1], p, q); }
  }

  lemma {:induction false} SelectCount<T>(x: seq<T>, p: T -> bool, r: T)
    ensures multiset(Select(x, p))[r] == if p(r) then multiset(x)[r] else 0
  {
    if x != [] {
      var n := |x| - 1;
      SelectCount(x[..n], p, r);
      assert x == x[..n] + [x[n]];
    }
  }

  /** The answer to a query does not depend on the order of the rows, as a multiset. */
  lemma SelectPermutes<T(!new)>(x: seq<T>, y: seq<T>, p: T -> bool)
    requires multiset(x) == multiset(y)
    ensures multiset(Select(x, p)) == multiset(Select(y, p)) && |Select(x, p)| == |Select(y, p)|
    ensures |Select(x, p)| == 1 ==> Select(x, p) == Select(y, p)
  {
    hide Select;
    var u, v := Select(x, p), Select(y, p);
    forall r ensures multiset(u)[r] == multiset(v)[r] {
      SelectCount(x, p, r);
      SelectCount(y, p, r);
    }
    SameMultiset(u, v);
  }

  lemma SameMultiset<T(!new)>(u: seq<T>, v: seq<T>)
    requires forall r :: multiset(u)[r] == multiset(v)[r]
    ensures multiset(u) == multiset(v) && |u| == |v| && (|u| == 1 ==> u == v)
  {
    assert multiset(u) == multiset(v);
    assert |multiset(u)| == |u| && |multiset(v)| == |v|;
    if |u| == 1 {
      assert u[0] in multiset(v);
      assert v[0] == u[0];
    }
  }

  lemma {:induction false} FlipCountConcat<T>(a: seq<Row<T>>, b: seq<Row<T>>, h: Hash, c: bool)
    ensures FlipCount(a + b, h, c) == FlipCount(a, h, c) + FlipCount(b, h, c)
  {
    if b == [] {
      assert a + b == a;
    } else {
      var n := |b| - 1;
      assert (a + b)[..|a| + n] == a + b[..n];
      FlipCountConcat(a, b[..n], h, c);
    }
  }

  // ---- ORDER BY ... LIMIT ... OFFSET -----------------------------------------------

  function InsertBy<T>(x: T, rows: seq<T>, first: (T, T) -> bool): seq<T> {
    if rows == [] || first(x, rows[0]) then [x] + rows else [rows[0]] + InsertBy(x, rows[1..], first)
  }

  /** ORDER BY, where `first` tells that a row may come before another. */
  function OrderBy<T>(rows: seq<T>, first: (T, T) -> bool): seq<T> {
    if rows == [] then [] else InsertBy(rows[|rows| - 1], OrderBy(rows[..|rows| - 1], first), first)
  }

  ghost predicate IsOrder<T(!new)>(first: (T, T) -> bool) {
    (forall x, y :: first(x, y) || first(y, x)) && (forall x, y, z :: first(x, y) && first(y, z) ==> first(x, z))
  }

  ghost predicate Ordered<T>(rows: seq<T>, first: (T, T) -> bool) {
    forall i, j :: 0 <= i < j < |rows| ==> first(rows[i], rows[j])
  }

  lemma {:induction false} InsertByOrders<T(!new)>(x: T, rows: seq<T>, first: (T, T) -> bool)
    requires IsOrder(first) && Ordered(rows, first)
    ensures Ordered(InsertBy(x, rows, first), first) && multiset(InsertBy(x, rows, first)) == multiset(rows) + multiset{x}
  {
    if rows != [] && !first(x, rows[0]) {
      assert rows == [rows[0]] + rows[1..];
      InsertByOrders(x, rows[1..], first);
      var r := InsertBy(x, rows[1..], first);
      hide InsertBy;
      forall j | 0 <= j < |r| ensures first(rows[0], r[j]) {
        assert r[j] in multiset(r);
        if r[j] != x {
          assert r[j] in rows[1..];
        }
      }
    }
  }

  /** The answer is ordered and has every row as often as the table. */
  lemma {:induction false} OrderByOrders<T(!new)>(rows: seq<T>, first: (T, T) -> bool)
    requires IsOrder(first)
    ensures Ordered(OrderBy(rows, first), first) && multiset(OrderBy(rows, first)) == multiset(rows)
    ensures |OrderBy(rows, first)| == |rows|
  {
    if rows != [] {
      var n := |rows| - 1;
      OrderByOrders(rows[..n], first);
      InsertByOrders(rows[n], OrderBy(rows[..n], first), first);
      assert rows == rows[..n] + [rows[n]];
    }
    assert |multiset(OrderBy(rows, first))| == |multiset(rows)|;
  }

  /** Rows of which no two tie have one order only. */
  lemma {:induction false} OrderedOnce<T(!new)>(x: seq<T>, y: seq<T>, first: (T, T) -> bool)
    requires Ordered(x, first) && Ordered(y, first) && multiset(x) == multiset(y)
    requires forall a, b :: a in x && b in x && first(a, b) && first(b, a) ==> a == b
    ensures x == y
  {
    assert |multiset(x)| == |x| && |multiset(y)| == |y|;
    if x != [] {
      SameFirst(x, y, first);
      OrderedRest(x, first);
      OrderedRest(y, first);
      hide Ordered;
      assert x == [x[0]] + x[1..] && y == [y[0]] + y[1..];
      assert multiset(x[1..]) == multiset(x) - multiset{x[0]};
      assert multiset(y[1..]) == multiset(y) - multiset{y[0]};
      OrderedOnce(x[1..], y[1..], first);
    }
  }

  lemma SameFirst<T(!new)>(x: seq<T>, y: seq<T>, first: (T, T) -> bool)
    requires Ordered(x, first) && Ordered(y, first) && multiset(x) == multiset(y) && x != [] && y != []
    requires forall a, b :: a in x && b in x && first(a, b) && first(b, a) ==> a == b
    ensures x[0] == y[0]
  {
    assert x[0] in multiset(y) && y[0] in multiset(x);
    var i :| 0 <= i < |y| && y[i] == x[0];
    var j :| 0 <= j < |x| && x[j] == y[0];
  }

  lemma OrderedRest<T>(rows: seq<T>, first: (T, T) -> bool)
    requires rows != [] && Ordered(rows, first)
    ensures Ordered(rows[1..], first)
  {
  }

  /** A table that is in the opposite order is turned around. */
  lemma {:induction false} OrderByReverses<T>(rows: seq<T>, first: (T, T) -> bool)
    requires forall i, j :: 0 <= i < j < |rows| ==> first(rows[j], rows[i])
    ensures OrderBy(rows, first) == Reversed(rows)
  {
    if rows != [] {
      var n := |rows| - 1;
      OrderByReverses(rows[..n], first);
      assert Reversed(rows) == [rows[n]] + Reversed(rows[..n]);
    }
  }

  /** Rows shuffled from a strictly opposite order come out turned around. */
  lemma ShuffledReverses<T(!new)>(x: seq<T>, y: seq<T>, first: (T, T) -> bool)
    requires IsOrder(first) && multiset(x) == multiset(y) && forall i, j :: 0 <= i < j < |y| ==> !first(y[i], y[j])
    ensures OrderBy(x, first) == Reversed(y)
  {
    OrderByOrders(x, first);
    OrderByOrders(y, first);
    OrderByReverses(y, first);
    hide OrderBy;
    var ox, oy := OrderBy(x, first), OrderBy(y, first);
    forall u, v | u in ox && v in ox && first(u, v) && first(v, u) ensures u == v {
      assert u in multiset(ox) && v in multiset(ox);
      assert u in multiset(y) && v in multiset(y);
      var i :| 0 <= i < |y| && y[i] == u;
      var j :| 0 <= j < |y| && y[j] == v;
    }
    OrderedOnce(ox, oy, first);
  }

  lemma {:induction false} InsertByMember<T>(x: T, rows: seq<T>, first: (T, T) -> bool, e: T)
    ensures e in InsertBy(x, rows, first) <==> e == x || e in rows
  {
    if rows != [] && !first(x, rows[0]) {
      InsertByMember(x, rows[1..], first, e);
      assert rows == [rows[0]] + rows[1..];
    }
  }

  lemma {:induction false} OrderByMember<T>(rows: seq<T>, first: (T, T) -> bool, e: T)
    ensures e in OrderBy(rows, first) <==> e in rows
  {
    if rows != [] {
      var n := |rows| - 1;
      OrderByMember(rows[..n], first, e);
      InsertByMember(rows[n], OrderBy(rows[..n], first), first, e);
      assert rows == rows[..n] + [rows[n]];
    }
  }

  ghost predicate DistinctKeys<T, K>(rows: seq<T>, key: T -> K) {
    forall i, j :: 0 <= i < j < |rows| ==> key(rows[i]) != key(rows[j])
  }

  lemma {:induction false} InsertByDistinct<T, K>(x: T, rows: seq<T>, first: (T, T) -> bool, key: T -> K)
    requires DistinctKeys(rows, key) && forall e :: e in rows ==> key(e) != key(x)
    ensures DistinctKeys(InsertBy(x, rows, first), key)
  {
    if rows != [] && !first(x, rows[0]) {
      assert rows == [rows[0]] + rows[1..];
      InsertByDistinct(x, rows[1..], first, key);
      var r := InsertBy(x, rows[1..], first);
      forall j | 0 <= j < |r| ensures key(rows[0]) != key(r[j]) {
        InsertByMember(x, rows[1..], first, r[j]);
      }
    }
  }

  /** Rows with different keys keep them. */
  lemma {:induction false} OrderByDistinct<T, K>(rows: seq<T>, first: (T, T) -> bool, key: T -> K)
    requires DistinctKeys(rows, key)
    ensures DistinctKeys(OrderBy(rows, first), key)
  {
    if rows != [] {
      var n := |rows| - 1;
      OrderByDistinct(rows[..n], first, key);
      forall e | e in OrderBy(rows[..n], first) ensures key(e) != key(rows[n]) {
        OrderByMember(rows[..n], first, e);
      }
      InsertByDistinct(rows[n], OrderBy(rows[..n], first), first, key);
    }
  }

  /** LIMIT limit OFFSET offset. */
  function Slice<T>(rows: seq<T>, offset: nat, limit: nat): seq<T> {
    if offset >= |rows| then [] else if offset + limit > |rows| then rows[offset..] else rows[offset..offset + limit]
  }

  lemma SlicesMeet<T>(rows: seq<T>, offset: nat, m: nat, n: nat)
    ensures Slice(rows, offset, m) + Slice(rows, offset + m, n) == Slice(rows, offset, m + n)
  {
  }

  /** A page of a query and the number of rows in all, which is read off the page's first row. */
  datatype Page<+T> = Page(results: seq<T>, total: nat)

  function PageOf<T>(rows: seq<T>, offset: nat, limit: nat): Page<T> {
    var results := Slice(rows, offset, limit);
    Page(results, if results == [] then 0 else |rows|)
  }

  /** The total is right exactly if the page shows a row or there is none. */
  lemma PageTotalExactlyWhen<T>(rows: seq<T>, offset: nat, limit: nat)
    ensures PageOf(rows, offset, limit).total == |rows| <==> rows == [] || (limit > 0 && offset < |rows|)
  {
  }

  /** The first n pages of a size, put together. */
  function Pages<T>(rows: seq<T>, limit: nat, n: nat): seq<T> {
    if n == 0 then [] else Pages(rows, limit, n - 1) + PageOf(rows, (n - 1) * limit, limit).results
  }

  /** Enough pages show every row once, in order. */
  lemma {:induction false} PagesShowAll<T>(rows: seq<T>, limit: nat, n: nat)
    ensures Pages(rows, limit, n) == Slice(rows, 0, n * limit)
    ensures n * limit >= |rows| ==> Pages(rows, limit, n) == rows
  {
    SliceAll(rows, n * limit);
    hide Slice;
    if n == 0 {
      SliceNone(rows);
    } else {
      var before := (n - 1) * limit;
      PagesShowAll(rows, limit, n - 1);
      OneMorePage(n, limit);
      SlicesMeet(rows, 0, before, limit);
    }
  }

  lemma OneMorePage(n: nat, limit: nat)
    requires n > 0
    ensures n * limit == (n - 1) * limit + limit
  {
  }

  lemma SliceNone<T>(rows: seq<T>)
    ensures Slice(rows, 0, 0) == []
  {
  }

  lemma SliceAll<T>(rows: seq<T>, m: nat)
    ensures m >= |rows| ==> Slice(rows, 0, m) == rows
  {
  }
}

/**
 * The values the orders service stores and returns: a line item, an order row as
 * `get_order` hands it back, and the `created_at DESC` ordering of the table's
 * read queries.
 */
module Orders {
  import opened Wrappers

  /**
   * One line item as it is stored in an order's `items` list: the item id and name
   * taken from the request (either may be JSON null), the quantity (possibly null)
   * and the image URL chosen for it.
   */
  datatype Item = Item(itemId: Option<string>, itemName: Option<string>, quantity: Option<int>, imageUrl: string)

  /** An order as the read queries return it: one row of the `orders` table, items decoded. */
  datatype Order = Order(
    orderId: string,
    userId: Option<string>,
    restaurantId: Option<string>,
    restaurantName: Option<string>,
    items: seq<Item>,
    total: real,
    status: Option<string>,
    createdAt: string,
    updatedAt: Option<string>)

  /**
   * `a` sorts at or before `b` in SQLite's BINARY collation. That collation compares
   * UTF-8 bytes, and UTF-8 preserves code-point order, so on strings of code points it
   * is the lexicographic order on characters with a proper prefix first.
   */
  predicate LexLe(a: string, b: string)
    ensures a <= b ==> LexLe(a, b)
    decreases |a|
  {
    if a == [] then true
    else if b == [] then false
    else if a[0] != b[0] then a[0] < b[0]
    else LexLe(a[1..], b[1..])
  }

  lemma {:induction false} LexLeReflexive(a: string)
    ensures LexLe(a, a)
    decreases |a|
  {
    if a != [] { LexLeReflexive(a[1..]); }
  }

  lemma {:induction false} LexLeTotal(a: string, b: string)
    ensures LexLe(a, b) || LexLe(b, a)
    decreases |a|
  {
    if a != [] && b != [] && a[0] == b[0] { LexLeTotal(a[1..], b[1..]); }
  }

  lemma {:induction false} LexLeTransitive(a: string, b: string, c: string)
    requires LexLe(a, b) && LexLe(b, c)
    ensures LexLe(a, c)
    decreases |a|
  {
    if a != [] && b != [] && c != [] && a[0] == b[0] && b[0] == c[0] {
      LexLeTransitive(a[1..], b[1..], c[1..]);
    }
  }

  lemma {:induction false} LexLeAntisymmetric(a: string, b: string)
    requires LexLe(a, b) && LexLe(b, a)
    ensures a == b
    decreases |a|
  {
    if a != [] {
      LexLeAntisymmetric(a[1..], b[1..]);
      assert a == [a[0]] + a[1..] && b == [b[0]] + b[1..];
    }
  }

  /** `ORDER BY created_at DESC`: no order is followed by a strictly newer one. */
  ghost predicate NewestFirst(r: seq<Order>) {
    forall i, j :: 0 <= i < j < |r| ==> LexLe(r[j].createdAt, r[i].createdAt)
  }

  /**
   * Inserts `o` into a newest-first list, in front of the first order that is not
   * newer than `o`.
   */
  function InsertNewestFirst(r: seq<Order>, o: Order): (q: seq<Order>)
    ensures multiset(q) == multiset(r) + multiset{o}
    // The length follows from the multiset; it is stated for the convenience of callers.
    ensures |q| == |r| + 1
    decreases |r|
  {
    if r == [] || LexLe(r[0].createdAt, o.createdAt) then [o] + r
    else
      assert r == [r[0]] + r[1..];
      [r[0]] + InsertNewestFirst(r[1..], o)
  }

  /** Every order of a newest-first list is at least as old as its head. */
  lemma HeadIsNewest(r: seq<Order>, x: Order)
    requires NewestFirst(r) && x in multiset(r)
    ensures LexLe(x.createdAt, r[0].createdAt)
  {
    var i :| 0 <= i < |r| && r[i] == x;
    if i == 0 { LexLeReflexive(x.createdAt); }
  }

  /** An order no older than any order of a newest-first list may go in front of it. */
  lemma ConsNewestFirst(a: Order, t: seq<Order>)
    requires NewestFirst(t)
    requires forall x :: x in multiset(t) ==> LexLe(x.createdAt, a.createdAt)
    ensures NewestFirst([a] + t)
  {
    var q := [a] + t;
    forall i, j | 0 <= i < j < |q| ensures LexLe(q[j].createdAt, q[i].createdAt) {
      assert q[j] == t[j - 1] && t[j - 1] in multiset(t);
      if i > 0 { assert q[i] == t[i - 1]; }
    }
  }

  /** Inserting into a newest-first list keeps it newest first. */
  lemma {:induction false} InsertKeepsNewestFirst(r: seq<Order>, o: Order)
    requires NewestFirst(r)
    ensures NewestFirst(InsertNewestFirst(r, o))
    decreases |r|
  {
    if r == [] {
    } else if LexLe(r[0].createdAt, o.createdAt) {
      forall x: Order | x in multiset(r) ensures LexLe(x.createdAt, o.createdAt) {
        HeadIsNewest(r, x);
        LexLeTransitive(x.createdAt, r[0].createdAt, o.createdAt);
      }
      ConsNewestFirst(o, r);
    } else {
      var a, rest := r[0], r[1..];
      assert r == [a] + rest;
      TailNewestFirst(r);
      InsertKeepsNewestFirst(rest, o);
      var t := InsertNewestFirst(rest, o);
      LexLeTotal(a.createdAt, o.createdAt);
      forall x: Order | x in multiset(t) ensures LexLe(x.createdAt, a.createdAt) {
        if x != o { HeadIsNewest(r, x); }
      }
      ConsNewestFirst(a, t);
    }
  }

  /** Two newest-first arrangements of the same rows with distinct timestamps start alike. */
  lemma SameHead(r1: seq<Order>, r2: seq<Order>)
    requires NewestFirst(r1) && NewestFirst(r2) && r1 != []
    requires multiset(r1) == multiset(r2)
    requires forall i, j :: 0 <= i < j < |r1| ==> r1[i].createdAt != r1[j].createdAt
    ensures r2 != [] && r1[0] == r2[0]
  {
    assert r1[0] in multiset(r1);
    var a, b := r1[0], r2[0];
    assert b in multiset(r1);
    HeadIsNewest(r2, a);
    HeadIsNewest(r1, b);
    LexLeAntisymmetric(a.createdAt, b.createdAt);
    var j :| 0 <= j < |r1| && r1[j] == b;
    assert j == 0;
  }

  /** Taking the same first element off two lists with the same elements leaves the same elements. */
  lemma SameTails(r1: seq<Order>, r2: seq<Order>)
    requires r1 != [] && r2 != [] && r1[0] == r2[0]
    requires multiset(r1) == multiset(r2)
    ensures multiset(r1[1..]) == multiset(r2[1..])
  {
    var a := r1[0];
    assert r1 == [a] + r1[1..] && r2 == [a] + r2[1..];
    assert multiset(r1[1..]) == multiset(r1) - multiset{a};
    assert multiset(r2[1..]) == multiset(r2) - multiset{a};
  }

  /** The rest of a newest-first list is one too. */
  lemma TailNewestFirst(r: seq<Order>)
    requires r != [] && NewestFirst(r)
    ensures NewestFirst(r[1..])
  {
    forall i, j | 0 <= i < j < |r[1..]| ensures LexLe(r[1..][j].createdAt, r[1..][i].createdAt) {
      assert r[1..][i] == r[i + 1] && r[1..][j] == r[j + 1];
    }
  }

  /**
   * The answer to an `ORDER BY created_at DESC` query is determined up to the order of
   * rows with equal timestamps: two newest-first arrangements of the same rows, whose
   * timestamps are pairwise distinct, are the same list.
   */
  lemma {:induction false} NewestFirstUnique(r1: seq<Order>, r2: seq<Order>)
    requires NewestFirst(r1) && NewestFirst(r2)
    requires multiset(r1) == multiset(r2)
    requires forall i, j :: 0 <= i < j < |r1| ==> r1[i].createdAt != r1[j].createdAt
    ensures r1 == r2
    decreases |r1|
  {
    if r1 == [] {
      assert |r2| == |multiset(r2)| == 0;
    } else {
      SameHead(r1, r2);
      SameTails(r1, r2);
      TailNewestFirst(r1);
      TailNewestFirst(r2);
      var t := r1[1..];
      forall i, j | 0 <= i < j < |t| ensures t[i].createdAt != t[j].createdAt {
        assert t[i] == r1[i + 1] && t[j] == r1[j + 1];
      }
      NewestFirstUnique(r1[1..], r2[1..]);
      assert r1 == [r1[0]] + r1[1..] && r2 == [r2[0]] + r2[1..];
    }
  }
}

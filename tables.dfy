/** The MySQL schema the controllers work on. Every table is a map from its
    auto-increment primary key to its row; `next*` is the key the next INSERT receives.
    A statement `SELECT ... WHERE attr = x` scans keys in ascending order (`Select`),
    and `ORDER BY col DESC` is a stable sort on that column (`SortDesc`). */
module Tables {
  import opened Js

  datatype Customer = Customer(name: string, email: string, phone: string, password: string, points: int)

  datatype MenuItem = MenuItem(
    name: string, description: Option<string>, price: real, stock: int,
    categoryId: int, isAvailable: int, imageUrl: string)

  datatype Order = Order(
    customerId: int, totalPrice: real, membershipPoints: int, created: int,
    discountId: Option<int>, discountApplied: real, orderType: string,
    preorderAt: Option<string>, status: string)

  datatype Sale = Sale(orderId: int, itemId: int, quantity: int, totalPrice: real, remarks: Option<string>)

  datatype Discount = Discount(code: string, description: string, amount: real, pointsRequired: int)

  datatype Admin = Admin(username: string, password: string)

  datatype Feedback = Feedback(
    phone: string, text: string, rating: Option<real>, customerId: Option<int>, createdAt: int)

  /** Keys of the settings table used by the controllers. */
  const RateKey := "points_conversion_rate"
  const ThresholdKey := "low_stock_threshold"

  /** Every key of `m` was handed out by the auto-increment counter. */
  ghost predicate KeysBelow<V>(m: map<int, V>, next: int) {
    next >= 1 && forall k :: k in m ==> 1 <= k < next
  }

  // ---------------------------------------------------------------- invariants

  /** No item's `available_amount` is negative. */
  ghost predicate StockNonNegative(menu: map<int, MenuItem>) {
    forall k :: k in menu ==> menu[k].stock >= 0
  }

  /** No customer's `points` is negative. */
  ghost predicate PointsNonNegative(customers: map<int, Customer>) {
    forall k :: k in customers ==> customers[k].points >= 0
  }

  /** No `remaining_uses` is negative. */
  ghost predicate UsesNonNegative(redemptions: map<(int, int), int>) {
    forall p :: p in redemptions ==> redemptions[p] >= 0
  }

  ghost predicate UniqueNames(customers: map<int, Customer>) {
    forall a, b :: a in customers && b in customers && a != b ==> customers[a].name != customers[b].name
  }

  ghost predicate UniqueEmails(customers: map<int, Customer>) {
    forall a, b :: a in customers && b in customers && a != b ==> customers[a].email != customers[b].email
  }

  ghost predicate UniquePhones(customers: map<int, Customer>) {
    forall a, b :: a in customers && b in customers && a != b ==> customers[a].phone != customers[b].phone
  }

  /** No two customers share a name, an email or a phone number. */
  ghost predicate UniqueCustomers(customers: map<int, Customer>) {
    UniqueNames(customers) && UniqueEmails(customers) && UniquePhones(customers)
  }

  class Db {
    var customers: map<int, Customer>
    var menu: map<int, MenuItem>
    var orders: map<int, Order>
    var sales: map<int, Sale>
    var discounts: map<int, Discount>
    /** customer_discounts: (customerId, discount_id) to remaining_uses. */
    var redemptions: map<(int, int), int>
    var admins: map<int, Admin>
    var feedbacks: map<int, Feedback>
    var settings: map<string, JsVal>
    var nextCustomer: int
    var nextItem: int
    var nextOrder: int
    var nextSale: int
    var nextDiscount: int
    var nextAdmin: int
    var nextFeedback: int

    ghost predicate Valid()
      reads this
    {
      KeysBelow(customers, nextCustomer) && KeysBelow(menu, nextItem) &&
      KeysBelow(orders, nextOrder) && KeysBelow(sales, nextSale) &&
      KeysBelow(discounts, nextDiscount) && KeysBelow(admins, nextAdmin) &&
      KeysBelow(feedbacks, nextFeedback)
    }

    /** An empty schema with only the two settings rows seeded. */
    constructor (rate: JsVal, threshold: JsVal)
      ensures Valid()
      ensures customers == map[] && menu == map[] && orders == map[] && sales == map[]
      ensures discounts == map[] && redemptions == map[] && admins == map[] && feedbacks == map[]
      ensures settings == map[RateKey := rate, ThresholdKey := threshold]
    {
      customers, menu, orders, sales := map[], map[], map[], map[];
      discounts, redemptions, admins, feedbacks := map[], map[], map[], map[];
      settings := map[RateKey := rate, ThresholdKey := threshold];
      nextCustomer, nextItem, nextOrder, nextSale := 1, 1, 1, 1;
      nextDiscount, nextAdmin, nextFeedback := 1, 1, 1;
    }
  }

  /** `SELECT ... WHERE id = ?` finds a row: the id is a number and a key of the table.
      A NULL or non-numeric id matches no row. */
  predicate Has<V>(m: map<int, V>, id: Option<int>) {
    id.Some? && id.value in m
  }

  /** The keys in [lo, hi) whose rows satisfy `p`, ascending. */
  function Select<V>(m: map<int, V>, p: V -> bool, lo: int, hi: int): (r: seq<int>)
    decreases hi - lo
    ensures forall k :: k in r <==> lo <= k < hi && k in m && p(m[k])
    ensures forall i, j :: 0 <= i < j < |r| ==> r[i] < r[j]
    ensures r != [] ==> forall k :: k in r ==> r[0] <= k
  {
    if lo >= hi then []
    else
      var rest := Select(m, p, lo + 1, hi);
      assert forall j :: 0 <= j < |rest| ==> lo < rest[j] by {
        forall j | 0 <= j < |rest| ensures lo < rest[j] { assert rest[j] in rest; }
      }
      (if lo in m && p(m[lo]) then [lo] else []) + rest
  }

  /** `SELECT ... WHERE p LIMIT 1`: the smallest key whose row satisfies `p`. */
  function First<V>(m: map<int, V>, p: V -> bool, next: int): (r: Option<int>)
    requires KeysBelow(m, next)
    ensures r.None? <==> forall k :: k in m ==> !p(m[k])
    ensures r.Some? ==> r.value in m && p(m[r.value])
    ensures r.Some? ==> forall k :: k in m && k < r.value ==> !p(m[k])
  {
    var s := Select(m, p, 1, next);
    if s == [] then None
    else
      assert s[0] in s;
      Some(s[0])
  }

  /** `SELECT ... WHERE p` rows in key order: every selected key, nothing else. */
  lemma SelectAll<V>(m: map<int, V>, p: V -> bool, next: int)
    requires KeysBelow(m, next)
    ensures forall k :: k in Select(m, p, 1, next) <==> k in m && p(m[k])
  {
  }

  /** A strictly increasing list holding exactly the keys of `m` is as long as `m`. */
  lemma KeysCount<V>(ids: seq<int>, m: map<int, V>)
    requires forall i, j :: 0 <= i < j < |ids| ==> ids[i] < ids[j]
    requires forall k :: k in ids <==> k in m
    ensures |ids| == |m|
  {
    var s := set i | i in ids;
    assert forall k :: k in s <==> k in m.Keys;
    assert s == m.Keys;
    DistinctCount(ids);
  }

  /** Strictly increasing entries are pairwise distinct. */
  lemma {:induction false} DistinctCount(ids: seq<int>)
    requires forall i, j :: 0 <= i < j < |ids| ==> ids[i] < ids[j]
    ensures |set i | i in ids| == |ids|
  {
    if ids != [] {
      var tail := ids[1..];
      DistinctCount(tail);
      assert (set i | i in ids) == {ids[0]} + (set i | i in tail);
      assert ids[0] !in tail;
    }
  }

  // ---------------------------------------------------------------- ORDER BY ... DESC

  /** Sorted by `key`, largest first. */
  ghost predicate SortedDesc<T>(s: seq<T>, key: T -> int) {
    forall i, j :: 0 <= i < j < |s| ==> key(s[i]) >= key(s[j])
  }

  /** `x` placed in front of the first element with a smaller key. */
  function InsertDesc<T>(x: T, s: seq<T>, key: T -> int): (r: seq<T>)
    ensures multiset(r) == multiset(s) + multiset{x}
    ensures |r| == |s| + 1
  {
    if s == [] then [x]
    else if key(x) > key(s[0]) then [x] + s
    else
      assert s == [s[0]] + s[1..];
      [s[0]] + InsertDesc(x, s[1..], key)
  }

  /** Inserting into a sorted list keeps it sorted. */
  lemma {:induction false} InsertDescSorted<T>(x: T, s: seq<T>, key: T -> int)
    requires SortedDesc(s, key)
    ensures SortedDesc(InsertDesc(x, s, key), key)
  {
    if s != [] && key(x) <= key(s[0]) {
      var t := InsertDesc(x, s[1..], key);
      InsertDescSorted(x, s[1..], key);
      InsertDescBounded(x, s[1..], key, key(s[0]));
      ConsSortedDesc(s[0], t, key);
    }
  }

  /** A head with a key at least every key of a sorted tail gives a sorted list. */
  lemma ConsSortedDesc<T>(h: T, t: seq<T>, key: T -> int)
    requires SortedDesc(t, key) && forall i :: 0 <= i < |t| ==> key(t[i]) <= key(h)
    ensures SortedDesc([h] + t, key)
  {
    var r := [h] + t;
    forall i, j | 0 <= i < j < |r| ensures key(r[i]) >= key(r[j]) {
      assert r[j] == t[j - 1];
      if i > 0 {
        assert r[i] == t[i - 1];
      }
    }
  }

  /** A bound on every key of `s` and on `x` bounds every key after the insertion. */
  lemma {:induction false} InsertDescBounded<T>(x: T, s: seq<T>, key: T -> int, b: int)
    requires key(x) <= b && forall i :: 0 <= i < |s| ==> key(s[i]) <= b
    ensures forall i :: 0 <= i < |InsertDesc(x, s, key)| ==> key(InsertDesc(x, s, key)[i]) <= b
  {
    if s != [] && key(x) <= key(s[0]) {
      InsertDescBounded(x, s[1..], key, b);
      var t := InsertDesc(x, s[1..], key);
      assert InsertDesc(x, s, key) == [s[0]] + t;
    }
  }

  /** `ORDER BY key DESC`: a permutation of `s`, largest key first. */
  function SortDesc<T>(s: seq<T>, key: T -> int): (r: seq<T>)
    ensures SortedDesc(r, key)
    ensures multiset(r) == multiset(s) && |r| == |s|
  {
    if s == [] then []
    else
      var prefix := SortDesc(s[..|s| - 1], key);
      InsertDescSorted(s[|s| - 1], prefix, key);
      var r := InsertDesc(s[|s| - 1], prefix, key);
      assert s == s[..|s| - 1] + [s[|s| - 1]];
      r
  }

  /** Element membership follows from the permutation. */
  lemma SortDescMembers<T>(s: seq<T>, key: T -> int)
    ensures forall x :: x in SortDesc(s, key) <==> x in s
  {
    var r := SortDesc(s, key);
    forall x ensures x in r <==> x in s {
      assert x in r <==> x in multiset(r);
      assert x in s <==> x in multiset(s);
    }
  }

  /** No two entries share a key. */
  ghost predicate DistinctKeys<T>(s: seq<T>, key: T -> int) {
    forall i, j :: 0 <= i < j < |s| ==> key(s[i]) != key(s[j])
  }

  /** With distinct keys, no element occurs twice. */
  lemma {:induction false} DistinctKeysCount<T>(s: seq<T>, key: T -> int, x: T)
    requires DistinctKeys(s, key)
    ensures multiset(s)[x] <= 1
  {
    if s != [] {
      var tail := s[1..];
      assert DistinctKeys(tail, key) by {
        forall i, j | 0 <= i < j < |tail| ensures key(tail[i]) != key(tail[j]) {
          assert tail[i] == s[i + 1] && tail[j] == s[j + 1];
        }
      }
      DistinctKeysCount(tail, key, x);
      assert s == [s[0]] + tail;
      if s[0] == x {
        forall k | 0 <= k < |tail| ensures tail[k] != x {
          assert key(s[0]) != key(s[k + 1]);
        }
        assert x !in tail;
      }
    }
  }

  /** An element at two positions is counted twice. */
  lemma RepeatedCount<T>(s: seq<T>, i: int, j: int)
    requires 0 <= i < j < |s| && s[i] == s[j]
    ensures multiset(s)[s[i]] >= 2
  {
    assert s == s[..j] + s[j..];
    assert s[i] == s[..j][i];
    assert s[j] == s[j..][0];
  }

  /** A permutation of a sequence with distinct keys has distinct keys. */
  lemma PermutationDistinctKeys<T>(r: seq<T>, s: seq<T>, key: T -> int)
    requires multiset(r) == multiset(s) && DistinctKeys(s, key)
    ensures DistinctKeys(r, key)
  {
    forall i, j | 0 <= i < j < |r| ensures key(r[i]) != key(r[j]) {
      if r[i] == r[j] {
        RepeatedCount(r, i, j);
        DistinctKeysCount(s, key, r[i]);
      } else {
        assert r[i] in multiset(s) && r[j] in multiset(s);
        var p :| 0 <= p < |s| && s[p] == r[i];
        var q :| 0 <= q < |s| && s[q] == r[j];
        assert p != q;
      }
    }
  }
}

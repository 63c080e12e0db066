/**
 * The guest cart (main/utils.py, cookieCart): a visitor who is not signed in
 * keeps the cart in a cookie holding a JSON object from pizza id to
 * {"quantity": n}. The aggregation walks the object's entries in iteration
 * order and produces the same summary the signed-in pages get from an order.
 */
module Utils {
  import opened Wrappers
  import opened Models

  /** The value found under "quantity": a number, or something that cannot be added to an int. */
  datatype Quantity = Number(n: int) | NonNumeric

  /** The value stored under one cookie key: a dictionary, which may lack "quantity", or anything else. */
  datatype EntryValue = Dict(quantity: Option<Quantity>) | NonDict

  /**
   * One key of the decoded cookie object with its value. The key is the pizza id
   * it names; a key that names no pizza, or no integer at all, is an id absent
   * from the catalog.
   */
  datatype Entry = Entry(key: int, value: EntryValue)

  /** The "cart" cookie: not sent, not valid JSON, or a decoded object listed in iteration order. */
  datatype Cookie = Missing | Undecodable | Decoded(entries: seq<Entry>)

  /** The catalog as the lookup Pizza.objects.get(id=...) sees it. */
  type Catalog = map<int, Pizza>

  /** The `order` summary dictionary. */
  datatype GuestOrder = GuestOrder(cartTotal: int, cartItems: int, bonusPoints: int)

  /** One element of `items`: the pizza, its quantity and its line total. */
  datatype GuestItem = GuestItem(pizza: Pizza, quantity: int, total: int)

  /** cookieCart's result: notifications, order and items. */
  datatype GuestCart = GuestCart(notifications: int, order: GuestOrder, items: seq<GuestItem>)

  const EmptyCart := GuestCart(0, GuestOrder(0, 0, 0), [])

  /** The entries the loop visits: none unless the cookie decoded. */
  function Entries(cookie: Cookie): seq<Entry> {
    if cookie.Decoded? then cookie.entries else []
  }

  /** The quantity of a well-formed entry; None when reading it raises. */
  function QuantityOf(v: EntryValue): (q: Option<int>)
    ensures q.Some? <==> v.Dict? && v.quantity.Some? && v.quantity.value.Number?
    ensures q.Some? ==> q.value == v.quantity.value.n
  {
    match v
    case Dict(Some(Number(n))) => Some(n)
    case _ => None
  }

  /** The item an entry contributes: only a well-formed entry whose pizza exists contributes one. */
  function ItemOf(e: Entry, catalog: Catalog): (item: Option<GuestItem>)
    ensures item.Some? <==> QuantityOf(e.value).Some? && e.key in catalog
    ensures item.Some? ==> item.value.pizza == catalog[e.key] && item.value.quantity == QuantityOf(e.value).value
    ensures item.Some? ==> item.value.total == GetTotal(AsOrderItem(item.value))
  {
    match QuantityOf(e.value)
    case Some(q) =>
      if e.key in catalog then Some(GuestItem(catalog[e.key], q, catalog[e.key].price * q)) else None
    case None => None
  }

  /** The items the entries contribute, in iteration order. */
  function Items(es: seq<Entry>, catalog: Catalog): (items: seq<GuestItem>)
    ensures |items| <= |es|
    ensures forall i :: 0 <= i < |items| ==> items[i].total == GetTotal(AsOrderItem(items[i]))
    decreases |es|
  {
    if es == [] then []
    else
      Items(es[..|es| - 1], catalog) + Contribution(es[|es| - 1], catalog)
  }

  /** The items one entry contributes: its item, if it has one. */
  function Contribution(e: Entry, catalog: Catalog): seq<GuestItem> {
    match ItemOf(e, catalog)
    case Some(item) => [item]
    case None => []
  }

  /** No entry has a readable quantity. */
  predicate AllMalformed(es: seq<Entry>) {
    forall i :: 0 <= i < |es| ==> QuantityOf(es[i].value).None?
  }

  /** No entry has a readable quantity below zero. */
  predicate NoNegativeQuantity(es: seq<Entry>) {
    forall i :: 0 <= i < |es| ==> QuantityOf(es[i].value).GetOr(0) >= 0
  }

  /** Every entry's key names a pizza of the catalog. */
  predicate AllInCatalog(es: seq<Entry>, catalog: Catalog) {
    forall i :: 0 <= i < |es| ==> es[i].key in catalog
  }

  /** The sum of the quantities of all well-formed entries, whether or not their pizza exists. */
  function Notifications(es: seq<Entry>): (n: int)
    decreases |es|
  {
    if es == [] then 0
    else Notifications(es[..|es| - 1]) + QuantityOf(es[|es| - 1].value).GetOr(0)
  }

  /** The sum of the quantities of the well-formed entries whose pizza lookup fails. */
  function MissingQuantity(es: seq<Entry>, catalog: Catalog): (n: int)
    decreases |es|
  {
    if es == [] then 0
    else
      var e := es[|es| - 1];
      MissingQuantity(es[..|es| - 1], catalog) +
      if e.key in catalog then 0 else QuantityOf(e.value).GetOr(0)
  }

  /** A guest item read as an order line, so that the order arithmetic applies to it. */
  function AsOrderItem(item: GuestItem): OrderItem {
    OrderItem(item.pizza, item.quantity)
  }

  function AsOrderItems(items: seq<GuestItem>): (lines: seq<OrderItem>)
    ensures |lines| == |items|
    ensures forall i :: 0 <= i < |items| ==> lines[i] == AsOrderItem(items[i])
  {
    seq(|items|, i requires 0 <= i < |items| => AsOrderItem(items[i]))
  }

  /** The sum of the items' own `total` fields, as a page summing each item's get_total sees it. */
  function SumOfItemTotals(items: seq<GuestItem>): int {
    if items == [] then 0 else items[0].total + SumOfItemTotals(items[1..])
  }

  /** When every item's total is its line total, the cart total is the sum of the items' totals. */
  lemma {:induction false} TotalIsSumOfItemTotals(items: seq<GuestItem>)
    requires forall i :: 0 <= i < |items| ==> items[i].total == GetTotal(AsOrderItem(items[i]))
    ensures CartTotal(AsOrderItems(items)) == SumOfItemTotals(items)
  {
    if items != [] {
      var lines := AsOrderItems(items);
      assert lines == [AsOrderItem(items[0])] + AsOrderItems(items[1..]);
      SumByAppend([AsOrderItem(items[0])], AsOrderItems(items[1..]), GetTotal);
      assert [AsOrderItem(items[0])][1..] == [];
      TotalIsSumOfItemTotals(items[1..]);
    }
  }

  /** Appending one item adds its quantity to the count and its line total to the total. */
  lemma AppendItemSums(items: seq<GuestItem>, item: GuestItem)
    ensures CartTotal(AsOrderItems(items + [item])) == CartTotal(AsOrderItems(items)) + GetTotal(AsOrderItem(item))
    ensures CartItems(AsOrderItems(items + [item])) == CartItems(AsOrderItems(items)) + item.quantity
  {
    var one := [AsOrderItem(item)];
    assert AsOrderItems(items + [item]) == AsOrderItems(items) + one;
    SumByAppend(AsOrderItems(items), one, GetTotal);
    SumByAppend(AsOrderItems(items), one, LineQuantity);
    assert one[1..] == [];
  }

  /** The order arithmetic over guest items distributes over concatenation. */
  lemma ItemSumsAppend(a: seq<GuestItem>, b: seq<GuestItem>)
    ensures CartTotal(AsOrderItems(a + b)) == CartTotal(AsOrderItems(a)) + CartTotal(AsOrderItems(b))
    ensures CartItems(AsOrderItems(a + b)) == CartItems(AsOrderItems(a)) + CartItems(AsOrderItems(b))
  {
    assert AsOrderItems(a + b) == AsOrderItems(a) + AsOrderItems(b);
    SumByAppend(AsOrderItems(a), AsOrderItems(b), GetTotal);
    SumByAppend(AsOrderItems(a), AsOrderItems(b), LineQuantity);
  }

  /**
   * The guarded body of the loop for one entry: the quantity is read and
   * notified first, then the pizza is looked up, counted and appended as an
   * item. Reading the quantity or the lookup may raise; what was done before
   * stays done.
   */
  method ReadEntry(acc: GuestCart, e: Entry, catalog: Catalog) returns (next: GuestCart)
    ensures next.items == acc.items + Contribution(e, catalog)
    ensures next.order.cartTotal == acc.order.cartTotal + CartTotal(AsOrderItems(Contribution(e, catalog)))
    ensures next.order.cartItems == acc.order.cartItems + CartItems(AsOrderItems(Contribution(e, catalog)))
    ensures next.order.bonusPoints == acc.order.bonusPoints
    ensures next.notifications == acc.notifications + QuantityOf(e.value).GetOr(0)
    ensures next.notifications - next.order.cartItems ==
      acc.notifications - acc.order.cartItems + if e.key in catalog then 0 else QuantityOf(e.value).GetOr(0)
  {
    next := acc;
    match QuantityOf(e.value) {
      case None =>
      case Some(q) =>
        next := next.(notifications := next.notifications + q);
        if e.key in catalog {
          var pizza := catalog[e.key];
          var total := pizza.price * q;
          var item := GuestItem(pizza, q, total);
          AppendItemSums([], item);
          assert [] + [item] == [item];
          next := next.(order := next.order.(cartTotal := next.order.cartTotal + total,
                                             cartItems := next.order.cartItems + q),
                        items := next.items + [item]);
        }
    }
  }

  /**
   * cookieCart. The cookie is decoded outside the per-entry guard, so a cookie
   * that is missing or is not JSON gives the empty cart; each entry is then
   * read by ReadEntry.
   */
  method CookieCart(cookie: Cookie, catalog: Catalog) returns (result: GuestCart)
    ensures !cookie.Decoded? ==> result == EmptyCart
    ensures result.items == Items(Entries(cookie), catalog)
    ensures result.order.cartTotal == CartTotal(AsOrderItems(result.items))
    ensures result.order.cartTotal == SumOfItemTotals(result.items)
    ensures result.order.cartItems == CartItems(AsOrderItems(result.items))
    ensures result.order.bonusPoints == 0
    ensures result.notifications == Notifications(Entries(cookie))
    ensures result.notifications == result.order.cartItems + MissingQuantity(Entries(cookie), catalog)
  {
    var cart := Entries(cookie);
    var order := GuestOrder(0, 0, 0);
    // notifications starts from the order's item count, which is 0
    var acc := GuestCart(order.cartItems, order, []);
    var i := 0;
    while i < |cart|
      invariant 0 <= i <= |cart|
      invariant Summarises(acc, cart[..i], catalog)
    {
      var next := ReadEntry(acc, cart[i], catalog);
      SummarisesStep(acc, next, cart, i, catalog);
      acc, i := next, i + 1;
    }
    assert cart[..i] == cart;
    TotalIsSumOfItemTotals(acc.items);
    result := acc;
  }

  /** What the loop keeps after reading the entries `es`: the result cookieCart gives for a cookie of just those entries. */
  predicate Summarises(acc: GuestCart, es: seq<Entry>, catalog: Catalog) {
    && acc.items == Items(es, catalog)
    && acc.order.cartTotal == CartTotal(AsOrderItems(acc.items))
    && acc.order.cartItems == CartItems(AsOrderItems(acc.items))
    && acc.order.bonusPoints == 0
    && acc.notifications == Notifications(es)
    && acc.notifications == acc.order.cartItems + MissingQuantity(es, catalog)
  }

  /** Reading entry i as ReadEntry does carries the summary of the first i entries to that of the first i + 1. */
  lemma SummarisesStep(acc: GuestCart, next: GuestCart, cart: seq<Entry>, i: nat, catalog: Catalog)
    requires i < |cart| && Summarises(acc, cart[..i], catalog)
    requires next.items == acc.items + Contribution(cart[i], catalog)
    requires next.order.cartTotal == acc.order.cartTotal + CartTotal(AsOrderItems(Contribution(cart[i], catalog)))
    requires next.order.cartItems == acc.order.cartItems + CartItems(AsOrderItems(Contribution(cart[i], catalog)))
    requires next.order.bonusPoints == acc.order.bonusPoints
    requires next.notifications == acc.notifications + QuantityOf(cart[i].value).GetOr(0)
    requires next.notifications - next.order.cartItems ==
      acc.notifications - acc.order.cartItems + if cart[i].key in catalog then 0 else QuantityOf(cart[i].value).GetOr(0)
    ensures Summarises(next, cart[..i + 1], catalog)
  {
    PrefixStep(cart, i, catalog);
    ItemSumsAppend(acc.items, Contribution(cart[i], catalog));
  }

  /** What one more entry of the cookie adds to each of the quantities the loop keeps. */
  lemma PrefixStep(cart: seq<Entry>, i: nat, catalog: Catalog)
    requires i < |cart|
    ensures Items(cart[..i + 1], catalog) ==
      Items(cart[..i], catalog) + Contribution(cart[i], catalog)
    ensures Notifications(cart[..i + 1]) == Notifications(cart[..i]) + QuantityOf(cart[i].value).GetOr(0)
    ensures MissingQuantity(cart[..i + 1], catalog) ==
      MissingQuantity(cart[..i], catalog) + if cart[i].key in catalog then 0 else QuantityOf(cart[i].value).GetOr(0)
  {
    assert cart[..i + 1][..i] == cart[..i];
  }

  /** The split the loop keeps: every notified quantity is either counted in an item or belongs to a failed lookup. */
  lemma {:induction false} NotificationsSplit(es: seq<Entry>, catalog: Catalog)
    ensures Notifications(es) == CartItems(AsOrderItems(Items(es, catalog))) + MissingQuantity(es, catalog)
    decreases |es|
  {
    if es != [] {
      var init, e := es[..|es| - 1], es[|es| - 1];
      assert es == init + [e];
      NotificationsSplit(init, catalog);
      match QuantityOf(e.value)
      case None =>
        MalformedEntryStep(init, e, catalog);
      case Some(q) =>
        if e.key in catalog {
          FoundEntryStep(init, e, catalog, q);
        } else {
          MissingEntryStep(init, e, catalog, q);
        }
    }
  }

  /** A well-formed entry whose pizza exists adds q to both counts, price * q to the total, and one item. */
  lemma FoundEntryStep(es: seq<Entry>, e: Entry, catalog: Catalog, q: int)
    requires QuantityOf(e.value) == Some(q) && e.key in catalog
    ensures var item := GuestItem(catalog[e.key], q, catalog[e.key].price * q);
      && Items(es + [e], catalog) == Items(es, catalog) + [item]
      && Notifications(es + [e]) == Notifications(es) + q
      && MissingQuantity(es + [e], catalog) == MissingQuantity(es, catalog)
      && CartItems(AsOrderItems(Items(es + [e], catalog))) == CartItems(AsOrderItems(Items(es, catalog))) + q
      && CartTotal(AsOrderItems(Items(es + [e], catalog))) == CartTotal(AsOrderItems(Items(es, catalog))) + catalog[e.key].price * q
  {
    assert (es + [e])[..|es|] == es;
    AppendItemSums(Items(es, catalog), GuestItem(catalog[e.key], q, catalog[e.key].price * q));
  }

  /** A well-formed entry whose pizza lookup fails is notified, but adds no item and changes no total. */
  lemma MissingEntryStep(es: seq<Entry>, e: Entry, catalog: Catalog, q: int)
    requires QuantityOf(e.value) == Some(q) && e.key !in catalog
    ensures Items(es + [e], catalog) == Items(es, catalog)
    ensures Notifications(es + [e]) == Notifications(es) + q
    ensures MissingQuantity(es + [e], catalog) == MissingQuantity(es, catalog) + q
  {
  }

  /** A malformed entry (no "quantity", a non-numeric one, or not a dictionary) changes nothing. */
  lemma MalformedEntryStep(es: seq<Entry>, e: Entry, catalog: Catalog)
    requires QuantityOf(e.value).None?
    ensures Items(es + [e], catalog) == Items(es, catalog)
    ensures Notifications(es + [e]) == Notifications(es)
    ensures MissingQuantity(es + [e], catalog) == MissingQuantity(es, catalog)
  {
  }

  /** Items of a concatenation are the items of each part, in the same order. */
  lemma {:induction false} ItemsAppend(a: seq<Entry>, b: seq<Entry>, catalog: Catalog)
    ensures Items(a + b, catalog) == Items(a, catalog) + Items(b, catalog)
    decreases |b|
  {
    if b == [] {
      assert a + b == a;
    } else {
      var init := b[..|b| - 1];
      assert (a + b)[..|a + b| - 1] == a + init;
      assert (a + b)[|a + b| - 1] == b[|b| - 1];
      ItemsAppend(a, init, catalog);
    }
  }

  lemma {:induction false} NotificationsAppend(a: seq<Entry>, b: seq<Entry>)
    ensures Notifications(a + b) == Notifications(a) + Notifications(b)
    decreases |b|
  {
    if b == [] {
      assert a + b == a;
    } else {
      var init := b[..|b| - 1];
      assert (a + b)[..|a + b| - 1] == a + init;
      assert (a + b)[|a + b| - 1] == b[|b| - 1];
      NotificationsAppend(a, init);
    }
  }

  lemma {:induction false} MissingQuantityAppend(a: seq<Entry>, b: seq<Entry>, catalog: Catalog)
    ensures MissingQuantity(a + b, catalog) == MissingQuantity(a, catalog) + MissingQuantity(b, catalog)
    decreases |b|
  {
    if b == [] {
      assert a + b == a;
    } else {
      var init := b[..|b| - 1];
      assert (a + b)[..|a + b| - 1] == a + init;
      assert (a + b)[|a + b| - 1] == b[|b| - 1];
      MissingQuantityAppend(a, init, catalog);
    }
  }

  /** A cookie none of whose entries has a readable quantity notifies nothing, lists no item and misses nothing. */
  lemma {:induction false} NothingReadable(es: seq<Entry>, catalog: Catalog)
    requires AllMalformed(es)
    ensures Notifications(es) == 0 && Items(es, catalog) == [] && MissingQuantity(es, catalog) == 0
    decreases |es|
  {
    if es != [] {
      var init := es[..|es| - 1];
      assert forall i :: 0 <= i < |init| ==> init[i] == es[i];
      NothingReadable(init, catalog);
    }
  }

  /** When every key names a pizza of the catalog, no quantity is missed and the notifications equal the item count. */
  lemma {:induction false} AllFoundNoMissing(es: seq<Entry>, catalog: Catalog)
    requires AllInCatalog(es, catalog)
    ensures MissingQuantity(es, catalog) == 0
    ensures Notifications(es) == CartItems(AsOrderItems(Items(es, catalog)))
    decreases |es|
  {
    if es != [] {
      var init := es[..|es| - 1];
      assert forall i :: 0 <= i < |init| ==> init[i] == es[i];
      AllFoundNoMissing(init, catalog);
    }
    NotificationsSplit(es, catalog);
  }

  /** With no negative quantity in the cookie, the missed quantity lies between 0 and the notification count. */
  lemma {:induction false} MissingWithinNotifications(es: seq<Entry>, catalog: Catalog)
    requires NoNegativeQuantity(es)
    ensures 0 <= MissingQuantity(es, catalog) <= Notifications(es)
    decreases |es|
  {
    if es != [] {
      var init := es[..|es| - 1];
      assert forall i :: 0 <= i < |init| ==> init[i] == es[i];
      MissingWithinNotifications(init, catalog);
      assert QuantityOf(es[|es| - 1].value).GetOr(0) >= 0;
    }
  }

  /** A malformed entry, wherever it stands, changes nothing in the result. */
  lemma MalformedEntryIgnored(a: seq<Entry>, e: Entry, b: seq<Entry>, catalog: Catalog)
    requires QuantityOf(e.value).None?
    ensures Items(a + [e] + b, catalog) == Items(a + b, catalog)
    ensures Notifications(a + [e] + b) == Notifications(a + b)
    ensures MissingQuantity(a + [e] + b, catalog) == MissingQuantity(a + b, catalog)
  {
    MalformedEntryStep(a, e, catalog);
    ItemsAppend(a + [e], b, catalog);
    ItemsAppend(a, b, catalog);
    NotificationsAppend(a + [e], b);
    NotificationsAppend(a, b);
    MissingQuantityAppend(a + [e], b, catalog);
    MissingQuantityAppend(a, b, catalog);
  }

  /** The cookie {"1": {"quantity": 2}, "2": {"quantity": 3}} against prices 500 and 300: five items totalling 1900. */
  lemma GuestCartExample(p1: Pizza, p2: Pizza)
    requires p1.price == 500 && p2.price == 300
    ensures var catalog := map[1 := p1, 2 := p2];
      var es := [Entry(1, Dict(Some(Number(2)))), Entry(2, Dict(Some(Number(3))))];
      && CartItems(AsOrderItems(Items(es, catalog))) == 5
      && CartTotal(AsOrderItems(Items(es, catalog))) == 1900
      && Notifications(es) == 5
  {
    var catalog := map[1 := p1, 2 := p2];
    var e1, e2 := Entry(1, Dict(Some(Number(2)))), Entry(2, Dict(Some(Number(3))));
    FoundEntryStep([], e1, catalog, 2);
    FoundEntryStep([e1], e2, catalog, 3);
    assert [] + [e1] == [e1] && [e1] + [e2] == [e1, e2];
  }
}

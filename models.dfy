/**
 * The records of the shop (main/models.py) and the arithmetic an order
 * derives from its lines: line totals, the cart total, the item count and
 * the bonus points earned on an order.
 */
module Models {

  /** Pizza.TYPE_VARIANTS: 0 chicken, 1 beef, 2 sausage, 3 vegetarian. */
  type PizzaType = t: int | 0 <= t <= 3

  /** The type a pizza gets when none is chosen. */
  const DefaultType: PizzaType := 0

  /** The choices of the type field, value and display name, in declaration order. */
  const TypeVariants: seq<(int, string)> := [
    (0, "С курицей"), (1, "С говядиной"), (2, "С колбасой"), (3, "Вегетарианская")
  ]

  /** The display name of a type: the one its value is declared with among the variants. */
  function TypeName(t: PizzaType): (name: string)
    ensures TypeVariants[t] == (t, name)
  {
    if t == 0 then "С курицей"
    else if t == 1 then "С говядиной"
    else if t == 2 then "С колбасой"
    else "Вегетарианская"
  }

  /** A catalog item. Author, description, image and creation time play no part in the cart. */
  datatype Pizza = Pizza(id: int, name: string, price: int, rating: int, kind: PizzaType)

  /** A pizza saved without a type: the type field takes its default. */
  function NewPizza(id: int, name: string, price: int, rating: int): (p: Pizza)
    ensures p.kind == DefaultType && p.kind == 0
    ensures p.id == id && p.name == name && p.price == price && p.rating == rating
  {
    Pizza(id, name, price, rating, DefaultType)
  }

  /** A customer account: display name and accumulated bonus points, updated in place at checkout. */
  class Customer {
    var name: string
    var bonusPoints: int

    /** A customer as created for a newly registered user. */
    constructor (name: string)
      ensures this.name == name && bonusPoints == 0
    {
      this.name := name;
      bonusPoints := 0;
    }
  }

  /** The quantity a freshly created order line holds. */
  const DefaultQuantity := 0

  /** One line of an order: a pizza and how many of it. */
  datatype OrderItem = OrderItem(pizza: Pizza, quantity: int)

  /** OrderItem.get_total. */
  function GetTotal(item: OrderItem): (total: int)
    ensures total == item.pizza.price * item.quantity
    ensures item.quantity == 0 ==> total == 0
    ensures item.pizza.price >= 0 && item.quantity >= 0 ==> total >= 0
    ensures item.pizza.price >= 0 && item.quantity >= 1 ==> total >= item.pizza.price
  {
    item.pizza.price * item.quantity
  }

  function LineQuantity(item: OrderItem): int {
    item.quantity
  }

  /** The sum of `f` over the lines, in the order the lines are listed. */
  function SumBy(items: seq<OrderItem>, f: OrderItem -> int): (sum: int)
    ensures items == [] ==> sum == 0
  {
    if items == [] then 0 else f(items[0]) + SumBy(items[1..], f)
  }

  /** When f is never negative on the lines, their sum is at least 0 and at least f of each line. */
  lemma {:induction false} SumByBounds(items: seq<OrderItem>, f: OrderItem -> int)
    requires forall i :: 0 <= i < |items| ==> f(items[i]) >= 0
    ensures 0 <= SumBy(items, f)
    ensures forall i :: 0 <= i < |items| ==> f(items[i]) <= SumBy(items, f)
  {
    if items != [] {
      assert forall i :: 0 <= i < |items| - 1 ==> items[1..][i] == items[i + 1];
      SumByBounds(items[1..], f);
      forall i | 0 <= i < |items|
        ensures f(items[i]) <= SumBy(items, f)
      {
        if i > 0 {
          assert items[i] == items[1..][i - 1];
        }
      }
    }
  }

  /** Order.get_cart_total: the sum of the line totals. */
  function CartTotal(items: seq<OrderItem>): (total: int)
    ensures items == [] ==> total == 0
    ensures NonNegative(items) ==> 0 <= total
    ensures NonNegative(items) ==> forall i :: 0 <= i < |items| ==> GetTotal(items[i]) <= total
  {
    if NonNegative(items) then
      assert forall i :: 0 <= i < |items| ==> GetTotal(items[i]) >= 0;
      SumByBounds(items, GetTotal);
      SumBy(items, GetTotal)
    else
      SumBy(items, GetTotal)
  }

  /** Order.get_cart_items: the sum of the line quantities. */
  function CartItems(items: seq<OrderItem>): (count: int)
    ensures items == [] ==> count == 0
    ensures NonNegative(items) ==> 0 <= count
    ensures NonNegative(items) ==> forall i :: 0 <= i < |items| ==> items[i].quantity <= count
  {
    if NonNegative(items) then
      assert forall i :: 0 <= i < |items| ==> LineQuantity(items[i]) >= 0;
      SumByBounds(items, LineQuantity);
      SumBy(items, LineQuantity)
    else
      SumBy(items, LineQuantity)
  }

  /**
   * int(total * 0.05): five per cent of the total, truncated toward zero as
   * Python's int() does. For a total below zero this rounds up, not down.
   */
  function FivePercent(total: int): (points: int)
    ensures 0 <= total ==> 20 * points <= total < 20 * points + 20
    ensures total < 0 ==> 20 * points - 20 < total <= 20 * points
    ensures 0 <= total ==> 0 <= points <= total
    ensures total < 0 ==> total <= points <= 0
  {
    if total >= 0 then total / 20 else -((-total) / 20)
  }

  /** Order.get_bonus_points. */
  function BonusPoints(items: seq<OrderItem>): (points: int)
    ensures 0 <= CartTotal(items) ==> 20 * points <= CartTotal(items) < 20 * points + 20
    ensures CartTotal(items) < 0 ==> 20 * points - 20 < CartTotal(items) <= 20 * points
    ensures NonNegative(items) ==> 0 <= points <= CartTotal(items)
  {
    FivePercent(CartTotal(items))
  }

  /** Every line has a price and a quantity of at least zero. */
  predicate NonNegative(items: seq<OrderItem>) {
    forall i :: 0 <= i < |items| ==> items[i].pizza.price >= 0 && items[i].quantity >= 0
  }

  lemma {:induction false} SumByAppend(a: seq<OrderItem>, b: seq<OrderItem>, f: OrderItem -> int)
    ensures SumBy(a + b, f) == SumBy(a, f) + SumBy(b, f)
  {
    if a == [] {
      assert a + b == b;
    } else {
      assert (a + b)[1..] == a[1..] + b;
      SumByAppend(a[1..], b, f);
    }
  }

  /** Taking line j out of the list takes exactly f of that line out of the sum. */
  lemma {:induction false} SumByRemove(b: seq<OrderItem>, j: nat, f: OrderItem -> int)
    requires j < |b|
    ensures SumBy(b, f) == f(b[j]) + SumBy(b[..j] + b[j + 1..], f)
  {
    if j == 0 {
      assert b[..j] + b[j + 1..] == b[1..];
    } else {
      var rest := b[..j] + b[j + 1..];
      assert rest[0] == b[0];
      assert rest[1..] == b[1..][..j - 1] + b[1..][j..];
      SumByRemove(b[1..], j - 1, f);
    }
  }

  /** Taking line j out of the list takes one occurrence of it out of the multiset. */
  lemma MultisetRemove(b: seq<OrderItem>, j: nat)
    requires j < |b|
    ensures multiset(b[..j] + b[j + 1..]) == multiset(b) - multiset{b[j]}
  {
    assert b == (b[..j] + [b[j]]) + b[j + 1..];
  }

  /** Summing does not depend on the order in which the lines are listed. */
  lemma {:induction false} SumByPermutation(a: seq<OrderItem>, b: seq<OrderItem>, f: OrderItem -> int)
    requires multiset(a) == multiset(b)
    ensures SumBy(a, f) == SumBy(b, f)
  {
    if a != [] {
      var x := a[0];
      assert x in multiset(b);
      var j :| 0 <= j < |b| && b[j] == x;
      MultisetRemove(b, j);
      assert a == [x] + a[1..];
      assert multiset(a[1..]) == multiset(a) - multiset{x};
      SumByPermutation(a[1..], b[..j] + b[j + 1..], f);
      SumByRemove(b, j, f);
    }
  }

  /** An order with no lines totals 0, counts 0 items and earns 0 bonus points. */
  lemma EmptyOrder()
    ensures CartTotal([]) == 0 && CartItems([]) == 0 && BonusPoints([]) == 0
  {
  }

  /** The cart total does not depend on the order of the lines. */
  lemma CartTotalOrderIndependent(a: seq<OrderItem>, b: seq<OrderItem>)
    requires multiset(a) == multiset(b)
    ensures CartTotal(a) == CartTotal(b)
  {
    SumByPermutation(a, b, GetTotal);
  }

  /** The item count does not depend on the order of the lines. */
  lemma CartItemsOrderIndependent(a: seq<OrderItem>, b: seq<OrderItem>)
    requires multiset(a) == multiset(b)
    ensures CartItems(a) == CartItems(b)
  {
    SumByPermutation(a, b, LineQuantity);
  }

  /** Adding lines with no negative price or quantity never lowers the bonus. */
  lemma BonusMonotone(a: seq<OrderItem>, b: seq<OrderItem>)
    requires NonNegative(a) && NonNegative(b)
    ensures BonusPoints(a) <= BonusPoints(a + b)
  {
    SumByAppend(a, b, GetTotal);
    assert 0 <= CartTotal(b);
  }

  /** Two of a pizza at 100 and one at 50 total 250 and earn 12 bonus points. */
  lemma AuthenticatedOrderExample(a: Pizza, b: Pizza)
    requires a.price == 100 && b.price == 50
    ensures var items := [OrderItem(a, 2), OrderItem(b, 1)];
      CartTotal(items) == 250 && CartItems(items) == 3 && BonusPoints(items) == 12
  {
    var items := [OrderItem(a, 2), OrderItem(b, 1)];
    var last := [OrderItem(b, 1)];
    assert items[1..] == last && last[1..] == [];
    assert SumBy(last, GetTotal) == GetTotal(OrderItem(b, 1)) + SumBy([], GetTotal);
    assert SumBy(last, LineQuantity) == LineQuantity(OrderItem(b, 1)) + SumBy([], LineQuantity);
  }
}

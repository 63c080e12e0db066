/**
 * The page logic of main/views.py that is more than rendering: the type
 * filter of the assortment page, the quantity-update endpoint for a signed-in
 * customer's open order, and the bonus credit made at checkout.
 */
module Views {
  import opened Wrappers
  import opened Models

  /** One choice of the assortment filter: the submitted value, the type it selects, and the caption shown. */
  datatype FilterChoice = FilterChoice(name: string, kind: PizzaType, caption: string)

  const Choices: seq<FilterChoice> := [
    FilterChoice("chicken", 0, "с курицей"),
    FilterChoice("beef", 1, "с говядиной"),
    FilterChoice("sausage", 2, "с колбасой"),
    FilterChoice("vegetarian", 3, "вегетарианская")
  ]

  /** The pizzas of type `t`, in catalog order. */
  function OfType(catalog: seq<Pizza>, t: PizzaType): (r: seq<Pizza>)
    ensures |r| <= |catalog|
    ensures forall p :: p in r <==> p in catalog && p.kind == t
  {
    if catalog == [] then []
    else (if catalog[0].kind == t then [catalog[0]] else []) + OfType(catalog[1..], t)
  }

  /** Filtering keeps the catalog order: the pizzas kept from a concatenation are those kept from each part, in turn. */
  lemma {:induction false} OfTypeAppend(a: seq<Pizza>, b: seq<Pizza>, t: PizzaType)
    ensures OfType(a + b, t) == OfType(a, t) + OfType(b, t)
  {
    if a == [] {
      assert a + b == b;
    } else {
      assert (a + b)[1..] == a[1..] + b;
      OfTypeAppend(a[1..], b, t);
    }
  }

  /** What the assortment page shows: the pizzas and the active-filter label. */
  datatype Assortment = Assortment(pizzas: seq<Pizza>, activeFilter: string)

  /**
   * The selection of the assortment page. Only a POST whose type list is
   * exactly one known name filters; anything else shows the whole catalog.
   */
  function AssortmentFilter(catalog: seq<Pizza>, isPost: bool, selected: seq<string>): (r: Assortment)
    ensures forall i :: 0 <= i < |Choices| && isPost && selected == [Choices[i].name] ==>
      r == Assortment(OfType(catalog, Choices[i].kind), Choices[i].caption)
    ensures (!isPost || forall i :: 0 <= i < |Choices| ==> selected != [Choices[i].name]) ==>
      r == Assortment(catalog, "")
    ensures forall p :: p in r.pizzas ==> p in catalog
  {
    assert Choices[0].name == "chicken" && Choices[1].name == "beef";
    assert Choices[2].name == "sausage" && Choices[3].name == "vegetarian";
    if !isPost then Assortment(catalog, "")
    else if selected == ["chicken"] then Assortment(OfType(catalog, 0), "с курицей")
    else if selected == ["beef"] then Assortment(OfType(catalog, 1), "с говядиной")
    else if selected == ["sausage"] then Assortment(OfType(catalog, 2), "с колбасой")
    else if selected == ["vegetarian"] then Assortment(OfType(catalog, 3), "вегетарианская")
    else Assortment(catalog, "")
  }

  /** Selecting "vegetarian" shows exactly the vegetarian pizzas; an unknown selection shows everything. */
  lemma VegetarianExample(catalog: seq<Pizza>)
    ensures var r := AssortmentFilter(catalog, true, ["vegetarian"]);
      (forall p :: p in r.pizzas <==> p in catalog && p.kind == 3) && r.activeFilter == "вегетарианская"
    ensures AssortmentFilter(catalog, true, ["margherita"]) == Assortment(catalog, "")
    ensures AssortmentFilter(catalog, true, ["chicken", "beef"]) == Assortment(catalog, "")
  {
  }

  /** Every line holds at least one pizza. */
  predicate AllPositive(quantities: map<int, int>) {
    forall k :: k in quantities ==> quantities[k] >= 1
  }

  /** The quantity of a line once the action is applied; a missing line starts at the default 0. */
  function ActedQuantity(quantities: map<int, int>, pizzaId: int, action: string): (q: int)
    ensures pizzaId !in quantities ==> q == if action == "add" then 1 else if action == "remove" then -1 else 0
    ensures pizzaId in quantities ==>
      q - quantities[pizzaId] == if action == "add" then 1 else if action == "remove" then -1 else 0
  {
    var q := if pizzaId in quantities then quantities[pizzaId] else DefaultQuantity;
    if action == "add" then q + 1 else if action == "remove" then q - 1 else q
  }

  /** update_item's effect on the open order's line table, from pizza id to quantity. */
  function UpdatedQuantities(quantities: map<int, int>, pizzaId: int, action: string): (r: map<int, int>)
    ensures forall k :: k != pizzaId ==> (k in r <==> k in quantities)
    ensures forall k :: k != pizzaId && k in r ==> r[k] == quantities[k]
    ensures pizzaId in r <==> ActedQuantity(quantities, pizzaId, action) > 0
    ensures pizzaId in r ==> r[pizzaId] == ActedQuantity(quantities, pizzaId, action)
    ensures AllPositive(quantities) ==> AllPositive(r)
  {
    var q := ActedQuantity(quantities, pizzaId, action);
    if q <= 0 then quantities - {pizzaId} else quantities[pizzaId := q]
  }

  /** A customer's open order, reduced to its line table: pizza id to quantity, one line per pizza. */
  class OpenOrder {
    var quantities: map<int, int>

    /** An order as get_or_create makes it: no lines. */
    constructor ()
      ensures quantities == map[]
    {
      quantities := map[];
    }

    /**
     * update_item. The pizza lookup comes first and raises when the id names
     * no pizza, before anything is written; `found` reports whether it succeeded.
     */
    method UpdateItem(catalog: map<int, Pizza>, pizzaId: int, action: string) returns (found: bool)
      modifies this
      ensures found == (pizzaId in catalog)
      ensures quantities == if found then UpdatedQuantities(old(quantities), pizzaId, action) else old(quantities)
    {
      if pizzaId !in catalog {
        return false;
      }
      found := true;
      if pizzaId !in quantities {
        quantities := quantities[pizzaId := DefaultQuantity];
      }
      var quantity := quantities[pizzaId];
      if action == "add" {
        quantity := quantity + 1;
      } else if action == "remove" {
        quantity := quantity - 1;
      }
      quantities := quantities[pizzaId := quantity];
      if quantity <= 0 {
        quantities := quantities - {pizzaId};
      }
    }
  }

  /** On a pizza with no line, the first "add" creates the line at 1 and a second raises it to 2. */
  lemma AddTwiceFromNothing(quantities: map<int, int>, pizzaId: int)
    requires pizzaId !in quantities
    ensures UpdatedQuantities(quantities, pizzaId, "add") == quantities[pizzaId := 1]
    ensures UpdatedQuantities(UpdatedQuantities(quantities, pizzaId, "add"), pizzaId, "add") == quantities[pizzaId := 2]
  {
  }

  /** "remove" takes one off a line and deletes the line once it reaches zero or below. */
  lemma RemoveDecrements(quantities: map<int, int>, pizzaId: int)
    requires pizzaId in quantities
    ensures quantities[pizzaId] >= 2 ==>
      UpdatedQuantities(quantities, pizzaId, "remove") == quantities[pizzaId := quantities[pizzaId] - 1]
    ensures quantities[pizzaId] <= 1 ==>
      UpdatedQuantities(quantities, pizzaId, "remove") == quantities - {pizzaId}
  {
  }

  /** Removing a pizza that has no line creates it at 0, takes it to -1 and deletes it: the table is as before. */
  lemma RemoveWithoutLine(quantities: map<int, int>, pizzaId: int)
    requires pizzaId !in quantities
    ensures UpdatedQuantities(quantities, pizzaId, "remove") == quantities
  {
  }

  /** Any other action keeps a line holding pizzas and the absence of a line; a line at zero or below is deleted. */
  lemma UnknownActionKeepsTable(quantities: map<int, int>, pizzaId: int, action: string)
    requires action != "add" && action != "remove"
    ensures (pizzaId !in quantities || quantities[pizzaId] >= 1) ==>
      UpdatedQuantities(quantities, pizzaId, action) == quantities
    ensures pizzaId in quantities && quantities[pizzaId] <= 0 ==>
      UpdatedQuantities(quantities, pizzaId, action) == quantities - {pizzaId}
  {
  }

  /** "add" on a line of zero or more pizzas, or on no line, leaves a line whose total is one price higher. */
  lemma AddRaisesLineTotal(quantities: map<int, int>, pizza: Pizza, pizzaId: int)
    requires pizzaId in quantities ==> quantities[pizzaId] >= 0
    ensures var r := UpdatedQuantities(quantities, pizzaId, "add");
      var before := if pizzaId in quantities then quantities[pizzaId] else DefaultQuantity;
      && pizzaId in r
      && GetTotal(OrderItem(pizza, r[pizzaId])) == GetTotal(OrderItem(pizza, before)) + pizza.price
  {
  }

  /** "remove" on a line of two or more pizzas keeps the line, its total one price lower. */
  lemma RemoveLowersLineTotal(quantities: map<int, int>, pizza: Pizza, pizzaId: int)
    requires pizzaId in quantities && quantities[pizzaId] >= 2
    ensures var r := UpdatedQuantities(quantities, pizzaId, "remove");
      && pizzaId in r
      && GetTotal(OrderItem(pizza, r[pizzaId])) == GetTotal(OrderItem(pizza, quantities[pizzaId])) - pizza.price
  {
  }

  /**
   * The authenticated checkout POST: a valid form is saved, a new order is
   * created, and its bonus points are added to the customer before the
   * redirect to payment. The new order has no lines, so nothing is credited.
   */
  method Checkout(customer: Customer, formValid: bool) returns (toPayment: bool)
    modifies customer
    ensures toPayment == formValid
    ensures customer.bonusPoints == old(customer.bonusPoints)
    ensures customer.name == old(customer.name)
  {
    toPayment := false;
    if formValid {
      var order: seq<OrderItem> := [];
      EmptyOrder();
      customer.bonusPoints := customer.bonusPoints + BonusPoints(order);
      toPayment := true;
    }
  }
}

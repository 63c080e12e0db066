/**
 * The guest cart as the browser script keeps it (static/js/cart.js,
 * addCookieItem): a dictionary from pizza id to {quantity: n}, here reduced
 * to pizza id to quantity, updated in place by the cart buttons.
 */
module CartScript {
  import opened Views

  /** addCookieItem's effect on the cart. "remove" reads the entry, so it needs the key to be present. */
  function CookieItemUpdate(cart: map<int, int>, pizzaId: int, action: string): (r: map<int, int>)
    requires action == "remove" ==> pizzaId in cart
    ensures action == "add" && pizzaId !in cart ==> r == cart[pizzaId := 1]
    ensures action == "add" && pizzaId in cart ==> r == cart[pizzaId := cart[pizzaId] + 1]
    ensures action == "remove" && cart[pizzaId] - 1 > 0 ==> r == cart[pizzaId := cart[pizzaId] - 1]
    ensures action == "remove" && cart[pizzaId] - 1 <= 0 ==> r == cart - {pizzaId}
    ensures action != "add" && action != "remove" ==> r == cart
    ensures forall k :: k != pizzaId ==> (k in r <==> k in cart)
    ensures forall k :: k != pizzaId && k in r ==> r[k] == cart[k]
    ensures AllPositive(cart) ==> AllPositive(r)
  {
    if action == "add" then
      if pizzaId !in cart then cart[pizzaId := 1] else cart[pizzaId := cart[pizzaId] + 1]
    else if action == "remove" then
      if cart[pizzaId] - 1 <= 0 then cart - {pizzaId} else cart[pizzaId := cart[pizzaId] - 1]
    else cart
  }

  /** The page's global `cart` object. */
  class GuestCartScript {
    var cart: map<int, int>

    /** A script holding an arbitrary initial cart. */
    constructor (initial: map<int, int>)
      ensures cart == initial
    {
      cart := initial;
    }

    /** addCookieItem, without the cookie write and the page reload that follow it. */
    method AddCookieItem(pizzaId: int, action: string)
      requires action == "remove" ==> pizzaId in cart
      modifies this
      ensures cart == CookieItemUpdate(old(cart), pizzaId, action)
    {
      if action == "add" {
        if pizzaId !in cart {
          cart := cart[pizzaId := 1];
        } else {
          cart := cart[pizzaId := cart[pizzaId] + 1];
        }
      }
      if action == "remove" {
        cart := cart[pizzaId := cart[pizzaId] - 1];
        if cart[pizzaId] <= 0 {
          cart := cart - {pizzaId};
        }
      }
    }
  }

  /** Adding a pizza the cart did not hold and then removing it gives back the cart as it was. */
  lemma AddThenRemoveRestores(cart: map<int, int>, pizzaId: int)
    requires pizzaId !in cart
    ensures CookieItemUpdate(CookieItemUpdate(cart, pizzaId, "add"), pizzaId, "remove") == cart
  {
  }

  /**
   * The browser rule and the server rule of update_item give the same table
   * exactly when the addressed line is absent, the action is "remove", or the
   * line still holds a pizza after the action: otherwise the server deletes a
   * line the browser keeps.
   */
  lemma AgreesWithServer(cart: map<int, int>, pizzaId: int, action: string)
    requires action == "remove" ==> pizzaId in cart
    ensures CookieItemUpdate(cart, pizzaId, action) == UpdatedQuantities(cart, pizzaId, action) <==>
      (pizzaId !in cart || action == "remove" || ActedQuantity(cart, pizzaId, action) > 0)
  {
  }

  /** On a cart whose every quantity is at least one, the two rules agree for every action. */
  lemma AgreesOnPositiveCarts(cart: map<int, int>, pizzaId: int, action: string)
    requires AllPositive(cart)
    requires action == "remove" ==> pizzaId in cart
    ensures CookieItemUpdate(cart, pizzaId, action) == UpdatedQuantities(cart, pizzaId, action)
  {
  }
}

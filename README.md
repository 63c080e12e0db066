# Pizzeria cart logic in Dafny

A model of the cart logic of a small Django pizza shop: the arithmetic an
order derives from its lines, the aggregation of a guest's cookie cart, the
quantity-update endpoint of a signed-in customer's open order, the catalog
type filter, the bonus credit made at checkout, and the browser script's
update of the guest cart. The database, HTTP and templates are replaced by
maps and sequences.

Modules, one per source file:

- `Models` (models.dfy, main/models.py): pizza types, `Pizza`, the `Customer`
  class, `OrderItem`, and the sums `CartTotal`, `CartItems`, `BonusPoints`.
- `Utils` (utils.dfy, main/utils.py): the cookie as a sequence of entries in
  iteration order, and `CookieCart`, the loop that folds it into a summary.
- `Views` (views.dfy, main/views.py): `AssortmentFilter`, the `OpenOrder`
  class with `UpdateItem`, and `Checkout`.
- `CartScript` (cart_script.dfy, static/js/cart.js): the `GuestCartScript`
  class with `AddCookieItem`.
- `Wrappers` (wrappers.dfy): the `Option` type.

A pizza's type is the subset type `PizzaType` of 0..3 (the four
`TYPE_VARIANTS`, kept with their display names in `TypeVariants`), with
`DefaultType` 0 as the field's default (`NewPizza`).

`int(total * 0.05)` is modelled as five per cent truncated toward zero
(`FivePercent`), which is what the floating-point product gives for the
integer totals involved; negative totals round toward zero as Python's
`int()` does.

## Model

| member | source | states |
|---|---|---|
| Models.TypeName | main/models.py:26-31 | each of the four types carries the display name it is declared with in the variants |
| Models.NewPizza | main/models.py:39 | a pizza saved without a type gets type 0, the chicken variant; its other fields are those given |
| Models.GetTotal | main/models.py:145-151 | a line's total is its pizza's price times its quantity: 0 for quantity 0, at least the price for a quantity of 1 or more at a non-negative price |
| Models.SumByBounds | main/models.py:106 | a sum of terms none of which is negative is at least 0 and at least each of its terms |
| Models.CartTotal | main/models.py:100-107 | the total of an empty order is 0; with no negative price or quantity it is at least 0 and at least each line's total |
| Models.CartItems | main/models.py:109-116 | the count of an empty order is 0; with no negative price or quantity it is at least 0 and at least each line's quantity |
| Models.BonusPoints | main/models.py:118-125 | the bonus is five per cent of the cart total truncated toward zero: 20 times it is within 20 below a non-negative total, and with no negative price or quantity it lies between 0 and the total |
| Models.FivePercent | main/models.py:118-125 | `int(x * 0.05)`: for a non-negative total the result is the largest r with 20r <= total, so it lies between 0 and the total; for a negative total it rounds toward zero |
| Models.Customer.constructor | main/models.py:64-66 | a new customer starts with 0 bonus points |
| Models.SumByAppend | main/models.py:105-106 | summing over lines distributes over concatenation |
| Models.SumByPermutation | main/models.py:105-106 | a sum over lines does not depend on the order of the lines |
| Models.EmptyOrder | main/models.py:100-125 | an order with no lines totals 0, counts 0 items and earns 0 bonus points |
| Models.CartTotalOrderIndependent | main/models.py:100-107 | the cart total is the same for any ordering of the same lines |
| Models.CartItemsOrderIndependent | main/models.py:109-116 | the item count is the same for any ordering of the same lines |
| Models.SumByRemove | main/models.py:106 | taking one line out of an order takes exactly that line's term out of the sum |
| Models.BonusMonotone | main/models.py:118-125 | adding lines with no negative price or quantity never lowers the bonus |
| Models.AuthenticatedOrderExample | main/models.py:100-125 | 2 at 100 and 1 at 50 give total 250, 3 items, bonus 12 |
| Utils.QuantityOf | main/utils.py:15 | a quantity is read exactly when the entry is a dictionary with a numeric "quantity", and it is that number |
| Utils.ItemOf | main/utils.py:15-18 | an entry yields an item exactly when its quantity reads and its id names a pizza; the item holds that pizza, that quantity, and price times quantity as its total |
| Utils.Items | main/utils.py:13-33 | at most one item per cookie entry, and each item's total is its pizza's price times its quantity |
| Utils.AppendItemSums | main/utils.py:20-21 | appending an item adds its line total to the total and its quantity to the count |
| Utils.ItemSumsAppend | main/utils.py:20-21 | the total and the count over two runs of items are the sums over each run |
| Utils.TotalIsSumOfItemTotals | main/utils.py:20-31 | when every item's total is its line total, the cart total equals the sum of the items' own totals |
| Utils.ReadEntry | main/utils.py:14-35 | one guarded pass of the loop: the entry's contribution is appended, the total and count grow by its sums, the notifications by its readable quantity, and the notifications run ahead of the count by exactly that quantity when the lookup fails |
| Utils.CookieCart | main/utils.py:4-36 | a missing or undecodable cookie gives the empty cart; the items are those of the entries in order; the total is the cart total of the items and equals the sum of their own totals; the count is the sum of their quantities; bonus points stay 0; notifications are the quantities of all well-formed entries, equal to the count plus the quantities whose lookup failed |
| Utils.PrefixStep | main/utils.py:13-21 | one more entry appends its contribution to the items, adds its readable quantity to the notifications and, if its lookup fails, to the failed-lookup quantities |
| Utils.SummarisesStep | main/utils.py:13-35 | reading entry i carries the summary of the first i entries to that of the first i + 1 |
| Utils.NotificationsSplit | main/utils.py:11-21 | for every cookie, notifications equal the counted items plus the quantities of failed lookups |
| Utils.FoundEntryStep | main/utils.py:15-33 | a well-formed entry with an existing pizza adds q to notifications and count, price*q to the total, and one item with that total |
| Utils.MissingEntryStep | main/utils.py:15-17 | a well-formed entry whose lookup fails adds q to notifications only |
| Utils.MalformedEntryStep | main/utils.py:14-15 | an entry without a numeric "quantity", or not a dictionary, changes nothing |
| Utils.ItemsAppend | main/utils.py:13-33 | items follow the cookie's iteration order: a concatenation's items are each part's items in turn |
| Utils.NotificationsAppend | main/utils.py:13-15 | notifications of a concatenation are the sum of each part's |
| Utils.MissingQuantityAppend | main/utils.py:13-17 | failed-lookup quantities of a concatenation are the sum of each part's |
| Utils.NothingReadable | main/utils.py:13-15 | a cookie none of whose entries has a readable quantity gives no notifications, no items and no failed-lookup quantity |
| Utils.AllFoundNoMissing | main/utils.py:11-21 | when every entry names an existing pizza nothing is missed and the notifications equal the item count |
| Utils.MissingWithinNotifications | main/utils.py:11-17 | with no negative quantity, the failed-lookup quantity lies between 0 and the notifications |
| Utils.MalformedEntryIgnored | main/utils.py:34-35 | a malformed entry anywhere in the cookie changes neither items, notifications nor failed-lookup quantities |
| Utils.GuestCartExample | main/utils.py:13-33 | two at 500 and three at 300 give 5 items, total 1900, notifications 5 |
| Views.OfType | main/views.py:82 | the pizzas kept are exactly the catalog's pizzas of the given type, no more of them than in the catalog |
| Views.OfTypeAppend | main/views.py:82 | filtering keeps catalog order |
| Views.AssortmentFilter | main/views.py:77-92 | a POST selecting exactly one of chicken, beef, sausage, vegetarian shows the pizzas of type 0, 1, 2, 3 with the matching caption; any other selection, or no POST, shows the whole catalog with no caption |
| Views.VegetarianExample | main/views.py:90-92 | "vegetarian" shows exactly the type-3 pizzas; an unknown or multiple selection shows the whole catalog |
| Views.ActedQuantity | main/views.py:199-204 | the line's quantity after the action: one more for add, one less for remove, the same otherwise, counted from 0 for a line that get_or_create makes |
| Views.UpdatedQuantities | main/views.py:199-209 | only the addressed line can change; it ends at the start quantity (0 if absent) plus one for add, minus one for remove, unchanged otherwise, and is deleted when that is 0 or below; tables whose lines all hold pizzas keep that property |
| Views.OpenOrder.constructor | main/views.py:198 | a newly created open order has no lines |
| Views.OpenOrder.UpdateItem | main/views.py:191-212 | an id naming no pizza changes nothing; otherwise the line table becomes UpdatedQuantities of the old one |
| Views.AddTwiceFromNothing | main/views.py:199-202 | on a pizza without a line, the first add gives quantity 1 and a second gives 2 |
| Views.RemoveDecrements | main/views.py:203-209 | remove takes one off a line and deletes it once it reaches 0 |
| Views.RemoveWithoutLine | main/views.py:199-209 | removing a pizza that has no line leaves the table unchanged |
| Views.UnknownActionKeepsTable | main/views.py:199-209 | any other action keeps a line holding pizzas and keeps an absent line absent; a line at 0 or below is deleted |
| Views.AddRaisesLineTotal | main/views.py:199-202 | add on a line of 0 or more pizzas, or on no line, leaves the line present with a total one price higher |
| Views.RemoveLowersLineTotal | main/views.py:203-209 | remove on a line of 2 or more pizzas keeps the line with a total one price lower |
| Views.Checkout | main/views.py:141-150 | a valid authenticated checkout redirects to payment and leaves the customer's bonus points unchanged, since the credited order is new and empty |
| CartScript.CookieItemUpdate | static/js/cart.js:16-29 | add inserts quantity 1 for an absent key and adds one to a present one; remove takes one off and deletes at 0 or below; other actions change nothing; other keys are untouched; all-positive carts stay all-positive |
| CartScript.GuestCartScript.constructor | static/js/cart.js:16 | the script starts from an arbitrary initial cart |
| CartScript.GuestCartScript.AddCookieItem | static/js/cart.js:16-29 | the cart becomes CookieItemUpdate of the old cart; remove needs the key to be present |
| CartScript.AddThenRemoveRestores | static/js/cart.js:17-28 | adding an absent pizza then removing it restores the cart |
| CartScript.AgreesWithServer | static/js/cart.js:16-29 | the browser rule equals update_item's rule if and only if the key is absent, the action is remove, or the line still holds a pizza after the action |
| CartScript.AgreesOnPositiveCarts | static/js/cart.js:16-29 | on carts whose quantities are all at least 1 the two rules agree for every action |

## Left out

- Persistence: `get_or_create`, `save`, `delete` and querysets become map and sequence updates; one open order per customer and one line per (order, pizza) are assumed, and the race between concurrent requests creating two open orders is not modelled.
- Models.OrderItem: a line always references an existing pizza and holds an integer quantity. The pizza link is nullable (deleting a pizza sets it to null) and so is the quantity; `get_total` then raises, which is not modelled.
- Utils.Notifications, Utils.MissingQuantity: these recursive definitions carry no postconditions of their own; what they mean is stated by NotificationsSplit, NothingReadable, AllFoundNoMissing, MissingWithinNotifications and the step lemmas.
- Integer width: prices and quantities are unbounded integers; the database's 32-bit integer columns are not modelled.
- Floating point: the product `total * 0.05` is modelled as exact integer arithmetic.
- JSON decoding: the cookie is given already decoded. A cookie that decodes to JSON other than an object (an array, a string, a number) is not modelled; quantities that are floats or booleans are not modelled (a quantity is an integer or a non-numeric value).
- Cookie keys: a key is modelled by the pizza id it names; a key that is not an integer behaves like an id absent from the catalog.
- Utils.Items: the name, price and image URL copied into each item are represented by the whole pizza record.
- CartScript: keys of the browser's `cart` object are strings; they are modelled as the integer ids they hold so that the rule can be compared with the server's. The cookie write, the page reload, the DOM event wiring and the `fetch` in `updateUserOrder` are browser I/O.
- Views.UpdateItem: the failing pizza lookup, which raises and answers the request with a server error, is reported by `found == false`; the JSON body decoding, the fixed acknowledgement response and the `print` calls are not modelled.
- Views.Checkout: only the authenticated, submitted path is modelled; the form validation is a parameter, and saving the shipping record, the anonymous path and page rendering are not modelled.
- Form handling (main/forms.py), registration, the staff add-item page, top sellers, profile and payment pages, the `post_save` signal handlers and `Pizza.imageURL` are framework glue or file storage.

# Shopping session model

A Dafny model of the in-memory shopping session of `DSA.cpp`: the cart
(`CartLinkedList`), the undo stack (`UndoStack` and `ECommerce::undo`),
special-offer pricing (`applySpecialOffers`), checkout with the order
history and FIFO order queue (`checkout`, `OrderQueue`), and the category
discount tree (`CategoryBST`).

Linked nodes become values. The cart is a `seq<Entry>` whose index 0 is
the list head. That sequence is also the `getItems` snapshot, newest entry
first. The undo stack is a sequence with its top at index 0. The order
queue is a sequence with its front at index 0. The category tree is a
`datatype`. Every `ECommerce` action is a pure transition
`Session -> (Session, Status)`. `Status` is the message the source prints:
`ProductNotFound`, `NothingToUndo`, `ItemNotFound` or `CartEmpty`.

Files:
- `wrappers.dfy`: `Option`.
- `cart.dfy`: products, cart operations and catalogue lookup. It also
  defines an order-blind view, `Quantity(c, id)`: the total units of a
  product in the cart. Most cart properties are stated against it.
- `undo_log.dfy`: undo records and the stack.
- `pricing.dfy`: the pricing rules, as functions and as the source's
  one-pass loop.
- `orders.dfy`: orders and the FIFO queue.
- `category_tree.dfy`: lexicographic string order and the BST.
- `session.dfy`: the session record and its actions.
- `session_properties.dfy`: invariants, undo round trips, order ids.

The model follows the code, including these behaviours:
- Quantities are never validated. `addToCart` accepts zero or negative
  quantities, so "every entry has at least one unit" is only a conditional
  invariant (`StepKeepsPositiveQuantities`). A counterexample is proved
  (`AddOfZeroBreaksPositiveQuantities`).
- New products are prepended, so the cart lists newest first.
- Undoing an add deletes the whole line rather than the added units.

## Model

| member | source | states |
|---|---|---|
| Cart.Find | DSA.cpp:46-54 | `search` finds the first entry from the head with the id; None exactly when no entry has it |
| Cart.AddItem | DSA.cpp:39-61 | a product already in the cart keeps its place and every entry keeps its product; a new product becomes the head entry `(p, q)` in front of the old list (newest first) |
| Cart.AddItemQuantity | DSA.cpp:56-61 | `addItem` raises the product's units by exactly `q` and no other product's units change, for any cart |
| Cart.AddItemKeepsIdsUnique | DSA.cpp:56-61 | starting from unique ids, `addItem` never creates a second entry for a product, and the product is present afterwards |
| Cart.DeleteById | DSA.cpp:63-81 | `deleteById` returns true iff the id is present; it then removes exactly the first entry with that id and keeps the rest in order; otherwise the list is unchanged |
| Cart.DeleteByIdUnique | DSA.cpp:63-81 | with unique ids, deletion leaves no entry for the id, keeps ids unique, and leaves every other product's units unchanged |
| Cart.SetQuantity | DSA.cpp:83-88 | `setQuantity` does nothing for an absent id; quantity <= 0 is `deleteById` and shortens the list by one; otherwise the first entry with the id gets exactly `qty`, every other entry is unchanged and every product stays in place |
| Cart.SetQuantityUnique | DSA.cpp:83-88 | with unique ids, the product ends with exactly `qty` units if it was present and `qty > 0`, else with none; other products are unchanged; ids stay unique |
| Cart.DeleteByIdKeepsPositive | DSA.cpp:63-81 | unlinking keeps every remaining quantity positive |
| Cart.SetQuantityKeepsPositive | DSA.cpp:83-88 | `setQuantity` never stores a non-positive quantity, whatever it is given |
| Cart.FindProduct | DSA.cpp:235-237 | the catalogue lookup of `addToCart` returns the first product with the id, or None exactly when no product has it |
| UndoLog.IsEmpty | DSA.cpp:135 | `isEmpty` holds exactly when the stack holds no record |
| UndoLog.Push | DSA.cpp:134 | `push` makes the record the new top and keeps the earlier stack unchanged below it |
| UndoLog.Pop | DSA.cpp:135-136 | `pop` returns None exactly on an empty stack; otherwise it returns the top record and the stack below, and pushing that record back gives the original stack |
| UndoLog.PopAfterPush | DSA.cpp:134-136 | last in, first out: popping right after a push returns that record and the earlier stack |
| UndoLog.Revert | DSA.cpp:244-245 | reverting never grows the cart and leaves it unchanged when the record's id is absent; with the id present, an "ADD" record, or a "SET" record of quantity <= 0, removes exactly the first entry with the id; a "SET" record of positive quantity gives that entry exactly the recorded quantity and changes no other entry |
| UndoLog.RevertKeepsIdsUnique | DSA.cpp:244-245 | with unique ids, reverting keeps ids unique; afterwards the product holds no units for an "ADD" record, and for a "SET" record holds the recorded quantity if it was present with a positive recorded quantity, else none; other products' units are unchanged |
| Pricing.FreeUnits | DSA.cpp:297 | the free units are `qty / 3` truncated toward zero as C++ does: `3r <= qty < 3r + 3` for `qty >= 0`, and `3r - 3 < qty <= 3r <= 0` for negative `qty` |
| Pricing.PayableUnits | DSA.cpp:295-302 | non-Clothes lines pay for every unit; for `qty >= 0` the payable units lie between 0 and `qty`, below 3 units nothing is free, and Clothes pay for `ceil(2*qty/3)` units (`2q <= 3*payable < 2q + 3`) |
| Pricing.LinePrice | DSA.cpp:291-305 | below 3 units a line costs unit price times payable units, which for 0 to 2 units is the plain quantity; from 3 units up that amount is multiplied by 0.9 |
| Pricing.Subtotal | DSA.cpp:289-308 | a single line's subtotal is its line price; with non-negative prices and quantities the subtotal is non-negative |
| Pricing.Finalize | DSA.cpp:310-317 | sums above 50000 become 95% with free delivery; sums in (20000, 50000] are unchanged; sums up to 20000 pay 200 delivery |
| Pricing.OrderTotal | DSA.cpp:288-318 | with non-negative prices and quantities the total lies between 95% of the subtotal and the subtotal plus 200; an empty list costs exactly the delivery charge |
| Pricing.BundlePaysTwoOfThree | DSA.cpp:295-302 | for `qty >= 0`, Clothes pay for `ceil(2*qty/3)` units (`2q <= 3*payable < 2q + 3`); other categories pay for every unit |
| Pricing.LinePriceBounds | DSA.cpp:290-305 | with non-negative price and quantity, a line costs between 0 and its undiscounted price; with non-negative price it costs at most 90% of that from 3 units up |
| Pricing.LinePriceExamples | DSA.cpp:295-305 | three Clothes at 1500 cost 2700 (bundle, then 10%); three Electronics at 30000 cost 81000 |
| Pricing.ApplySpecialOffers | DSA.cpp:288-318 | the source's one-pass loop returns the sum of line prices, 5% off when above 50000, plus 200 when the result is at most 20000; its loop body is the helper method `PriceLine`, the source's step-by-step line computation, which the loop invariant ties to `LinePrice` |
| Pricing.FinalizeExamples | DSA.cpp:310-317 | 60000 gives 57000; exactly 50000 gets no discount; 1500 gives 1700; exactly 20000 gives 20200 |
| Pricing.FinalizeBounds | DSA.cpp:310-317 | for a non-negative sum the total is positive, at least 95% of the sum, and at most the sum plus 200 |
| Pricing.FinalizeNotMonotone | DSA.cpp:310-317 | both thresholds are cliffs: 50001 costs less than 50000, and 20001 less than 20000 |
| Pricing.SubtotalIgnoresLineOrder | DSA.cpp:289-308 | any rearrangement of the same lines (equal multisets) has the same subtotal |
| Pricing.OrderTotalIgnoresLineOrder | DSA.cpp:288-318 | any rearrangement of the same lines has the same total, so newest-first order does not affect the price |
| Orders.Front | DSA.cpp:173-179 | the order `displayFront` shows is the queue's first; None exactly on an empty queue |
| Orders.Enqueue | DSA.cpp:160-164 | the order joins at the rear and the waiting orders stay as they were, in order; it becomes the front only if the queue was empty |
| Orders.Dequeue | DSA.cpp:165-172 | `dequeue` returns false exactly on an empty queue, which it leaves unchanged; otherwise it removes only the front and keeps the rest in order |
| Orders.DrainEnqueue | DSA.cpp:160-172 | an order enqueued now comes out after every order already waiting |
| Orders.FifoOrder | DSA.cpp:160-172 | orders leave the queue in the order they were enqueued |
| CategoryTree.LessIrreflexive | DSA.cpp:199 | the string order used for keys is irreflexive |
| CategoryTree.LessTransitive | DSA.cpp:199 | the string order used for keys is transitive |
| CategoryTree.LessConnected | DSA.cpp:199 | any two different keys are ordered one way or the other |
| CategoryTree.Insert | DSA.cpp:197-202 | `insert` adds exactly one (key, discount) pair, duplicates included; the key set grows by the key; the search-tree order is kept (smaller keys left, ties and larger keys right) |
| CategoryTree.Search | DSA.cpp:203-208 | `search` returns 0 for a key not in the tree; in an ordered tree a stored key yields a discount stored with that key |
| CategoryTree.OnPathIffStored | DSA.cpp:203-208 | in an ordered tree the search path meets the key exactly when the key is stored |
| CategoryTree.SearchAfterInsertSame | DSA.cpp:197-208 | after inserting a key, searching for it returns the new discount unless the path already met that key, whose older node shadows the new one |
| CategoryTree.SearchAfterInsertOther | DSA.cpp:197-208 | inserting one key never changes a search for another key |
| CategoryTree.SearchAfterInsertFresh | DSA.cpp:197-208 | in an ordered tree, a key not yet stored is found with its discount right after insertion |
| Session.Initial | DSA.cpp:222-232 | a fresh session has an empty cart, undo stack, queue and history; the next order id is 1; the tree holds exactly Electronics (10) and Clothes (15) |
| Session.AddToCart | DSA.cpp:234-239 | an unknown id changes nothing and reports not found; a known product is added to the cart by `AddItem` (merged into its line, or a new line at the head), so it gains exactly `qty` units, an "ADD" record is pushed, and nothing else changes |
| Session.Undo | DSA.cpp:241-247 | an empty stack changes nothing and reports nothing to undo; otherwise the top record is popped and reverted, and nothing but cart and stack changes |
| Session.ClearCart | DSA.cpp:249 | `clearCart` empties the cart through `Cart::clear` (lines 108-115); the undo stack and everything else are unchanged |
| Session.UpdateQuantity | DSA.cpp:251-258 | an absent id leaves cart and stack unchanged; otherwise the old quantity is pushed in a "SET" record and `setQuantity` applied; with unique ids the product ends with `newQty` units (none if `newQty <= 0`) and others keep theirs |
| Session.Checkout | DSA.cpp:321-334 | an empty cart is refused with nothing changed; otherwise an order with id = old `nextOrderID`, the snapshot and its total is appended to history and queue rear; the id advances by 1; the cart empties; undo is untouched |
| Session.ProcessNextOrder | DSA.cpp:360 | processing returns None on an empty queue; otherwise it returns the front order and dequeues only it, leaving the history intact |
| SessionProperties.InitialWellformed | DSA.cpp:222-232 | a fresh session satisfies the session invariant |
| SessionProperties.CheckoutKeepsWellformed | DSA.cpp:321-334 | checkout keeps ids sequential and the queue a suffix of the history |
| SessionProperties.ProcessNextOrderKeepsWellformed | DSA.cpp:165-172 | dequeuing keeps the queue a suffix of the history |
| SessionProperties.StepKeepsWellformed | DSA.cpp:234-334 | every action keeps the invariant: unique cart ids, an ordered tree, history ids 1..n with `nextOrderID` = n+1, non-empty orders, and the queue a suffix of the history |
| SessionProperties.RunKeepsWellformed | DSA.cpp:234-334 | any sequence of actions keeps the invariant |
| SessionProperties.ReachableWellformed | DSA.cpp:222-334 | every session reachable from a fresh one satisfies the invariant |
| SessionProperties.WellformedOrderIds | DSA.cpp:327-333 | in such a session history ids strictly increase, all are below the next id, and the queue serves orders in increasing id |
| SessionProperties.CheckoutIdIsFresh | DSA.cpp:321-334 | a refused checkout consumes no id; a successful one appends one order whose id exceeds every earlier id |
| SessionProperties.UndoAfterAddOfNewProduct | DSA.cpp:234-247 | adding a product not in the cart, then undoing, restores the whole session exactly |
| SessionProperties.UndoAfterAddOfPresentProduct | DSA.cpp:234-247 | undoing an add of a product already in the cart removes its whole line; other products, the earlier stack and the rest of the session are as before the add |
| SessionProperties.UndoAfterAddExample | DSA.cpp:234-247 | with five phones in the cart, adding two and undoing leaves no phone |
| SessionProperties.UndoAfterUpdate | DSA.cpp:241-258 | update then undo restores the session exactly when old and new quantities are both positive; if either is not positive, the entry ends up removed; the stack is always back as before |
| SessionProperties.UndoAfterUpdateExample | DSA.cpp:241-258 | five phones updated to two and undone gives five phones; updated to zero and undone gives no phone |
| SessionProperties.UndoAfterCheckout | DSA.cpp:241-247 | checkout keeps the undo stack, so a later undo succeeds against the empty cart, which stays empty |
| SessionProperties.RepeatedAddsMerge | DSA.cpp:56-61 | repeated adds of one product keep ids unique with a single entry, whose quantity is the prior units plus the sum of the added quantities; other products are unchanged |
| SessionProperties.UndoKeepsPositiveQuantities | DSA.cpp:241-247 | undo keeps cart quantities and recorded old quantities positive |
| SessionProperties.UpdateKeepsPositiveQuantities | DSA.cpp:251-258 | an update keeps them positive, whatever the new quantity |
| SessionProperties.StepKeepsPositiveQuantities | DSA.cpp:234-258 | every action keeps positive quantities, provided each add uses a positive quantity |
| SessionProperties.AddOfZeroBreaksPositiveQuantities | DSA.cpp:234-236 | `addToCart` does not validate its quantity: adding 0 units to a fresh session leaves an entry with quantity 0 |

## Left out

- Console output is not modelled: `display`, the printing in `displayFront`, `showOrderHistory`, and every `cout` in `addToCart`, `undo`, `clearCart`, `updateQuantity`, `applySpecialOffers` and `checkout`. Only state effects and the reported signal (`Status`) are kept.
- The `main` menu loop (DSA.cpp:345-370) reads console input. It is replaced by arbitrary action sequences (`SessionProperties.Run`). Only choice 6, show and dequeue the front order, has its own member, `Session.ProcessNextOrder`.
- `estimateDelivery` uses `rand()` and only prints, so it is not modelled.
- `searchProductByName` only prints substring matches, so it is not modelled.
- `getItems` has no separate member: the snapshot is the cart sequence itself. As a value it cannot be affected by later cart changes.
- `new`/`delete` and the popped `StackNode` that `undo` never frees are not modelled; lists are sequences and the tree is a datatype.
- Prices are exact `real`s, not IEEE-754 doubles, so rounding is not modelled. The proved rules are about thresholds and ordering.
- `int` in the source is 32 bits, and signed overflow is undefined (quantity `+=` in `addItem`, `nextOrderID++`). Here integers are unbounded.
- Session.UpdateQuantity: when `newQty <= 0`, the source reads `node->data` at DSA.cpp:256 after `setQuantity` has freed that node, which is undefined behaviour. The model reads the product before the update, as evidently intended.
- UndoLog.Revert: the source compares the string tags "ADD" and "SET" and ignores any other tag. Only those two tags are ever pushed, so the model uses a two-case datatype and the ignore branch has no counterpart.
- CategoryTree.Less: C++ compares `std::string` characters as unsigned bytes; the model compares Dafny characters by code point. The two orders agree on the ASCII category names used.
- The category discounts are never used by pricing, and the model does not connect them.

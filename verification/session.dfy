/** One shopping session (`ECommerce` in DSA.cpp) as an immutable record;
    each user action is a transition function returning the next session and
    the signal the source reports on the console. */
module Session {
  import opened Wrappers
  import opened Cart
  import opened UndoLog
  import opened Pricing
  import opened Orders
  import opened CategoryTree

  datatype Session = Session(
    catalog: seq<Product>,
    cart: Cart,
    undo: Stack,
    queue: Queue,
    categories: Tree,
    history: seq<Order>,
    nextOrderId: int)

  /** What an action reports. */
  datatype Status = Done | ProductNotFound | NothingToUndo | ItemNotFound | CartEmpty

  /** Only the cart and the undo stack may differ between `s` and `s'`. */
  ghost predicate SameExceptCartAndUndo(s: Session, s': Session) {
    && s'.catalog == s.catalog
    && s'.queue == s.queue
    && s'.categories == s.categories
    && s'.history == s.history
    && s'.nextOrderId == s.nextOrderId
  }

  /** The constructor: two categories with their discounts and a catalogue
      of four products; everything else empty, order ids starting at 1. */
  function Initial(): (s: Session)
    ensures |s.cart| == 0 && |s.undo| == 0 && |s.queue| == 0 && |s.history| == 0
    ensures s.nextOrderId == 1
    ensures Search(s.categories, "Electronics") == 10.0
    ensures Search(s.categories, "Clothes") == 15.0
    ensures Keys(s.categories) == {"Electronics", "Clothes"}
  {
    var categories := Insert(Insert(Leaf, "Electronics", 10.0), "Clothes", 15.0);
    Session(
      [ Product(1, "Phone", 30000.0, "Electronics"),
        Product(2, "Laptop", 80000.0, "Electronics"),
        Product(3, "T-Shirt", 1500.0, "Clothes"),
        Product(4, "Jeans", 2500.0, "Clothes") ],
      [], [], [], categories, [], 1)
  }

  /** `addToCart`: an unknown id changes nothing; a known product is added
      to the cart with the quantity as given (never validated) and an "ADD"
      record is pushed. */
  function AddToCart(s: Session, id: int, qty: int): (r: (Session, Status))
    ensures FindProduct(s.catalog, id).None? ==> r == (s, ProductNotFound)
    ensures FindProduct(s.catalog, id).Some? ==>
      var p := FindProduct(s.catalog, id).value;
      && r.1 == Done
      && SameExceptCartAndUndo(s, r.0)
      && r.0.undo == Push(s.undo, AddRecord(p, qty))
      && r.0.cart == AddItem(s.cart, p, qty)
      && (forall x :: Quantity(r.0.cart, x) == Quantity(s.cart, x) + (if x == id then qty else 0))
  {
    match FindProduct(s.catalog, id)
    case None => (s, ProductNotFound)
    case Some(p) =>
      var s' := s.(cart := AddItem(s.cart, p, qty), undo := Push(s.undo, AddRecord(p, qty)));
      assert forall x :: Quantity(s'.cart, x) == Quantity(s.cart, x) + (if x == id then qty else 0) by {
        forall x {
          AddItemQuantity(s.cart, p, qty, x);
        }
      }
      (s', Done)
  }

  /** `undo`: nothing to undo changes nothing; otherwise the top record is
      popped and reverted against the cart. */
  function Undo(s: Session): (r: (Session, Status))
    ensures IsEmpty(s.undo) ==> r == (s, NothingToUndo)
    ensures !IsEmpty(s.undo) ==>
      && r.1 == Done
      && SameExceptCartAndUndo(s, r.0)
      && r.0.undo == s.undo[1..]
      && r.0.cart == Revert(s.cart, s.undo[0])
  {
    match Pop(s.undo)
    case None => (s, NothingToUndo)
    case Some((rec, rest)) => (s.(cart := Revert(s.cart, rec), undo := rest), Done)
  }

  /** `clearCart`: the cart empties; the undo stack and everything else stay. */
  function ClearCart(s: Session): (r: Session)
    ensures forall x :: !HasId(r.cart, x)
    ensures SameExceptCartAndUndo(s, r) && r.undo == s.undo
  {
    s.(cart := [])
  }

  /** `updateQuantity`: an id not in the cart changes nothing; otherwise the
      entry's current quantity is pushed in a "SET" record and the new
      quantity is set (zero or less removes the entry). The record's product
      is read from the entry before the update. */
  function UpdateQuantity(s: Session, id: int, newQty: int): (r: (Session, Status))
    ensures !HasId(s.cart, id) ==> r == (s, ItemNotFound)
    ensures HasId(s.cart, id) ==>
      var e := s.cart[Find(s.cart, id).value];
      && r.1 == Done
      && SameExceptCartAndUndo(s, r.0)
      && r.0.undo == Push(s.undo, SetRecord(e.product, e.qty))
      && r.0.cart == SetQuantity(s.cart, id, newQty)
    ensures HasId(s.cart, id) && UniqueIds(s.cart) ==>
      && UniqueIds(r.0.cart)
      && forall x :: Quantity(r.0.cart, x) ==
                     (if x != id then Quantity(s.cart, x) else if newQty > 0 then newQty else 0)
  {
    match Find(s.cart, id)
    case None => (s, ItemNotFound)
    case Some(i) =>
      var e := s.cart[i];
      var s' := s.(cart := SetQuantity(s.cart, id, newQty), undo := Push(s.undo, SetRecord(e.product, e.qty)));
      assert UniqueIds(s.cart) ==>
        UniqueIds(s'.cart) &&
        forall x :: Quantity(s'.cart, x) == (if x != id then Quantity(s.cart, x) else if newQty > 0 then newQty else 0)
      by {
        if UniqueIds(s.cart) {
          forall x {
            SetQuantityUnique(s.cart, id, newQty, x);
          }
        }
      }
      (s', Done)
  }

  /** `checkout`: an empty cart is refused with nothing changed. Otherwise
      the snapshot is priced and becomes an order with the next id, which is
      appended to the history and the rear of the queue; the cart empties
      and the undo stack is left as it was. */
  function Checkout(s: Session): (r: (Session, Status))
    ensures |s.cart| == 0 ==> r == (s, CartEmpty)
    ensures |s.cart| > 0 ==>
      var o := Order(s.nextOrderId, s.cart, OrderTotal(s.cart));
      && r.1 == Done
      && r.0.nextOrderId == s.nextOrderId + 1
      && r.0.history == s.history + [o]
      && r.0.queue == Enqueue(s.queue, o)
      && |r.0.cart| == 0
      && r.0.undo == s.undo
      && r.0.catalog == s.catalog && r.0.categories == s.categories
  {
    if |s.cart| == 0 then (s, CartEmpty)
    else
      var o := Order(s.nextOrderId, s.cart, OrderTotal(s.cart));
      (s.(nextOrderId := s.nextOrderId + 1,
          queue := Enqueue(s.queue, o),
          history := s.history + [o],
          cart := []), Done)
  }

  /** Menu choice "Process Next Order": show the front order and dequeue it;
      the history keeps it. None when the queue is empty. */
  function ProcessNextOrder(s: Session): (r: (Session, Option<Order>))
    ensures |s.queue| == 0 ==> r == (s, None)
    ensures |s.queue| > 0 ==>
      && r.1 == Some(s.queue[0])
      && r.0 == s.(queue := s.queue[1..])
  {
    match Front(s.queue)
    case None => (s, None)
    case Some(o) => (s.(queue := Dequeue(s.queue).0), Some(o))
  }
}

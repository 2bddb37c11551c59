/** Properties of the session that relate several actions: the invariants
    every action keeps, the exact effect of undo after each kind of change,
    and the order ids handed out by checkout. */
module SessionProperties {
  import opened Wrappers
  import opened Cart
  import opened UndoLog
  import opened CategoryTree
  import opened Session

  /** The menu actions of the interactive driver that change state. */
  datatype Action =
    | AddAction(id: int, qty: int)
    | UndoAction
    | ClearAction
    | UpdateAction(id: int, qty: int)
    | CheckoutAction
    | ProcessAction

  function Step(s: Session, a: Action): Session {
    match a
    case AddAction(id, qty) => AddToCart(s, id, qty).0
    case UndoAction => Undo(s).0
    case ClearAction => ClearCart(s)
    case UpdateAction(id, qty) => UpdateQuantity(s, id, qty).0
    case CheckoutAction => Checkout(s).0
    case ProcessAction => ProcessNextOrder(s).0
  }

  /** The session after the actions `acts`, first to last. */
  function Run(s: Session, acts: seq<Action>): Session
    decreases |acts|
  {
    if |acts| == 0 then s else Run(Step(s, acts[0]), acts[1..])
  }

  /** What holds of every reachable session: one cart entry per product,
      an ordered category tree, order ids 1, 2, 3, ... in the history with
      the next one unused, only non-empty orders, and a queue holding the
      most recent orders of the history still waiting to be processed. */
  ghost predicate Wellformed(s: Session) {
    && UniqueIds(s.cart)
    && Ordered(s.categories)
    && s.nextOrderId == |s.history| + 1
    && (forall k :: 0 <= k < |s.history| ==> s.history[k].orderId == k + 1)
    && (forall k :: 0 <= k < |s.history| ==> |s.history[k].items| > 0)
    && |s.queue| <= |s.history|
    && s.queue == s.history[|s.history| - |s.queue|..]
  }

  lemma InitialWellformed()
    ensures Wellformed(Initial())
  {
  }

  lemma CheckoutKeepsWellformed(s: Session)
    requires Wellformed(s)
    ensures Wellformed(Checkout(s).0)
  {
    if |s.cart| > 0 {
      var s' := Checkout(s).0;
      assert s'.queue == s'.history[|s'.history| - |s'.queue|..];
    }
  }

  lemma ProcessNextOrderKeepsWellformed(s: Session)
    requires Wellformed(s)
    ensures Wellformed(ProcessNextOrder(s).0)
  {
    if |s.queue| > 0 {
      var s' := ProcessNextOrder(s).0;
      assert s'.queue == s'.history[|s'.history| - |s'.queue|..];
    }
  }

  lemma {:induction false} StepKeepsWellformed(s: Session, a: Action)
    requires Wellformed(s)
    ensures Wellformed(Step(s, a))
  {
    match a
    case AddAction(id, qty) =>
      if FindProduct(s.catalog, id).Some? {
        AddItemKeepsIdsUnique(s.cart, FindProduct(s.catalog, id).value, qty);
      }
    case UndoAction =>
      if !IsEmpty(s.undo) {
        RevertKeepsIdsUnique(s.cart, s.undo[0], s.undo[0].product.id);
      }
    case ClearAction =>
    case UpdateAction(id, qty) =>
      SetQuantityUnique(s.cart, id, qty, id);
    case CheckoutAction =>
      CheckoutKeepsWellformed(s);
    case ProcessAction =>
      ProcessNextOrderKeepsWellformed(s);
  }

  lemma {:induction false} RunKeepsWellformed(s: Session, acts: seq<Action>)
    requires Wellformed(s)
    ensures Wellformed(Run(s, acts))
    decreases |acts|
  {
    if |acts| > 0 {
      StepKeepsWellformed(s, acts[0]);
      RunKeepsWellformed(Step(s, acts[0]), acts[1..]);
    }
  }

  /** Order ids in a well-formed session: the history holds 1, 2, 3, ...
      in the order the orders were placed, the next checkout uses the id
      after the last one, and the queue serves orders in increasing id. */
  lemma WellformedOrderIds(s: Session)
    requires Wellformed(s)
    ensures forall i, j :: 0 <= i < j < |s.history| ==> s.history[i].orderId < s.history[j].orderId
    ensures forall k :: 0 <= k < |s.history| ==> s.history[k].orderId < s.nextOrderId
    ensures forall i, j :: 0 <= i < j < |s.queue| ==> s.queue[i].orderId < s.queue[j].orderId
  {
    var off := |s.history| - |s.queue|;
    assert forall k :: 0 <= k < |s.queue| ==> s.queue[k] == s.history[off + k];
  }

  /** Whatever the user does from a fresh session, the session stays
      well-formed: in particular order ids are 1, 2, 3, ... and never
      reused. */
  lemma ReachableWellformed(acts: seq<Action>)
    ensures Wellformed(Run(Initial(), acts))
  {
    InitialWellformed();
    RunKeepsWellformed(Initial(), acts);
  }

  /** A successful checkout of a well-formed session gives its order an id
      above every id already in the history; a refused one changes nothing,
      so it consumes no id. */
  lemma CheckoutIdIsFresh(s: Session)
    requires Wellformed(s)
    ensures |s.cart| == 0 ==> Checkout(s).0 == s
    ensures |s.cart| > 0 ==>
      var h := Checkout(s).0.history;
      && |h| == |s.history| + 1
      && forall k :: 0 <= k < |s.history| ==> s.history[k].orderId < h[|s.history|].orderId
  {
  }

  // ---------------------------------------------------------------------
  // Undo
  // ---------------------------------------------------------------------

  /** Adding a product that was not in the cart and undoing it gives back
      exactly the session before the add. */
  lemma UndoAfterAddOfNewProduct(s: Session, id: int, qty: int)
    requires FindProduct(s.catalog, id).Some? && !HasId(s.cart, id)
    ensures Undo(AddToCart(s, id, qty).0).0 == s
  {
    var p := FindProduct(s.catalog, id).value;
    var added := AddToCart(s, id, qty).0;
    assert added.cart == [Entry(p, qty)] + s.cart;
    assert DeleteById(added.cart, id).0 == s.cart;
  }

  /** Undoing an add of a product already in the cart does not take back the
      added units: it removes the product's whole entry, and leaves every
      other product, and the undo stack below, as they were. */
  lemma UndoAfterAddOfPresentProduct(s: Session, id: int, qty: int, x: int)
    requires UniqueIds(s.cart)
    requires FindProduct(s.catalog, id).Some? && HasId(s.cart, id)
    ensures var u := Undo(AddToCart(s, id, qty).0).0;
      && !HasId(u.cart, id)
      && (x != id ==> Quantity(u.cart, x) == Quantity(s.cart, x))
      && u.undo == s.undo
      && SameExceptCartAndUndo(s, u)
  {
    var p := FindProduct(s.catalog, id).value;
    var added := AddToCart(s, id, qty).0;
    AddItemKeepsIdsUnique(s.cart, p, qty);
    AddItemQuantity(s.cart, p, qty, x);
    DeleteByIdUnique(added.cart, id, x);
  }

  /** The worked case: with five phones in the cart, adding two more and
      undoing leaves no phone at all. */
  lemma UndoAfterAddExample()
    ensures var phone := Initial().catalog[0];
      var s := Initial().(cart := [Entry(phone, 5)]);
      !HasId(Undo(AddToCart(s, 1, 2).0).0.cart, 1)
  {
    var phone := Initial().catalog[0];
    var s := Initial().(cart := [Entry(phone, 5)]);
    assert s.cart[0].product.id == 1;
    UndoAfterAddOfPresentProduct(s, 1, 2, 1);
  }

  /** Undoing a quantity update. The old quantity comes back exactly when
      both the old and the new quantity are positive. When the update
      removed the entry (new quantity zero or less) the replayed
      `setQuantity` finds no entry and cannot bring it back; when the old
      quantity was itself not positive, replaying it removes the entry. */
  lemma UndoAfterUpdate(s: Session, id: int, newQty: int)
    requires UniqueIds(s.cart) && HasId(s.cart, id)
    ensures var e := s.cart[Find(s.cart, id).value];
      var u := Undo(UpdateQuantity(s, id, newQty).0).0;
      && u.undo == s.undo
      && SameExceptCartAndUndo(s, u)
      && (newQty > 0 && e.qty > 0 ==> u == s)
      && (newQty <= 0 || e.qty <= 0 ==> u.cart == DeleteById(s.cart, id).0)
  {
    var i := Find(s.cart, id).value;
    var e := s.cart[i];
    var c' := UpdateQuantity(s, id, newQty).0.cart;
    if newQty > 0 {
      assert c' == s.cart[i := Entry(e.product, newQty)];
      assert Find(c', id) == Some(i);
      if e.qty > 0 {
        assert SetQuantity(c', id, e.qty) == s.cart;
      } else {
        assert c'[..i] + c'[i + 1..] == s.cart[..i] + s.cart[i + 1..];
      }
    } else {
      DeleteByIdUnique(s.cart, id, id);
    }
  }

  /** The worked cases: five phones updated to two and undone gives five
      phones again; updated to zero and undone gives no phone. */
  lemma UndoAfterUpdateExample()
    ensures var phone := Initial().catalog[0];
      var s := Initial().(cart := [Entry(phone, 5)]);
      && Undo(UpdateQuantity(s, 1, 2).0).0.cart == [Entry(phone, 5)]
      && !HasId(Undo(UpdateQuantity(s, 1, 0).0).0.cart, 1)
  {
    var phone := Initial().catalog[0];
    var s := Initial().(cart := [Entry(phone, 5)]);
    assert s.cart[0].product.id == 1;
    UndoAfterUpdate(s, 1, 2);
    UndoAfterUpdate(s, 1, 0);
  }

  /** Checkout leaves the undo stack alone, so undo after a checkout reverts
      a stale record against the emptied cart, which stays empty. */
  lemma UndoAfterCheckout(s: Session)
    requires |s.cart| > 0 && !IsEmpty(s.undo)
    ensures var u := Undo(Checkout(s).0);
      u.1 == Done && |u.0.cart| == 0 && u.0.undo == s.undo[1..]
  {
  }

  // ---------------------------------------------------------------------
  // Quantities
  // ---------------------------------------------------------------------

  /** `addItem` with the same product once per quantity in `qs`. */
  function AddAll(c: Cart, p: Product, qs: seq<int>): Cart
    decreases |qs|
  {
    if |qs| == 0 then c else AddAll(AddItem(c, p, qs[0]), p, qs[1..])
  }

  function Sum(qs: seq<int>): int
    decreases |qs|
  {
    if |qs| == 0 then 0 else qs[0] + Sum(qs[1..])
  }

  /** Adding one product repeatedly keeps a single entry for it, whose
      quantity is what it held before plus the sum of the added quantities;
      no other product's units change. */
  lemma {:induction false} RepeatedAddsMerge(c: Cart, p: Product, qs: seq<int>, x: int)
    requires UniqueIds(c)
    ensures UniqueIds(AddAll(c, p, qs))
    ensures |qs| > 0 ==> HasId(AddAll(c, p, qs), p.id)
    ensures Quantity(AddAll(c, p, qs), x) == Quantity(c, x) + (if x == p.id then Sum(qs) else 0)
    ensures forall i :: 0 <= i < |AddAll(c, p, qs)| && AddAll(c, p, qs)[i].product.id == p.id ==>
      AddAll(c, p, qs)[i].qty == Quantity(c, p.id) + Sum(qs)
    decreases |qs|
  {
    var r := AddAll(c, p, qs);
    if |qs| > 0 {
      var c1 := AddItem(c, p, qs[0]);
      AddItemKeepsIdsUnique(c, p, qs[0]);
      AddItemQuantity(c, p, qs[0], x);
      AddItemQuantity(c, p, qs[0], p.id);
      RepeatedAddsMerge(c1, p, qs[1..], x);
      if |qs| > 1 {
        assert HasId(r, p.id);
      } else {
        assert r == c1;
      }
    }
    forall i | 0 <= i < |r| && r[i].product.id == p.id
      ensures r[i].qty == Quantity(c, p.id) + Sum(qs)
    {
      RepeatedAddsMergeQuantity(c, p, qs);
      QuantityOfUniqueEntry(r, i);
    }
  }

  lemma {:induction false} RepeatedAddsMergeQuantity(c: Cart, p: Product, qs: seq<int>)
    requires UniqueIds(c)
    ensures UniqueIds(AddAll(c, p, qs))
    ensures Quantity(AddAll(c, p, qs), p.id) == Quantity(c, p.id) + Sum(qs)
    decreases |qs|
  {
    if |qs| > 0 {
      AddItemKeepsIdsUnique(c, p, qs[0]);
      AddItemQuantity(c, p, qs[0], p.id);
      RepeatedAddsMergeQuantity(AddItem(c, p, qs[0]), p, qs[1..]);
    }
  }

  /** Every cart quantity is positive, and so is every old quantity an
      undo record would restore. */
  ghost predicate PositiveQuantities(s: Session) {
    && AllPositive(s.cart)
    && (forall k :: 0 <= k < |s.undo| && s.undo[k].SetRecord? ==> s.undo[k].qty > 0)
  }

  lemma UndoKeepsPositiveQuantities(s: Session)
    requires PositiveQuantities(s)
    ensures PositiveQuantities(Undo(s).0)
  {
    if !IsEmpty(s.undo) {
      match s.undo[0]
      case AddRecord(p, _) => DeleteByIdKeepsPositive(s.cart, p.id);
      case SetRecord(p, q) => SetQuantityKeepsPositive(s.cart, p.id, q);
    }
  }

  lemma UpdateKeepsPositiveQuantities(s: Session, id: int, qty: int)
    requires PositiveQuantities(s)
    ensures PositiveQuantities(UpdateQuantity(s, id, qty).0)
  {
    SetQuantityKeepsPositive(s.cart, id, qty);
  }

  /** Positive quantities are kept by every action as long as every add uses
      a positive quantity. */
  lemma StepKeepsPositiveQuantities(s: Session, a: Action)
    requires PositiveQuantities(s)
    requires a.AddAction? ==> a.qty > 0
    ensures PositiveQuantities(Step(s, a))
  {
    match a
    case AddAction(id, qty) =>
    case UndoAction => UndoKeepsPositiveQuantities(s);
    case ClearAction =>
    case UpdateAction(id, qty) => UpdateKeepsPositiveQuantities(s, id, qty);
    case CheckoutAction =>
    case ProcessAction =>
  }

  /** `addToCart` does not validate the quantity, so a single add of zero
      units puts an entry with quantity 0 in the cart. */
  lemma AddOfZeroBreaksPositiveQuantities()
    ensures PositiveQuantities(Initial())
    ensures !PositiveQuantities(AddToCart(Initial(), 1, 0).0)
  {
    var s := AddToCart(Initial(), 1, 0).0;
    assert s.cart[0].qty == 0;
  }
}

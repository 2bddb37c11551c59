/** The undo history (`UndoStack` in DSA.cpp): a stack of records, each
    enough to reverse one cart mutation. The stack is a sequence whose
    index 0 is the top node.

    The source tags records with the strings "ADD" and "SET"; here the tag
    is a two-case datatype. Only those two strings are ever pushed, so the
    source's fall-through for any other tag has no counterpart. */
module UndoLog {
  import opened Wrappers
  import opened Cart

  datatype Record =
    | AddRecord(product: Product, qty: int)   // pushed by `addToCart`
    | SetRecord(product: Product, qty: int)   // pushed by `updateQuantity`; `qty` is the old quantity

  type Stack = seq<Record>

  /** `isEmpty`. */
  predicate IsEmpty(s: Stack): (r: bool)
    ensures r <==> s == []
  {
    |s| == 0
  }

  /** `push`: the new record becomes the top; the rest of the stack is
      kept below it. */
  function Push(s: Stack, rec: Record): (r: Stack)
    ensures |r| == |s| + 1 && r[0] == rec && r[1..] == s
  {
    [rec] + s
  }

  /** `pop`: the top record and the stack below it, or None on an empty
      stack. */
  function Pop(s: Stack): (r: Option<(Record, Stack)>)
    ensures r.None? <==> IsEmpty(s)
    ensures r.Some? ==> Push(r.value.1, r.value.0) == s
    ensures r.Some? ==> |r.value.1| == |s| - 1
  {
    if |s| == 0 then None else Some((s[0], s[1..]))
  }

  /** The cart-side effect of undoing one record in `ECommerce::undo`: an
      "ADD" unlinks the product's whole entry, whatever its quantity now; a
      "SET" replays `setQuantity` with the recorded old quantity. */
  function Revert(c: Cart, rec: Record): (r: Cart)
    ensures rec.AddRecord? ==> !DeleteById(c, rec.product.id).1 ==> r == c
    ensures rec.SetRecord? ==> !HasId(c, rec.product.id) ==> r == c
    ensures |r| <= |c|
    ensures HasId(c, rec.product.id) && (rec.AddRecord? || rec.qty <= 0) ==>
      var i := Find(c, rec.product.id).value;
      r == c[..i] + c[i + 1..]
    ensures HasId(c, rec.product.id) && rec.SetRecord? && rec.qty > 0 ==>
      var i := Find(c, rec.product.id).value;
      |r| == |c| && r[i] == Entry(c[i].product, rec.qty) &&
      forall j :: 0 <= j < |c| && j != i ==> r[j] == c[j]
  {
    var id := rec.product.id;
    if rec.AddRecord? then DeleteById(c, id).0 else SetQuantity(c, id, rec.qty)
  }

  /** Last in, first out: the record pushed last is the one popped first,
      and popping it gives back the stack as it was before the push. */
  lemma PopAfterPush(s: Stack, rec: Record)
    ensures Pop(Push(s, rec)) == Some((rec, s))
  {
  }

  /** Reverting on a cart with unique ids keeps the ids unique. An "ADD"
      reversal leaves no units of its product at all; a "SET" reversal
      leaves the recorded quantity if the product is present and that
      quantity is positive, and none otherwise. No other product changes. */
  lemma RevertKeepsIdsUnique(c: Cart, rec: Record, x: int)
    requires UniqueIds(c)
    ensures UniqueIds(Revert(c, rec))
    ensures rec.AddRecord? ==> !HasId(Revert(c, rec), rec.product.id)
    ensures Quantity(Revert(c, rec), x) ==
      if x != rec.product.id then Quantity(c, x)
      else if rec.SetRecord? && HasId(c, x) && rec.qty > 0 then rec.qty
      else 0
  {
    match rec
    case AddRecord(p, _) => DeleteByIdUnique(c, p.id, x);
    case SetRecord(p, q) => SetQuantityUnique(c, p.id, q, x);
  }
}

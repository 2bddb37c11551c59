/** The shopping cart of one session (`CartLinkedList` in DSA.cpp) and the
    catalogue lookup that feeds it.

    The singly linked list is modelled as a sequence read from the head:
    index 0 is the head node. `getItems` walks the list from the head, so the
    sequence itself is the snapshot it returns, newest entry first; being a
    value, a snapshot cannot be changed by later cart operations. */
module Cart {
  import opened Wrappers

  /** A catalogue item; copied by value into cart entries and orders. */
  datatype Product = Product(id: int, name: string, price: real, category: string)

  /** One list node: a product and its quantity. The cart never validates
      quantities, so an entry may hold zero or a negative quantity. */
  datatype Entry = Entry(product: Product, qty: int)

  type Cart = seq<Entry>

  /** Some entry of `c` carries product id `id`. */
  ghost predicate HasId(c: Cart, id: int) {
    exists i :: 0 <= i < |c| && c[i].product.id == id
  }

  /** No two entries of `c` share a product id. */
  ghost predicate UniqueIds(c: Cart) {
    forall i, j :: 0 <= i < j < |c| ==> c[i].product.id != c[j].product.id
  }

  /** The units of product `id` that entry `e` holds. */
  function Units(e: Entry, id: int): int {
    if e.product.id == id then e.qty else 0
  }

  /** Total units of product `id` over all entries of `c`: an order-blind
      view of the cart against which the list operations are stated. */
  ghost function Quantity(c: Cart, id: int): int {
    if |c| == 0 then 0 else Units(c[0], id) + Quantity(c[1..], id)
  }

  /** `search`: the position of the first entry, from the head, whose
      product has id `id`; None when there is none. */
  function Find(c: Cart, id: int): (r: Option<nat>)
    ensures r.None? <==> !HasId(c, id)
    ensures r.Some? ==> r.value < |c| && c[r.value].product.id == id
    ensures r.Some? ==> forall j :: 0 <= j < r.value ==> c[j].product.id != id
  {
    if |c| == 0 then None
    else if c[0].product.id == id then Some(0)
    else
      match Find(c[1..], id)
      case None =>
        assert forall j :: 1 <= j < |c| ==> c[j] == c[1..][j - 1];
        None
      case Some(i) =>
        assert forall j :: 1 <= j < i + 1 ==> c[j] == c[1..][j - 1];
        Some(i + 1)
  }

  /** `insertAtBeginning` followed by the bump in `addItem`: a product
      already in the cart gets `q` more units on its first entry; any other
      product becomes a new head entry. */
  function AddItem(c: Cart, p: Product, q: int): (r: Cart)
    ensures HasId(c, p.id) ==> |r| == |c|
    ensures HasId(c, p.id) ==> forall j :: 0 <= j < |c| ==> r[j].product == c[j].product
    ensures !HasId(c, p.id) ==> |r| == |c| + 1 && r[0] == Entry(p, q) && r[1..] == c
  {
    match Find(c, p.id)
    case None => [Entry(p, q)] + c
    case Some(i) => c[i := Entry(c[i].product, c[i].qty + q)]
  }

  /** `deleteById`: unlinks the first entry with id `id`, reporting whether
      there was one. */
  function DeleteById(c: Cart, id: int): (r: (Cart, bool))
    ensures r.1 <==> HasId(c, id)
    ensures r.1 ==> var i := Find(c, id).value; r.0 == c[..i] + c[i + 1..]
    ensures !r.1 ==> r.0 == c
  {
    if |c| == 0 then (c, false)
    else if c[0].product.id == id then
      assert c[..0] + c[1..] == c[1..];
      (c[1..], true)
    else
      var rest := DeleteById(c[1..], id);
      FindInTail(c, id);
      if rest.1 then
        var i := Find(c[1..], id).value;
        DeleteShiftsIndex(c, i);
        ([c[0]] + rest.0, true)
      else
        assert [c[0]] + c[1..] == c;
        ([c[0]] + rest.0, false)
  }

  /** When the head does not match, the search continues in the tail, one
      position further on. */
  lemma FindInTail(c: Cart, id: int)
    requires |c| > 0 && c[0].product.id != id
    ensures HasId(c, id) <==> HasId(c[1..], id)
    ensures HasId(c, id) ==> Find(c, id) == Some(Find(c[1..], id).value + 1)
  {
  }

  /** Unlinking position `i + 1` of `c` keeps the head and unlinks position
      `i` of the tail. */
  lemma DeleteShiftsIndex(c: Cart, i: nat)
    requires i + 1 < |c|
    ensures c[..i + 1] + c[i + 2..] == [c[0]] + (c[1..][..i] + c[1..][i + 1..])
  {
  }

  /** `setQuantity`: no effect when `id` is absent; a quantity of zero or
      less unlinks the entry, any other quantity replaces the first entry's
      quantity. */
  function SetQuantity(c: Cart, id: int, qty: int): (r: Cart)
    ensures !HasId(c, id) ==> r == c
    ensures HasId(c, id) && qty <= 0 ==> r == DeleteById(c, id).0 && |r| == |c| - 1
    ensures HasId(c, id) && qty > 0 ==> |r| == |c|
    ensures HasId(c, id) && qty > 0 ==>
      forall j :: 0 <= j < |c| ==> r[j].product == c[j].product
    ensures HasId(c, id) && qty > 0 ==>
      var i := Find(c, id).value;
      r[i].qty == qty && forall j :: 0 <= j < |c| && j != i ==> r[j] == c[j]
  {
    match Find(c, id)
    case None => c
    case Some(i) =>
      if qty <= 0 then DeleteById(c, id).0
      else c[i := Entry(c[i].product, qty)]
  }

  /** The lookup loop of `addToCart`: the first catalogue product with id
      `id`, if any. */
  function FindProduct(catalog: seq<Product>, id: int): (r: Option<Product>)
    ensures r.None? <==> forall k :: 0 <= k < |catalog| ==> catalog[k].id != id
    ensures r.Some? ==> r.value.id == id && r.value in catalog
    ensures r.Some? ==> exists k :: 0 <= k < |catalog| && catalog[k] == r.value &&
                                 forall j :: 0 <= j < k ==> catalog[j].id != id
  {
    if |catalog| == 0 then None
    else if catalog[0].id == id then Some(catalog[0])
    else
      var r := FindProduct(catalog[1..], id);
      assert forall j :: 1 <= j < |catalog| ==> catalog[j] == catalog[1..][j - 1];
      r
  }

  // ---------------------------------------------------------------------
  // The quantity view
  // ---------------------------------------------------------------------

  /** Replacing one entry changes the units of `x` by exactly that entry's
      contribution. */
  lemma {:induction false} QuantityUpdate(c: Cart, i: nat, e: Entry, x: int)
    requires i < |c|
    ensures Quantity(c[i := e], x) == Quantity(c, x) - Units(c[i], x) + Units(e, x)
  {
    if i == 0 {
      assert c[i := e][1..] == c[1..];
    } else {
      assert c[i := e][1..] == c[1..][i - 1 := e];
      QuantityUpdate(c[1..], i - 1, e, x);
    }
  }

  /** Unlinking one entry removes exactly that entry's units of `x`. */
  lemma {:induction false} QuantityRemove(c: Cart, i: nat, x: int)
    requires i < |c|
    ensures Quantity(c[..i] + c[i + 1..], x) == Quantity(c, x) - Units(c[i], x)
  {
    if i == 0 {
      assert c[..0] + c[1..] == c[1..];
    } else {
      var rest := c[1..];
      var d := c[..i] + c[i + 1..];
      assert d[0] == c[0];
      assert d[1..] == rest[..i - 1] + rest[i..];
      QuantityRemove(rest, i - 1, x);
    }
  }

  /** A product with no entry has no units. */
  lemma {:induction false} QuantityAbsent(c: Cart, x: int)
    requires !HasId(c, x)
    ensures Quantity(c, x) == 0
  {
    if |c| > 0 {
      assert !HasId(c[1..], x) by {
        forall k | 0 <= k < |c[1..]|
          ensures c[1..][k].product.id != x
        {
          assert c[1..][k] == c[k + 1];
        }
      }
      QuantityAbsent(c[1..], x);
    }
  }

  /** In a cart with unique ids the units of a product are the quantity of
      its one entry. */
  lemma {:induction false} QuantityOfUniqueEntry(c: Cart, i: nat)
    requires UniqueIds(c) && i < |c|
    ensures Quantity(c, c[i].product.id) == c[i].qty
  {
    var rest := c[1..];
    assert UniqueIds(rest) by {
      forall a, b | 0 <= a < b < |rest|
        ensures rest[a].product.id != rest[b].product.id
      {
        assert rest[a] == c[a + 1] && rest[b] == c[b + 1];
      }
    }
    if i == 0 {
      assert !HasId(rest, c[0].product.id) by {
        forall k | 0 <= k < |rest|
          ensures rest[k].product.id != c[0].product.id
        {
          assert rest[k] == c[k + 1];
        }
      }
      QuantityAbsent(rest, c[0].product.id);
    } else {
      assert rest[i - 1] == c[i];
      QuantityOfUniqueEntry(rest, i - 1);
    }
  }

  /** `addItem` adds `q` units of `p` and leaves every other product's units
      as they were, whatever the cart looks like. */
  lemma AddItemQuantity(c: Cart, p: Product, q: int, x: int)
    ensures Quantity(AddItem(c, p, q), x) == Quantity(c, x) + (if x == p.id then q else 0)
  {
    match Find(c, p.id)
    case None =>
      assert ([Entry(p, q)] + c)[1..] == c;
    case Some(i) =>
      QuantityUpdate(c, i, Entry(c[i].product, c[i].qty + q), x);
  }

  /** `addItem` never creates a second entry for a product. */
  lemma AddItemKeepsIdsUnique(c: Cart, p: Product, q: int)
    requires UniqueIds(c)
    ensures UniqueIds(AddItem(c, p, q))
    ensures HasId(AddItem(c, p, q), p.id)
  {
    var r := AddItem(c, p, q);
    if !HasId(c, p.id) {
      assert r[0].product.id == p.id;
      forall i, j | 0 <= i < j < |r|
        ensures r[i].product.id != r[j].product.id
      {
        assert r[j] == c[j - 1];
        if i > 0 {
          assert r[i] == c[i - 1];
        }
      }
    } else {
      var i := Find(c, p.id).value;
      assert r[i].product.id == p.id;
    }
  }

  /** Unlinking position `i` keeps the entries before it in place and
      moves every later entry up one position. */
  lemma SliceShift(c: Cart, i: nat)
    requires i < |c|
    ensures var r := c[..i] + c[i + 1..];
      && |r| == |c| - 1
      && (forall k :: 0 <= k < i ==> r[k] == c[k])
      && (forall k :: i <= k < |r| ==> r[k] == c[k + 1])
  {
  }

  /** Unlinking from a cart with unique ids removes the product completely
      and leaves every other product's units and uniqueness intact. */
  lemma DeleteByIdUnique(c: Cart, id: int, x: int)
    requires UniqueIds(c)
    ensures UniqueIds(DeleteById(c, id).0)
    ensures !HasId(DeleteById(c, id).0, id)
    ensures Quantity(DeleteById(c, id).0, x) == (if x == id then 0 else Quantity(c, x))
  {
    var r := DeleteById(c, id).0;
    if HasId(c, id) {
      var i := Find(c, id).value;
      SliceShift(c, i);
      assert UniqueIds(r) by {
        forall a, b | 0 <= a < b < |r|
          ensures r[a].product.id != r[b].product.id
        {
          var a' := if a < i then a else a + 1;
          var b' := if b < i then b else b + 1;
          assert r[a] == c[a'] && r[b] == c[b'] && a' < b';
        }
      }
      assert !HasId(r, id) by {
        forall k | 0 <= k < |r|
          ensures r[k].product.id != id
        {
          var k' := if k < i then k else k + 1;
          assert r[k] == c[k'] && k' != i;
        }
      }
      QuantityRemove(c, i, x);
      if x == id {
        QuantityAbsent(r, id);
      }
    } else {
      QuantityAbsent(c, id);
    }
  }

  /** Every entry holds at least one unit. */
  ghost predicate AllPositive(c: Cart) {
    forall k :: 0 <= k < |c| ==> c[k].qty > 0
  }

  /** Unlinking keeps quantities positive. */
  lemma DeleteByIdKeepsPositive(c: Cart, id: int)
    requires AllPositive(c)
    ensures AllPositive(DeleteById(c, id).0)
  {
    if HasId(c, id) {
      var i := Find(c, id).value;
      var r := DeleteById(c, id).0;
      SliceShift(c, i);
      forall k | 0 <= k < |r|
        ensures r[k].qty > 0
      {
        assert r[k] == c[if k < i then k else k + 1];
      }
    }
  }

  /** `setQuantity` keeps quantities positive whatever quantity it is given,
      since zero or less removes the entry instead of storing it. */
  lemma SetQuantityKeepsPositive(c: Cart, id: int, qty: int)
    requires AllPositive(c)
    ensures AllPositive(SetQuantity(c, id, qty))
  {
    if HasId(c, id) && qty <= 0 {
      DeleteByIdKeepsPositive(c, id);
    }
  }

  /** Setting a quantity on a cart with unique ids: the product ends up with
      exactly the new quantity (none when it is not positive) if it was
      present, stays absent if it was not, and no other product changes. */
  lemma SetQuantityUnique(c: Cart, id: int, qty: int, x: int)
    requires UniqueIds(c)
    ensures UniqueIds(SetQuantity(c, id, qty))
    ensures HasId(SetQuantity(c, id, qty), id) <==> HasId(c, id) && qty > 0
    ensures Quantity(SetQuantity(c, id, qty), x) ==
      (if x != id then Quantity(c, x) else if HasId(c, id) && qty > 0 then qty else 0)
  {
    var r := SetQuantity(c, id, qty);
    if !HasId(c, id) {
      QuantityAbsent(c, id);
    } else if qty <= 0 {
      DeleteByIdUnique(c, id, x);
    } else {
      var i := Find(c, id).value;
      assert r == c[i := Entry(c[i].product, qty)];
      assert r[i].product.id == id;
      QuantityUpdate(c, i, Entry(c[i].product, qty), x);
      if x == id {
        QuantityOfUniqueEntry(c, i);
      }
    }
  }
}

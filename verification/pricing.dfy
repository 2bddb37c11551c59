/** The special-offer pricing of `ECommerce::applySpecialOffers`.

    Prices are exact reals: the source computes in IEEE doubles, and no
    rounding is modelled. The rules, in the order the source applies them:
    per line a "buy two, get one free" bundle for Clothes, then 10% off any
    line of three or more units; over the order 5% off a sum strictly above
    50000; last, a delivery charge of 200 when the result is at most 20000. */
module Pricing {
  import opened Cart

  const BundleCategory: string := "Clothes"
  const BulkMinQty: int := 3
  const BulkFactor: real := 0.9
  const LargeOrderThreshold: real := 50000.0
  const LargeOrderFactor: real := 0.95
  const FreeDeliveryAbove: real := 20000.0
  const DeliveryCharge: real := 200.0

  /** The free units of a Clothes line, `qty / 3` in C++: integer division
      that truncates toward zero, so a negative quantity gets a non-positive
      number of free units rather than Dafny's floor. */
  function FreeUnits(qty: int): (r: int)
    ensures 0 <= qty ==> 0 <= 3 * r <= qty < 3 * r + 3
    ensures qty < 0 ==> 3 * r - 3 < qty <= 3 * r <= 0
  {
    if qty >= 0 then qty / 3 else -((-qty) / 3)
  }

  /** The units a line is charged for before any percentage discount. */
  function PayableUnits(e: Entry): (r: int)
    ensures e.product.category != BundleCategory ==> r == e.qty
    ensures e.qty >= 0 ==> 0 <= r <= e.qty
    ensures 0 <= e.qty < BulkMinQty ==> r == e.qty
    ensures e.qty >= 0 && e.product.category == BundleCategory ==> 2 * e.qty <= 3 * r < 2 * e.qty + 3
  {
    if e.product.category == BundleCategory then e.qty - FreeUnits(e.qty) else e.qty
  }

  /** One line's price: bundle first, then the bulk discount. */
  function LinePrice(e: Entry): (r: real)
    ensures e.qty < BulkMinQty ==> r == e.product.price * (PayableUnits(e) as real)
    ensures 0 <= e.qty < BulkMinQty ==> r == e.product.price * (e.qty as real)
    ensures e.qty >= BulkMinQty ==> r == e.product.price * (PayableUnits(e) as real) * BulkFactor
  {
    var base := e.product.price * (PayableUnits(e) as real);
    if e.qty >= BulkMinQty then base * BulkFactor else base
  }

  /** The lines summed in list order (the last line is added last). */
  function Subtotal(items: seq<Entry>): (r: real)
    ensures |items| == 1 ==> r == LinePrice(items[0])
    ensures NonNegativeLines(items) ==> 0.0 <= r
  {
    if |items| == 0 then 0.0
    else
      var last := items[|items| - 1];
      LinePriceBounds(last);
      Subtotal(items[..|items| - 1]) + LinePrice(last)
  }

  /** Every line has a non-negative price and quantity. */
  ghost predicate NonNegativeLines(items: seq<Entry>) {
    forall k :: 0 <= k < |items| ==> items[k].product.price >= 0.0 && items[k].qty >= 0
  }

  /** The order-level steps applied to the summed lines. */
  function Finalize(sum: real): (r: real)
    ensures sum > LargeOrderThreshold ==> r == sum * LargeOrderFactor
    ensures FreeDeliveryAbove < sum <= LargeOrderThreshold ==> r == sum
    ensures sum <= FreeDeliveryAbove ==> r == sum + DeliveryCharge
  {
    var discounted := if sum > LargeOrderThreshold then sum * LargeOrderFactor else sum;
    if discounted <= FreeDeliveryAbove then discounted + DeliveryCharge else discounted
  }

  /** The total `applySpecialOffers` returns for a cart snapshot. */
  function OrderTotal(items: seq<Entry>): (r: real)
    ensures NonNegativeLines(items) ==>
      LargeOrderFactor * Subtotal(items) <= r <= Subtotal(items) + DeliveryCharge
    ensures |items| == 0 ==> r == DeliveryCharge
  {
    Finalize(Subtotal(items))
  }

  /** The body of the loop in `applySpecialOffers`: one line's price,
      computed step by step as the source does. */
  method PriceLine(e: Entry) returns (price: real)
    ensures price == LinePrice(e)
  {
    var qty := e.qty;
    price := e.product.price;
    if e.product.category == BundleCategory {
      var freeItems := FreeUnits(qty);
      var payableQty := qty - freeItems;
      price := price * (payableQty as real);
    } else {
      price := price * (qty as real);
    }
    if qty >= BulkMinQty {
      price := price * BulkFactor;
    }
  }

  /** `applySpecialOffers` as the source writes it: one pass over the lines
      accumulating a running total, then the two order-level adjustments. */
  method ApplySpecialOffers(items: seq<Entry>) returns (total: real)
    ensures total == OrderTotal(items)
  {
    total := 0.0;
    var i := 0;
    while i < |items|
      invariant 0 <= i <= |items|
      invariant total == Subtotal(items[..i])
    {
      var price := PriceLine(items[i]);
      assert items[..i + 1][..i] == items[..i];
      total := total + price;
      i := i + 1;
    }
    assert items[..i] == items;
    ghost var sum := total;
    if total > LargeOrderThreshold {
      total := total * LargeOrderFactor;
    }
    if total <= FreeDeliveryAbove {
      total := total + DeliveryCharge;
    }
    assert total == Finalize(sum);
  }

  // ---------------------------------------------------------------------
  // Line rules
  // ---------------------------------------------------------------------

  /** For a non-negative quantity the Clothes bundle charges for two units
      of every three: the payable units are the quantity times 2/3, rounded
      up. Other categories pay for every unit. */
  lemma BundlePaysTwoOfThree(e: Entry)
    requires e.qty >= 0
    ensures e.product.category == BundleCategory ==>
      2 * e.qty <= 3 * PayableUnits(e) < 2 * e.qty + 3
    ensures e.product.category != BundleCategory ==> PayableUnits(e) == e.qty
  {
  }

  /** A line with a non-negative price and quantity costs between nothing
      and its undiscounted price, and at most 90% of it from three units up. */
  lemma LinePriceBounds(e: Entry)
    ensures e.product.price >= 0.0 && e.qty >= 0 ==>
      0.0 <= LinePrice(e) <= e.product.price * (e.qty as real)
    ensures e.product.price >= 0.0 && e.qty >= BulkMinQty ==>
      LinePrice(e) <= BulkFactor * e.product.price * (e.qty as real)
  {
    if e.product.price >= 0.0 && e.qty >= 0 {
      var base := e.product.price * (PayableUnits(e) as real);
      var full := e.product.price * (e.qty as real);
      BaseBounds(e);
      assert 0.0 <= base <= full;
      if e.qty >= BulkMinQty {
        BulkBounds(base, full);
      }
    }
  }

  /** Paying for at most the units taken costs between nothing and the
      undiscounted price. */
  lemma BaseBounds(e: Entry)
    requires e.product.price >= 0.0 && e.qty >= 0
    ensures 0.0 <= e.product.price * (PayableUnits(e) as real) <= e.product.price * (e.qty as real)
  {
    var u := PayableUnits(e);
    assert 0 <= u <= e.qty;
    MulMonotone(e.product.price, u as real, e.qty as real);
  }

  /** Taking 10% off a base that is at most the full price keeps it
      between nothing and 90% of the full price. */
  lemma BulkBounds(base: real, full: real)
    requires 0.0 <= base <= full
    ensures 0.0 <= base * BulkFactor <= base
    ensures base * BulkFactor <= BulkFactor * full
  {
  }

  lemma MulMonotone(a: real, x: real, y: real)
    requires 0.0 <= a && 0.0 <= x <= y
    ensures 0.0 <= a * x <= a * y
  {
  }

  /** The two worked line examples: three T-shirts at 1500 pay for two and
      then get 10% off; three phones at 30000 only get the 10%. */
  lemma LinePriceExamples()
    ensures LinePrice(Entry(Product(3, "T-Shirt", 1500.0, "Clothes"), 3)) == 2700.0
    ensures LinePrice(Entry(Product(1, "Phone", 30000.0, "Electronics"), 3)) == 81000.0
  {
  }

  // ---------------------------------------------------------------------
  // Order rules
  // ---------------------------------------------------------------------

  /** The thresholds are exact: 60000 becomes 57000 with free delivery,
      exactly 50000 gets no discount, 1500 pays 200 delivery, and exactly
      20000 still pays it. */
  lemma FinalizeExamples()
    ensures Finalize(60000.0) == 57000.0
    ensures Finalize(50000.0) == 50000.0
    ensures Finalize(1500.0) == 1700.0
    ensures Finalize(20000.0) == 20200.0
  {
  }

  /** For a non-negative sum the total never drops below 95% of it and never
      exceeds it by more than the delivery charge. */
  lemma FinalizeBounds(sum: real)
    requires sum >= 0.0
    ensures LargeOrderFactor * sum <= Finalize(sum) <= sum + DeliveryCharge
    ensures Finalize(sum) > 0.0
  {
  }

  /** Both thresholds are cliffs: one unit more in the summed lines can make
      the order cheaper, because the discount and the free delivery switch
      on all at once. */
  lemma FinalizeNotMonotone()
    ensures Finalize(50001.0) < Finalize(50000.0)
    ensures Finalize(20001.0) < Finalize(20000.0)
  {
  }

  // ---------------------------------------------------------------------
  // The order of lines does not matter
  // ---------------------------------------------------------------------

  /** Summing two runs of lines is summing each. */
  lemma {:induction false} SubtotalAppend(a: seq<Entry>, b: seq<Entry>)
    ensures Subtotal(a + b) == Subtotal(a) + Subtotal(b)
  {
    if |b| > 0 {
      assert (a + b)[..|a + b| - 1] == a + b[..|b| - 1];
      SubtotalAppend(a, b[..|b| - 1]);
    } else {
      assert a + b == a;
    }
  }

  /** Taking one line out of a run removes its price from the subtotal. */
  lemma SubtotalRemove(pre: seq<Entry>, x: Entry, post: seq<Entry>)
    ensures Subtotal(pre + [x] + post) == Subtotal(pre + post) + LinePrice(x)
  {
    SubtotalAppend(pre + [x], post);
    SubtotalAppend(pre, [x]);
    SubtotalAppend(pre, post);
    assert Subtotal([x]) == LinePrice(x);
  }

  /** Taking one line out of a run removes one copy of it from its multiset. */
  lemma MultisetRemove(b: seq<Entry>, k: int)
    requires 0 <= k < |b|
    ensures multiset(b[..k] + b[k + 1..]) == multiset(b) - multiset{b[k]}
  {
    assert b == b[..k] + [b[k]] + b[k + 1..];
    assert multiset(b) == multiset(b[..k]) + multiset{b[k]} + multiset(b[k + 1..]);
  }

  /** Pricing ignores the order of the cart's lines: any rearrangement of
      the same lines has the same subtotal. */
  lemma {:induction false} SubtotalIgnoresLineOrder(a: seq<Entry>, b: seq<Entry>)
    requires multiset(a) == multiset(b)
    ensures Subtotal(a) == Subtotal(b)
    decreases |a|
  {
    if |a| > 0 {
      var n := |a| - 1;
      var x := a[n];
      assert x in multiset(b) by {
        assert x in multiset(a);
      }
      var k :| 0 <= k < |b| && b[k] == x;
      MultisetRemove(a, n);
      MultisetRemove(b, k);
      assert a[..n] + a[n + 1..] == a[..n];
      SubtotalIgnoresLineOrder(a[..n], b[..k] + b[k + 1..]);
      assert b == b[..k] + [x] + b[k + 1..];
      SubtotalRemove(b[..k], x, b[k + 1..]);
    } else {
      assert |b| == |multiset(b)| == 0;
    }
  }

  /** Hence the total does not depend on line order either, so the
      newest-first order of the snapshot has no effect on what is paid. */
  lemma OrderTotalIgnoresLineOrder(a: seq<Entry>, b: seq<Entry>)
    requires multiset(a) == multiset(b)
    ensures OrderTotal(a) == OrderTotal(b)
  {
    SubtotalIgnoresLineOrder(a, b);
  }
}

/** The last block of the `calculation` view: every product row of the deal
    gets the percent of its nomenclature group, then, when the per-product
    program is on, the per-product percent if that one is strictly larger;
    the row's price is recomputed from its brutto price whenever a percent
    is applied. */
module Pricing {

  import opened Values
  import opened Merge

  /** A product row as the pricing pass reads it: its group tag, product id,
      brutto price and the price the deal row carried. */
  datatype Row = Row(group: int, productId: int, priceBrutto: real, price: real)

  /** What the pass writes back: DISCOUNT_RATE and PRICE. */
  datatype Priced = Priced(rate: int, price: real)

  /** brutto * (100 - rate) / 100. */
  function Discounted(brutto: real, rate: int): (p: real)
    ensures 0 <= rate <= 100 && 0.0 <= brutto ==> 0.0 <= p <= brutto
    ensures rate == 0 ==> p == brutto
  {
    brutto * (100 - rate) as real / 100.0
  }

  /** The group pass: the group's percent and the recomputed price, or rate
      0 and the row's own price for a group without a percent. */
  function GroupPass(row: Row, discounts: Discounts): Priced {
    if row.group in discounts then
      Priced(discounts[row.group], Discounted(row.priceBrutto, discounts[row.group]))
    else Priced(0, row.price)
  }

  /** One row through both passes. `products` is the per-product map, or
      None when that program is switched off. */
  function PriceRow(row: Row, discounts: Discounts, products: Option<map<int, int>>): Priced {
    var base := GroupPass(row, discounts);
    if products.None? || row.productId !in products.value then base
    else if base.rate >= products.value[row.productId] then base
    else
      var rate := products.value[row.productId];
      Priced(rate, Discounted(row.priceBrutto, rate))
  }

  function Max(a: int, b: int): int {
    if a >= b then a else b
  }

  /** Reference definition: the rate a row is entitled to is the larger of
      its group's percent (0 without one) and its product's percent, when
      there is one. */
  function BestRate(row: Row, discounts: Discounts, products: Option<map<int, int>>): int {
    var groupRate := if row.group in discounts then discounts[row.group] else 0;
    if products.Some? && row.productId in products.value then Max(groupRate, products.value[row.productId])
    else groupRate
  }

  /** Whether some percent is applied to the row and its price recomputed. */
  predicate Repriced(row: Row, discounts: Discounts, products: Option<map<int, int>>) {
    row.group in discounts
    || (products.Some? && row.productId in products.value && products.value[row.productId] > 0)
  }

  /** The passes give every row its best rate; the price is the brutto price
      at that rate when some percent applies, and otherwise stays as it was
      at rate 0. */
  lemma PriceRowIsBest(row: Row, discounts: Discounts, products: Option<map<int, int>>)
    ensures PriceRow(row, discounts, products).rate == BestRate(row, discounts, products)
    ensures Repriced(row, discounts, products) ==>
              PriceRow(row, discounts, products).price == Discounted(row.priceBrutto, BestRate(row, discounts, products))
    ensures !Repriced(row, discounts, products) ==> PriceRow(row, discounts, products) == Priced(0, row.price)
  {
  }

  /** The per-product pass never lowers the group's rate, and with the
      program off the group pass alone decides. */
  lemma ProductPassNeverLowers(row: Row, discounts: Discounts, products: Option<map<int, int>>)
    ensures PriceRow(row, discounts, products).rate >= GroupPass(row, discounts).rate
    ensures PriceRow(row, discounts, None) == GroupPass(row, discounts)
    ensures (products.Some? && row.productId in products.value
             && products.value[row.productId] <= GroupPass(row, discounts).rate)
            ==> PriceRow(row, discounts, products) == GroupPass(row, discounts)
  {
  }

  /** With percents between 0 and 100 and a non-negative brutto price, the
      rate stays in range and a recomputed price lies between 0 and the
      brutto price. */
  lemma PriceRowBounds(row: Row, discounts: Discounts, products: Option<map<int, int>>)
    requires 0.0 <= row.priceBrutto
    requires row.group in discounts ==> 0 <= discounts[row.group] <= 100
    requires products.Some? && row.productId in products.value ==> 0 <= products.value[row.productId] <= 100
    ensures 0 <= PriceRow(row, discounts, products).rate <= 100
    ensures Repriced(row, discounts, products) ==> 0.0 <= PriceRow(row, discounts, products).price <= row.priceBrutto
  {
  }

  /** A row of 1000 in a group at 8 percent costs 920; a product percent of
      10 overrides it (900), one of 5 does not. */
  lemma PriceRowExample()
    ensures PriceRow(Row(7, 42, 1000.0, 1000.0), map[7 := 8], None) == Priced(8, 920.0)
    ensures PriceRow(Row(7, 42, 1000.0, 1000.0), map[7 := 8], Some(map[42 := 10])) == Priced(10, 900.0)
    ensures PriceRow(Row(7, 42, 1000.0, 1000.0), map[7 := 8], Some(map[42 := 5])) == Priced(8, 920.0)
    ensures PriceRow(Row(3, 42, 1000.0, 999.0), map[7 := 8], None) == Priced(0, 999.0)
  {
  }

  /** The loop over the deal's rows: each row is priced on its own, in
      place. */
  method ApplyDiscounts(rows: seq<Row>, discounts: Discounts, products: Option<map<int, int>>) returns (out: seq<Priced>)
    ensures |out| == |rows|
    ensures forall i :: 0 <= i < |rows| ==> out[i].rate == BestRate(rows[i], discounts, products)
    ensures forall i :: 0 <= i < |rows| ==>
              if Repriced(rows[i], discounts, products)
              then out[i].price == Discounted(rows[i].priceBrutto, out[i].rate)
              else out[i] == Priced(0, rows[i].price)
  {
    out := [];
    var i := 0;
    while i < |rows|
      invariant 0 <= i <= |rows|
      invariant |out| == i
      invariant forall k :: 0 <= k < i ==> out[k] == PriceRow(rows[k], discounts, products)
    {
      out := out + [PriceRow(rows[i], discounts, products)];
      i := i + 1;
    }
    forall k | 0 <= k < |rows|
      ensures out[k].rate == BestRate(rows[k], discounts, products)
      ensures if Repriced(rows[k], discounts, products)
              then out[k].price == Discounted(rows[k].priceBrutto, out[k].rate)
              else out[k] == Priced(0, rows[k].price)
    {
      PriceRowIsBest(rows[k], discounts, products);
    }
  }
}

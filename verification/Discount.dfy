/**
 Coupon discounts (internal/domain/coupon/discount.go) as functions on values.

 Money is counted in whole cents and coupon values in hundredths, as the database columns
 store them. Rounding to two decimals therefore matters only for percentages; everywhere else
 it changes nothing and is not written out.
 */
module Discount {
  import opened Common

  datatype DiscountType = Percentage | Fixed | FreeLowest | Unsupported(name: string)

  datatype Rule = Rule(code: string, discountType: DiscountType, value: int, minItems: int, description: string,
                       validFrom: Option<int>, validUntil: Option<int>, maxUses: int, uses: int, maxDiscount: int)

  datatype Item = Item(productId: string, price: int, quantity: int)

  datatype Discount = Discount(amount: int, description: string)

  datatype Error = InvalidCoupon | UnsupportedType(name: string) | Expired | UsageLimitReached
                 | LookupFailed | IncrementFailed

  // ---------------------------------------------------------------- rounding

  /** A percentage of cents is a multiple of 1/10000 cent. */
  const CENT := 10000

  /** n / CENT to the nearest integer, halves away from zero. */
  function Round(n: int): int {
    if n >= 0 then (2 * n + CENT) / (2 * CENT) else -((-2 * n + CENT) / (2 * CENT))
  }

  /** The rounded value is the only integer within half a cent, the half itself going away from zero. */
  lemma RoundSpec(n: int, k: int)
    ensures k == Round(n) <==>
            if n >= 0 then 2 * n - CENT < 2 * k * CENT <= 2 * n + CENT
            else 2 * n - CENT <= 2 * k * CENT < 2 * n + CENT
  {
  }

  lemma RoundMono(m: int, n: int)
    requires m <= n
    ensures Round(m) <= Round(n)
  {
    RoundSpec(m, Round(m));
    RoundSpec(n, Round(n));
  }

  lemma RoundShift(n: int, k: int)
    requires n >= 0 && k >= 0
    ensures Round(n + k * CENT) == Round(n) + k
  {
  }

  // ---------------------------------------------------------------- the strategies

  function FloorAtZero(n: int): int {
    if n < 0 then 0 else n
  }

  function Min(a: int, b: int): int {
    if a <= b then a else b
  }

  function Subtotal(items: seq<Item>): int {
    if items == [] then 0
    else Subtotal(items[..|items| - 1]) + items[|items| - 1].price * items[|items| - 1].quantity
  }

  function TotalQuantity(items: seq<Item>): int {
    if items == [] then 0
    else TotalQuantity(items[..|items| - 1]) + items[|items| - 1].quantity
  }

  function Lowest(items: seq<Item>): int {
    if items == [] then 0
    else if |items| == 1 then items[0].price
    else Min(Lowest(items[..|items| - 1]), items[|items| - 1].price)
  }

  function ApplyPercentage(rule: Rule, subtotal: int): Discount {
    Discount(Round(FloorAtZero(subtotal * rule.value)), rule.description)
  }

  function ApplyFixed(rule: Rule, subtotal: int): Discount {
    Discount(FloorAtZero(Min(rule.value, subtotal)), rule.description)
  }

  function ApplyFreeLowest(rule: Rule, lowest: int): Discount {
    Discount(FloorAtZero(lowest), rule.description)
  }

  function Capped(rule: Rule, d: Discount): Discount {
    if rule.maxDiscount > 0 && d.amount > rule.maxDiscount then d.(amount := rule.maxDiscount) else d
  }

  /** The discount as a function of the three numbers of a cart it depends on. */
  function Compute(rule: Rule, quantity: int, subtotal: int, lowest: int): Result<Discount, Error> {
    if rule.minItems > 0 && quantity < rule.minItems then Err(InvalidCoupon)
    else
      match rule.discountType
      case Percentage => Ok(Capped(rule, ApplyPercentage(rule, subtotal)))
      case Fixed => Ok(Capped(rule, ApplyFixed(rule, subtotal)))
      case FreeLowest => Ok(Capped(rule, ApplyFreeLowest(rule, lowest)))
      case Unsupported(name) => Err(UnsupportedType(name))
  }

  function Apply(rule: Rule, items: seq<Item>): Result<Discount, Error> {
    Compute(rule, TotalQuantity(items), Subtotal(items), Lowest(items))
  }

  /** What the order service charges for a subtotal after a discount. */
  function Payable(subtotal: int, discount: int): int {
    FloorAtZero(subtotal - discount)
  }

  // ---------------------------------------------------------------- the loops of the source

  method CalcSubtotal(items: seq<Item>) returns (sum: int)
    ensures sum == Subtotal(items)
  {
    sum := 0;
    for i := 0 to |items|
      invariant sum == Subtotal(items[..i])
    {
      assert items[..i + 1][..i] == items[..i];
      var line := items[i].price * items[i].quantity;
      sum := sum + line;
    }
    assert items[..|items|] == items;
  }

  method CalcTotalQuantity(items: seq<Item>) returns (total: int)
    ensures total == TotalQuantity(items)
  {
    total := 0;
    for i := 0 to |items|
      invariant total == TotalQuantity(items[..i])
    {
      assert items[..i + 1][..i] == items[..i];
      total := total + items[i].quantity;
    }
    assert items[..|items|] == items;
  }

  method FindLowestUnitPrice(items: seq<Item>) returns (lowest: int)
    ensures lowest == Lowest(items)
  {
    if |items| == 0 {
      return 0;
    }
    lowest := items[0].price;
    for i := 1 to |items|
      invariant lowest == Lowest(items[..i])
    {
      assert items[..i + 1][..i] == items[..i];
      if items[i].price < lowest {
        lowest := items[i].price;
      }
    }
    assert items[..|items|] == items;
  }

  method ApplyRule(rule: Rule, items: seq<Item>) returns (r: Result<Discount, Error>)
    ensures r == Apply(rule, items)
  {
    var totalQty := CalcTotalQuantity(items);
    if rule.minItems > 0 && totalQty < rule.minItems {
      return Err(InvalidCoupon);
    }
    var subtotal := CalcSubtotal(items);
    var d: Discount;
    match rule.discountType {
      case Percentage => d := ApplyPercentage(rule, subtotal);
      case Fixed => d := ApplyFixed(rule, subtotal);
      case FreeLowest =>
        var lowest := FindLowestUnitPrice(items);
        d := ApplyFreeLowest(rule, lowest);
      case Unsupported(name) => return Err(UnsupportedType(name));
    }
    if rule.maxDiscount > 0 && d.amount > rule.maxDiscount {
      d := d.(amount := rule.maxDiscount);
    }
    r := Ok(d);
  }
}

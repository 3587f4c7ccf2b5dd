/** What the discounts guarantee about money: conservation, monotonicity, dependence on priced units only. */
module DiscountLaws {
  import opened Common
  import opened Discount

  lemma MulMono(a: int, b: int, c: int)
    requires a <= b && c >= 0
    ensures a * c <= b * c && c * a <= c * b
  {
  }

  /** What order placement guarantees of the lines it hands to a coupon. */
  predicate Priced(items: seq<Item>) {
    forall it | it in items :: it.price >= 0 && it.quantity >= 1
  }

  lemma Unsnoc(items: seq<Item>)
    requires items != []
    ensures items == items[..|items| - 1] + [items[|items| - 1]]
  {
  }

  /** `Lowest` is the least price in the cart, and zero for an empty one. */
  lemma {:induction false} LowestSpec(items: seq<Item>)
    ensures if items == [] then Lowest(items) == 0
            else exists i | 0 <= i < |items| :: items[i].price == Lowest(items)
    ensures forall i | 0 <= i < |items| :: Lowest(items) <= items[i].price
    decreases |items|
  {
    if |items| == 1 {
      assert items[0].price == Lowest(items);
    } else if |items| > 1 {
      var front, n := items[..|items| - 1], |items| - 1;
      LowestSpec(front);
      var j :| 0 <= j < |front| && front[j].price == Lowest(front);
      var best := if Lowest(front) <= items[n].price then j else n;
      assert items[best].price == Lowest(items);
      assert forall i | 0 <= i < n :: front[i] == items[i];
    }
  }

  lemma {:induction false} SumFacts(items: seq<Item>)
    requires Priced(items)
    ensures Subtotal(items) >= 0 && TotalQuantity(items) >= |items|
    ensures forall i | 0 <= i < |items| :: items[i].price <= Subtotal(items)
    decreases |items|
  {
    if items != [] {
      var front, n := items[..|items| - 1], |items| - 1;
      assert forall it | it in front :: it in items;
      SumFacts(front);
      assert items[n] in items;
      MulMono(1, items[n].quantity, items[n].price);
      assert forall i | 0 <= i < n :: front[i] == items[i];
    }
  }

  lemma CartFacts(items: seq<Item>)
    requires Priced(items)
    ensures Subtotal(items) >= Lowest(items) >= 0
    ensures TotalQuantity(items) >= |items|
    ensures items != [] ==> exists it | it in items :: it.price == Lowest(items)
    ensures forall it | it in items :: Lowest(items) <= it.price
  {
    LowestSpec(items);
    SumFacts(items);
  }

  // ---------------------------------------------------------------- conservation

  /** The guard under which the discount stays within the subtotal by construction. */
  predicate Bounded(rule: Rule) {
    rule.discountType.Percentage? ==> rule.value <= 100 * 100
  }

  lemma PercentageWithin(s: int, v: int)
    requires s >= 0
    ensures v <= CENT ==> Round(FloorAtZero(s * v)) <= s
    ensures v > CENT ==> Round(FloorAtZero(s * v)) >= s
    ensures v > CENT ==> (Round(FloorAtZero(s * v)) <= s <==> 2 * (s * (v - CENT)) < CENT)
  {
    assert s * v == s * (v - CENT) + s * CENT;
    RoundShift(0, s);
    if v <= CENT {
      MulMono(v, CENT, s);
      RoundMono(FloorAtZero(s * v), s * CENT);
    } else {
      MulMono(CENT, v, s);
      RoundMono(s * CENT, s * v);
      RoundSpec(s * v, s);
    }
  }

  /**
   Money is conserved: with a percentage of at most 100, a fixed amount or a free item, the
   discount is at most the subtotal, so what is charged plus what is discounted is the subtotal.
   */
  lemma Conservation(rule: Rule, items: seq<Item>)
    requires Priced(items) && Bounded(rule) && Apply(rule, items).Ok?
    ensures var s, d := Subtotal(items), Apply(rule, items).value.amount;
            0 <= d <= s && Payable(s, d) + d == s
  {
    CartFacts(items);
    PercentageWithin(Subtotal(items), rule.value);
  }

  /**
   Above 100 percent the identity fails in general; it holds exactly when a cap holds the
   discount down to the subtotal, or the excess over the subtotal is below half a cent.
   */
  lemma OverHundredPercent(rule: Rule, items: seq<Item>)
    requires Priced(items) && rule.discountType.Percentage? && !Bounded(rule) && Apply(rule, items).Ok?
    ensures var s, d := Subtotal(items), Apply(rule, items).value.amount;
            Payable(s, d) + d == s
            <==> 0 < rule.maxDiscount <= s || 2 * (s * (rule.value - CENT)) < CENT
  {
    CartFacts(items);
    PercentageWithin(Subtotal(items), rule.value);
  }

  // ---------------------------------------------------------------- larger carts

  datatype Edit = AddLine(at: nat, item: Item) | Raise(line: nat, more: nat)

  predicate Applicable(items: seq<Item>, e: Edit) {
    match e
    case AddLine(at, item) => at <= |items| && item.price >= 0 && item.quantity >= 1
    case Raise(line, _) => line < |items|
  }

  function Edited(items: seq<Item>, e: Edit): seq<Item>
    requires Applicable(items, e)
  {
    match e
    case AddLine(at, item) => items[..at] + [item] + items[at..]
    case Raise(line, more) => items[line := items[line].(quantity := items[line].quantity + more)]
  }

  /** `big` is `small` with lines added anywhere and quantities raised. */
  ghost predicate Larger(small: seq<Item>, big: seq<Item>, edits: seq<Edit>)
    decreases |edits|
  {
    if edits == [] then big == small
    else Applicable(small, edits[0]) && Larger(Edited(small, edits[0]), big, edits[1..])
  }

  /** What a growing cart does to the three numbers a discount depends on. */
  predicate Grows(small: seq<Item>, big: seq<Item>) {
    && TotalQuantity(small) <= TotalQuantity(big)
    && Subtotal(small) <= Subtotal(big)
    && (small == [] || Lowest(big) <= Lowest(small))
  }

  lemma {:induction false} SumsSplit(xs: seq<Item>, ys: seq<Item>)
    ensures Subtotal(xs + ys) == Subtotal(xs) + Subtotal(ys)
    ensures TotalQuantity(xs + ys) == TotalQuantity(xs) + TotalQuantity(ys)
    decreases |ys|
  {
    if ys == [] {
      assert xs + ys == xs;
    } else {
      assert (xs + ys)[..|xs + ys| - 1] == xs + ys[..|ys| - 1];
      SumsSplit(xs, ys[..|ys| - 1]);
    }
  }

  lemma OneLine(it: Item)
    ensures Subtotal([it]) == it.price * it.quantity && TotalQuantity([it]) == it.quantity
  {
    assert [it][..0] == [];
  }

  lemma AddGrows(items: seq<Item>, at: nat, item: Item)
    requires Priced(items) && Applicable(items, AddLine(at, item))
    ensures var big := Edited(items, AddLine(at, item)); Priced(big) && Grows(items, big)
  {
    var big := Edited(items, AddLine(at, item));
    assert items == items[..at] + items[at..];
    SumsSplit(items[..at], items[at..]);
    SumsSplit(items[..at] + [item], items[at..]);
    SumsSplit(items[..at], [item]);
    OneLine(item);
    MulMono(0, item.price, item.quantity);
    CartFacts(items);
    CartFacts(big);
    if items != [] {
      var it :| it in items && it.price == Lowest(items);
      assert it in big;
    }
  }

  lemma RaiseGrows(items: seq<Item>, line: nat, more: nat)
    requires Priced(items) && line < |items|
    ensures var big := Edited(items, Raise(line, more)); Priced(big) && Grows(items, big)
  {
    var before, after := items[line], items[line].(quantity := items[line].quantity + more);
    var pre, post := items[..line], items[line + 1..];
    var big := Edited(items, Raise(line, more));
    assert items == pre + [before] + post && big == pre + [after] + post;
    SumsSplit(pre + [before], post); SumsSplit(pre, [before]); OneLine(before);
    SumsSplit(pre + [after], post); SumsSplit(pre, [after]); OneLine(after);
    MulMono(before.quantity, after.quantity, before.price);
    CartFacts(items);
    CartFacts(big);
    var it :| it in items && it.price == Lowest(items);
    if it == before { assert after in big; } else { assert it in big; }
  }

  lemma {:induction false} LargerGrows(small: seq<Item>, big: seq<Item>, edits: seq<Edit>)
    requires Priced(small) && Larger(small, big, edits)
    ensures Priced(big) && Grows(small, big)
    decreases |edits|
  {
    if edits != [] {
      var e := edits[0];
      if e.AddLine? { AddGrows(small, e.at, e.item); } else { RaiseGrows(small, e.line, e.more); }
      LargerGrows(Edited(small, e), big, edits[1..]);
    }
  }

  /** Rounding, cap and floor together: a percentage never makes a larger subtotal cheaper. */
  lemma PercentageMonotone(s: int, t: int, v: int, cap: Option<int>)
    requires 0 <= s <= t
    ensures var d, e := Round(FloorAtZero(s * v)), Round(FloorAtZero(t * v));
            && Payable(s, d) <= Payable(t, e)
            && (cap.Some? && cap.value > 0 ==> Payable(s, Min(d, cap.value)) <= Payable(t, Min(e, cap.value)))
  {
    PercentageWithin(s, v);
    PercentageWithin(t, v);
    if v < 0 {
      MulMono(v, 0, s);
      MulMono(v, 0, t);
    } else if v <= CENT {
      MulMono(0, v, s);
      MulMono(v, CENT, t - s);
      MulMono(0, v, t - s);
      assert t * v == s * v + (t - s) * v;
      RoundMono(t * v, s * v + (t - s) * CENT);
      RoundShift(s * v, t - s);
    }
  }

  /** Adding lines or raising quantities never lowers what is charged under the same coupon rule. */
  lemma LargerCartNeverCheaper(rule: Rule, small: seq<Item>, big: seq<Item>, edits: seq<Edit>)
    requires Priced(small) && Larger(small, big, edits) && Apply(rule, small).Ok?
    ensures Apply(rule, big).Ok?
    ensures Payable(Subtotal(small), Apply(rule, small).value.amount)
         <= Payable(Subtotal(big), Apply(rule, big).value.amount)
  {
    LargerGrows(small, big, edits);
    CartFacts(small);
    CartFacts(big);
    PercentageMonotone(Subtotal(small), Subtotal(big), rule.value, Some(rule.maxDiscount));
  }

  // ---------------------------------------------------------------- priced units

  /** One element per unit bought: its price. */
  function Units(items: seq<Item>): multiset<int>
    requires Priced(items)
  {
    if items == [] then multiset{}
    else
      var last := items[|items| - 1];
      assert Priced(items[..|items| - 1]);
      var rest := Units(items[..|items| - 1]);
      rest[last.price := rest[last.price] + last.quantity]
  }

  lemma HasElement(m: multiset<int>)
    requires m != multiset{}
    ensures exists x :: x in m
  {
    assert (forall x :: x !in m) ==> m == multiset{};
  }

  /** The sum of a bag of prices, taken in any order. */
  ghost function Sum(m: multiset<int>): int {
    if m == multiset{} then 0
    else
      HasElement(m);
      var x :| x in m;
      x + Sum(m - multiset{x})
  }

  lemma {:induction false} SumRemove(m: multiset<int>, x: int)
    requires x in m
    ensures Sum(m) == x + Sum(m - multiset{x})
    decreases |m|
  {
    var y :| y in m && Sum(m) == y + Sum(m - multiset{y});
    if x != y {
      assert x in m - multiset{y} && y in m - multiset{x};
      assert |m - multiset{y}| < |m| && |m - multiset{x}| < |m|;
      SumRemove(m - multiset{y}, x);
      SumRemove(m - multiset{x}, y);
      assert m - multiset{y} - multiset{x} == m - multiset{x} - multiset{y};
    }
  }

  lemma OneMore(m: multiset<int>, x: int, k: nat)
    requires k > 0
    ensures Sum(m[x := m[x] + k]) == x + Sum(m[x := m[x] + (k - 1)])
    ensures |m[x := m[x] + k]| == 1 + |m[x := m[x] + (k - 1)]|
  {
    var n := m[x := m[x] + k];
    SumRemove(n, x);
    assert n - multiset{x} == m[x := m[x] + (k - 1)];
    assert n == m[x := m[x] + (k - 1)] + multiset{x};
  }

  lemma OneTimesMore(x: int, k: int)
    ensures x * k == x * (k - 1) + x
  {
  }

  lemma {:induction false} SumMany(m: multiset<int>, x: int, k: nat)
    ensures Sum(m[x := m[x] + k]) == Sum(m) + x * k
    ensures |m[x := m[x] + k]| == |m| + k
    decreases k
  {
    if k == 0 {
      assert m[x := m[x]] == m;
    } else {
      SumMany(m, x, k - 1);
      OneMore(m, x, k);
      OneTimesMore(x, k);
    }
  }

  /** The three numbers a discount depends on are the sum, the size and the least element of the bag of units. */
  lemma {:induction false} NumbersOfUnits(items: seq<Item>)
    requires Priced(items)
    ensures Subtotal(items) == Sum(Units(items))
    ensures TotalQuantity(items) == |Units(items)|
    ensures forall p :: p in Units(items) <==> exists it | it in items :: it.price == p
    decreases |items|
  {
    if items != [] {
      var front, last := items[..|items| - 1], items[|items| - 1];
      Unsnoc(items);
      NumbersOfUnits(front);
      SumMany(Units(front), last.price, last.quantity);
      assert Units(items) == Units(front)[last.price := Units(front)[last.price] + last.quantity];
    }
  }

  /** Carts with the same priced units get the same discount, or the same error, under every rule. */
  lemma UnitsDecide(rule: Rule, a: seq<Item>, b: seq<Item>)
    requires Priced(a) && Priced(b) && Units(a) == Units(b)
    ensures Apply(rule, a) == Apply(rule, b)
  {
    NumbersOfUnits(a);
    NumbersOfUnits(b);
    CartFacts(a);
    CartFacts(b);
    if a != [] {
      var x :| x in a && x.price == Lowest(a);
      assert Lowest(a) in Units(b);
      var y :| y in b && y.price == Lowest(b);
      assert Lowest(b) in Units(a);
    }
  }

  lemma {:induction false} UnitsConcat(xs: seq<Item>, ys: seq<Item>)
    requires Priced(xs) && Priced(ys)
    ensures Priced(xs + ys) && Units(xs + ys) == Units(xs) + Units(ys)
    decreases |ys|
  {
    if ys == [] {
      assert xs + ys == xs;
    } else {
      Unsnoc(ys);
      assert (xs + ys)[..|xs + ys| - 1] == xs + ys[..|ys| - 1];
      UnitsConcat(xs, ys[..|ys| - 1]);
    }
  }

  function Without(items: seq<Item>, i: nat): seq<Item>
    requires i < |items|
  {
    items[..i] + items[i + 1..]
  }

  lemma WithoutLine(items: seq<Item>, i: nat)
    requires i < |items|
    ensures multiset(Without(items, i)) == multiset(items) - multiset{items[i]}
  {
    assert items == items[..i] + [items[i]] + items[i + 1..];
  }

  lemma PricedParts(pre: seq<Item>, mid: seq<Item>, post: seq<Item>)
    requires Priced(pre + mid + post)
    ensures Priced(pre) && Priced(mid) && Priced(post)
  {
    var all := pre + mid + post;
    assert forall it | it in pre || it in mid || it in post :: it in all;
  }

  lemma {:induction false} WithoutUnits(items: seq<Item>, i: nat)
    requires i < |items| && Priced(items)
    ensures Priced(Without(items, i)) && Priced([items[i]])
    ensures Units(items) == Units(Without(items, i)) + Units([items[i]])
  {
    var pre, mid, post := items[..i], [items[i]], items[i + 1..];
    assert items == pre + mid + post && Without(items, i) == pre + post;
    PricedParts(pre, mid, post);
    UnitsOfThree(pre, mid, post);
  }

  lemma UnitsOfThree(pre: seq<Item>, mid: seq<Item>, post: seq<Item>)
    requires Priced(pre) && Priced(mid) && Priced(post)
    ensures Priced(pre + mid + post) && Priced(pre + post)
    ensures Units(pre + mid + post) == Units(pre + post) + Units(mid)
  {
    UnitsConcat(pre, post);
    UnitsConcat(pre, mid);
    UnitsConcat(pre + mid, post);
  }

  /** The units do not depend on the order of the lines. */
  lemma {:induction false} ReorderedUnits(a: seq<Item>, b: seq<Item>)
    requires Priced(a) && Priced(b) && multiset(a) == multiset(b)
    ensures Units(a) == Units(b)
    decreases |a|
  {
    if a == [] {
      assert |multiset(b)| == 0;
    } else {
      assert a[0] in multiset(b);
      var i :| 0 <= i < |b| && b[i] == a[0];
      WithoutLine(a, 0);
      WithoutLine(b, i);
      WithoutUnits(a, 0);
      WithoutUnits(b, i);
      ReorderedUnits(Without(a, 0), Without(b, i));
    }
  }

  /** Permuting the lines changes nothing. */
  lemma PermutedLines(rule: Rule, a: seq<Item>, b: seq<Item>)
    requires Priced(a) && multiset(a) == multiset(b)
    ensures Apply(rule, a) == Apply(rule, b)
  {
    assert forall it | it in b :: it in multiset(a);
    ReorderedUnits(a, b);
    UnitsDecide(rule, a, b);
  }

  /** Splitting a line into two of the same price whose quantities sum to it changes nothing. */
  lemma SplitLine(rule: Rule, pre: seq<Item>, line: Item, k: nat, post: seq<Item>)
    requires Priced(pre + [line] + post) && 1 <= k < line.quantity
    ensures Apply(rule, pre + [line] + post)
         == Apply(rule, pre + [line.(quantity := k), line.(quantity := line.quantity - k)] + post)
  {
    var one, two := [line], [line.(quantity := k), line.(quantity := line.quantity - k)];
    assert line in pre + one + post;
    assert forall it | it in pre :: it in pre + one + post;
    assert forall it | it in post :: it in pre + one + post;
    OneUnits(line);
    assert two == [two[0]] + [two[1]];
    UnitsConcat([two[0]], [two[1]]);
    OneUnits(two[0]);
    OneUnits(two[1]);
    assert Units(one) == Units(two);
    UnitsOfThree(pre, one, post);
    UnitsOfThree(pre, two, post);
    UnitsDecide(rule, pre + one + post, pre + two + post);
  }

  lemma OneUnits(it: Item)
    requires Priced([it])
    ensures Units([it]) == multiset{}[it.price := it.quantity]
  {
    assert [it][..0] == [];
  }

  // ---------------------------------------------------------------- what each kind of rule gives

  /** No rule has a cap unless it is positive. */
  predicate Uncapped(rule: Rule) {
    rule.maxDiscount <= 0
  }

  /** A fixed rule gives its value or the whole subtotal, whichever is less, and nothing of a negative one. */
  lemma FixedAmount(rule: Rule, items: seq<Item>)
    requires rule.discountType == Fixed && Uncapped(rule) && Apply(rule, items).Ok?
    ensures var v, s, d := rule.value, Subtotal(items), Apply(rule, items).value.amount;
            if v <= 0 || s <= 0 then d == 0 else d <= v && d <= s && (d == v || d == s)
  {
  }

  /** A free item is one of the cheapest of the cart, at its price; an empty cart has none. */
  lemma FreeItemAmount(rule: Rule, items: seq<Item>)
    requires rule.discountType == FreeLowest && Uncapped(rule) && Apply(rule, items).Ok?
    ensures var d := Apply(rule, items).value.amount;
            if items == [] then d == 0
            else exists i | 0 <= i < |items| ::
                   && (forall j | 0 <= j < |items| :: items[i].price <= items[j].price)
                   && d == if items[i].price < 0 then 0 else items[i].price
  {
    LowestSpec(items);
  }

  /**
   A percentage, in hundredths of a percent of cents, is within half a cent of the exact share of
   the subtotal; the half itself is rounded up.
   */
  lemma PercentageAmount(rule: Rule, items: seq<Item>)
    requires rule.discountType == Percentage && Uncapped(rule) && Apply(rule, items).Ok?
    ensures var share, d := Subtotal(items) * rule.value, Apply(rule, items).value.amount;
            if share <= 0 then d == 0 else -10000 < 2 * d * 10000 - 2 * share <= 10000
  {
    var share := Subtotal(items) * rule.value;
    RoundSpec(FloorAtZero(share), Round(FloorAtZero(share)));
  }

  /** A positive cap gives the smaller of itself and the uncapped amount, and decides nothing else. */
  lemma CapAmount(rule: Rule, items: seq<Item>)
    ensures var plain := Apply(rule.(maxDiscount := 0), items);
            && Apply(rule, items).Ok? == plain.Ok?
            && (plain.Err? ==> Apply(rule, items) == plain)
            && (plain.Ok? ==>
                  var d, u := Apply(rule, items).value.amount, plain.value.amount;
                  if rule.maxDiscount <= 0 then d == u
                  else d <= u && d <= rule.maxDiscount && (d == u || d == rule.maxDiscount))
  {
  }

  /** Too few units is the only objection to a cart, an unknown type the only one to a rule. */
  lemma WhenRejected(rule: Rule, items: seq<Item>)
    requires Priced(items)
    ensures Apply(rule, items) == Err(InvalidCoupon) <==> rule.minItems > 0 && |Units(items)| < rule.minItems
    ensures Apply(rule, items).Err? && Apply(rule, items) != Err(InvalidCoupon)
       <==> rule.discountType.Unsupported? && !(rule.minItems > 0 && |Units(items)| < rule.minItems)
    ensures match Apply(rule, items)
            case Ok(d) => d.description == rule.description
            case Err(e) => e == InvalidCoupon || e == UnsupportedType(rule.discountType.name)
  {
    NumbersOfUnits(items);
  }
}

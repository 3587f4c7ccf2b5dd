/** Order placement (internal/domain/order/service.go) over a catalogue, the coupon table and the order store. */
module OrderService {
  import opened Common
  import opened Discount
  import opened DiscountLaws
  import opened Validator

  datatype Product = Product(id: string, name: string, price: int, category: string)

  /** The products table, keyed by its primary key. */
  type Catalogue = map<string, Product>

  datatype OrderItem = OrderItem(productId: string, quantity: int)

  datatype Request = Request(items: seq<OrderItem>, couponCode: string)

  datatype Order = Order(id: string, items: seq<OrderItem>, total: int, discounts: int, couponCode: string)

  datatype Placed = Placed(order: Order, products: seq<Product>)

  datatype OrderError =
    | EmptyItems
    | InvalidQuantity(productId: string)
    | FetchFailed
    | ProductNotFound(productId: string)
    | CouponRejected(error: Error)
    | CreateFailed

  /** What is outside the model: the clock, the fresh order id, and which statements the database refuses. */
  datatype World = World(now: int, orderId: string, fetchRefused: bool, lookupRefused: bool,
                         increment: Write, create: Write)

  predicate KeyedById(c: Catalogue) {
    forall id | id in c :: c[id].id == id
  }

  /** The column would take a negative price; only the conservation of money excludes it. */
  predicate PricesNonNegative(c: Catalogue) {
    forall id | id in c :: c[id].price >= 0
  }

  function Shifted(k: Option<nat>): Option<nat> {
    if k.Some? then Some(k.value + 1) else None
  }

  /** The position of the first line without a positive quantity. */
  function FirstNonPositive(items: seq<OrderItem>): Option<nat> {
    if items == [] then None
    else if items[0].quantity <= 0 then Some(0)
    else Shifted(FirstNonPositive(items[1..]))
  }

  /** The position of the first line whose product the catalogue does not have. */
  function FirstMissing(items: seq<OrderItem>, c: Catalogue): Option<nat> {
    if items == [] then None
    else if items[0].productId !in c then Some(0)
    else Shifted(FirstMissing(items[1..], c))
  }

  predicate AllKnown(items: seq<OrderItem>, c: Catalogue) {
    forall it | it in items :: it.productId in c
  }

  predicate AllPositive(items: seq<OrderItem>) {
    forall it | it in items :: it.quantity > 0
  }

  lemma {:induction false} FirstNonPositiveSpec(items: seq<OrderItem>)
    ensures match FirstNonPositive(items)
            case None => AllPositive(items)
            case Some(k) => k < |items| && items[k].quantity <= 0 && AllPositive(items[..k])
  {
    if items != [] && items[0].quantity > 0 {
      FirstNonPositiveSpec(items[1..]);
      assert items == [items[0]] + items[1..];
      if k :| FirstNonPositive(items[1..]) == Some(k) {
        assert items[..k + 1] == [items[0]] + items[1..][..k];
      }
    }
  }

  lemma {:induction false} FirstMissingSpec(items: seq<OrderItem>, c: Catalogue)
    ensures match FirstMissing(items, c)
            case None => AllKnown(items, c)
            case Some(k) => k < |items| && items[k].productId !in c && AllKnown(items[..k], c)
  {
    if items != [] && items[0].productId in c {
      FirstMissingSpec(items[1..], c);
      assert items == [items[0]] + items[1..];
      if k :| FirstMissing(items[1..], c) == Some(k) {
        assert items[..k + 1] == [items[0]] + items[1..][..k];
      }
    }
  }

  /** The catalogue rows of the lines, line by line. */
  function ProductsOf(items: seq<OrderItem>, c: Catalogue): seq<Product>
    requires AllKnown(items, c)
  {
    seq(|items|, i requires 0 <= i < |items| => assert items[i] in items; c[items[i].productId])
  }

  /** The priced lines handed to the coupon. */
  function PricedLines(items: seq<OrderItem>, c: Catalogue): seq<Item>
    requires AllKnown(items, c)
  {
    seq(|items|, i requires 0 <= i < |items| =>
      assert items[i] in items;
      Item(items[i].productId, c[items[i].productId].price, items[i].quantity))
  }

  /** The discount of a placement, and the coupon table it leaves. */
  function Discounted(table: Table, code: string, lines: seq<Item>, w: World): (Result<Discount, Error>, Table) {
    if code == "" then (Ok(Discount(0, "")), table)
    else Validated(table, code, w.now, lines, w.lookupRefused, w.increment)
  }

  function OrderOf(req: Request, subtotal: int, discount: int, w: World): Order {
    Order(w.orderId, req.items, Payable(subtotal, discount), discount, req.couponCode)
  }

  /** Everything one placement does: its answer, the coupon table and the order store it leaves. */
  function Placement(req: Request, c: Catalogue, table: Table, orders: seq<Order>, w: World)
    : (Result<Placed, OrderError>, Table, seq<Order>)
  {
    FirstNonPositiveSpec(req.items);
    FirstMissingSpec(req.items, c);
    if req.items == [] then (Err(EmptyItems), table, orders)
    else if FirstNonPositive(req.items).Some? then
      (Err(InvalidQuantity(req.items[FirstNonPositive(req.items).value].productId)), table, orders)
    else if w.fetchRefused then (Err(FetchFailed), table, orders)
    else if FirstMissing(req.items, c).Some? then
      (Err(ProductNotFound(req.items[FirstMissing(req.items, c).value].productId)), table, orders)
    else
      var lines := PricedLines(req.items, c);
      var (d, table') := Discounted(table, req.couponCode, lines, w);
      if d.Err? then (Err(CouponRejected(d.error)), table', orders)
      else
        var order := OrderOf(req, Subtotal(lines), d.value.amount, w);
        var orders' := if Applied(w.create) then orders + [order] else orders;
        if w.create != Done then (Err(CreateFailed), table', orders')
        else (Ok(Placed(order, ProductsOf(req.items, c))), table', orders')
  }

  // ---------------------------------------------------------------- the service

  class Service {
    const catalogue: Catalogue
    const validator: RepoValidator
    var orders: seq<Order>

    constructor (catalogue: Catalogue, validator: RepoValidator)
      ensures this.catalogue == catalogue && this.validator == validator && orders == []
    {
      this.catalogue := catalogue;
      this.validator := validator;
      orders := [];
    }

    /** The rows of the requested ids, each once, in whatever order the database yields them. */
    method GetByIDs(ids: seq<string>) returns (rows: seq<Product>)
      requires KeyedById(catalogue)
      ensures forall p :: p in rows <==> p.id in ids && p.id in catalogue && p == catalogue[p.id]
    {
      rows := [];
      var todo := set id | id in ids && id in catalogue;
      ghost var all := todo;
      while todo != {}
        invariant todo <= all
        invariant forall p :: p in rows <==> p.id in all && p.id !in todo && p == catalogue[p.id]
      {
        var id :| id in todo;
        rows := rows + [catalogue[id]];
        todo := todo - {id};
      }
    }

    /** Validate the quantities and collect the product ids. */
    method CollectIds(items: seq<OrderItem>) returns (ids: seq<string>, bad: Option<nat>)
      ensures bad == FirstNonPositive(items)
      ensures bad.None? ==> |ids| == |items| && forall i | 0 <= i < |items| :: ids[i] == items[i].productId
    {
      ids := [];
      for i := 0 to |items|
        invariant |ids| == i && forall j | 0 <= j < i :: ids[j] == items[j].productId
        invariant FirstNonPositive(items) == if FirstNonPositive(items[i..]).Some?
                                             then Some(FirstNonPositive(items[i..]).value + i) else None
      {
        if items[i].quantity <= 0 {
          return ids, Some(i);
        }
        ids := ids + [items[i].productId];
      }
      bad := None;
    }

    /** Index the fetched rows by id; with repeated rows the last one wins, and they are equal anyway. */
    method IndexById(rows: seq<Product>) returns (index: map<string, Product>)
      requires KeyedById(catalogue)
      requires forall p | p in rows :: p.id in catalogue && p == catalogue[p.id]
      ensures forall id :: id in index <==> id in catalogue && catalogue[id] in rows
      ensures forall id | id in index :: id in catalogue && index[id] == catalogue[id]
    {
      index := map[];
      for i := 0 to |rows|
        invariant forall id :: id in index <==> id in catalogue && catalogue[id] in rows[..i]
        invariant forall id | id in index :: id in catalogue && index[id] == catalogue[id]
      {
        assert rows[..i + 1] == rows[..i] + [rows[i]];
        index := index[rows[i].id := rows[i]];
      }
      assert rows[..|rows|] == rows;
    }

    /** Match every line with its row, or stop at the first line without one. */
    method MatchProducts(items: seq<OrderItem>, index: map<string, Product>)
      returns (products: seq<Product>, missing: Option<nat>)
      requires forall id | id in index :: id in catalogue && index[id] == catalogue[id]
      requires forall it | it in items :: it.productId in index <==> it.productId in catalogue
      ensures missing == FirstMissing(items, catalogue)
      ensures missing.None? ==> AllKnown(items, catalogue) && products == ProductsOf(items, catalogue)
    {
      products := [];
      for i := 0 to |items|
        invariant |products| == i
        invariant forall j | 0 <= j < i :: items[j].productId in catalogue
                                           && products[j] == catalogue[items[j].productId]
        invariant FirstMissing(items, catalogue) == if FirstMissing(items[i..], catalogue).Some?
                                                    then Some(FirstMissing(items[i..], catalogue).value + i) else None
      {
        assert items[i] in items;
        if items[i].productId !in index {
          return products, Some(i);
        }
        products := products + [index[items[i].productId]];
      }
      missing := None;
    }

    /** The lines handed to the coupon, and the service's own subtotal. */
    method BuildLines(items: seq<OrderItem>, products: seq<Product>) returns (lines: seq<Item>, subtotal: int)
      requires AllKnown(items, catalogue) && products == ProductsOf(items, catalogue)
      ensures lines == PricedLines(items, catalogue) && subtotal == Subtotal(lines)
    {
      lines := [];
      subtotal := 0;
      ghost var all := PricedLines(items, catalogue);
      for i := 0 to |items|
        invariant lines == all[..i] && subtotal == Subtotal(lines)
      {
        var price := products[i].price;
        var line := Item(items[i].productId, price, items[i].quantity);
        assert items[i] in items;
        assert (lines + [line])[..|lines|] == lines;
        lines := lines + [line];
        subtotal := subtotal + price * items[i].quantity;
      }
    }

    /** Fetch the products of positive lines and match them, line by line. */
    method FetchProducts(items: seq<OrderItem>, ids: seq<string>) returns (products: seq<Product>, missing: Option<nat>)
      requires KeyedById(catalogue)
      requires |ids| == |items| && forall i | 0 <= i < |items| :: ids[i] == items[i].productId
      ensures missing == FirstMissing(items, catalogue)
      ensures missing.None? ==> AllKnown(items, catalogue) && products == ProductsOf(items, catalogue)
    {
      var fetched := GetByIDs(ids);
      var index := IndexById(fetched);
      assert forall it | it in items :: it.productId in ids;
      products, missing := MatchProducts(items, index);
    }

    /** The discount of the request's coupon, if it names one. */
    method FindDiscount(code: string, lines: seq<Item>, w: World) returns (d: Result<Discount, Error>)
      requires validator.repo.Valid()
      modifies validator.repo
      ensures validator.repo.Valid()
      ensures (d, validator.repo.table) == Discounted(old(validator.repo.table), code, lines, w)
    {
      d := Ok(Discount(0, ""));
      if code != "" {
        d := validator.Validate(code, w.now, lines, w.lookupRefused, w.increment);
      }
    }

    method PlaceOrder(req: Request, w: World) returns (r: Result<Placed, OrderError>)
      requires KeyedById(catalogue) && validator.repo.Valid()
      modifies this, validator.repo
      ensures validator.repo.Valid()
      ensures (r, validator.repo.table, orders)
           == Placement(req, catalogue, old(validator.repo.table), old(orders), w)
    {
      if |req.items| == 0 {
        return Err(EmptyItems);
      }
      FirstNonPositiveSpec(req.items);
      FirstMissingSpec(req.items, catalogue);
      var ids, bad := CollectIds(req.items);
      if bad.Some? {
        return Err(InvalidQuantity(req.items[bad.value].productId));
      }
      if w.fetchRefused {
        return Err(FetchFailed);
      }
      var products, missing := FetchProducts(req.items, ids);
      if missing.Some? {
        return Err(ProductNotFound(req.items[missing.value].productId));
      }
      var lines, subtotal := BuildLines(req.items, products);

      var d := FindDiscount(req.couponCode, lines, w);
      if d.Err? {
        return Err(CouponRejected(d.error));
      }
      var discountAmount := d.value.amount;
      var total := subtotal - discountAmount;
      if total < 0 {
        total := 0;
      }
      var o := Order(w.orderId, req.items, total, discountAmount, req.couponCode);
      if Applied(w.create) {
        orders := orders + [o];
      }
      if w.create != Done {
        return Err(CreateFailed);
      }
      r := Ok(Placed(o, products));
    }
  }

  // ---------------------------------------------------------------- what a placement guarantees

  /**
   Product matching: a placement gets past it exactly when every id is in the catalogue; then
   the i-th product is the row of the i-th line, and otherwise the error names the first missing id.
   */
  lemma ProductMatching(req: Request, c: Catalogue, table: Table, orders: seq<Order>, w: World)
    requires req.items != [] && AllPositive(req.items) && !w.fetchRefused
    ensures var (r, _, _) := Placement(req, c, table, orders, w);
            && (AllKnown(req.items, c) <==> !(r.Err? && r.error.ProductNotFound?))
            && (r.Ok? ==> |r.value.products| == |req.items|
                          && forall i | 0 <= i < |req.items| ::
                               req.items[i].productId in c && r.value.products[i] == c[req.items[i].productId])
            && (r.Err? && r.error.ProductNotFound? ==>
                  exists k | 0 <= k < |req.items| ::
                    && req.items[k].productId == r.error.productId && r.error.productId !in c
                    && AllKnown(req.items[..k], c))
  {
    FirstNonPositiveSpec(req.items);
    FirstMissingSpec(req.items, c);
  }

  /**
   The checks come in order, each error names the first offending line, and nothing is written
   before the coupon: an early error leaves the coupon table as it was, and every error but that
   of the insert itself leaves the order store.
   */
  lemma EarlyErrors(req: Request, c: Catalogue, table: Table, orders: seq<Order>, w: World)
    ensures var (r, table', orders') := Placement(req, c, table, orders, w);
            && (r == Err(EmptyItems) <==> req.items == [])
            && (r.Err? && r.error.InvalidQuantity? ==>
                  exists k | 0 <= k < |req.items| ::
                    && req.items[k].productId == r.error.productId && req.items[k].quantity <= 0
                    && AllPositive(req.items[..k]))
            && (r.Err? && (r.error.EmptyItems? || r.error.InvalidQuantity?) ==> table' == table)
            && (r.Err? && (r.error.FetchFailed? || r.error.ProductNotFound?) ==> table' == table)
            && (req.couponCode == "" ==> table' == table)
            && (!AllPositive(req.items) ==> r.Err? && r.error.InvalidQuantity?)
            && (r.Err? && !r.error.CreateFailed? ==> orders' == orders)
            && (r == Err(FetchFailed) <==> req.items != [] && AllPositive(req.items) && w.fetchRefused)
  {
    FirstNonPositiveSpec(req.items);
    FirstMissingSpec(req.items, c);
  }

  /** An order that names a coupon is discounted by what that coupon's rule gives its priced lines. */
  lemma DiscountIsTheRules(req: Request, c: Catalogue, table: Table, orders: seq<Order>, w: World)
    requires req.couponCode != "" && Placement(req, c, table, orders, w).0.Ok?
    ensures AllKnown(req.items, c) && Lookup(table, req.couponCode).Ok?
    ensures var rule := Lookup(table, req.couponCode).value;
            var lines := PricedLines(req.items, c);
            && Apply(rule, lines).Ok?
            && Placement(req, c, table, orders, w).0.value.order.discounts == Apply(rule, lines).value.amount
            && (rule.maxUses > 0 ==> rule.uses < rule.maxUses)
            && Placement(req, c, table, orders, w).1 == Bumped(table, req.couponCode)
  {
    FirstNonPositiveSpec(req.items);
    FirstMissingSpec(req.items, c);
  }

  /** A stored order: known products, positive quantities, and as total the subtotal less the discount, floored. */
  predicate OrderOk(o: Order, c: Catalogue) {
    && o.items != [] && AllPositive(o.items) && AllKnown(o.items, c)
    && 0 <= o.total && 0 <= o.discounts
    && o.total == Payable(Subtotal(PricedLines(o.items, c)), o.discounts)
    && (o.couponCode == "" ==> o.discounts == 0)
  }

  lemma AdmittedAmount(rule: Rule, now: int, items: seq<Item>)
    requires Admit(rule, now, items).Ok?
    ensures Admit(rule, now, items) == Apply(rule, items) && Admit(rule, now, items).value.amount >= 0
  {
  }

  /** Every order a placement stores is sound, whether or not its answer gets back to the customer. */
  lemma StoredOrdersSound(req: Request, c: Catalogue, table: Table, orders: seq<Order>, w: World)
    requires forall o | o in orders :: OrderOk(o, c)
    ensures var (r, _, orders') := Placement(req, c, table, orders, w);
            && (forall o | o in orders' :: OrderOk(o, c))
            && orders <= orders' && |orders'| <= |orders| + 1
            && (r.Ok? ==> orders' == orders + [r.value.order])
  {
    FirstNonPositiveSpec(req.items);
    FirstMissingSpec(req.items, c);
    if AllKnown(req.items, c) && req.items != [] && AllPositive(req.items) {
      var lines := PricedLines(req.items, c);
      var found := if w.lookupRefused then Err(LookupFailed) else Lookup(table, req.couponCode);
      if found.Ok? && Admit(found.value, w.now, lines).Ok? { AdmittedAmount(found.value, w.now, lines); }
    }
  }

  /**
   Money is conserved in every accepted placement: what is charged and what is discounted add up
   to the subtotal, without a coupon or with one whose rule cannot exceed the subtotal.
   */
  lemma PlacementConservesMoney(req: Request, c: Catalogue, table: Table, orders: seq<Order>, w: World)
    requires PricesNonNegative(c) && Placement(req, c, table, orders, w).0.Ok?
    requires req.couponCode != "" && Lookup(table, req.couponCode).Ok? ==> Bounded(Lookup(table, req.couponCode).value)
    ensures AllKnown(req.items, c)
    ensures var o := Placement(req, c, table, orders, w).0.value.order;
            o.total + o.discounts == Subtotal(PricedLines(req.items, c))
  {
    FirstNonPositiveSpec(req.items);
    FirstMissingSpec(req.items, c);
    var lines := PricedLines(req.items, c);
    assert Priced(lines) by {
      forall it | it in lines ensures it.price >= 0 && it.quantity >= 1 {
        var i :| 0 <= i < |lines| && lines[i] == it;
        assert req.items[i] in req.items;
      }
    }
    CartFacts(lines);
    if req.couponCode != "" {
      var rule := Lookup(table, req.couponCode).value;
      AdmittedAmount(rule, w.now, lines);
      Conservation(rule, lines);
    }
  }

  // ---------------------------------------------------------------- when a placement is accepted

  /** The request passes every check before the coupon. */
  predicate Orderable(req: Request, c: Catalogue, w: World) {
    req.items != [] && AllPositive(req.items) && !w.fetchRefused && AllKnown(req.items, c)
  }

  /** There is no coupon, or the validator accepts it for the priced lines. */
  predicate CouponAccepted(req: Request, c: Catalogue, table: Table, w: World)
    requires AllKnown(req.items, c)
  {
    || req.couponCode == ""
    || (Acceptable(table, req.couponCode, w.now, PricedLines(req.items, c), w.lookupRefused) && w.increment == Done)
  }

  /** A line is priced with the catalogue price of its own product. */
  lemma PricedLinesSpec(items: seq<OrderItem>, c: Catalogue)
    requires AllKnown(items, c)
    ensures var lines := PricedLines(items, c);
            && |lines| == |items|
            && forall i | 0 <= i < |items| ::
                 && items[i].productId in c
                 && lines[i].productId == items[i].productId
                 && lines[i].price == c[items[i].productId].price
                 && lines[i].quantity == items[i].quantity
  {
    assert forall i | 0 <= i < |items| :: items[i] in items;
  }

  /** Which answer a placement gives, for every request and every way the statements can end. */
  lemma PlacementExactly(req: Request, c: Catalogue, table: Table, orders: seq<Order>, w: World, e: Error)
    ensures var r := Placement(req, c, table, orders, w).0;
            && (r.Ok? <==> Orderable(req, c, w) && CouponAccepted(req, c, table, w) && w.create == Done)
            && (r == Err(CreateFailed)
                <==> Orderable(req, c, w) && CouponAccepted(req, c, table, w) && w.create != Done)
            && (r == Err(CouponRejected(e))
                <==> && Orderable(req, c, w) && req.couponCode != ""
                     && Validated(table, req.couponCode, w.now, PricedLines(req.items, c), w.lookupRefused,
                                  w.increment).0 == Err(e))
            && (r.Err? && r.error.ProductNotFound?
                <==> req.items != [] && AllPositive(req.items) && !w.fetchRefused && !AllKnown(req.items, c))
  {
    FirstNonPositiveSpec(req.items);
    FirstMissingSpec(req.items, c);
    if AllKnown(req.items, c) {
      ValidatedExactly(table, req.couponCode, w.now, PricedLines(req.items, c), w.lookupRefused, w.increment);
    }
  }

  /** The order an accepted request becomes. */
  predicate IsOrderFor(o: Order, req: Request, c: Catalogue, table: Table, w: World)
    requires AllKnown(req.items, c)
  {
    var lines := PricedLines(req.items, c);
    && o.id == w.orderId && o.items == req.items && o.couponCode == req.couponCode
    && (req.couponCode == "" ==> o.discounts == 0)
    && (req.couponCode != "" ==>
          && Lookup(table, req.couponCode).Ok? && Apply(Lookup(table, req.couponCode).value, lines).Ok?
          && o.discounts == Apply(Lookup(table, req.couponCode).value, lines).value.amount)
    && o.total == if o.discounts <= Subtotal(lines) then Subtotal(lines) - o.discounts else 0
  }

  /**
   The orders a placement leaves: a new one exactly when everything before the insert succeeds and
   the insert is carried out, even if its answer is lost.
   */
  lemma PlacementEffects(req: Request, c: Catalogue, table: Table, orders: seq<Order>, w: World)
    ensures var (r, _, orders') := Placement(req, c, table, orders, w);
            if Orderable(req, c, w) && CouponAccepted(req, c, table, w) && w.create != Refused then
              && |orders'| == |orders| + 1 && orders'[..|orders|] == orders
              && IsOrderFor(orders'[|orders|], req, c, table, w)
              && (r.Ok? ==> r.value.order == orders'[|orders|])
            else orders' == orders
  {
    FirstNonPositiveSpec(req.items);
    FirstMissingSpec(req.items, c);
    if AllKnown(req.items, c) {
      ValidatedExactly(table, req.couponCode, w.now, PricedLines(req.items, c), w.lookupRefused, w.increment);
    }
  }

  /** The coupon table it leaves is that of the validation, if it comes to one. */
  lemma PlacementTable(req: Request, c: Catalogue, table: Table, orders: seq<Order>, w: World)
    ensures Placement(req, c, table, orders, w).1
         == if Orderable(req, c, w) && req.couponCode != ""
            then Validated(table, req.couponCode, w.now, PricedLines(req.items, c), w.lookupRefused, w.increment).1
            else table
  {
    FirstNonPositiveSpec(req.items);
    FirstMissingSpec(req.items, c);
  }
}

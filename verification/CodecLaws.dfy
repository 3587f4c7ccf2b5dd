/** Decoding undoes encoding, up to what `Get` does not show. */
module CodecLaws {
  import opened Common
  import opened Json
  import opened Codec
  import opened CodecFields

  // ---------------------------------------------------------------- values compared through Get

  /** The value with the meaningless parts of unset options reset. */
  function Plain<T>(o: Opt<T>, zero: T): Opt<T> {
    if o.present then o else Unset(zero)
  }

  function PlainImage(s: ProductImage): ProductImage {
    ProductImage(Plain(s.thumbnail, ""), Plain(s.mobile, ""), Plain(s.tablet, ""), Plain(s.desktop, ""))
  }

  function PlainProduct(s: Product): Product {
    Product(Plain(s.id, ""), Plain(s.name, ""), Plain(s.price, 0.0), Plain(s.category, ""),
            if s.image.present then OptProductImage(PlainImage(s.image.value), true)
            else OptProductImage(ZERO_IMAGE, false))
  }

  function PlainOrderItem(s: OrderItem): OrderItem {
    OrderItem(Plain(s.productId, ""), Plain(s.quantity, 0))
  }

  function PlainAll<T>(list: seq<T>, plain: T -> T): seq<T> {
    seq(|list|, i requires 0 <= i < |list| => plain(list[i]))
  }

  function PlainList<T>(list: Option<seq<T>>, plain: T -> T): Option<seq<T>> {
    if list.None? then None else Some(PlainAll(list.value, plain))
  }

  function PlainOrder(s: Order): Order {
    Order(Plain(s.id, ""), Plain(s.total, 0.0), Plain(s.discounts, 0.0),
          PlainList(s.items, PlainOrderItem), PlainList(s.products, PlainProduct))
  }

  // Two values agree when every option shows the same through `Get`, at every depth.

  predicate ImagesAgree(a: ProductImage, b: ProductImage) {
    && a.thumbnail.Get() == b.thumbnail.Get() && a.mobile.Get() == b.mobile.Get()
    && a.tablet.Get() == b.tablet.Get() && a.desktop.Get() == b.desktop.Get()
  }

  predicate ProductsAgree(a: Product, b: Product) {
    && a.id.Get() == b.id.Get() && a.name.Get() == b.name.Get()
    && a.price.Get() == b.price.Get() && a.category.Get() == b.category.Get()
    && a.image.Get().Some? == b.image.Get().Some?
    && (a.image.Get().Some? ==> ImagesAgree(a.image.Get().value, b.image.Get().value))
  }

  predicate OrderItemsAgree(a: OrderItem, b: OrderItem) {
    a.productId.Get() == b.productId.Get() && a.quantity.Get() == b.quantity.Get()
  }

  /** A nil list agrees with no other, an empty one included. */
  predicate ListsAgree<T>(a: Option<seq<T>>, b: Option<seq<T>>, agree: (T, T) -> bool) {
    && a.Some? == b.Some?
    && (a.Some? ==> && |a.value| == |b.value|
                    && forall i | 0 <= i < |a.value| :: agree(a.value[i], b.value[i]))
  }

  predicate OrdersAgree(a: Order, b: Order) {
    && a.id.Get() == b.id.Get() && a.total.Get() == b.total.Get() && a.discounts.Get() == b.discounts.Get()
    && ListsAgree(a.items, b.items, OrderItemsAgree)
    && ListsAgree(a.products, b.products, ProductsAgree)
  }

  lemma ProductGets(a: Product, b: Product)
    ensures PlainProduct(a) == PlainProduct(b) <==> ProductsAgree(a, b)
  {
  }

  lemma {:induction false} ListGets<T>(a: Option<seq<T>>, b: Option<seq<T>>, plain: T -> T, agree: (T, T) -> bool)
    requires forall x, y :: plain(x) == plain(y) <==> agree(x, y)
    ensures PlainList(a, plain) == PlainList(b, plain) <==> ListsAgree(a, b, agree)
  {
    if a.Some? && b.Some? {
      var p, q := PlainAll(a.value, plain), PlainAll(b.value, plain);
      if ListsAgree(a, b, agree) { assert forall i | 0 <= i < |p| :: p[i] == q[i]; }
      if p == q {
        forall i | 0 <= i < |a.value| ensures agree(a.value[i], b.value[i]) { assert p[i] == q[i]; }
      }
    }
  }

  /** Two orders have the same plain form exactly when `Get` shows the same of every option in them. */
  lemma OrderGets(a: Order, b: Order)
    ensures PlainOrder(a) == PlainOrder(b) <==> OrdersAgree(a, b)
  {
    forall x, y ensures PlainProduct(x) == PlainProduct(y) <==> ProductsAgree(x, y) { ProductGets(x, y); }
    ListGets(a.products, b.products, PlainProduct, ProductsAgree);
    ListGets(a.items, b.items, PlainOrderItem, OrderItemsAgree);
  }

  lemma {:induction false} PlainListAgrees<T>(list: Option<seq<T>>, plain: T -> T, agree: (T, T) -> bool)
    requires forall x :: agree(plain(x), x)
    ensures ListsAgree(PlainList(list, plain), list, agree)
  {
  }

  /** The plain form of an order agrees with the order itself. */
  lemma OrderAgrees(s: Order)
    ensures OrdersAgree(PlainOrder(s), s)
  {
    PlainListAgrees(s.items, PlainOrderItem, OrderItemsAgree);
    PlainListAgrees(s.products, PlainProduct, ProductsAgree);
  }

  // ---------------------------------------------------------------- round trips

  lemma FloatRoundTrip(x: real)
    ensures DecodeFloat(EncodeFloat(x)) == Ok(x)
  {
  }

  /** At most one field, which takes the receiver from s to t. */
  predicate Takes<S(==)>(on: OnField<S>, s: S, xs: seq<Field>, t: S) {
    if xs == [] then t == s else |xs| == 1 && on(s, xs[0]) == Ok(t)
  }

  lemma TakesOver<S>(on: OnField<S>, s: S, xs: seq<Field>, t: S)
    requires Takes(on, s, xs, t)
    ensures OverFields(on, s, xs) == Ok(t)
  {
    if xs != [] { OneField(on, s, xs[0]); }
  }

  /** Field groups written one after the other are read one after the other. */
  lemma Chain<S>(on: OnField<S>, s: S, front: seq<Field>, mid: S, xs: seq<Field>, t: S)
    requires OverFields(on, s, front) == Ok(mid) && Takes(on, mid, xs, t)
    ensures OverFields(on, s, front + xs) == Ok(t)
  {
    TakesOver(on, mid, xs, t);
    OverConcat(on, s, front, xs);
  }

  lemma ImageRoundTrip(s: ProductImage)
    ensures DecodeImage(EncodeImage(s)) == Ok(PlainImage(s))
    ensures ImagesAgree(PlainImage(s), s)
  {
    var on := OnImageField;
    var f1, f2 := Optional("thumbnail", s.thumbnail, v => JString(v)), Optional("mobile", s.mobile, v => JString(v));
    var f3, f4 := Optional("tablet", s.tablet, v => JString(v)), Optional("desktop", s.desktop, v => JString(v));
    var s1 := ZERO_IMAGE.(thumbnail := Plain(s.thumbnail, ""));
    var s2 := s1.(mobile := Plain(s.mobile, ""));
    var s3 := s2.(tablet := Plain(s.tablet, ""));
    TakesOver(on, ZERO_IMAGE, f1, s1);
    Chain(on, ZERO_IMAGE, f1, s1, f2, s2);
    Chain(on, ZERO_IMAGE, f1 + f2, s2, f3, s3);
    Chain(on, ZERO_IMAGE, f1 + f2 + f3, s3, f4, PlainImage(s));
  }

  /** Five optional groups, as most objects have. */
  lemma Chain5<S>(on: OnField<S>, s0: S, f1: seq<Field>, s1: S, f2: seq<Field>, s2: S, f3: seq<Field>, s3: S,
                  f4: seq<Field>, s4: S, f5: seq<Field>, s5: S)
    requires Takes(on, s0, f1, s1) && Takes(on, s1, f2, s2) && Takes(on, s2, f3, s3)
    requires Takes(on, s3, f4, s4) && Takes(on, s4, f5, s5)
    ensures OverFields(on, s0, f1 + f2 + f3 + f4 + f5) == Ok(s5)
  {
    TakesOver(on, s0, f1, s1);
    Chain(on, s0, f1, s1, f2, s2);
    Chain(on, s0, f1 + f2, s2, f3, s3);
    Chain(on, s0, f1 + f2 + f3, s3, f4, s4);
    Chain(on, s0, f1 + f2 + f3 + f4, s4, f5, s5);
  }

  lemma ProductRoundTrip(s: Product)
    ensures DecodeProduct(EncodeProduct(s)) == Ok(PlainProduct(s))
    ensures ProductsAgree(PlainProduct(s), s)
  {
    var s1 := ZERO_PRODUCT.(id := Plain(s.id, ""));
    var s2 := s1.(name := Plain(s.name, ""));
    var s3 := s2.(price := Plain(s.price, 0.0));
    var s4 := s3.(category := Plain(s.category, ""));
    if s.price.present { FloatRoundTrip(s.price.value); }
    if s.image.present { ImageRoundTrip(s.image.value); }
    Chain5(OnProductField, ZERO_PRODUCT,
           Optional("id", s.id, v => JString(v)), s1,
           Optional("name", s.name, v => JString(v)), s2,
           Optional("price", s.price, EncodeFloat), s3,
           Optional("category", s.category, v => JString(v)), s4,
           if s.image.present then [Field("image", EncodeImage(s.image.value))] else [], PlainProduct(s));
  }

  lemma OrderItemRoundTrip(s: OrderItem)
    ensures DecodeOrderItem(EncodeOrderItem(s)) == Ok(PlainOrderItem(s))
    ensures OrderItemsAgree(PlainOrderItem(s), s)
  {
    var on := OnOrderItemField;
    var f1 := Optional("productId", s.productId, v => JString(v));
    var f2 := Optional("quantity", s.quantity, (v: Int64) => JInt(v));
    var s1 := ZERO_ORDER_ITEM.(productId := Plain(s.productId, ""));
    TakesOver(on, ZERO_ORDER_ITEM, f1, s1);
    Chain(on, ZERO_ORDER_ITEM, f1, s1, f2, PlainOrderItem(s));
  }

  /** Element-wise round trips give the round trip of a list. */
  lemma {:induction false} ListRoundTrip<T>(encode: T -> Json, decode: Json -> Decoded<T>, plain: T -> T, list: seq<T>)
    requires forall x | x in list :: decode(encode(x)) == Ok(plain(x))
    ensures DecodeList(EncodeList(list, encode), decode) == Ok(PlainAll(list, plain))
    decreases |list|
  {
    if list != [] {
      var elems := EncodeList(list, encode).elems;
      assert elems[1..] == EncodeList(list[1..], encode).elems;
      assert list[0] in list;
      ListRoundTrip(encode, decode, plain, list[1..]);
      assert PlainAll(list, plain) == [plain(list[0])] + PlainAll(list[1..], plain);
    }
  }

  lemma ItemsRoundTrip(list: seq<OrderItem>)
    ensures DecodeList(EncodeList(list, EncodeOrderItem), DecodeOrderItem) == Ok(PlainAll(list, PlainOrderItem))
  {
    forall x | x in list ensures DecodeOrderItem(EncodeOrderItem(x)) == Ok(PlainOrderItem(x)) { OrderItemRoundTrip(x); }
    ListRoundTrip(EncodeOrderItem, DecodeOrderItem, PlainOrderItem, list);
  }

  lemma ProductsRoundTrip(list: seq<Product>)
    ensures DecodeList(EncodeList(list, EncodeProduct), DecodeProduct) == Ok(PlainAll(list, PlainProduct))
  {
    forall x | x in list ensures DecodeProduct(EncodeProduct(x)) == Ok(PlainProduct(x)) { ProductRoundTrip(x); }
    ListRoundTrip(EncodeProduct, DecodeProduct, PlainProduct, list);
  }

  /** Decode undoes Encode for orders: set and unset options, nil and empty lists alike. */
  lemma OrderRoundTrip(s: Order)
    ensures DecodeOrder(EncodeOrder(s)) == Ok(PlainOrder(s))
    ensures OrdersAgree(PlainOrder(s), s)
  {
    var s1 := ZERO_ORDER.(id := Plain(s.id, ""));
    var s2 := s1.(total := Plain(s.total, 0.0));
    var s3 := s2.(discounts := Plain(s.discounts, 0.0));
    var s4 := s3.(items := PlainList(s.items, PlainOrderItem));
    OrderAgrees(s);
    if s.total.present { FloatRoundTrip(s.total.value); }
    if s.discounts.present { FloatRoundTrip(s.discounts.value); }
    if s.items.Some? { ItemsRoundTrip(s.items.value); }
    if s.products.Some? { ProductsRoundTrip(s.products.value); }
    Chain5(OnOrderField, ZERO_ORDER,
           Optional("id", s.id, v => JString(v)), s1,
           Optional("total", s.total, EncodeFloat), s2,
           Optional("discounts", s.discounts, EncodeFloat), s3,
           Listed("items", s.items, EncodeOrderItem), s4,
           Listed("products", s.products, EncodeProduct), PlainOrder(s));
  }

  // ---------------------------------------------------------------- round trips with required fields

  lemma OrderReqItemRoundTrip(s: OrderReqItem)
    ensures DecodeOrderReqItem(EncodeOrderReqItem(s)) == Ok(s)
  {
    var f, g := Field("productId", JString(s.productId)), Field("quantity", JInt(s.quantity));
    TwoFields(OnOrderReqItemField, Tracked(ZERO_ORDER_REQ_ITEM, 0), f, g);
    assert [f, g][0].key == "productId" && [f, g][1].key == "quantity";
    assert Has([f, g], "productId") && Has([f, g], "quantity");
    OrderReqItemMissing([f, g]);
  }

  lemma ErrorRoundTrip(s: ErrorBody)
    ensures DecodeErrorBody(EncodeErrorBody(s)) == Ok(s)
  {
    var f, g := Field("code", JInt(s.code)), Field("message", JString(s.message));
    TwoFields(OnErrorField, Tracked(ZERO_ERROR, 0), f, g);
    assert [f, g][0].key == "code" && [f, g][1].key == "message";
    assert Has([f, g], "code") && Has([f, g], "message");
    ErrorMissing([f, g]);
  }

  function PlainOrderReq(s: OrderReq): OrderReq {
    OrderReq(Plain(s.couponCode, ""), Some(if s.items.Some? then s.items.value else []))
  }

  /** The encoder writes a nil item list as an empty one, so a request comes back exactly when its list is not nil. */
  lemma OrderReqRoundTrip(s: OrderReq)
    ensures DecodeOrderReq(EncodeOrderReq(s)) == Ok(PlainOrderReq(s))
    ensures s.couponCode == Plain(s.couponCode, "") ==>
              (DecodeOrderReq(EncodeOrderReq(s)) == Ok(s) <==> s.items.Some?)
  {
    var on, zero := OnOrderReqField, Tracked(ZERO_ORDER_REQ, 0);
    var list := if s.items.Some? then s.items.value else [];
    var f1 := Optional("couponCode", s.couponCode, v => JString(v));
    var f2 := Field("items", EncodeList(list, EncodeOrderReqItem));
    var mid := Tracked(ZERO_ORDER_REQ.(couponCode := Plain(s.couponCode, "")), 0);
    OverConcat(on, zero, f1, [f2]);
    if f1 != [] { OneField(on, zero, f1[0]); }
    OneField(on, mid, f2);
    forall x | x in list ensures DecodeOrderReqItem(EncodeOrderReqItem(x)) == Ok(Itself(x)) {
      OrderReqItemRoundTrip(x);
    }
    ListRoundTrip(EncodeOrderReqItem, DecodeOrderReqItem, Itself, list);
    assert PlainAll(list, Itself) == list;
    assert (f1 + [f2])[|f1|].key == "items";
    OrderReqTraversal(f1 + [f2]);
    OrderReqMissing(f1 + [f2]);
  }

  function Itself(x: OrderReqItem): OrderReqItem { x }
}

/**
 The generated encoders and decoders of gen/oas/oas_json_gen.go at the level of object fields.
 A decoder is a receiver updated field by field; the required fields are tracked in a bit set.
 */
module Codec {
  import opened Common
  import opened Json
  import opened Bits

  // ---------------------------------------------------------------- the schema types

  type Int64 = n: int | -0x8000_0000_0000_0000 <= n < 0x8000_0000_0000_0000
  type Int32 = n: int | -0x8000_0000 <= n < 0x8000_0000

  /** An optional field; `value` is meaningless unless `present`. */
  datatype Opt<T> = Opt(value: T, present: bool) {
    function Get(): Option<T> {
      if present then Some(value) else None
    }
  }

  function Unset<T>(zero: T): Opt<T> { Opt(zero, false) }

  datatype ProductImage = ProductImage(thumbnail: Opt<string>, mobile: Opt<string>, tablet: Opt<string>,
                                       desktop: Opt<string>)

  datatype Product = Product(id: Opt<string>, name: Opt<string>, price: Opt<real>, category: Opt<string>,
                             image: OptProductImage)

  datatype OptProductImage = OptProductImage(value: ProductImage, present: bool) {
    function Get(): Option<ProductImage> {
      if present then Some(value) else None
    }
  }

  datatype OrderItem = OrderItem(productId: Opt<string>, quantity: Opt<Int64>)

  /** A nil list is None, which differs from an empty one. */
  datatype Order = Order(id: Opt<string>, total: Opt<real>, discounts: Opt<real>,
                         items: Option<seq<OrderItem>>, products: Option<seq<Product>>)

  datatype OrderReqItem = OrderReqItem(productId: string, quantity: Int64)

  datatype OrderReq = OrderReq(couponCode: Opt<string>, items: Option<seq<OrderReqItem>>)

  datatype ErrorBody = ErrorBody(code: Int32, message: string)

  const ZERO_IMAGE := ProductImage(Unset(""), Unset(""), Unset(""), Unset(""))
  const ZERO_PRODUCT := Product(Unset(""), Unset(""), Unset(0.0), Unset(""), OptProductImage(ZERO_IMAGE, false))
  const ZERO_ORDER_ITEM := OrderItem(Unset(""), Unset(0))
  const ZERO_ORDER := Order(Unset(""), Unset(0.0), Unset(0.0), None, None)
  const ZERO_ORDER_REQ_ITEM := OrderReqItem("", 0)
  const ZERO_ORDER_REQ := OrderReq(Unset(""), None)
  const ZERO_ERROR := ErrorBody(0, "")

  // ---------------------------------------------------------------- scalars

  /** A whole number is written without a fraction. */
  function EncodeFloat(x: real): Json {
    if x == x.Floor as real then JInt(x.Floor) else JFraction(x)
  }

  function DecodeFloat(j: Json): Decoded<real> {
    match j
    case JInt(n) => Ok(n as real)
    case JFraction(x) => Ok(x)
    case _ => Err(WrongType)
  }

  function DecodeString(j: Json): Decoded<string> {
    if j.JString? then Ok(j.s) else Err(WrongType)
  }

  function DecodeInt64(j: Json): Decoded<Int64> {
    if j.JInt? && -0x8000_0000_0000_0000 <= j.n < 0x8000_0000_0000_0000 then Ok(j.n) else Err(WrongType)
  }

  function DecodeInt32(j: Json): Decoded<Int32> {
    if j.JInt? && -0x8000_0000 <= j.n < 0x8000_0000 then Ok(j.n) else Err(WrongType)
  }

  /** A field that is written only when it is set. */
  function Optional<T>(key: string, o: Opt<T>, encode: T -> Json): seq<Field> {
    if o.present then [Field(key, encode(o.value))] else []
  }

  function Listed<T>(key: string, list: Option<seq<T>>, encode: T -> Json): seq<Field> {
    if list.Some? then [Field(key, EncodeList(list.value, encode))] else []
  }

  function EncodeList<T>(list: seq<T>, encode: T -> Json): Json {
    JArray(seq(|list|, i requires 0 <= i < |list| => encode(list[i])))
  }

  function DecodeList<T>(j: Json, decode: Json -> Decoded<T>): Decoded<seq<T>> {
    if j.JArray? then OverElems(decode, j.elems) else Err(WrongType)
  }

  function DecodeObject<S>(on: OnField<S>, s: S, j: Json): Decoded<S> {
    if j.JObject? then OverFields(on, s, j.fields) else Err(WrongType)
  }

  // ---------------------------------------------------------------- ProductImage

  function ImageFields(s: ProductImage): seq<Field> {
    Optional("thumbnail", s.thumbnail, v => JString(v))
    + Optional("mobile", s.mobile, v => JString(v))
    + Optional("tablet", s.tablet, v => JString(v))
    + Optional("desktop", s.desktop, v => JString(v))
  }

  function EncodeImage(s: ProductImage): Json { JObject(ImageFields(s)) }

  /** Set a field of the receiver from a decoded value, or pass the error on. */
  function Assign<S, T>(d: Decoded<T>, assign: T -> S): Decoded<S> {
    if d.Err? then Err(d.error) else Ok(assign(d.value))
  }

  function OnImageField(s: ProductImage, f: Field): Decoded<ProductImage> {
    match f.key
    case "thumbnail" => Assign(DecodeString(f.value), v => s.(thumbnail := Opt(v, true)))
    case "mobile" => Assign(DecodeString(f.value), v => s.(mobile := Opt(v, true)))
    case "tablet" => Assign(DecodeString(f.value), v => s.(tablet := Opt(v, true)))
    case "desktop" => Assign(DecodeString(f.value), v => s.(desktop := Opt(v, true)))
    case _ => Ok(s)
  }

  function DecodeImage(j: Json): Decoded<ProductImage> {
    DecodeObject(OnImageField, ZERO_IMAGE, j)
  }

  // ---------------------------------------------------------------- Product

  function ProductFields(s: Product): seq<Field> {
    Optional("id", s.id, v => JString(v))
    + Optional("name", s.name, v => JString(v))
    + Optional("price", s.price, EncodeFloat)
    + Optional("category", s.category, v => JString(v))
    + if s.image.present then [Field("image", EncodeImage(s.image.value))] else []
  }

  function EncodeProduct(s: Product): Json { JObject(ProductFields(s)) }

  function OnProductField(s: Product, f: Field): Decoded<Product> {
    match f.key
    case "id" => Assign(DecodeString(f.value), v => s.(id := Opt(v, true)))
    case "name" => Assign(DecodeString(f.value), v => s.(name := Opt(v, true)))
    case "price" => Assign(DecodeFloat(f.value), v => s.(price := Opt(v, true)))
    case "category" => Assign(DecodeString(f.value), v => s.(category := Opt(v, true)))
    case "image" => Assign(DecodeImage(f.value), v => s.(image := OptProductImage(v, true)))
    case _ => Ok(s)
  }

  function DecodeProduct(j: Json): Decoded<Product> {
    DecodeObject(OnProductField, ZERO_PRODUCT, j)
  }

  // ---------------------------------------------------------------- OrderItem

  function OrderItemFields(s: OrderItem): seq<Field> {
    Optional("productId", s.productId, v => JString(v))
    + Optional("quantity", s.quantity, (v: Int64) => JInt(v))
  }

  function EncodeOrderItem(s: OrderItem): Json { JObject(OrderItemFields(s)) }

  function OnOrderItemField(s: OrderItem, f: Field): Decoded<OrderItem> {
    match f.key
    case "productId" => Assign(DecodeString(f.value), v => s.(productId := Opt(v, true)))
    case "quantity" => Assign(DecodeInt64(f.value), (v: Int64) => s.(quantity := Opt(v, true)))
    case _ => Ok(s)
  }

  function DecodeOrderItem(j: Json): Decoded<OrderItem> {
    DecodeObject(OnOrderItemField, ZERO_ORDER_ITEM, j)
  }

  // ---------------------------------------------------------------- Order

  function OrderFields(s: Order): seq<Field> {
    Optional("id", s.id, v => JString(v))
    + Optional("total", s.total, EncodeFloat)
    + Optional("discounts", s.discounts, EncodeFloat)
    + Listed("items", s.items, EncodeOrderItem)
    + Listed("products", s.products, EncodeProduct)
  }

  function EncodeOrder(s: Order): Json { JObject(OrderFields(s)) }

  function OnOrderField(s: Order, f: Field): Decoded<Order> {
    match f.key
    case "id" => Assign(DecodeString(f.value), v => s.(id := Opt(v, true)))
    case "total" => Assign(DecodeFloat(f.value), v => s.(total := Opt(v, true)))
    case "discounts" => Assign(DecodeFloat(f.value), v => s.(discounts := Opt(v, true)))
    case "items" => Assign(DecodeList(f.value, DecodeOrderItem), v => s.(items := Some(v)))
    case "products" => Assign(DecodeList(f.value, DecodeProduct), v => s.(products := Some(v)))
    case _ => Ok(s)
  }

  function DecodeOrder(j: Json): Decoded<Order> {
    DecodeObject(OnOrderField, ZERO_ORDER, j)
  }

  // ---------------------------------------------------------------- required fields

  /** A receiver together with its `requiredBitSet`. */
  datatype Tracked<S> = Tracked(receiver: S, bits: nat)

  function Mark(bits: nat, fieldIdx: nat): nat {
    Bitwise(Or, bits, Pow2(fieldIdx))
  }

  function Itoa(n: nat): string {
    (if n < 10 then "" else Itoa(n / 10)) + ["0123456789"[n % 10]]
  }

  function FieldName(names: seq<string>, idx: nat): string {
    if idx < |names| then names[idx] else Itoa(idx)
  }

  /** The bits of `mask` that are not in `bits`. */
  function MissedBits(bits: nat, mask: nat): nat {
    Bitwise(Xor, Bitwise(And, bits, mask), mask)
  }

  function NamesAt(positions: seq<nat>, names: seq<string>): seq<string> {
    seq(|positions|, i requires 0 <= i < |positions| => FieldName(names, positions[i]))
  }

  /** The names of the required fields that were not seen, in the order of their indices. */
  function MissedNames(bits: nat, mask: nat, names: seq<string>): seq<string> {
    NamesAt(Positions(MissedBits(bits, mask), 0), names)
  }

  lemma NamesAtNext(all: seq<nat>, n: nat, names: seq<string>)
    requires n < |all|
    ensures NamesAt(all[..n + 1], names) == NamesAt(all[..n], names) + [FieldName(names, all[n])]
  {
  }

  /** The lowest set bit is the next position to report; clearing it leaves the ones after. */
  lemma LowestIsNext(result: nat, all: seq<nat>, n: nat)
    requires n < |all| && Positions(result, 0) == all[n..]
    ensures result > 0 && TrailingZeros(result) == all[n]
    ensures Positions(Bitwise(AndNot, result, Pow2(TrailingZeros(result))), 0) == all[n + 1..]
  {
    TrailingZerosIsFirst(result, 0);
    ClearLowest(result, 0);
    assert all[n..][0] == all[n] && all[n..][1..] == all[n + 1..];
  }

  /** One round: the name at the lowest missed bit, and the bits without it. */
  method NextMissed(result: nat, names: seq<string>, ghost all: seq<nat>, ghost n: nat)
    returns (name: string, rest: nat)
    requires n < |all| && Positions(result, 0) == all[n..]
    ensures name == FieldName(names, all[n]) && Positions(rest, 0) == all[n + 1..]
  {
    LowestIsNext(result, all, n);
    var fieldIdx := TrailingZeros(result);
    if fieldIdx < |names| {
      name := names[fieldIdx];
    } else {
      name := Itoa(fieldIdx);
    }
    rest := Bitwise(AndNot, result, Pow2(fieldIdx));
  }

  /** The loop of the source: as many rounds as missed bits, lowest bit first, each cleared in turn. */
  method CollectMissed(bits: nat, mask: nat, names: seq<string>) returns (failures: seq<string>)
    ensures failures == MissedNames(bits, mask, names)
  {
    failures := [];
    var result := Bitwise(Xor, Bitwise(And, bits, mask), mask);
    ghost var all := Positions(result, 0);
    OnesCountIsLength(result, 0);
    if result != 0 {
      var missed := OnesCount(result);
      for bitN := 0 to missed
        invariant Positions(result, 0) == all[bitN..]
        invariant failures == NamesAt(all[..bitN], names)
      {
        var name, rest := NextMissed(result, names, all, bitN);
        NamesAtNext(all, bitN, names);
        failures := failures + [name];
        result := rest;
      }
      assert all[..missed] == all;
    }
  }

  /** Decoding an object with required fields: the fields first, then the missing ones. */
  function DecodeRequired<S>(on: OnField<Tracked<S>>, zero: S, mask: nat, names: seq<string>, j: Json): Decoded<S> {
    var r := DecodeObject(on, Tracked(zero, 0), j);
    if r.Err? then Err(r.error)
    else
      var missed := MissedNames(r.value.bits, mask, names);
      if missed != [] then Err(MissingFields(missed)) else Ok(r.value.receiver)
  }

  method DecodeRequiredObject<S>(on: OnField<Tracked<S>>, zero: S, mask: nat, names: seq<string>, j: Json)
    returns (r: Decoded<S>)
    ensures r == DecodeRequired(on, zero, mask, names, j)
  {
    if !j.JObject? {
      return Err(WrongType);
    }
    var fields := ObjBytes(on, Tracked(zero, 0), j.fields);
    if fields.Err? {
      return Err(fields.error);
    }
    var failures := CollectMissed(fields.value.bits, mask, names);
    if |failures| > 0 {
      return Err(MissingFields(failures));
    }
    r := Ok(fields.value.receiver);
  }

  // ---------------------------------------------------------------- OrderReqItemsItem

  const ORDER_REQ_ITEM_NAMES := ["productId", "quantity"]
  const ORDER_REQ_ITEM_MASK := 3

  function EncodeOrderReqItem(s: OrderReqItem): Json {
    JObject([Field("productId", JString(s.productId)), Field("quantity", JInt(s.quantity))])
  }

  function OnOrderReqItemField(t: Tracked<OrderReqItem>, f: Field): Decoded<Tracked<OrderReqItem>> {
    var s := t.receiver;
    match f.key
    case "productId" => Assign(DecodeString(f.value), v => Tracked(s.(productId := v), Mark(t.bits, 0)))
    case "quantity" => Assign(DecodeInt64(f.value), (v: Int64) => Tracked(s.(quantity := v), Mark(t.bits, 1)))
    case _ => Ok(t)
  }

  function DecodeOrderReqItem(j: Json): Decoded<OrderReqItem> {
    DecodeRequired(OnOrderReqItemField, ZERO_ORDER_REQ_ITEM, ORDER_REQ_ITEM_MASK, ORDER_REQ_ITEM_NAMES, j)
  }

  // ---------------------------------------------------------------- OrderReq

  const ORDER_REQ_NAMES := ["couponCode", "items"]
  const ORDER_REQ_MASK := 2

  /** The list is written even when it is nil. */
  function OrderReqFields(s: OrderReq): seq<Field> {
    Optional("couponCode", s.couponCode, v => JString(v))
    + [Field("items", EncodeList(if s.items.Some? then s.items.value else [], EncodeOrderReqItem))]
  }

  function EncodeOrderReq(s: OrderReq): Json { JObject(OrderReqFields(s)) }

  function OnOrderReqField(t: Tracked<OrderReq>, f: Field): Decoded<Tracked<OrderReq>> {
    var s := t.receiver;
    match f.key
    case "couponCode" => Assign(DecodeString(f.value), v => Tracked(s.(couponCode := Opt(v, true)), t.bits))
    case "items" =>
      Assign(DecodeList(f.value, DecodeOrderReqItem), v => Tracked(s.(items := Some(v)), Mark(t.bits, 1)))
    case _ => Ok(t)
  }

  function DecodeOrderReq(j: Json): Decoded<OrderReq> {
    DecodeRequired(OnOrderReqField, ZERO_ORDER_REQ, ORDER_REQ_MASK, ORDER_REQ_NAMES, j)
  }

  // ---------------------------------------------------------------- Error

  const ERROR_NAMES := ["code", "message"]
  const ERROR_MASK := 3

  function EncodeErrorBody(s: ErrorBody): Json {
    JObject([Field("code", JInt(s.code)), Field("message", JString(s.message))])
  }

  function OnErrorField(t: Tracked<ErrorBody>, f: Field): Decoded<Tracked<ErrorBody>> {
    var s := t.receiver;
    match f.key
    case "code" => Assign(DecodeInt32(f.value), (v: Int32) => Tracked(s.(code := v), Mark(t.bits, 0)))
    case "message" => Assign(DecodeString(f.value), v => Tracked(s.(message := v), Mark(t.bits, 1)))
    case _ => Ok(t)
  }

  function DecodeErrorBody(j: Json): Decoded<ErrorBody> {
    DecodeRequired(OnErrorField, ZERO_ERROR, ERROR_MASK, ERROR_NAMES, j)
  }
}

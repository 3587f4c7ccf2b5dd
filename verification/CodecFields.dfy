/** What a decoder makes of an object: which fields it needs, which it ignores, and when it fails. */
module CodecFields {
  import opened Common
  import opened Json
  import opened Bits
  import opened Codec

  // ---------------------------------------------------------------- the fields each decoder knows

  const IMAGE_KEYS := {"thumbnail", "mobile", "tablet", "desktop"}
  const PRODUCT_KEYS := {"id", "name", "price", "category", "image"}
  const ORDER_ITEM_KEYS := {"productId", "quantity"}
  const ORDER_KEYS := {"id", "total", "discounts", "items", "products"}
  const ORDER_REQ_KEYS := {"couponCode", "items"}
  const ERROR_KEYS := {"code", "message"}

  lemma FieldOrderIrrelevant()
    ensures Commutes(OnImageField) && Commutes(OnProductField) && Commutes(OnOrderItemField) && Commutes(OnOrderField)
    ensures Commutes(OnOrderReqItemField) && Commutes(OnOrderReqField) && Commutes(OnErrorField)
  {
    ImageCommutes();
    ProductCommutes();
    OrderItemCommutes();
    OrderCommutes();
    OrderReqItemCommutes();
    OrderReqCommutes();
    ErrorCommutes();
  }

  lemma ImageCommutes()
    ensures Commutes(OnImageField)
  {
    forall s, f: Field, g: Field | f.key != g.key
      ensures Same(OverFields(OnImageField, s, [f, g]), OverFields(OnImageField, s, [g, f]))
    {
      TwoFields(OnImageField, s, f, g);
      TwoFields(OnImageField, s, g, f);
    }
  }

  lemma ProductCommutes()
    ensures Commutes(OnProductField)
  {
    forall s, f: Field, g: Field | f.key != g.key
      ensures Same(OverFields(OnProductField, s, [f, g]), OverFields(OnProductField, s, [g, f]))
    {
      TwoFields(OnProductField, s, f, g);
      TwoFields(OnProductField, s, g, f);
    }
  }

  lemma OrderItemCommutes()
    ensures Commutes(OnOrderItemField)
  {
    forall s, f: Field, g: Field | f.key != g.key
      ensures Same(OverFields(OnOrderItemField, s, [f, g]), OverFields(OnOrderItemField, s, [g, f]))
    {
      TwoFields(OnOrderItemField, s, f, g);
      TwoFields(OnOrderItemField, s, g, f);
    }
  }

  lemma OrderCommutes()
    ensures Commutes(OnOrderField)
  {
    forall s, f: Field, g: Field | f.key != g.key
      ensures Same(OverFields(OnOrderField, s, [f, g]), OverFields(OnOrderField, s, [g, f]))
    {
      TwoFields(OnOrderField, s, f, g);
      TwoFields(OnOrderField, s, g, f);
    }
  }

  lemma MarkBit(bits: nat, k: nat, i: nat)
    ensures Bit(Mark(bits, k), i) <==> Bit(bits, i) || i == k
  {
    BitwiseBit(Or, bits, Pow2(k), i);
    Pow2Bit(k, i);
  }

  lemma MarksCommute(bits: nat, j: nat, k: nat)
    ensures Mark(Mark(bits, j), k) == Mark(Mark(bits, k), j)
  {
    forall i: nat ensures Bit(Mark(Mark(bits, j), k), i) == Bit(Mark(Mark(bits, k), j), i) {
      MarkBit(Mark(bits, j), k, i);
      MarkBit(bits, j, i);
      MarkBit(Mark(bits, k), j, i);
      MarkBit(bits, k, i);
    }
    SameBits(Mark(Mark(bits, j), k), Mark(Mark(bits, k), j));
  }

  lemma OrderReqItemCommutes()
    ensures Commutes(OnOrderReqItemField)
  {
    forall s, f: Field, g: Field | f.key != g.key
      ensures Same(OverFields(OnOrderReqItemField, s, [f, g]), OverFields(OnOrderReqItemField, s, [g, f]))
    {
      TwoFields(OnOrderReqItemField, s, f, g);
      TwoFields(OnOrderReqItemField, s, g, f);
      MarksCommute(s.bits, 0, 1);
    }
  }

  lemma OrderReqCommutes()
    ensures Commutes(OnOrderReqField)
  {
    forall s, f: Field, g: Field | f.key != g.key
      ensures Same(OverFields(OnOrderReqField, s, [f, g]), OverFields(OnOrderReqField, s, [g, f]))
    {
      TwoFields(OnOrderReqField, s, f, g);
      TwoFields(OnOrderReqField, s, g, f);
    }
  }

  lemma ErrorCommutes()
    ensures Commutes(OnErrorField)
  {
    forall s, f: Field, g: Field | f.key != g.key
      ensures Same(OverFields(OnErrorField, s, [f, g]), OverFields(OnErrorField, s, [g, f]))
    {
      TwoFields(OnErrorField, s, f, g);
      TwoFields(OnErrorField, s, g, f);
      MarksCommute(s.bits, 0, 1);
    }
  }

  // ---------------------------------------------------------------- any order, any unknown fields

  lemma ImageAnyOrder(xs: seq<Field>, ys: seq<Field>)
    requires Alike(xs, ys, IMAGE_KEYS)
    ensures Same(DecodeImage(JObject(xs)), DecodeImage(JObject(ys)))
  {
    FieldOrderIrrelevant();
    AlikeDecodeAlike(OnImageField, IMAGE_KEYS, ZERO_IMAGE, xs, ys);
  }

  /** A product decodes alike from any order of its fields, with any unknown fields among them. */
  lemma ProductAnyOrder(xs: seq<Field>, ys: seq<Field>)
    requires Alike(xs, ys, PRODUCT_KEYS)
    ensures Same(DecodeProduct(JObject(xs)), DecodeProduct(JObject(ys)))
  {
    FieldOrderIrrelevant();
    AlikeDecodeAlike(OnProductField, PRODUCT_KEYS, ZERO_PRODUCT, xs, ys);
  }

  lemma OrderItemAnyOrder(xs: seq<Field>, ys: seq<Field>)
    requires Alike(xs, ys, ORDER_ITEM_KEYS)
    ensures Same(DecodeOrderItem(JObject(xs)), DecodeOrderItem(JObject(ys)))
  {
    FieldOrderIrrelevant();
    AlikeDecodeAlike(OnOrderItemField, ORDER_ITEM_KEYS, ZERO_ORDER_ITEM, xs, ys);
  }

  lemma OrderAnyOrder(xs: seq<Field>, ys: seq<Field>)
    requires Alike(xs, ys, ORDER_KEYS)
    ensures Same(DecodeOrder(JObject(xs)), DecodeOrder(JObject(ys)))
  {
    FieldOrderIrrelevant();
    AlikeDecodeAlike(OnOrderField, ORDER_KEYS, ZERO_ORDER, xs, ys);
  }

  lemma OrderReqItemAnyOrder(xs: seq<Field>, ys: seq<Field>)
    requires Alike(xs, ys, ORDER_ITEM_KEYS)
    ensures Same(DecodeOrderReqItem(JObject(xs)), DecodeOrderReqItem(JObject(ys)))
  {
    FieldOrderIrrelevant();
    AlikeDecodeAlike(OnOrderReqItemField, ORDER_ITEM_KEYS, Tracked(ZERO_ORDER_REQ_ITEM, 0), xs, ys);
  }

  lemma OrderReqAnyOrder(xs: seq<Field>, ys: seq<Field>)
    requires Alike(xs, ys, ORDER_REQ_KEYS)
    ensures Same(DecodeOrderReq(JObject(xs)), DecodeOrderReq(JObject(ys)))
  {
    FieldOrderIrrelevant();
    AlikeDecodeAlike(OnOrderReqField, ORDER_REQ_KEYS, Tracked(ZERO_ORDER_REQ, 0), xs, ys);
  }

  lemma ErrorAnyOrder(xs: seq<Field>, ys: seq<Field>)
    requires Alike(xs, ys, ERROR_KEYS)
    ensures Same(DecodeErrorBody(JObject(xs)), DecodeErrorBody(JObject(ys)))
  {
    FieldOrderIrrelevant();
    AlikeDecodeAlike(OnErrorField, ERROR_KEYS, Tracked(ZERO_ERROR, 0), xs, ys);
  }

  // ---------------------------------------------------------------- required fields

  predicate Has(fields: seq<Field>, key: string) {
    exists i | 0 <= i < |fields| :: fields[i].key == key
  }

  /** The positions the missing-field loop reports: the mask's bits that were not seen, in increasing order. */
  lemma MissedExactly(bits: nat, mask: nat, i: nat)
    ensures i in Positions(MissedBits(bits, mask), 0) <==> Bit(mask, i) && !Bit(bits, i)
    ensures Ascending(Positions(MissedBits(bits, mask), 0))
  {
    var m := MissedBits(bits, mask);
    PositionsMember(m, 0, i);
    PositionsAscending(m, 0);
    BitwiseBit(Xor, Bitwise(And, bits, mask), mask, i);
    BitwiseBit(And, bits, mask, i);
  }

  /** Step by step, bit i records whether the i-th named field has been seen. */
  ghost predicate Records<S(!new)>(on: OnField<Tracked<S>>, names: seq<string>, i: nat) {
    i < |names|
    && forall t, f :: on(t, f).Ok? ==> (Bit(on(t, f).value.bits, i) <==> Bit(t.bits, i) || f.key == names[i])
  }

  lemma {:induction false} BitMeansSeen<S(!new)>(on: OnField<Tracked<S>>, t: Tracked<S>, names: seq<string>, i: nat,
                                                 fields: seq<Field>)
    requires Records(on, names, i) && OverFields(on, t, fields).Ok?
    ensures Bit(OverFields(on, t, fields).value.bits, i) <==> Bit(t.bits, i) || Has(fields, names[i])
    decreases |fields|
  {
    if fields != [] {
      var next := on(t, fields[0]).value;
      BitMeansSeen(on, next, names, i, fields[1..]);
      assert Has(fields, names[i]) <==> fields[0].key == names[i] || Has(fields[1..], names[i]) by {
        if Has(fields[1..], names[i]) {
          var j :| 0 <= j < |fields[1..]| && fields[1..][j].key == names[i];
          assert fields[j + 1].key == names[i];
        }
        if j :| 0 < j < |fields| && fields[j].key == names[i] { assert fields[1..][j - 1].key == names[i]; }
      }
    }
  }

  /** The indices below n of the required names that the object does not have. */
  function AbsentIndices(fields: seq<Field>, mask: nat, names: seq<string>, n: nat): seq<nat>
    requires n <= |names|
  {
    if n == 0 then []
    else
      AbsentIndices(fields, mask, names, n - 1)
      + if Bit(mask, n - 1) && !Has(fields, names[n - 1]) then [n - 1] else []
  }

  lemma {:induction false} AbsentIndicesSpec(fields: seq<Field>, mask: nat, names: seq<string>, n: nat)
    requires n <= |names|
    ensures forall i: nat :: i in AbsentIndices(fields, mask, names, n) <==>
                             i < n && Bit(mask, i) && !Has(fields, names[i])
    ensures Ascending(AbsentIndices(fields, mask, names, n))
  {
    if n > 0 {
      AbsentIndicesSpec(fields, mask, names, n - 1);
      AppendLarger(AbsentIndices(fields, mask, names, n - 1), n - 1);
    }
  }

  lemma AppendLarger(ps: seq<nat>, last: nat)
    requires Ascending(ps) && forall i | i in ps :: i < last
    ensures Ascending(ps + [last])
  {
    forall k | 0 <= k < |ps| ensures ps[k] < last { assert ps[k] in ps; }
  }

  /** The required names the object does not have, each once, in the order of their indices. */
  function Absent(fields: seq<Field>, mask: nat, names: seq<string>): seq<string> {
    NamesAt(AbsentIndices(fields, mask, names, |names|), names)
  }

  /**
   Decoding well-typed fields fails exactly when a required field is absent, and then reports
   exactly the absent ones, each once, in the order of their indices.
   */
  lemma {:induction false} MissingReported<S(!new)>(on: OnField<Tracked<S>>, ok: Field -> bool, zero: S, mask: nat,
                                                    names: seq<string>, fields: seq<Field>)
    requires forall i: nat | Bit(mask, i) :: Records(on, names, i)
    requires forall t, f :: on(t, f).Ok? <==> ok(f)
    requires forall f | f in fields :: ok(f)
    ensures OverFields(on, Tracked(zero, 0), fields).Ok?
    ensures var absent := Absent(fields, mask, names);
            DecodeRequired(on, zero, mask, names, JObject(fields))
            == if absent == [] then Ok(OverFields(on, Tracked(zero, 0), fields).value.receiver)
               else Err(MissingFields(absent))
  {
    TraversalSucceeds(on, ok, Tracked(zero, 0), fields);
    var bits := OverFields(on, Tracked(zero, 0), fields).value.bits;
    var ps, qs := Positions(MissedBits(bits, mask), 0), AbsentIndices(fields, mask, names, |names|);
    AbsentIndicesSpec(fields, mask, names, |names|);
    forall i: nat ensures i in Members(ps) <==> i in Members(qs) {
      MissedExactly(bits, mask, i);
      if Bit(mask, i) {
        ZeroHasNoBits(i);
        BitMeansSeen(on, Tracked(zero, 0), names, i, fields);
      }
    }
    MissedExactly(bits, mask, 0);
    AscendingUnique(ps, qs);
  }

  lemma OrderReqItemRecords()
    ensures Records(OnOrderReqItemField, ORDER_REQ_ITEM_NAMES, 0)
    ensures Records(OnOrderReqItemField, ORDER_REQ_ITEM_NAMES, 1)
  {
    forall t, f | OnOrderReqItemField(t, f).Ok?
      ensures forall i | i == 0 || i == 1 ::
                Bit(OnOrderReqItemField(t, f).value.bits, i) <==> Bit(t.bits, i) || f.key == ORDER_REQ_ITEM_NAMES[i]
    {
      MarkBit(t.bits, 0, 0); MarkBit(t.bits, 0, 1); MarkBit(t.bits, 1, 0); MarkBit(t.bits, 1, 1);
    }
  }

  lemma ErrorRecords()
    ensures Records(OnErrorField, ERROR_NAMES, 0) && Records(OnErrorField, ERROR_NAMES, 1)
  {
    forall t, f | OnErrorField(t, f).Ok?
      ensures forall i | i == 0 || i == 1 ::
                Bit(OnErrorField(t, f).value.bits, i) <==> Bit(t.bits, i) || f.key == ERROR_NAMES[i]
    {
      MarkBit(t.bits, 0, 0); MarkBit(t.bits, 0, 1); MarkBit(t.bits, 1, 0); MarkBit(t.bits, 1, 1);
    }
  }

  lemma OrderReqRecords()
    ensures Records(OnOrderReqField, ORDER_REQ_NAMES, 1)
  {
    forall t, f | OnOrderReqField(t, f).Ok?
      ensures Bit(OnOrderReqField(t, f).value.bits, 1) <==> Bit(t.bits, 1) || f.key == ORDER_REQ_NAMES[1]
    {
      MarkBit(t.bits, 1, 1);
    }
  }

  lemma {:induction false} NoHighBits(mask: nat, i: nat)
    requires mask < 4 && i >= 2
    ensures !Bit(mask, i)
  {
    assert mask / 2 / 2 == 0;
    ZeroHasNoBits(i - 2);
    assert Bit(mask, i) == Bit(mask / 2, i - 1) == Bit(mask / 2 / 2, i - 2);
  }

  /** The absent names when both of two are required. */
  lemma TwoRequired(fields: seq<Field>, names: seq<string>)
    requires |names| == 2
    ensures Absent(fields, 3, names)
         == (if Has(fields, names[0]) then [] else [names[0]]) + (if Has(fields, names[1]) then [] else [names[1]])
  {
    assert Bit(3, 0) && Bit(3, 1);
    assert AbsentIndices(fields, 3, names, 0) == [];
    var ps := AbsentIndices(fields, 3, names, 1);
    assert ps == if Has(fields, names[0]) then [] else [0];
    assert AbsentIndices(fields, 3, names, 2) == ps + if Has(fields, names[1]) then [] else [1];
  }

  // ---------------------------------------------------------------- well-typed objects

  predicate StringField(f: Field) { f.value.JString? }

  predicate NumberField(f: Field) { f.value.JInt? || f.value.JFraction? }

  predicate IntField(f: Field, low: int, high: int) { f.value.JInt? && low <= f.value.n < high }

  predicate ImageFieldOk(f: Field) {
    f.key in IMAGE_KEYS ==> StringField(f)
  }

  predicate ImageOk(j: Json) {
    j.JObject? && forall f | f in j.fields :: ImageFieldOk(f)
  }

  predicate ProductFieldOk(f: Field) {
    match f.key
    case "price" => NumberField(f)
    case "image" => ImageOk(f.value)
    case _ => f.key in PRODUCT_KEYS ==> StringField(f)
  }

  predicate ProductOk(j: Json) {
    j.JObject? && forall f | f in j.fields :: ProductFieldOk(f)
  }

  predicate OrderItemFieldOk(f: Field) {
    match f.key
    case "productId" => StringField(f)
    case "quantity" => IntField(f, -0x8000_0000_0000_0000, 0x8000_0000_0000_0000)
    case _ => true
  }

  predicate OrderItemOk(j: Json) {
    j.JObject? && forall f | f in j.fields :: OrderItemFieldOk(f)
  }

  predicate ListOk(j: Json, ok: Json -> bool) {
    j.JArray? && forall x | x in j.elems :: ok(x)
  }

  predicate OrderFieldOk(f: Field) {
    match f.key
    case "id" => StringField(f)
    case "total" => NumberField(f)
    case "discounts" => NumberField(f)
    case "items" => ListOk(f.value, OrderItemOk)
    case "products" => ListOk(f.value, ProductOk)
    case _ => true
  }

  predicate OrderOk(j: Json) {
    j.JObject? && forall f | f in j.fields :: OrderFieldOk(f)
  }

  predicate OrderReqItemOk(j: Json) {
    OrderItemOk(j) && Has(j.fields, "productId") && Has(j.fields, "quantity")
  }

  predicate OrderReqFieldOk(f: Field) {
    match f.key
    case "couponCode" => StringField(f)
    case "items" => ListOk(f.value, OrderReqItemOk)
    case _ => true
  }

  predicate OrderReqOk(j: Json) {
    j.JObject? && (forall f | f in j.fields :: OrderReqFieldOk(f)) && Has(j.fields, "items")
  }

  predicate ErrorFieldOk(f: Field) {
    match f.key
    case "code" => IntField(f, -0x8000_0000, 0x8000_0000)
    case "message" => StringField(f)
    case _ => true
  }

  predicate ErrorOk(j: Json) {
    && j.JObject? && (forall f | f in j.fields :: ErrorFieldOk(f))
    && Has(j.fields, "code") && Has(j.fields, "message")
  }

  lemma ImageDecodes(j: Json)
    ensures DecodeImage(j).Ok? <==> ImageOk(j)
  {
    if j.JObject? { TraversalSucceeds(OnImageField, ImageFieldOk, ZERO_IMAGE, j.fields); }
  }

  lemma ProductDecodes(j: Json)
    ensures DecodeProduct(j).Ok? <==> ProductOk(j)
  {
    forall s, f ensures OnProductField(s, f).Ok? <==> ProductFieldOk(f) { ImageDecodes(f.value); }
    if j.JObject? { TraversalSucceeds(OnProductField, ProductFieldOk, ZERO_PRODUCT, j.fields); }
  }

  lemma OrderItemDecodes(j: Json)
    ensures DecodeOrderItem(j).Ok? <==> OrderItemOk(j)
  {
    if j.JObject? { TraversalSucceeds(OnOrderItemField, OrderItemFieldOk, ZERO_ORDER_ITEM, j.fields); }
  }

  lemma OrderFieldDecodes(s: Order, f: Field)
    ensures OnOrderField(s, f).Ok? <==> OrderFieldOk(f)
  {
    if f.value.JArray? {
      forall j ensures DecodeOrderItem(j).Ok? <==> OrderItemOk(j) { OrderItemDecodes(j); }
      forall j ensures DecodeProduct(j).Ok? <==> ProductOk(j) { ProductDecodes(j); }
      ElementsSucceed(DecodeOrderItem, OrderItemOk, f.value.elems);
      ElementsSucceed(DecodeProduct, ProductOk, f.value.elems);
    }
  }

  /** An order decodes exactly when every field it knows has its type, at every depth. */
  lemma OrderDecodes(j: Json)
    ensures DecodeOrder(j).Ok? <==> OrderOk(j)
  {
    forall s, f ensures OnOrderField(s, f).Ok? <==> OrderFieldOk(f) { OrderFieldDecodes(s, f); }
    if j.JObject? { TraversalSucceeds(OnOrderField, OrderFieldOk, ZERO_ORDER, j.fields); }
  }

  // ---------------------------------------------------------------- what each request needs

  /** On well-typed fields a request item fails exactly for an absent field, and names the absent ones. */
  lemma OrderReqItemMissing(fields: seq<Field>)
    requires forall f | f in fields :: OrderItemFieldOk(f)
    ensures OverFields(OnOrderReqItemField, Tracked(ZERO_ORDER_REQ_ITEM, 0), fields).Ok?
    ensures var d := DecodeOrderReqItem(JObject(fields));
            && (d.Ok? <==> Has(fields, "productId") && Has(fields, "quantity"))
            && if d.Ok? then
                 d.value == OverFields(OnOrderReqItemField, Tracked(ZERO_ORDER_REQ_ITEM, 0), fields).value.receiver
               else d.error == MissingFields((if Has(fields, "productId") then [] else ["productId"])
                                             + (if Has(fields, "quantity") then [] else ["quantity"]))
  {
    OrderReqItemRecords();
    TwoRequired(fields, ORDER_REQ_ITEM_NAMES);
    forall i: nat | Bit(3, i) ensures Records(OnOrderReqItemField, ORDER_REQ_ITEM_NAMES, i) {
      if i >= 2 { NoHighBits(3, i); }
    }
    MissingReported(OnOrderReqItemField, OrderItemFieldOk, ZERO_ORDER_REQ_ITEM, 3, ORDER_REQ_ITEM_NAMES, fields);
  }

  lemma OrderReqItemDecodes(j: Json)
    ensures DecodeOrderReqItem(j).Ok? <==> OrderReqItemOk(j)
  {
    if OrderItemOk(j) {
      OrderReqItemMissing(j.fields);
    } else if j.JObject? {
      TraversalSucceeds(OnOrderReqItemField, OrderItemFieldOk, Tracked(ZERO_ORDER_REQ_ITEM, 0), j.fields);
    }
  }

  lemma ErrorMissing(fields: seq<Field>)
    requires forall f | f in fields :: ErrorFieldOk(f)
    ensures OverFields(OnErrorField, Tracked(ZERO_ERROR, 0), fields).Ok?
    ensures var d := DecodeErrorBody(JObject(fields));
            && (d.Ok? <==> Has(fields, "code") && Has(fields, "message"))
            && if d.Ok? then d.value == OverFields(OnErrorField, Tracked(ZERO_ERROR, 0), fields).value.receiver
               else d.error == MissingFields((if Has(fields, "code") then [] else ["code"])
                                             + (if Has(fields, "message") then [] else ["message"]))
  {
    ErrorRecords();
    TwoRequired(fields, ERROR_NAMES);
    forall i: nat | Bit(3, i) ensures Records(OnErrorField, ERROR_NAMES, i) {
      if i >= 2 { NoHighBits(3, i); }
    }
    MissingReported(OnErrorField, ErrorFieldOk, ZERO_ERROR, 3, ERROR_NAMES, fields);
  }

  lemma ErrorDecodes(j: Json)
    ensures DecodeErrorBody(j).Ok? <==> ErrorOk(j)
  {
    if j.JObject? {
      TraversalSucceeds(OnErrorField, ErrorFieldOk, Tracked(ZERO_ERROR, 0), j.fields);
      if forall f | f in j.fields :: ErrorFieldOk(f) { ErrorMissing(j.fields); }
    }
  }

  lemma OrderReqFieldDecodes(t: Tracked<OrderReq>, f: Field)
    ensures OnOrderReqField(t, f).Ok? <==> OrderReqFieldOk(f)
  {
    if f.value.JArray? {
      forall j ensures DecodeOrderReqItem(j).Ok? <==> OrderReqItemOk(j) { OrderReqItemDecodes(j); }
      ElementsSucceed(DecodeOrderReqItem, OrderReqItemOk, f.value.elems);
    }
  }

  lemma OrderReqTraversal(fields: seq<Field>)
    ensures OverFields(OnOrderReqField, Tracked(ZERO_ORDER_REQ, 0), fields).Ok?
       <==> forall f | f in fields :: OrderReqFieldOk(f)
  {
    forall t, f ensures OnOrderReqField(t, f).Ok? <==> OrderReqFieldOk(f) { OrderReqFieldDecodes(t, f); }
    TraversalSucceeds(OnOrderReqField, OrderReqFieldOk, Tracked(ZERO_ORDER_REQ, 0), fields);
  }

  lemma OrderReqMissing(fields: seq<Field>)
    requires forall f | f in fields :: OrderReqFieldOk(f)
    ensures OverFields(OnOrderReqField, Tracked(ZERO_ORDER_REQ, 0), fields).Ok?
    ensures DecodeOrderReq(JObject(fields))
         == if Has(fields, "items") then
              Ok(OverFields(OnOrderReqField, Tracked(ZERO_ORDER_REQ, 0), fields).value.receiver)
            else Err(MissingFields(["items"]))
  {
    OrderReqRecords();
    assert ORDER_REQ_NAMES[1] == "items" && !Bit(2, 0) && Bit(2, 1);
    forall i: nat | Bit(2, i) ensures Records(OnOrderReqField, ORDER_REQ_NAMES, i) { if i >= 2 { NoHighBits(2, i); } }
    forall t, f ensures OnOrderReqField(t, f).Ok? <==> OrderReqFieldOk(f) { OrderReqFieldDecodes(t, f); }
    MissingReported(OnOrderReqField, OrderReqFieldOk, ZERO_ORDER_REQ, 2, ORDER_REQ_NAMES, fields);
    assert AbsentIndices(fields, 2, ORDER_REQ_NAMES, 1) == [];
    assert AbsentIndices(fields, 2, ORDER_REQ_NAMES, 2) == if Has(fields, "items") then [] else [1];
    assert Absent(fields, 2, ORDER_REQ_NAMES) == if Has(fields, "items") then [] else ["items"];
  }

  /** A request decodes exactly when its fields and those of its items are well-typed and none needed is absent. */
  lemma OrderReqDecodes(j: Json)
    ensures DecodeOrderReq(j).Ok? <==> OrderReqOk(j)
  {
    if j.JObject? {
      OrderReqTraversal(j.fields);
      if forall f | f in j.fields :: OrderReqFieldOk(f) { OrderReqMissing(j.fields); }
    }
  }
}

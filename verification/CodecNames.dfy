/** Which field of the JSON carries which member: the encoders, name by name. */
module CodecNames {
  import opened Common
  import opened Json
  import opened Codec

  /** The object has the field exactly when the value is given, and then with that value. */
  ghost predicate Carries(fields: seq<Field>, key: string, value: Option<Json>) {
    forall v :: Field(key, v) in fields <==> value == Some(v)
  }

  function Written<T>(o: Opt<T>, encode: T -> Json): Option<Json> {
    if o.present then Some(encode(o.value)) else None
  }

  function Text(o: Opt<string>): Option<Json> {
    if o.present then Some(JString(o.value)) else None
  }

  function One(b: bool): nat {
    if b then 1 else 0
  }

  /** A number is written with its own value, as an integer literal exactly if it is whole. */
  lemma NumberWritten(x: real)
    ensures EncodeFloat(x).JInt? <==> x.Floor as real == x
    ensures EncodeFloat(x).JInt? ==> EncodeFloat(x).n as real == x
    ensures !EncodeFloat(x).JInt? ==> EncodeFloat(x) == JFraction(x)
  {
  }

  // ---------------------------------------------------------------- groups of fields

  /** What an encoder writes under one name: one field, or nothing. */
  datatype Group = Group(key: string, value: Option<Json>) {
    function Fields(): seq<Field> {
      if value.Some? then [Field(key, value.value)] else []
    }
  }

  /** Groups one after the other. */
  function Flat(groups: seq<Group>): seq<Field> {
    if groups == [] then []
    else Flat(groups[..|groups| - 1]) + groups[|groups| - 1].Fields()
  }

  function Size(groups: seq<Group>): nat {
    if groups == [] then 0
    else Size(groups[..|groups| - 1]) + One(groups[|groups| - 1].value.Some?)
  }

  predicate DistinctNames(groups: seq<Group>) {
    forall i, j | 0 <= i < j < |groups| :: groups[i].key != groups[j].key
  }

  lemma {:induction false} FlatMember(groups: seq<Group>, f: Field)
    ensures f in Flat(groups) <==> exists g | g in groups :: g.key == f.key && g.value == Some(f.value)
    ensures |Flat(groups)| == Size(groups)
    decreases |groups|
  {
    if groups != [] {
      var front, last := groups[..|groups| - 1], groups[|groups| - 1];
      assert groups == front + [last];
      FlatMember(front, f);
    }
  }

  /** Groups under different names carry their values. */
  lemma FlatCarries(groups: seq<Group>, g: Group)
    requires DistinctNames(groups) && g in groups
    ensures Carries(Flat(groups), g.key, g.value)
    ensures |Flat(groups)| == Size(groups)
  {
    forall v ensures Field(g.key, v) in Flat(groups) <==> g.value == Some(v) {
      FlatMember(groups, Field(g.key, v));
    }
    FlatMember(groups, Field(g.key, JNull));
  }

  lemma FlatNext(groups: seq<Group>, g: Group)
    ensures Flat(groups + [g]) == Flat(groups) + g.Fields()
    ensures Size(groups + [g]) == Size(groups) + One(g.value.Some?)
  {
    assert (groups + [g])[..|groups|] == groups;
  }

  lemma FlatFive(g1: Group, g2: Group, g3: Group, g4: Group, g5: Group)
    ensures Flat([g1, g2, g3, g4, g5]) == g1.Fields() + g2.Fields() + g3.Fields() + g4.Fields() + g5.Fields()
    ensures Size([g1, g2, g3, g4, g5]) == One(g1.value.Some?) + One(g2.value.Some?) + One(g3.value.Some?)
                                          + One(g4.value.Some?) + One(g5.value.Some?)
  {
    FlatNext([], g1);
    FlatNext([g1], g2);
    FlatNext([g1, g2], g3);
    FlatNext([g1, g2, g3], g4);
    FlatNext([g1, g2, g3, g4], g5);
    assert [] + [g1] == [g1] && [g1] + [g2] == [g1, g2] && [g1, g2] + [g3] == [g1, g2, g3];
    assert [g1, g2, g3] + [g4] == [g1, g2, g3, g4] && [g1, g2, g3, g4] + [g5] == [g1, g2, g3, g4, g5];
  }

  /** Five groups under different names, one after the other, carry their values. */
  lemma FiveGroups(g1: Group, g2: Group, g3: Group, g4: Group, g5: Group)
    requires DistinctNames([g1, g2, g3, g4, g5])
    ensures var fields := g1.Fields() + g2.Fields() + g3.Fields() + g4.Fields() + g5.Fields();
            && Carries(fields, g1.key, g1.value) && Carries(fields, g2.key, g2.value)
            && Carries(fields, g3.key, g3.value) && Carries(fields, g4.key, g4.value)
            && Carries(fields, g5.key, g5.value)
            && |fields| == One(g1.value.Some?) + One(g2.value.Some?) + One(g3.value.Some?)
                           + One(g4.value.Some?) + One(g5.value.Some?)
  {
    var groups := [g1, g2, g3, g4, g5];
    FlatFive(g1, g2, g3, g4, g5);
    FlatCarries(groups, g1);
    FlatCarries(groups, g2);
    FlatCarries(groups, g3);
    FlatCarries(groups, g4);
    FlatCarries(groups, g5);
  }

  lemma ImageWritten(s: ProductImage)
    ensures EncodeImage(s).JObject?
    ensures var fields := EncodeImage(s).fields;
            && Carries(fields, "thumbnail", Text(s.thumbnail)) && Carries(fields, "mobile", Text(s.mobile))
            && Carries(fields, "tablet", Text(s.tablet)) && Carries(fields, "desktop", Text(s.desktop))
            && |fields| == One(s.thumbnail.present) + One(s.mobile.present) + One(s.tablet.present)
                           + One(s.desktop.present)
  {
    FiveGroups(Group("thumbnail", Text(s.thumbnail)), Group("mobile", Text(s.mobile)),
               Group("tablet", Text(s.tablet)), Group("desktop", Text(s.desktop)), Group("", None));
    var fields := ImageFields(s);
    assert fields + [] == fields;
  }

  /** Each member of a product is under its own name, and there is no other field. */
  lemma ProductWritten(s: Product)
    ensures EncodeProduct(s).JObject?
    ensures var fields := EncodeProduct(s).fields;
            && Carries(fields, "id", Text(s.id)) && Carries(fields, "name", Text(s.name))
            && Carries(fields, "category", Text(s.category))
            && Carries(fields, "price", Written(s.price, EncodeFloat))
            && Carries(fields, "image", if s.image.present then Some(EncodeImage(s.image.value)) else None)
            && |fields| == One(s.id.present) + One(s.name.present) + One(s.category.present)
                           + One(s.price.present) + One(s.image.present)
  {
    FiveGroups(Group("id", Text(s.id)), Group("name", Text(s.name)),
               Group("price", Written(s.price, EncodeFloat)), Group("category", Text(s.category)),
               Group("image", if s.image.present then Some(EncodeImage(s.image.value)) else None));
  }

  lemma OrderItemWritten(s: OrderItem)
    ensures EncodeOrderItem(s).JObject?
    ensures var fields := EncodeOrderItem(s).fields;
            && Carries(fields, "productId", Text(s.productId))
            && Carries(fields, "quantity", if s.quantity.present then Some(JInt(s.quantity.value)) else None)
            && |fields| == One(s.productId.present) + One(s.quantity.present)
  {
  }

  /** The array of the encoded elements, in their order. */
  predicate IsArrayOf<T>(j: Json, list: seq<T>, encode: T -> Json) {
    && j.JArray? && |j.elems| == |list|
    && forall i | 0 <= i < |list| :: j.elems[i] == encode(list[i])
  }

  /** A list is written exactly when it is not nil, element by element. */
  ghost predicate CarriesList<T>(fields: seq<Field>, key: string, list: Option<seq<T>>, encode: T -> Json) {
    if list.None? then Carries(fields, key, None)
    else exists j :: Carries(fields, key, Some(j)) && IsArrayOf(j, list.value, encode)
  }

  lemma ListCarried<T>(fields: seq<Field>, key: string, list: Option<seq<T>>, encode: T -> Json)
    requires Carries(fields, key, if list.Some? then Some(EncodeList(list.value, encode)) else None)
    ensures CarriesList(fields, key, list, encode)
  {
    if list.Some? { assert IsArrayOf(EncodeList(list.value, encode), list.value, encode); }
  }

  lemma OrderWritten(s: Order)
    ensures EncodeOrder(s).JObject?
    ensures var fields := EncodeOrder(s).fields;
            && Carries(fields, "id", Text(s.id))
            && Carries(fields, "total", Written(s.total, EncodeFloat))
            && Carries(fields, "discounts", Written(s.discounts, EncodeFloat))
            && CarriesList(fields, "items", s.items, EncodeOrderItem)
            && CarriesList(fields, "products", s.products, EncodeProduct)
            && |fields| == One(s.id.present) + One(s.total.present) + One(s.discounts.present)
                           + One(s.items.Some?) + One(s.products.Some?)
  {
    FiveGroups(Group("id", Text(s.id)), Group("total", Written(s.total, EncodeFloat)),
               Group("discounts", Written(s.discounts, EncodeFloat)),
               Group("items", if s.items.Some? then Some(EncodeList(s.items.value, EncodeOrderItem)) else None),
               Group("products", if s.products.Some? then Some(EncodeList(s.products.value, EncodeProduct)) else None));
    ListCarried(OrderFields(s), "items", s.items, EncodeOrderItem);
    ListCarried(OrderFields(s), "products", s.products, EncodeProduct);
  }

  lemma OrderReqItemWritten(s: OrderReqItem)
    ensures EncodeOrderReqItem(s).JObject?
    ensures var fields := EncodeOrderReqItem(s).fields;
            && Carries(fields, "productId", Some(JString(s.productId)))
            && Carries(fields, "quantity", Some(JInt(s.quantity)))
            && |fields| == 2
  {
  }

  /** A request always has its items, an empty list of them if they are nil. */
  lemma OrderReqWritten(s: OrderReq)
    ensures EncodeOrderReq(s).JObject?
    ensures var fields := EncodeOrderReq(s).fields;
            && Carries(fields, "couponCode", Text(s.couponCode))
            && CarriesList(fields, "items", Some(if s.items.Some? then s.items.value else []), EncodeOrderReqItem)
            && |fields| == One(s.couponCode.present) + 1
  {
    var list := if s.items.Some? then s.items.value else [];
    assert Carries(OrderReqFields(s), "items", Some(EncodeList(list, EncodeOrderReqItem)));
  }

  lemma ErrorWritten(s: ErrorBody)
    ensures EncodeErrorBody(s).JObject?
    ensures var fields := EncodeErrorBody(s).fields;
            && Carries(fields, "code", Some(JInt(s.code))) && Carries(fields, "message", Some(JString(s.message)))
            && |fields| == 2
  {
  }

  // ---------------------------------------------------------------- positions without a name

  function DigitValue(c: char): int {
    c as int - '0' as int
  }

  function Numeral(s: string): int {
    if s == "" then 0 else 10 * Numeral(s[..|s| - 1]) + DigitValue(s[|s| - 1])
  }

  lemma DigitOf(d: nat)
    requires d < 10
    ensures var c := "0123456789"[d]; '0' <= c <= '9' && DigitValue(c) == d && (c == '0' <==> d == 0)
  {
  }

  lemma NumeralNext(front: string, last: char)
    ensures Numeral(front + [last]) == 10 * Numeral(front) + DigitValue(last)
  {
    assert (front + [last])[..|front|] == front;
  }

  /** A position without a name is reported by its decimal numeral, without leading zeros. */
  lemma {:induction false} ItoaIsDecimal(n: nat)
    ensures Numeral(Itoa(n)) == n
    ensures forall c | c in Itoa(n) :: '0' <= c <= '9'
    ensures Itoa(n) != "" && (Itoa(n)[0] == '0' ==> n == 0)
  {
    var front, last := if n < 10 then "" else Itoa(n / 10), "0123456789"[n % 10];
    assert Itoa(n) == front + [last];
    DigitOf(n % 10);
    NumeralNext(front, last);
    if n >= 10 { ItoaIsDecimal(n / 10); }
  }
}

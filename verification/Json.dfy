/** JSON values at the level of object fields, and the traversals the decoder library offers. */
module Json {
  import opened Common

  /** A number token is an integer literal or it is not. */
  datatype Json =
    | JNull
    | JBool(b: bool)
    | JInt(n: int)
    | JFraction(x: real)
    | JString(s: string)
    | JArray(elems: seq<Json>)
    | JObject(fields: seq<Field>)

  datatype Field = Field(key: string, value: Json)

  datatype DecodeError = WrongType | MissingFields(names: seq<string>)

  type Decoded<T> = Result<T, DecodeError>

  /** A decoder's reaction to one field: the receiver it leaves, or an error. */
  type OnField<!S> = (S, Field) -> Decoded<S>

  /** The fields of an object in the order they come, stopping at the first error. */
  function OverFields<S>(on: OnField<S>, s: S, fields: seq<Field>): Decoded<S>
    decreases |fields|
  {
    if fields == [] then Ok(s)
    else
      var next := on(s, fields[0]);
      if next.Err? then next else OverFields(on, next.value, fields[1..])
  }

  method ObjBytes<S>(on: OnField<S>, s0: S, fields: seq<Field>) returns (r: Decoded<S>)
    ensures r == OverFields(on, s0, fields)
  {
    var s := s0;
    for i := 0 to |fields|
      invariant OverFields(on, s0, fields) == OverFields(on, s, fields[i..])
    {
      var next := on(s, fields[i]);
      assert fields[i..][0] == fields[i] && fields[i..][1..] == fields[i + 1..];
      if next.Err? {
        return next;
      }
      s := next.value;
    }
    r := Ok(s);
  }

  /** The elements of an array, each decoded into a fresh value. */
  function OverElems<T>(elem: Json -> Decoded<T>, elems: seq<Json>): Decoded<seq<T>>
    decreases |elems|
  {
    if elems == [] then Ok([])
    else
      var head := elem(elems[0]);
      if head.Err? then Err(head.error)
      else
        var tail := OverElems(elem, elems[1..]);
        if tail.Err? then tail else Ok([head.value] + tail.value)
  }

  // ---------------------------------------------------------------- order of fields

  lemma {:induction false} OverConcat<S>(on: OnField<S>, s: S, xs: seq<Field>, ys: seq<Field>)
    ensures OverFields(on, s, xs + ys)
         == var mid := OverFields(on, s, xs); if mid.Err? then mid else OverFields(on, mid.value, ys)
    decreases |xs|
  {
    if xs == [] {
      assert xs + ys == ys;
    } else {
      assert (xs + ys)[1..] == xs[1..] + ys;
      var next := on(s, xs[0]);
      if next.Ok? { OverConcat(on, next.value, xs[1..], ys); }
    }
  }

  /** Equal up to which error comes first. */
  predicate Same<T(==)>(a: Decoded<T>, b: Decoded<T>) {
    a.Ok? == b.Ok? && (a.Ok? ==> a.value == b.value)
  }

  /** Fields with different keys may be swapped. */
  ghost predicate Commutes<S(!new)>(on: OnField<S>) {
    forall s, f: Field, g: Field | f.key != g.key ::
      Same(OverFields(on, s, [f, g]), OverFields(on, s, [g, f]))
  }

  predicate DistinctKeys(fields: seq<Field>) {
    forall i, j | 0 <= i < j < |fields| :: fields[i].key != fields[j].key
  }

  function Dropped(fields: seq<Field>, i: nat): seq<Field>
    requires i < |fields|
  {
    fields[..i] + fields[i + 1..]
  }

  /** A field may be moved to the front past others with different keys. */
  lemma {:induction false} MoveToFront<S(!new)>(on: OnField<S>, s: S, xs: seq<Field>, f: Field, ys: seq<Field>)
    requires Commutes(on) && forall x | x in xs :: x.key != f.key
    ensures Same(OverFields(on, s, xs + [f] + ys), OverFields(on, s, [f] + xs + ys))
    decreases |xs|
  {
    if xs == [] {
      assert xs + [f] + ys == [f] + xs + ys;
    } else {
      var x, rest := xs[0], xs[1..];
      assert x in xs;
      assert xs + [f] + ys == [x] + (rest + [f] + ys);
      assert [f] + xs + ys == [f, x] + (rest + ys);
      OverConcat(on, s, [x], rest + [f] + ys);
      OverConcat(on, s, [f, x], rest + ys);
      OverConcat(on, s, [x, f], rest + ys);
      assert Same(OverFields(on, s, [x, f]), OverFields(on, s, [f, x]));
      assert [x, f] + (rest + ys) == [x] + ([f] + rest + ys);
      OverConcat(on, s, [x], [f] + rest + ys);
      var mid := OverFields(on, s, [x]);
      if mid.Ok? { MoveToFront(on, mid.value, rest, f, ys); }
    }
  }

  lemma DroppedFacts(fields: seq<Field>, i: nat)
    requires i < |fields| && DistinctKeys(fields)
    ensures DistinctKeys(Dropped(fields, i))
    ensures multiset(Dropped(fields, i)) == multiset(fields) - multiset{fields[i]}
  {
    assert fields == fields[..i] + [fields[i]] + fields[i + 1..];
  }

  lemma Regroup(ys: seq<Field>, i: nat)
    requires i < |ys|
    ensures ys == ys[..i] + [ys[i]] + ys[i + 1..]
    ensures [ys[i]] + ys[..i] + ys[i + 1..] == [ys[i]] + Dropped(ys, i)
  {
  }

  lemma NthToFront<S(!new)>(on: OnField<S>, s: S, ys: seq<Field>, i: nat)
    requires Commutes(on) && DistinctKeys(ys) && i < |ys|
    ensures Same(OverFields(on, s, ys), OverFields(on, s, [ys[i]] + Dropped(ys, i)))
  {
    forall x | x in ys[..i] ensures x.key != ys[i].key { }
    MoveToFront(on, s, ys[..i], ys[i], ys[i + 1..]);
    Regroup(ys, i);
  }

  /** Reordering fields with distinct keys does not change what is decoded, nor whether decoding fails. */
  lemma {:induction false} Reordered<S(!new)>(on: OnField<S>, s: S, xs: seq<Field>, ys: seq<Field>)
    requires Commutes(on) && DistinctKeys(xs) && DistinctKeys(ys) && multiset(xs) == multiset(ys)
    ensures Same(OverFields(on, s, xs), OverFields(on, s, ys))
    decreases |xs|, 0
  {
    if xs == [] {
      assert |multiset(ys)| == 0;
    } else {
      assert xs[0] in multiset(ys);
      var i :| 0 <= i < |ys| && ys[i] == xs[0];
      DroppedFacts(xs, 0);
      DroppedFacts(ys, i);
      NthToFront(on, s, xs, 0);
      NthToFront(on, s, ys, i);
      ReorderedTails(on, s, xs[0], Dropped(xs, 0), Dropped(ys, i));
    }
  }

  lemma {:induction false} ReorderedTails<S(!new)>(on: OnField<S>, s: S, f: Field, xs: seq<Field>, ys: seq<Field>)
    requires Commutes(on) && DistinctKeys(xs) && DistinctKeys(ys) && multiset(xs) == multiset(ys)
    ensures Same(OverFields(on, s, [f] + xs), OverFields(on, s, [f] + ys))
    decreases |xs|, 1
  {
    OverConcat(on, s, [f], xs);
    OverConcat(on, s, [f], ys);
    var mid := OverFields(on, s, [f]);
    if mid.Ok? { Reordered(on, mid.value, xs, ys); }
  }

  /** The fields whose keys the decoder knows. */
  function Known(fields: seq<Field>, keys: set<string>): seq<Field> {
    if fields == [] then []
    else (if fields[0].key in keys then [fields[0]] else []) + Known(fields[1..], keys)
  }

  /** The decoder skips every other field. */
  ghost predicate Skips<S(!new)>(on: OnField<S>, keys: set<string>) {
    forall s, f: Field | f.key !in keys :: on(s, f) == Ok(s)
  }

  /** Fields the decoder skips may stand anywhere, any number of them. */
  lemma {:induction false} UnknownIgnored<S(!new)>(on: OnField<S>, keys: set<string>, s: S, fields: seq<Field>)
    requires Skips(on, keys)
    ensures OverFields(on, s, fields) == OverFields(on, s, Known(fields, keys))
    decreases |fields|
  {
    if fields != [] {
      var rest := Known(fields[1..], keys);
      var next := on(s, fields[0]);
      if next.Ok? { UnknownIgnored(on, keys, next.value, fields[1..]); }
      if fields[0].key in keys {
        assert Known(fields, keys)[0] == fields[0] && Known(fields, keys)[1..] == rest;
      } else {
        assert Known(fields, keys) == rest;
      }
    }
  }

  lemma OccursOnce(fields: seq<Field>, f: Field)
    requires DistinctKeys(fields)
    ensures multiset(fields)[f] <= 1
  {
    if f in multiset(fields) {
      var i :| 0 <= i < |fields| && fields[i] == f;
      DroppedFacts(fields, i);
      var rest := Dropped(fields, i);
      forall k | 0 <= k < |rest| ensures rest[k] != f { assert rest[k] == fields[if k < i then k else k + 1]; }
      assert f !in rest && multiset(rest)[f] == 0;
    }
  }

  /** Distinctness of keys does not depend on the order either. */
  lemma DistinctReordered(xs: seq<Field>, ys: seq<Field>)
    requires DistinctKeys(xs) && multiset(xs) == multiset(ys)
    ensures DistinctKeys(ys)
  {
    forall i, j | 0 <= i < j < |ys| ensures ys[i].key != ys[j].key {
      var f, g := ys[i], ys[j];
      OccursOnce(xs, f);
      assert ys == ys[..i] + [f] + ys[i + 1..] && g in ys[i + 1..];
      assert multiset(ys)[g] >= if f == g then 2 else 1;
      assert f in multiset(xs) && g in multiset(xs);
      var m :| 0 <= m < |xs| && xs[m] == f;
      var n :| 0 <= n < |xs| && xs[n] == g;
    }
  }

  /** The known fields of both are the same up to order, no key twice; any unknown fields may be among them. */
  predicate Alike(xs: seq<Field>, ys: seq<Field>, keys: set<string>) {
    DistinctKeys(Known(xs, keys)) && multiset(Known(xs, keys)) == multiset(Known(ys, keys))
  }

  /** Reordering known fields, and adding, dropping or moving unknown ones, does not change what is decoded. */
  lemma {:induction false} AlikeDecodeAlike<S(!new)>(on: OnField<S>, keys: set<string>, s: S,
                                                     xs: seq<Field>, ys: seq<Field>)
    requires Commutes(on) && Skips(on, keys) && Alike(xs, ys, keys)
    ensures Same(OverFields(on, s, xs), OverFields(on, s, ys))
  {
    UnknownIgnored(on, keys, s, xs);
    UnknownIgnored(on, keys, s, ys);
    DistinctReordered(Known(xs, keys), Known(ys, keys));
    Reordered(on, s, Known(xs, keys), Known(ys, keys));
  }

  // ---------------------------------------------------------------- well-typed fields

  /** If success on a field depends on the field alone, a traversal succeeds exactly on good fields. */
  lemma {:induction false} TraversalSucceeds<S(!new)>(on: OnField<S>, ok: Field -> bool, s: S, fields: seq<Field>)
    requires forall t, f :: on(t, f).Ok? <==> ok(f)
    ensures OverFields(on, s, fields).Ok? <==> forall f | f in fields :: ok(f)
    decreases |fields|
  {
    if fields != [] {
      assert fields == [fields[0]] + fields[1..];
      var next := on(s, fields[0]);
      if next.Ok? { TraversalSucceeds(on, ok, next.value, fields[1..]); }
    }
  }

  lemma {:induction false} ElementsSucceed<T>(decode: Json -> Decoded<T>, ok: Json -> bool, elems: seq<Json>)
    requires forall j | j in elems :: decode(j).Ok? <==> ok(j)
    ensures OverElems(decode, elems).Ok? <==> forall j | j in elems :: ok(j)
    decreases |elems|
  {
    if elems != [] {
      assert elems == [elems[0]] + elems[1..];
      ElementsSucceed(decode, ok, elems[1..]);
    }
  }

  // ---------------------------------------------------------------- one and two fields

  lemma OneField<S>(on: OnField<S>, s: S, f: Field)
    ensures OverFields(on, s, [f]) == on(s, f)
  {
    assert [f][1..] == [];
  }

  lemma TwoFields<S>(on: OnField<S>, s: S, f: Field, g: Field)
    ensures OverFields(on, s, [f, g]) == var mid := on(s, f); if mid.Err? then mid else on(mid.value, g)
  {
    assert [f, g] == [f] + [g];
    OverConcat(on, s, [f], [g]);
    OneField(on, s, f);
    var mid := on(s, f);
    if mid.Ok? { OneField(on, mid.value, g); }
  }
}

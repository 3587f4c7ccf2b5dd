/**
 The two unrolled copies of the generated router (gen/oas/oas_router_gen.go): request dispatch
 and route lookup, both against one declarative description of the routes.
 */
module Router {
  import opened Common

  datatype Operation = PlaceOrder | ListProducts | GetProduct

  datatype Pattern = OrderPath | ProductsPath | ProductPath(productId: string)

  datatype Route = Route(operation: Operation, pathPattern: string, args: seq<string>)

  /** What ServeHTTP does with a request: call a handler, answer 405 with the allowed method, or 404. */
  datatype Dispatch = Handle(operation: Operation, args: seq<string>) | NotAllowed(allowed: string) | NotFound

  // ---------------------------------------------------------------- the routes, declaratively

  predicate HasPrefix(s: string, prefix: string) {
    |prefix| <= |s| && s[..|prefix|] == prefix
  }

  /** A path segment: any characters but a slash, possibly none. */
  predicate Segment(s: string) {
    '/' !in s
  }

  predicate IsPath(path: string, pattern: Pattern) {
    match pattern
    case OrderPath => path == "/order"
    case ProductsPath => path == "/product"
    case ProductPath(id) => path == "/product/" + id && Segment(id)
  }

  function Method(pattern: Pattern): string {
    if pattern.OrderPath? then "POST" else "GET"
  }

  function RouteOf(pattern: Pattern): Route {
    match pattern
    case OrderPath => Route(PlaceOrder, "/order", [])
    case ProductsPath => Route(ListProducts, "/product", [])
    case ProductPath(id) => Route(GetProduct, "/product/{productId}", [id])
  }

  /** The pattern a full path matches after the server prefix is cut, if any. */
  ghost function Matching(prefix: string, path: string): Option<Pattern> {
    if HasPrefix(path, prefix) && exists p :: IsPath(path[|prefix|..], p)
    then
      var p :| IsPath(path[|prefix|..], p);
      Some(p)
    else None
  }

  /** A path matches at most one pattern, with one argument. */
  lemma PatternsDisjoint(path: string, p: Pattern, q: Pattern)
    requires IsPath(path, p) && IsPath(path, q)
    ensures p == q
  {
    assert |"/order"| == 6 && |"/product"| == 8 && |"/product/"| == 9;
    if p.ProductPath? && q.ProductPath? {
      assert path[9..] == p.productId && path[9..] == q.productId;
    }
    assert path[1] == if p.OrderPath? then 'o' else 'p';
    assert path[1] == if q.OrderPath? then 'o' else 'p';
  }

  ghost function Expected(prefix: string, verb: string, path: string): Dispatch {
    var m := Matching(prefix, path);
    if m.None? then NotFound
    else if verb == Method(m.value) then Handle(RouteOf(m.value).operation, RouteOf(m.value).args)
    else NotAllowed(Method(m.value))
  }

  ghost function ExpectedRoute(prefix: string, verb: string, path: string): Option<Route> {
    var m := Matching(prefix, path);
    if m.Some? && verb == Method(m.value) then Some(RouteOf(m.value)) else None
  }

  /** Route lookup and dispatch agree: a route is found exactly when its handler would be called. */
  lemma {:induction false} LookupAgreesWithDispatch(prefix: string, verb: string, path: string, r: Route)
    ensures ExpectedRoute(prefix, verb, path) == Some(r)
       <==> Expected(prefix, verb, path) == Handle(r.operation, r.args)
            && exists p :: RouteOf(p) == r
  {
    var m := Matching(prefix, path);
    if m.Some? { assert RouteOf(m.value) == RouteOf(m.value); }
    if Expected(prefix, verb, path) == Handle(r.operation, r.args) && exists p :: RouteOf(p) == r {
      var p :| RouteOf(p) == r;
      assert p == m.value;
    }
  }

  // ---------------------------------------------------------------- the routes, written out

  lemma MatchingIs(prefix: string, path: string, p: Pattern)
    ensures Matching(prefix, path) == Some(p) <==> HasPrefix(path, prefix) && IsPath(path[|prefix|..], p)
  {
    if HasPrefix(path, prefix) && IsPath(path[|prefix|..], p) {
      PatternsDisjoint(path[|prefix|..], p, Matching(prefix, path).value);
    }
  }

  /** A path is the prefix and the rest exactly when cutting the prefix leaves the rest. */
  lemma CutOrJoin(prefix: string, path: string, rest: string)
    ensures HasPrefix(path, prefix) && path[|prefix|..] == rest <==> path == prefix + rest
  {
    if HasPrefix(path, prefix) { assert path == path[..|prefix|] + path[|prefix|..]; }
    if path == prefix + rest { assert path[..|prefix|] == prefix && path[|prefix|..] == rest; }
  }

  /** The path of one product. */
  predicate IsProduct(prefix: string, path: string, id: string) {
    path == prefix + ("/product/" + id) && '/' !in id
  }

  lemma PathsMatched(prefix: string, path: string, id: string)
    ensures Matching(prefix, path) == Some(OrderPath) <==> path == prefix + "/order"
    ensures Matching(prefix, path) == Some(ProductsPath) <==> path == prefix + "/product"
    ensures Matching(prefix, path) == Some(ProductPath(id)) <==> IsProduct(prefix, path, id)
  {
    MatchingIs(prefix, path, OrderPath);
    MatchingIs(prefix, path, ProductsPath);
    MatchingIs(prefix, path, ProductPath(id));
    CutOrJoin(prefix, path, "/order");
    CutOrJoin(prefix, path, "/product");
    CutOrJoin(prefix, path, "/product/" + id);
  }

  /** Which handler is called for which request, and with what; otherwise the method or the path is refused. */
  lemma DispatchExactly(prefix: string, verb: string, path: string)
    ensures var d := Expected(prefix, verb, path);
            && (d == Handle(PlaceOrder, []) <==> path == prefix + "/order" && verb == "POST")
            && (d == Handle(ListProducts, []) <==> path == prefix + "/product" && verb == "GET")
            && (forall id :: d == Handle(GetProduct, [id]) <==> IsProduct(prefix, path, id) && verb == "GET")
            && (d == NotAllowed("POST") <==> path == prefix + "/order" && verb != "POST")
            && (d == NotAllowed("GET")
                <==> (path == prefix + "/product" || exists id :: IsProduct(prefix, path, id)) && verb != "GET")
            && (d.NotFound? <==> && path != prefix + "/order" && path != prefix + "/product"
                                 && forall id :: !IsProduct(prefix, path, id))
  {
    PathsMatched(prefix, path, "");
    forall id ensures Matching(prefix, path) == Some(ProductPath(id)) <==> IsProduct(prefix, path, id) {
      PathsMatched(prefix, path, id);
    }
    var m := Matching(prefix, path);
    if m.Some? && m.value.ProductPath? { assert IsProduct(prefix, path, m.value.productId); }
  }

  /** Which route is found for which request. */
  lemma RouteExactly(prefix: string, verb: string, path: string)
    ensures var r := ExpectedRoute(prefix, verb, path);
            && (r == Some(Route(PlaceOrder, "/order", [])) <==> path == prefix + "/order" && verb == "POST")
            && (r == Some(Route(ListProducts, "/product", [])) <==> path == prefix + "/product" && verb == "GET")
            && (forall id :: r == Some(Route(GetProduct, "/product/{productId}", [id]))
                             <==> IsProduct(prefix, path, id) && verb == "GET")
            && (r.None? <==> Expected(prefix, verb, path).NotFound? || Expected(prefix, verb, path).NotAllowed?)
  {
    PathsMatched(prefix, path, "");
    forall id ensures Matching(prefix, path) == Some(ProductPath(id)) <==> IsProduct(prefix, path, id) {
      PathsMatched(prefix, path, id);
    }
  }

  // ---------------------------------------------------------------- the trie

  /** The decisions of the unrolled trie, character by character. */
  function Trie(elem: string): Option<Pattern> {
    if !HasPrefix(elem, "/") then None
    else
      var e1 := elem[|"/"|..];
      if HasPrefix(e1, "order") then
        if |e1| == |"order"| then Some(OrderPath) else None
      else if HasPrefix(e1, "product") then
        var e2 := e1[|"product"|..];
        if |e2| == 0 then Some(ProductsPath)
        else if HasPrefix(e2, "/") && Segment(e2[|"/"|..]) then Some(ProductPath(e2[|"/"|..]))
        else None
      else None
  }

  lemma CutIs(s: string, prefix: string)
    requires HasPrefix(s, prefix)
    ensures s == prefix + s[|prefix|..]
  {
  }

  /** The pieces the trie consumes, put together again. */
  lemma Rejoined(id: string)
    ensures "/" + "order" == "/order" && "/" + "product" == "/product"
    ensures "/" + ("product" + ("/" + id)) == "/product/" + id
  {
    assert "/" + "order" == "/order" && "/" + "product" == "/product" && "/product" + "/" == "/product/";
    assert "/" + ("product" + ("/" + id)) == ("/" + "product") + ("/" + id) == ("/product" + "/") + id;
  }

  /** What the trie accepts is a path of that pattern. */
  lemma {:induction false} TrieSound(elem: string)
    requires Trie(elem).Some?
    ensures IsPath(elem, Trie(elem).value)
  {
    CutIs(elem, "/");
    var e1 := elem[1..];
    if HasPrefix(e1, "order") {
      CutIs(e1, "order");
      assert e1 == "order";
      Rejoined("");
    } else {
      CutIs(e1, "product");
      var e2 := e1[7..];
      if |e2| == 0 {
        assert e1 == "product";
        Rejoined("");
      } else {
        CutIs(e2, "/");
        Rejoined(e2[1..]);
      }
    }
  }

  /** Every path of a pattern is accepted by the trie. */
  lemma TrieComplete(elem: string, p: Pattern)
    requires IsPath(elem, p)
    ensures Trie(elem) == Some(p)
  {
    match p
    case OrderPath =>
      Rejoined("");
      assert elem[1..] == "order";
    case ProductsPath =>
      Rejoined("");
      var e1 := elem[1..];
      assert e1 == "product" && e1[0] == 'p' && e1[7..] == "";
    case ProductPath(id) =>
      Rejoined(id);
      var e1 := elem[1..];
      assert e1 == "product" + ("/" + id);
      assert e1[..7] == "product" && e1[0] == "product"[0] == 'p';
      assert e1[7..] == "/" + id;
      assert e1[7..][1..] == id;
  }

  /** The declarative match and the trie are the same function of the path. */
  lemma MatchingIsTrie(prefix: string, path: string)
    ensures Matching(prefix, path) == if HasPrefix(path, prefix) then Trie(path[|prefix|..]) else None
  {
    if HasPrefix(path, prefix) {
      var elem := path[|prefix|..];
      if Trie(elem).Some? { TrieSound(elem); }
      if p :| IsPath(elem, p) { TrieComplete(elem, Matching(prefix, path).value); }
    }
  }

  method CutPrefix(prefix: string, path: string) returns (elem: string, ok: bool)
    ensures ok == HasPrefix(path, prefix)
    ensures ok ==> elem == path[|prefix|..]
  {
    if prefix == "" {
      return path, true;
    }
    if !HasPrefix(path, prefix) {
      return "", false;
    }
    return path[|prefix|..], true;
  }

  /** strings.IndexByte: the first position of the byte, or -1. */
  method IndexByte(s: string, c: char) returns (idx: int)
    ensures -1 <= idx < |s|
    ensures idx == -1 <==> c !in s
    ensures idx >= 0 ==> s[idx] == c && c !in s[..idx]
  {
    for i := 0 to |s|
      invariant c !in s[..i]
    {
      if s[i] == c {
        return i;
      }
    }
    idx := -1;
  }

  method ServeHTTP(prefix: string, verb: string, path: string) returns (d: Dispatch)
    ensures d == Expected(prefix, verb, path)
  {
    MatchingIsTrie(prefix, path);
    var elem, ok := CutPrefix(prefix, path);
    if !ok || |elem| == 0 {
      return NotFound;
    }
    if elem[0] == '/' && HasPrefix(elem, "/") {
      elem := elem[|"/"|..];
      if |elem| > 0 {
        if elem[0] == 'o' {
          if HasPrefix(elem, "order") {
            elem := elem[|"order"|..];
            if |elem| == 0 {
              if verb == "POST" {
                return Handle(PlaceOrder, []);
              } else {
                return NotAllowed("POST");
              }
            }
          }
        } else if elem[0] == 'p' {
          if HasPrefix(elem, "product") {
            elem := elem[|"product"|..];
            if |elem| == 0 {
              if verb == "GET" {
                return Handle(ListProducts, []);
              } else {
                return NotAllowed("GET");
              }
            }
            if elem[0] == '/' && HasPrefix(elem, "/") {
              elem := elem[|"/"|..];
              var idx := IndexByte(elem, '/');
              if idx < 0 {
                if verb == "GET" {
                  return Handle(GetProduct, [elem]);
                } else {
                  return NotAllowed("GET");
                }
              }
            }
          }
        }
      }
    }
    d := NotFound;
  }

  method FindPath(prefix: string, verb: string, path: string) returns (r: Option<Route>)
    ensures r == ExpectedRoute(prefix, verb, path)
  {
    MatchingIsTrie(prefix, path);
    var elem, ok := CutPrefix(prefix, path);
    if !ok {
      return None;
    }
    if |elem| > 0 {
      if elem[0] == '/' && HasPrefix(elem, "/") {
        elem := elem[|"/"|..];
        if |elem| > 0 {
          if elem[0] == 'o' {
            if HasPrefix(elem, "order") {
              elem := elem[|"order"|..];
              if |elem| == 0 {
                if verb == "POST" {
                  return Some(Route(PlaceOrder, "/order", []));
                } else {
                  return None;
                }
              }
            }
          } else if elem[0] == 'p' {
            if HasPrefix(elem, "product") {
              elem := elem[|"product"|..];
              if |elem| == 0 {
                if verb == "GET" {
                  return Some(Route(ListProducts, "/product", []));
                } else {
                  return None;
                }
              }
              if elem[0] == '/' && HasPrefix(elem, "/") {
                elem := elem[|"/"|..];
                var idx := IndexByte(elem, '/');
                if idx < 0 {
                  if verb == "GET" {
                    return Some(Route(GetProduct, "/product/{productId}", [elem]));
                  } else {
                    return None;
                  }
                }
              }
            }
          }
        }
      }
    }
    r := None;
  }
}

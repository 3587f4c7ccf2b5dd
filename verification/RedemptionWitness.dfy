/** The overshoot bound is attained, and the spelling of the code is what the accounting rests on. */
module RedemptionWitness {
  import opened Common
  import opened Discount
  import opened Validator
  import opened Redemption
  import opened OrderService

  lemma {:induction false} RunConcat(s: State, xs: seq<Step>, ys: seq<Step>)
    requires Run(s, xs).Some?
    ensures Run(s, xs + ys) == Run(Run(s, xs).value, ys)
    decreases |xs|
  {
    if xs == [] {
      assert xs + ys == ys;
    } else {
      assert (xs + ys)[1..] == xs[1..] + ys;
      RunConcat(Next(s, xs[0]), xs[1..], ys);
    }
  }

  // ---------------------------------------------------------------- n placements at once

  function FindAll(code: string, from: nat, n: nat): seq<Step>
    requires from <= n
    decreases n - from
  {
    if from == n then [] else [Find(from, code)] + FindAll(code, from + 1, n)
  }

  function RedeemAll(now: int, items: seq<Item>, from: nat, n: nat): seq<Step>
    requires from <= n
    decreases n - from
  {
    if from == n then []
    else [Check(from, now, items), Increment(from, Done)] + RedeemAll(now, items, from + 1, n)
  }

  function First(n: nat): set<nat> {
    if n == 0 then {} else First(n - 1) + {n - 1}
  }

  lemma {:induction false} FirstSpec(n: nat)
    ensures |First(n)| == n && forall p: nat :: p in First(n) <==> p < n
  {
    if n > 0 { FirstSpec(n - 1); }
  }

  /** Of n placements the first k have counted and the others have read `row`; or only `found` exist yet. */
  function Crowd(s: State, k: nat, found: nat): State {
    s.(row := s.row.(uses := s.row.uses + k),
       placing := map p | p in First(found) :: Placing(s.row.code, if p < k then Counted else LookedUp(s.row)))
  }

  lemma OneFind(s: State, from: nat)
    requires s.active
    ensures Enabled(Crowd(s, 0, from), Find(from, s.row.code))
    ensures Next(Crowd(s, 0, from), Find(from, s.row.code)) == Crowd(s, 0, from + 1)
  {
    FirstSpec(from);
    var c := Crowd(s, 0, from);
    assert c.row == s.row;
    assert Next(c, Find(from, s.row.code)).placing == Crowd(s, 0, from + 1).placing;
  }

  lemma {:induction false} AllFind(s: State, from: nat, n: nat)
    requires s.active && from <= n
    ensures Run(Crowd(s, 0, from), FindAll(s.row.code, from, n)) == Some(Crowd(s, 0, n))
    decreases n - from
  {
    if from < n {
      assert FindAll(s.row.code, from, n)[1..] == FindAll(s.row.code, from + 1, n);
      OneFind(s, from);
      AllFind(s, from + 1, n);
    }
  }

  lemma RunTwo(s: State, a: Step, b: Step)
    requires Enabled(s, a) && Enabled(Next(s, a), b)
    ensures Run(s, [a, b]) == Some(Next(Next(s, a), b))
  {
    assert [a, b][1..] == [b] && [b][1..] == [];
    assert Run(Next(s, a), [b]) == Some(Next(Next(s, a), b));
  }

  lemma RedeemOne(s: State, now: int, items: seq<Item>, p: nat, n: nat)
    requires Admit(s.row, now, items).Ok? && p < n
    ensures Run(Crowd(s, p, n), [Check(p, now, items), Increment(p, Done)]) == Some(Crowd(s, p + 1, n))
  {
    FirstSpec(n);
    var c := Crowd(s, p, n);
    var passed := Goto(c, p, Passed);
    assert Next(c, Check(p, now, items)) == passed;
    assert Next(passed, Increment(p, Done)).placing == Crowd(s, p + 1, n).placing;
    RunTwo(c, Check(p, now, items), Increment(p, Done));
  }

  lemma {:induction false} AllRedeem(s: State, now: int, items: seq<Item>, from: nat, n: nat)
    requires Admit(s.row, now, items).Ok? && from <= n
    ensures Run(Crowd(s, from, n), RedeemAll(now, items, from, n)) == Some(Crowd(s, n, n))
    decreases n - from
  {
    if from < n {
      var steps, rest := RedeemAll(now, items, from, n), RedeemAll(now, items, from + 1, n);
      RedeemOne(s, now, items, from, n);
      RunConcat(Crowd(s, from, n), [Check(from, now, items), Increment(from, Done)], rest);
      AllRedeem(s, now, items, from + 1, n);
    }
  }

  predicate Within(s: State, n: nat) {
    forall p | p in s.placing :: p < n
  }

  /** Placements numbered below n are at most n. */
  lemma {:induction false} FewPlacements(s: State, steps: seq<Step>, n: nat)
    requires Within(s, n) && forall st | st in steps :: st.p < n
    ensures AtMost(s, steps, n)
    decreases |steps|
  {
    FirstSpec(n);
    SubsetSize(InFlight(s), First(n));
    if steps != [] && Enabled(s, steps[0]) {
      var t := Next(s, steps[0]);
      forall p | p in t.placing ensures p < n { if p != steps[0].p { OthersStay(s, steps[0], p); } }
      FewPlacements(t, steps[1..], n);
    }
  }

  lemma {:induction false} CrowdSteps(code: string, now: int, items: seq<Item>, from: nat, n: nat)
    requires from <= n
    ensures forall st | st in FindAll(code, from, n) :: st.p < n
    ensures forall st | st in RedeemAll(now, items, from, n) :: st.p < n
    decreases n - from
  {
    if from < n { CrowdSteps(code, now, items, from + 1, n); }
  }

  // ---------------------------------------------------------------- one placement after the other

  function OneOrder(code: string, now: int, items: seq<Item>): seq<Step> {
    [Find(0, code), Check(0, now, items), Increment(0, Done), Store(0, Done)]
  }

  /** A placement that runs alone is served, stored, and counted if it spells the code as stored. */
  lemma OrderServed(s: State, code: string, now: int, items: seq<Item>)
    requires s.placing == map[] && s.active && Upper(code) == Upper(s.row.code)
    requires Admit(s.row, now, items).Ok?
    ensures Run(s, OneOrder(code, now, items)) == Some(Bump(s, code).(stored := s.stored + [code]))
  {
    var steps := OneOrder(code, now, items);
    var s1 := s.(placing := map[0 := Placing(code, LookedUp(s.row))]);
    var s2 := s.(placing := map[0 := Placing(code, Passed)]);
    var s3 := Bump(s, code).(placing := map[0 := Placing(code, Counted)]);
    assert Next(s, steps[0]) == s1;
    assert Next(s1, steps[1]) == s2;
    assert Next(s2, steps[2]) == s3;
    assert s3.placing - {0} == map[];
    assert Next(s3, steps[3]) == Bump(s, code).(stored := s.stored + [code]);
    RunTwo(s, steps[0], steps[1]);
    RunTwo(s2, steps[2], steps[3]);
    assert steps == [steps[0], steps[1]] + [steps[2], steps[3]];
    RunConcat(s, [steps[0], steps[1]], [steps[2], steps[3]]);
  }

  function Serial(code: string, now: int, items: seq<Item>, k: nat): seq<Step> {
    if k == 0 then [] else OneOrder(code, now, items) + Serial(code, now, items, k - 1)
  }

  /** The checks do not depend on the uses, as long as they are below the limit. */
  lemma AdmitBelowLimit(rule: Rule, uses: int, now: int, items: seq<Item>)
    requires Admit(rule, now, items).Ok? && uses < rule.maxUses
    ensures Admit(rule.(uses := uses), now, items).Ok?
  {
  }

  /** k placements one after the other use the coupon k times, up to its limit. */
  lemma {:induction false} SerialUses(s: State, now: int, items: seq<Item>, k: nat) returns (t: State)
    requires s.placing == map[] && s.active && s.row.uses + k <= s.row.maxUses
    requires Admit(s.row, now, items).Ok?
    ensures Run(s, Serial(s.row.code, now, items, k)) == Some(t)
    ensures t.row == s.row.(uses := s.row.uses + k) && t.placing == map[] && t.active
    ensures forall st | st in Serial(s.row.code, now, items, k) :: st.p == 0
    decreases k
  {
    t := s;
    if k > 0 {
      var code := s.row.code;
      var s' := Bump(s, code).(stored := s.stored + [code]);
      OrderServed(s, code, now, items);
      RunConcat(s, OneOrder(code, now, items), Serial(code, now, items, k - 1));
      if k > 1 {
        AdmitBelowLimit(s.row, s'.row.uses, now, items);
        t := SerialUses(s', now, items, k - 1);
      } else {
        t := s';
      }
    }
  }

  // ---------------------------------------------------------------- the limit is exceeded

  /**
   For every limit, every number of uses below it and every n >= 1 there is a run, with at most n
   placements between lookup and increment at once, that ends n - 1 uses above the limit.
   */
  lemma OvershootAttained(s: State, now: int, items: seq<Item>, n: nat) returns (steps: seq<Step>)
    requires s.placing == map[] && s.active && s.row.maxUses > 0 && Admit(s.row, now, items).Ok?
    requires n >= 1
    ensures AtMost(s, steps, n)
    ensures Run(s, steps).Some? && Run(s, steps).value.row.uses == s.row.maxUses + n - 1
  {
    var code, k := s.row.code, s.row.maxUses - 1 - s.row.uses;
    var t := SerialUses(s, now, items, k);
    AdmitBelowLimit(s.row, t.row.uses, now, items);
    var serial, finds, redeems := Serial(code, now, items, k), FindAll(code, 0, n), RedeemAll(now, items, 0, n);
    steps := serial + (finds + redeems);
    assert Crowd(t, 0, 0) == t;
    AllFind(t, 0, n);
    AllRedeem(t, now, items, 0, n);
    RunConcat(t, finds, redeems);
    RunConcat(s, serial, finds + redeems);
    CrowdSteps(code, now, items, 0, n);
    FewPlacements(s, steps, n);
  }

  /** All runs with at most n placements of the stored spelling in flight stay within the limit. */
  ghost predicate LimitSafe(s: State, n: nat) {
    forall steps | AtMost(s, steps, n) && Run(s, steps).Some? :: Run(s, steps).value.row.uses <= s.row.maxUses
  }

  /**
   The documented limit, exactly: while the coupon can still be used, every run keeps it if and
   only if at most one placement is between lookup and increment at a time.
   */
  lemma LimitKeptExactly(s: State, now: int, items: seq<Item>, n: nat)
    requires s.placing == map[] && s.active && s.row.maxUses > 0 && Admit(s.row, now, items).Ok?
    ensures LimitSafe(s, n) <==> n <= 1
  {
    if n <= 1 {
      assert Hopeful(s) == {};
      forall steps | AtMost(s, steps, n) && Run(s, steps).Some?
        ensures Run(s, steps).value.row.uses <= s.row.maxUses
      {
        LimitRun(s, steps, n);
      }
    } else {
      var steps := OvershootAttained(s, now, items, n);
    }
  }

  // ---------------------------------------------------------------- one placement alone

  /** The steps of one placement, run without interference, are one validation of the table. */
  lemma AloneIsValidate(s: State, code: string, now: int, items: seq<Item>, w: Write)
    requires s.placing == map[] && s.active && Upper(code) == Upper(s.row.code)
    ensures var (r, after) := Validated(map[s.row.code := Row(true, s.row)], code, now, items, false, w);
            var checked := Run(s, [Find(0, code), Check(0, now, items)]);
            && checked.Some?
            && if Admit(s.row, now, items).Err? then r.Err? && checked == Some(s) && after[s.row.code].rule == s.row
               else
                 var counted := Run(checked.value, [Increment(0, w)]);
                 && counted.Some?
                 && counted.value.row == after[s.row.code].rule
                 && (r.Ok? <==> 0 in counted.value.placing)
  {
    var table := map[s.row.code := Row(true, s.row)];
    assert Matches(table, code) == {s.row.code};
    assert Lookup(table, code) == Ok(s.row) by { assert Finds(table, code, s.row.code); }
    RunTwo(s, Find(0, code), Check(0, now, items));
    var found := Next(s, Find(0, code));
    assert found.placing == map[0 := Placing(code, LookedUp(s.row))];
    var checked := Next(found, Check(0, now, items));
    if Admit(s.row, now, items).Err? {
      assert checked.placing == map[];
    } else {
      assert Run(checked, [Increment(0, w)]) == Some(Next(checked, Increment(0, w)));
    }
  }

  /** A step, if it can be taken. */
  function Try(s: State, step: Step): State {
    if Enabled(s, step) then Next(s, step) else s
  }

  /** The statements of one placement, each as far as the ones before it let it come. */
  function Solo(s: State, p: nat, code: string, now: int, items: seq<Item>, increment: Write, create: Write): State {
    var found := Try(s, Find(p, code));
    var checked := Try(found, Check(p, now, items));
    var counted := Try(checked, Increment(p, increment));
    Try(counted, Store(p, create))
  }

  /** A placement finds the row exactly when the lookup does, and remembers the rule it found. */
  lemma FindIsLookup(s: State, p: nat, code: string)
    requires p !in s.placing
    ensures var found := Lookup(map[s.row.code := Row(s.active, s.row)], code);
            && (Enabled(s, Find(p, code)) <==> found.Ok?)
            && (found.Err? ==> found == Err(InvalidCoupon))
            && (found.Ok? ==>
                  && found == Ok(s.row)
                  && Next(s, Find(p, code)) == s.(placing := s.placing[p := Placing(code, LookedUp(s.row))]))
  {
    var table := map[s.row.code := Row(s.active, s.row)];
    LookupExactly(table, code);
    UpperIgnoresCase(s.row.code, code);
    assert Answers(table, code, s.row.code) <==> s.active && Upper(code) == Upper(s.row.code);
  }

  lemma AfterFind(s: State, p: nat, code: string, now: int, items: seq<Item>, increment: Write, create: Write)
    requires s.placing == map[] && Enabled(s, Find(p, code))
    ensures var t := Solo(s, p, code, now, items, increment, create);
            var admitted := Admit(s.row, now, items).Ok?;
            && t.placing == map[]
            && t.row == s.row.(uses := t.row.uses)
            && t.row.uses - s.row.uses == (if admitted && increment != Refused && code == s.row.code then 1 else 0)
            && t.stored == s.stored + if admitted && increment == Done && create != Refused then [code] else []
  {
    var found := Next(s, Find(p, code));
    assert found.placing == map[p := Placing(code, LookedUp(s.row))];
    var checked := Next(found, Check(p, now, items));
    if Admit(s.row, now, items).Ok? {
      assert checked.placing == map[p := Placing(code, Passed)];
      var counted := Next(checked, Increment(p, increment));
      if increment == Done {
        assert counted.placing == map[p := Placing(code, Counted)];
        assert Next(counted, Store(p, create)).placing == map[];
      } else {
        assert counted.placing == map[];
      }
    } else {
      assert checked.placing == map[];
    }
  }

  /** The statements of one placement, run alone, leave the coupon row and the orders that `PlaceOrder` leaves. */
  lemma AloneIsPlacement(s: State, p: nat, req: Request, c: Catalogue, w: World)
    requires s.placing == map[] && req.couponCode != "" && Orderable(req, c, w) && !w.lookupRefused
    ensures var t := Solo(s, p, req.couponCode, w.now, PricedLines(req.items, c), w.increment, w.create);
            var (_, table, orders) := Placement(req, c, map[s.row.code := Row(s.active, s.row)], [], w);
            && t.placing == map[]
            && table == map[s.row.code := Row(s.active, t.row)]
            && t.stored == s.stored + seq(|orders|, i requires 0 <= i < |orders| => orders[i].couponCode)
  {
    var table, lines := map[s.row.code := Row(s.active, s.row)], PricedLines(req.items, c);
    PlacementEffects(req, c, table, [], w);
    PlacementTable(req, c, table, [], w);
    ValidatedTable(table, req.couponCode, w.now, lines, false, w.increment);
    AdmitsExactly(s.row, w.now, lines);
    FindIsLookup(s, p, req.couponCode);
    if Enabled(s, Find(p, req.couponCode)) {
      AfterFind(s, p, req.couponCode, w.now, lines, w.increment, w.create);
    }
  }

  // ---------------------------------------------------------------- the spelling of the code

  predicate OnlyCode(steps: seq<Step>, code: string) {
    forall st | st in steps && st.Find? :: st.code == code
  }

  predicate AllSpelled(s: State, code: string) {
    && (forall p | p in s.placing :: s.placing[p].code == code)
    && (forall c | c in s.stored :: c == code)
  }

  lemma {:induction false} SpelledRun(s: State, steps: seq<Step>, code: string)
    requires AllSpelled(s, code) && OnlyCode(steps, code) && Run(s, steps).Some?
    ensures AllSpelled(Run(s, steps).value, code)
    decreases |steps|
  {
    if steps != [] {
      assert steps[0] in steps;
      SpelledRun(Next(s, steps[0]), steps[1..], code);
    }
  }

  lemma {:induction false} AllSame(codes: seq<string>, code: string)
    requires forall c | c in codes :: c == code
    ensures StoredWith(codes, code) == |codes|
  {
    if codes != [] {
      var front, last := codes[..|codes| - 1], codes[|codes| - 1];
      assert codes == front + [last] && last in codes;
      assert forall c | c in front :: c in codes;
      AllSame(front, code);
      assert multiset(codes) == multiset(front) + multiset{last};
    }
  }

  /** A placement that spells the code with other capitals is served and leaves the counter alone. */
  lemma RespelledOrder(s: State, code: string, now: int, items: seq<Item>)
    requires s.placing == map[] && s.active && Upper(code) == Upper(s.row.code) && code != s.row.code
    requires Admit(s.row, now, items).Ok?
    ensures Run(s, OneOrder(code, now, items)) == Some(s.(stored := s.stored + [code]))
  {
    OrderServed(s, code, now, items);
  }

  /**
   Every interleaving of placements that spell the code one way keeps the increase in uses at or
   above the number of orders exactly when that way is the stored one.
   */
  lemma SpellingDecides(s: State, code: string, now: int, items: seq<Item>)
    requires Quiet(s) && s.active && Upper(code) == Upper(s.row.code)
    requires Admit(s.row, now, items).Ok?
    ensures code == s.row.code <==>
            forall steps | OnlyCode(steps, code) && Run(s, steps).Some? ::
              Run(s, steps).value.row.uses - s.row.uses >= |Run(s, steps).value.stored|
  {
    if code == s.row.code {
      forall steps | OnlyCode(steps, code) && Run(s, steps).Some?
        ensures Run(s, steps).value.row.uses - s.row.uses >= |Run(s, steps).value.stored|
      {
        SpelledRun(s, steps, code);
        AllSame(Run(s, steps).value.stored, code);
        UsesCoverOrders(s, steps);
      }
    } else {
      var steps := OneOrder(code, now, items);
      RespelledOrder(s, code, now, items);
      assert OnlyCode(steps, code) && Run(s, steps).Some?;
      assert Run(s, steps).value.row.uses - s.row.uses < |Run(s, steps).value.stored|;
    }
  }
}

/**
 Concurrent placements against one coupon row: lookup, checks, increment and order insert are
 separate statements without a transaction, so any number of placements may interleave them.

 The row is known by the code it is stored under; a placement may spell the code with other
 capitals, which the lookup ignores and the increment does not.
 */
module Redemption {
  import opened Common
  import opened Discount
  import opened Validator

  /** Between its statements a placement remembers the rule it read, then that it passed, then that it counted. */
  datatype Phase = LookedUp(rule: Rule) | Passed | Counted

  datatype Placing = Placing(code: string, phase: Phase)

  /**
   `stored` lists the coupon codes of the order table; `abandoned` counts the uses whose
   placement ended without an order.
   */
  datatype State = State(row: Rule, active: bool, placing: map<nat, Placing>, stored: seq<string>, abandoned: nat)

  datatype Step =
    | Find(p: nat, code: string)
    | Check(p: nat, now: int, items: seq<Item>)
    | Increment(p: nat, w: Write)
    | Store(p: nat, w: Write)
    | Crash(p: nat)

  predicate AtPhase(s: State, p: nat, phase: Phase) {
    p in s.placing && s.placing[p].phase == phase
  }

  predicate Enabled(s: State, step: Step) {
    match step
    case Find(p, code) => p !in s.placing && s.active && Upper(code) == Upper(s.row.code)
    case Check(p, _, _) => p in s.placing && s.placing[p].phase.LookedUp?
    case Increment(p, _) => AtPhase(s, p, Passed)
    case Store(p, _) => AtPhase(s, p, Counted)
    case Crash(p) => p in s.placing
  }

  function Bump(s: State, code: string): State {
    if code == s.row.code then s.(row := s.row.(uses := s.row.uses + 1)) else s
  }

  /** The placement ends; a use it already counted is then left without an order. */
  function Leave(s: State, p: nat, counted: bool): State
    requires p in s.placing
  {
    s.(placing := s.placing - {p},
       abandoned := s.abandoned + if counted && s.placing[p].code == s.row.code then 1 else 0)
  }

  function Goto(s: State, p: nat, phase: Phase): State
    requires p in s.placing
  {
    s.(placing := s.placing[p := s.placing[p].(phase := phase)])
  }

  function Next(s: State, step: Step): State
    requires Enabled(s, step)
  {
    match step
    case Find(p, code) => s.(placing := s.placing[p := Placing(code, LookedUp(s.row))])
    case Check(p, now, items) =>
      if Admit(s.placing[p].phase.rule, now, items).Ok? then Goto(s, p, Passed) else Leave(s, p, false)
    case Increment(p, w) =>
      if w == Done then Bump(Goto(s, p, Counted), s.placing[p].code)
      else if Applied(w) then Bump(Leave(s, p, true), s.placing[p].code)
      else Leave(s, p, false)
    case Store(p, w) =>
      if Applied(w) then Leave(s, p, false).(stored := s.stored + [s.placing[p].code])
      else Leave(s, p, true)
    case Crash(p) => Leave(s, p, s.placing[p].phase.Counted?)
  }

  function Run(s: State, steps: seq<Step>): Option<State>
    decreases |steps|
  {
    if steps == [] then Some(s)
    else if Enabled(s, steps[0]) then Run(Next(s, steps[0]), steps[1..])
    else None
  }

  // ---------------------------------------------------------------- every use is accounted for

  function StoredWith(stored: seq<string>, code: string): nat {
    multiset(stored)[code]
  }

  /** The placements that counted a use of the row and have not ended yet. */
  function CountedNow(s: State): set<nat> {
    set p | p in s.placing && s.placing[p] == Placing(s.row.code, Counted)
  }

  /** Uses of the row minus everything they are accounted for by. */
  function Unaccounted(s: State): int {
    s.row.uses - StoredWith(s.stored, s.row.code) - |CountedNow(s)| - s.abandoned
  }

  /** Two sets that differ at most at p. */
  lemma DifferAt(a: set<nat>, b: set<nat>, p: nat)
    requires forall q | q != p :: q in a <==> q in b
    ensures |b| - |a| == (if p in b then 1 else 0) - (if p in a then 1 else 0)
  {
    assert a - {p} == b - {p};
    assert p in a ==> a == a - {p} + {p};
    assert p in b ==> b == b - {p} + {p};
    assert p !in a ==> a == a - {p};
    assert p !in b ==> b == b - {p};
  }

  lemma OthersStay(s: State, step: Step, q: nat)
    requires Enabled(s, step) && q != step.p
    ensures var t := Next(s, step);
            (q in s.placing <==> q in t.placing) && (q in s.placing ==> s.placing[q] == t.placing[q])
  {
  }

  /** A step changes the counted placements at most by its own. */
  lemma CountedAfter(s: State, step: Step)
    requires Enabled(s, step)
    ensures var t := Next(s, step);
            |CountedNow(t)| - |CountedNow(s)|
            == (if step.p in CountedNow(t) then 1 else 0) - (if step.p in CountedNow(s) then 1 else 0)
  {
    var t := Next(s, step);
    forall q | q != step.p ensures q in CountedNow(s) <==> q in CountedNow(t) { OthersStay(s, step, q); }
    DifferAt(CountedNow(s), CountedNow(t), step.p);
  }

  lemma IncrementAccounts(s: State, p: nat, w: Write)
    requires Enabled(s, Increment(p, w))
    ensures Unaccounted(Next(s, Increment(p, w))) == Unaccounted(s)
  {
    CountedAfter(s, Increment(p, w));
    assert p !in CountedNow(s);
  }

  lemma StoreAccounts(s: State, p: nat, w: Write)
    requires Enabled(s, Store(p, w))
    ensures Unaccounted(Next(s, Store(p, w))) == Unaccounted(s)
  {
    CountedAfter(s, Store(p, w));
    StoredOneMore(s.stored, s.placing[p].code, s.row.code);
    assert p !in CountedNow(Next(s, Store(p, w)));
  }

  lemma StepAccounts(s: State, step: Step)
    requires Enabled(s, step)
    ensures Unaccounted(Next(s, step)) == Unaccounted(s)
  {
    match step
    case Increment(p, w) => IncrementAccounts(s, p, w);
    case Store(p, w) => StoreAccounts(s, p, w);
    case _ => CountedAfter(s, step);
  }

  /** Only the use counter of the row ever changes. */
  lemma RowKept(s: State, step: Step)
    requires Enabled(s, step)
    ensures var t := Next(s, step); t.row == s.row.(uses := t.row.uses)
  {
  }

  lemma StoredOneMore(stored: seq<string>, code: string, c: string)
    ensures StoredWith(stored + [code], c) == StoredWith(stored, c) + if code == c then 1 else 0
  {
    assert multiset(stored + [code]) == multiset(stored) + multiset{code};
  }

  /**
   Conservation of uses, in every interleaving: the uses of the row, less the orders stored with
   exactly its code, the placements about to store one, and the abandoned ones, never change.
   */
  lemma {:induction false} UsesConserved(s: State, steps: seq<Step>)
    requires Run(s, steps).Some?
    ensures Unaccounted(Run(s, steps).value) == Unaccounted(s)
    ensures var t := Run(s, steps).value; t.row == s.row.(uses := t.row.uses)
    decreases |steps|
  {
    if steps != [] {
      StepAccounts(s, steps[0]);
      RowKept(s, steps[0]);
      UsesConserved(Next(s, steps[0]), steps[1..]);
    }
  }

  predicate Quiet(s: State) {
    s.placing == map[] && s.stored == [] && s.abandoned == 0
  }

  /** From a quiet start the increase in uses is at least the number of orders stored with the row's code. */
  lemma UsesCoverOrders(s: State, steps: seq<Step>)
    requires Quiet(s) && Run(s, steps).Some?
    ensures var t := Run(s, steps).value;
            && t.row.uses - s.row.uses >= StoredWith(t.stored, s.row.code)
            && (t.placing == map[] && t.abandoned == 0 ==>
                  t.row.uses - s.row.uses == StoredWith(t.stored, s.row.code))
  {
    UsesConserved(s, steps);
    assert CountedNow(s) == {};
    var t := Run(s, steps).value;
    assert t.placing == map[] ==> CountedNow(t) == {};
  }

  // ---------------------------------------------------------------- the limit

  /** Placements of the stored spelling that are between lookup and increment. */
  function InFlight(s: State): set<nat> {
    set p | p in s.placing && s.placing[p].code == s.row.code && !s.placing[p].phase.Counted?
  }

  /** Those of them that can still count a use. */
  function Hopeful(s: State): set<nat> {
    set p | p in InFlight(s)
            && (s.placing[p].phase.LookedUp? ==> s.placing[p].phase.rule.uses < s.row.maxUses)
  }

  /** Every placement read the row under its present limit. */
  predicate SameLimit(s: State) {
    forall p | p in s.placing && s.placing[p].phase.LookedUp? :: s.placing[p].phase.rule.maxUses == s.row.maxUses
  }

  predicate LimitInv(s: State, n: nat) {
    && SameLimit(s)
    && s.row.uses + |Hopeful(s)| <= s.row.maxUses + n - 1
  }

  /** At most n placements of the stored spelling are between lookup and increment, all along the run. */
  predicate AtMost(s: State, steps: seq<Step>, n: nat)
    decreases |steps|
  {
    && |InFlight(s)| <= n
    && (steps != [] && Enabled(s, steps[0]) ==> AtMost(Next(s, steps[0]), steps[1..], n))
  }

  /** A step changes the hopeful placements at most by its own. */
  lemma HopefulAfter(s: State, step: Step)
    requires Enabled(s, step)
    ensures var t := Next(s, step);
            |Hopeful(t)| - |Hopeful(s)|
            == (if step.p in Hopeful(t) then 1 else 0) - (if step.p in Hopeful(s) then 1 else 0)
  {
    var t := Next(s, step);
    forall q | q != step.p ensures q in Hopeful(s) <==> q in Hopeful(t) { OthersStay(s, step, q); }
    DifferAt(Hopeful(s), Hopeful(t), step.p);
  }

  /** Only a placement that read the row below its limit passes the checks. */
  lemma PassedWasHopeful(s: State, step: Step)
    requires s.row.maxUses > 0 && SameLimit(s) && Enabled(s, step) && step.Check?
    ensures step.p in Hopeful(Next(s, step)) ==> step.p in Hopeful(s)
  {
  }

  lemma SameLimitKept(s: State, step: Step)
    requires SameLimit(s) && Enabled(s, step)
    ensures SameLimit(Next(s, step))
  {
    var t := Next(s, step);
    forall q | q in t.placing && t.placing[q].phase.LookedUp?
      ensures t.placing[q].phase.rule.maxUses == t.row.maxUses
    {
      if q != step.p { OthersStay(s, step, q); }
    }
  }

  lemma StepKeepsLimit(s: State, step: Step, n: nat)
    requires s.row.maxUses > 0 && LimitInv(s, n)
    requires Enabled(s, step) && |InFlight(Next(s, step))| <= n
    ensures LimitInv(Next(s, step), n)
  {
    var t := Next(s, step);
    SameLimitKept(s, step);
    HopefulAfter(s, step);
    if step.Check? {
      PassedWasHopeful(s, step);
    } else if step.Find? && step.p in Hopeful(t) {
      // the row was below its limit when it was read, and all hopeful placements are in flight
      SubsetSize(Hopeful(t), InFlight(t));
      assert t.row.uses < t.row.maxUses;
    }
  }

  /**
   With at most n placements of the stored spelling between lookup and increment at once, the
   uses never exceed the limit by more than n - 1; one at a time, they never exceed it.
   */
  lemma {:induction false} LimitRun(s: State, steps: seq<Step>, n: nat)
    requires s.row.maxUses > 0 && LimitInv(s, n)
    requires Run(s, steps).Some? && AtMost(s, steps, n)
    ensures Run(s, steps).value.row.uses <= s.row.maxUses + n - 1
    decreases |steps|
  {
    if steps != [] {
      var t := Next(s, steps[0]);
      StepKeepsLimit(s, steps[0], n);
      RowKept(s, steps[0]);
      LimitRun(t, steps[1..], n);
    }
  }

  lemma LimitOvershoot(s: State, steps: seq<Step>, n: nat)
    requires Quiet(s) && 0 < s.row.maxUses && s.row.uses <= s.row.maxUses && n >= 1
    requires Run(s, steps).Some? && AtMost(s, steps, n)
    ensures Run(s, steps).value.row.uses <= s.row.maxUses + n - 1
  {
    assert Hopeful(s) == {};
    LimitRun(s, steps, n);
  }
}

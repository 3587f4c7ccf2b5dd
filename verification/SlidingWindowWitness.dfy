/** The interval bound is attained, and needs its clock hypothesis. */
module SlidingWindowWitness {
  import opened Common
  import opened SlidingWindow
  import opened SlidingWindowInvariant
  import opened SlidingWindowBound

  function Burst(now: int, k: nat): seq<Event> {
    if k == 0 then [] else [Request(now)] + Burst(now, k - 1)
  }

  lemma {:induction false} Concatenation(cfg: Config, slot: Option<EntryState>, xs: seq<Event>, ys: seq<Event>)
    ensures Run(cfg, slot, xs + ys) == Run(cfg, Run(cfg, slot, xs), ys)
    ensures Answers(cfg, slot, xs + ys) == Answers(cfg, slot, xs) + Answers(cfg, Run(cfg, slot, xs), ys)
    decreases |xs|
  {
    if xs == [] {
      assert xs + ys == ys;
    } else {
      assert (xs + ys)[1..] == xs[1..] + ys;
      Concatenation(cfg, Step(cfg, slot, xs[0]), xs[1..], ys);
    }
  }

  lemma {:induction false} CountConcat(cfg: Config, kind: Kind, xs: seq<Answer>, ys: seq<Answer>, a: int, b: int)
    ensures Count(cfg, kind, xs + ys, a, b) == Count(cfg, kind, xs, a, b) + Count(cfg, kind, ys, a, b)
  {
    if xs == [] {
      assert xs + ys == ys;
    } else {
      assert (xs + ys)[1..] == xs[1..] + ys;
      CountConcat(cfg, kind, xs[1..], ys, a, b);
    }
  }

  lemma AdmittedNow(cfg: Config, e: EntryState, now: int, a: int, b: int)
    requires now - e.currStart < cfg.window && a <= now < b
    requires Load(cfg, e, now) < cfg.max * cfg.window
    ensures Step(cfg, Some(e), Request(now)) == Some(e.(currCount := e.currCount + 1))
    ensures Counts(cfg, Any, Reply(cfg, Some(e), now), a, b)
    ensures Load(cfg, e.(currCount := e.currCount + 1), now) == Load(cfg, e, now) + cfg.window
  {
  }

  /** k simultaneous requests on an open window are all admitted while the load leaves room for k. */
  lemma {:induction false} BurstAdmitted(cfg: Config, e: EntryState, now: int, k: nat, a: int, b: int)
    requires now - e.currStart < cfg.window && a <= now < b
    requires k == 0 || Load(cfg, e, now) + (k - 1) * cfg.window < cfg.max * cfg.window
    ensures Run(cfg, Some(e), Burst(now, k)) == Some(e.(currCount := e.currCount + k))
    ensures Count(cfg, Any, Answers(cfg, Some(e), Burst(now, k)), a, b) == k
    decreases k
  {
    if k > 0 {
      var evs := Burst(now, k);
      assert evs[0] == Request(now) && evs[1..] == Burst(now, k - 1);
      MulMono(0, k - 1, cfg.window);
      AdmittedNow(cfg, e, now, a, b);
      var e' := e.(currCount := e.currCount + 1);
      assert (k - 1) * cfg.window == (k - 2) * cfg.window + cfg.window;
      AnswersUnfold(cfg, Some(e), evs);
      BurstAdmitted(cfg, e', now, k - 1, a, b);
    }
  }

  lemma RotateOnTheWay(cfg: Config, e: EntryState, now: int)
    requires cfg.window <= now - e.currStart < 2 * cfg.window
    ensures Rotated(cfg, e, now) == EntryState(e.currCount, e.currStart, 0, Truncate(now, cfg.window))
  {
  }

  lemma TruncateTo(t: int, w: int, s: int)
    requires w > 0 && s % w == 0 && s <= t < s + w
    ensures Truncate(t, w) == s
  {
    TruncateSpec(t, w);
    if Truncate(t, w) < s { MultiplesApart(Truncate(t, w), s, w); }
    if s < Truncate(t, w) { MultiplesApart(s, Truncate(t, w), w); }
  }

  /** A burst that opens with a rotation of the previous window. */
  lemma BurstAfterRotation(cfg: Config, e: EntryState, now: int, s: int, left: int, a: int, b: int)
    requires cfg.max >= 1 && EntryInv(cfg, e) && a <= now < b
    requires cfg.window <= now - e.currStart < 2 * cfg.window
    requires s % cfg.window == 0 && s <= now < s + cfg.window
    requires e.currCount == cfg.max && left == cfg.window - (now - s) && cfg.max * left < cfg.window
    ensures Run(cfg, Some(e), Burst(now, cfg.max)) == Some(EntryState(cfg.max, e.currStart, cfg.max, s))
    ensures Count(cfg, Any, Answers(cfg, Some(e), Burst(now, cfg.max)), a, b) == cfg.max
  {
    TruncateTo(now, cfg.window, s);
    RotateOnTheWay(cfg, e, now);
    var r := Rotated(cfg, e, now);
    assert r == EntryState(cfg.max, e.currStart, 0, s);
    assert Load(cfg, r, now) < cfg.window;
    assert (cfg.max - 1) * cfg.window + cfg.window == cfg.max * cfg.window;
    BurstAdmitted(cfg, r, now, cfg.max, a, b);
    // the first request of the burst sees the same window whether or not it rotates
    assert Allow(cfg, Some(e), now) == Allow(cfg, Some(r), now);
    AnswersUnfold(cfg, Some(e), Burst(now, cfg.max));
    AnswersUnfold(cfg, Some(r), Burst(now, cfg.max));
  }

  lemma FirstRequest(cfg: Config, s: int, a: int, b: int)
    requires cfg.max >= 1 && s < a
    ensures Run(cfg, None, [Request(s)]) == Some(EntryState(0, 0, 1, s))
    ensures Count(cfg, Any, Answers(cfg, None, [Request(s)]), a, b) == 0
  {
    MulMono(1, cfg.max, cfg.window);
    AnswersUnfold(cfg, None, [Request(s)]);
  }

  lemma JoinCounts(cfg: Config, slot: Option<EntryState>, xs: seq<Event>, ys: seq<Event>, a: int, b: int)
    ensures Count(cfg, Any, Answers(cfg, slot, xs + ys), a, b)
         == Count(cfg, Any, Answers(cfg, slot, xs), a, b) + Count(cfg, Any, Answers(cfg, Run(cfg, slot, xs), ys), a, b)
  {
    Concatenation(cfg, slot, xs, ys);
    CountConcat(cfg, Any, Answers(cfg, slot, xs), Answers(cfg, Run(cfg, slot, xs), ys), a, b);
  }

  lemma {:induction false} BurstThen(now: int, k: nat, from: int, rest: seq<Event>, next: int)
    requires from <= now <= next && Ordered(rest, next)
    ensures Ordered(Burst(now, k) + rest, from)
    decreases k
  {
    if k == 0 {
      assert Burst(now, k) + rest == rest;
    } else {
      assert (Burst(now, k) + rest)[1..] == Burst(now, k - 1) + rest;
      BurstThen(now, k - 1, now, rest, next);
    }
  }

  lemma BurstFits(m: int, w: int)
    requires w > 0
    ensures w + (m - 2) * w == (m - 1) * w < m * w
  {
    assert (m - 2) * w == m * w - 2 * w && (m - 1) * w == m * w - w;
  }

  /** The first window takes one request when it opens at s and fills up at its last instant. */
  lemma FirstWindowFull(cfg: Config, s: int, a: int, b: int)
    requires cfg.max >= 1 && s < a <= s + cfg.window - 1 < b
    ensures var evs := [Request(s)] + Burst(s + cfg.window - 1, cfg.max - 1);
            Run(cfg, None, evs) == Some(EntryState(0, 0, cfg.max, s))
            && Count(cfg, Any, Answers(cfg, None, evs), a, b) == cfg.max - 1
  {
    var m, w := cfg.max, cfg.window;
    FirstRequest(cfg, s, a, b);
    var e0 := EntryState(0, 0, 1, s);
    assert Load(cfg, e0, s + w - 1) == w;
    BurstFits(m, w);
    BurstAdmitted(cfg, e0, s + w - 1, m - 1, a, b);
    assert e0.(currCount := e0.currCount + (m - 1)) == EntryState(0, 0, m, s);
    JoinCounts(cfg, None, [Request(s)], Burst(s + w - 1, m - 1), a, b);
    Concatenation(cfg, None, [Request(s)], Burst(s + w - 1, m - 1));
  }

  /** A burst at t and at every window length after it, k in all. */
  function LateBursts(m: nat, w: int, t: int, k: nat): seq<Event>
    decreases k
  {
    if k == 0 then [] else Burst(t, m) + LateBursts(m, w, t + w, k - 1)
  }

  lemma OneLateWindow(cfg: Config, e: EntryState, rest: seq<Event>, a: int, b: int)
    requires cfg.max >= 1 && cfg.window > 3 * cfg.max && EntryInv(cfg, e) && e.currCount == cfg.max
    requires e.currStart % cfg.window == 0 && a <= e.currStart + 2 * cfg.window - 3 < b
    ensures var next := EntryState(cfg.max, e.currStart, cfg.max, e.currStart + cfg.window);
            Count(cfg, Any, Answers(cfg, Some(e), Burst(e.currStart + 2 * cfg.window - 3, cfg.max) + rest), a, b)
            == cfg.max + Count(cfg, Any, Answers(cfg, Some(next), rest), a, b)
  {
    var now := e.currStart + 2 * cfg.window - 3;
    NextMultiple(e.currStart, cfg.window);
    BurstAfterRotation(cfg, e, now, e.currStart + cfg.window, 3, a, b);
    JoinCounts(cfg, Some(e), Burst(now, cfg.max), rest, a, b);
  }

  /** After a full aligned window, one after the other fills up late, when the weights are small. */
  lemma {:induction false} LateWindowsFull(cfg: Config, e: EntryState, k: nat, a: int, b: int)
    requires cfg.max >= 1 && cfg.window > 3 * cfg.max && EntryInv(cfg, e) && e.currCount == cfg.max
    requires e.currStart % cfg.window == 0
    requires a <= e.currStart + 2 * cfg.window - 3 && e.currStart + (k + 1) * cfg.window - 3 < b
    ensures var late := LateBursts(cfg.max, cfg.window, e.currStart + 2 * cfg.window - 3, k);
            Count(cfg, Any, Answers(cfg, Some(e), late), a, b) == k * cfg.max
    decreases k
  {
    var m, w, c := cfg.max, cfg.window, e.currStart;
    if k > 0 {
      assert (k + 1) * w == k * w + w && k * m == (k - 1) * m + m;
      MulMono(1, k, w);
      OneLateWindow(cfg, e, LateBursts(m, w, c + 3 * w - 3, k - 1), a, b);
      NextMultiple(c, w);
      LateWindowsFull(cfg, EntryState(m, c, m, c + w), k - 1, a, b);
    }
  }

  lemma {:induction false} LateBurstsOrdered(m: nat, w: int, t: int, k: nat, from: int)
    requires w > 0 && from <= t
    ensures Ordered(LateBursts(m, w, t, k), from)
    decreases k
  {
    if k > 0 {
      LateBurstsOrdered(m, w, t + w, k - 1, t);
      BurstThen(t, m, from, LateBursts(m, w, t + w, k - 1), t);
    }
  }

  /** A request, a burst and one or more requests after it, in the order of their times. */
  lemma BurstOrdered(first: int, now: int, k: nat, later: seq<Event>, next: int)
    requires first <= now <= next && Ordered(later, next)
    ensures Ordered(([Request(first)] + Burst(now, k)) + later, first)
  {
    var evs := ([Request(first)] + Burst(now, k)) + later;
    BurstThen(now, k, first, later, next);
    assert evs[1..] == Burst(now, k) + later;
  }

  lemma LaterOrdered(m: nat, w: int, c: int, k: nat)
    requires w >= 3
    ensures Ordered(Burst(c + w - 1, m) + LateBursts(m, w, c + 2 * w - 3, k), c + w - 1)
  {
    LateBurstsOrdered(m, w, c + 2 * w - 3, k, c + w - 1);
    BurstThen(c + w - 1, m, c + w - 1, LateBursts(m, w, c + 2 * w - 3, k), c + w - 1);
  }

  lemma {:induction false} FullLoadOrdered(m: nat, w: int, c: int, k: nat, first: seq<Event>, later: seq<Event>)
    requires m >= 1 && w >= 3
    requires first == [Request(c - 1)] + Burst(c + w - 2, m - 1)
    requires later == Burst(c + w - 1, m) + LateBursts(m, w, c + 2 * w - 3, k)
    ensures Ordered(first + later, c - 1)
  {
    LaterOrdered(m, w, c, k);
    BurstOrdered(c - 1, c + w - 2, m - 1, later, c + w - 1);
  }

  /** The aligned windows after one that opened just before c. */
  lemma LaterWindowsFull(cfg: Config, c: int, k: nat, a: int, b: int)
    requires cfg.max >= 1 && cfg.window > 3 * cfg.max && c % cfg.window == 0
    requires a <= c + cfg.window - 1 < b && c + (k + 1) * cfg.window - 3 < b
    ensures var evs := Burst(c + cfg.window - 1, cfg.max) + LateBursts(cfg.max, cfg.window, c + 2 * cfg.window - 3, k);
            Count(cfg, Any, Answers(cfg, Some(EntryState(0, 0, cfg.max, c - 1)), evs), a, b) == (k + 1) * cfg.max
  {
    var m, w := cfg.max, cfg.window;
    var e1, e2 := EntryState(0, 0, m, c - 1), EntryState(m, c - 1, m, c);
    BurstAfterRotation(cfg, e1, c + w - 1, c, 1, a, b);
    LateWindowsFull(cfg, e2, k, a, b);
    JoinCounts(cfg, Some(e1), Burst(c + w - 1, m), LateBursts(m, w, c + 2 * w - 3, k), a, b);
  }

  lemma FullLoadCount(cfg: Config, c: int, k: nat, first: seq<Event>, later: seq<Event>)
    requires cfg.max >= 1 && cfg.window > 3 * cfg.max && c % cfg.window == 0 && k >= 1
    requires first == [Request(c - 1)] + Burst(c + cfg.window - 2, cfg.max - 1)
    requires later == Burst(c + cfg.window - 1, cfg.max) + LateBursts(cfg.max, cfg.window, c + 2 * cfg.window - 3, k)
    ensures var a := c + cfg.window - 2;
            Count(cfg, Any, Answers(cfg, None, first + later), a, a + k * cfg.window) == (k + 2) * cfg.max - 1
  {
    var a, b := c + cfg.window - 2, c + cfg.window - 2 + k * cfg.window;
    MulMono(1, k, cfg.window);
    assert (k + 1) * cfg.window == k * cfg.window + cfg.window;
    assert (k + 2) * cfg.max == (k + 1) * cfg.max + cfg.max;
    FirstWindowFull(cfg, c - 1, a, b);
    LaterWindowsFull(cfg, c, k, a, b);
    JoinCounts(cfg, None, first, later, a, b);
  }

  /**
   For every limit, every window longer than 3 * max, every multiple c of it and every k, some
   ordered run that begins just before c has (k + 2) * max - 1 admissions in k windows in a row.
   */
  lemma BoundAttained(cfg: Config, c: int, k: nat) returns (evs: seq<Event>)
    requires cfg.max >= 1 && cfg.window > 3 * cfg.max && c % cfg.window == 0 && k >= 1
    ensures Ordered(evs, c - 1)
    ensures var a := c + cfg.window - 2;
            Count(cfg, Any, Answers(cfg, None, evs), a, a + k * cfg.window) == (k + 2) * cfg.max - 1
  {
    var m, w := cfg.max, cfg.window;
    // one request just before c, a burst at the end of its window, and one late in each aligned window
    var first := [Request(c - 1)] + Burst(c + w - 2, m - 1);
    var later := Burst(c + w - 1, m) + LateBursts(m, w, c + 2 * w - 3, k);
    evs := first + later;
    FullLoadOrdered(m, w, c, k, first, later);
    FullLoadCount(cfg, c, k, first, later);
  }

  // ---------------------------------------------------------------- a clock that jumps back

  /** k calls at the reading r, each followed by a cleanup whose reading is two windows ahead. */
  function SweptCalls(cfg: Config, r: int, k: nat): seq<Event> {
    if k == 0 then [] else [Request(r), Sweep(r + 2 * cfg.window)] + SweptCalls(cfg, r, k - 1)
  }

  lemma TwoEvents(cfg: Config, slot: Option<EntryState>, x: Event, y: Event)
    ensures Run(cfg, slot, [x, y]) == Step(cfg, Step(cfg, slot, x), y)
    ensures Answers(cfg, slot, [x, y]) == Answers(cfg, slot, [x]) + Answers(cfg, Step(cfg, slot, x), [y])
  {
    assert [x, y] == [x] + [y] && [x][1..] == [] && [y][1..] == [];
    Concatenation(cfg, slot, [x], [y]);
  }

  /** Without the clock hypothesis no bound holds: k admissions at one and the same reading. */
  lemma {:induction false} BackwardClockUnbounded(cfg: Config, r: int, k: nat)
    requires cfg.max >= 1
    ensures Count(cfg, Any, Answers(cfg, None, SweptCalls(cfg, r, k)), r, r + 1) == k
    decreases k
  {
    if k > 0 {
      var x, y := Request(r), Sweep(r + 2 * cfg.window);
      MulMono(1, cfg.max, cfg.window);
      var first := Step(cfg, None, x);
      assert first == Some(EntryState(0, 0, 1, r)) && Step(cfg, first, y) == None;
      TwoEvents(cfg, None, x, y);
      assert Answers(cfg, None, [x]) == [Reply(cfg, None, r)] && Answers(cfg, first, [y]) == [];
      assert Answers(cfg, None, [x, y]) == [Reply(cfg, None, r)];
      assert Count(cfg, Any, [Reply(cfg, None, r)], r, r + 1) == 1;
      BackwardClockUnbounded(cfg, r, k - 1);
      JoinCounts(cfg, None, [x, y], SweptCalls(cfg, r, k - 1), r, r + 1);
    }
  }

  /** k rounds of one call ever further in the future, from t on, and one back at the reading r. */
  function Jumps(cfg: Config, r: int, t: int, k: nat): seq<Event>
    decreases k
  {
    if k == 0 then [] else [Request(t), Request(r)] + Jumps(cfg, r, t + 2 * cfg.window, k - 1)
  }

  /** The call in the future opens a window with nothing before it, and leaves room for the call at r. */
  lemma JumpRound(cfg: Config, slot: Option<EntryState>, r: int, t: int)
    requires cfg.max >= 2 && t % cfg.window == 0 && r < t
    requires slot.Some? ==> slot.value.currStart + 2 * cfg.window <= t
    ensures var after := Run(cfg, slot, [Request(t), Request(r)]);
            after.Some? && after.value.currStart == t
    ensures Count(cfg, Any, Answers(cfg, slot, [Request(t), Request(r)]), r, r + 1) == 1
  {
    MulMono(2, cfg.max, cfg.window);
    var s1 := Step(cfg, slot, Request(t));
    assert s1.Some? && s1.value.currStart == t && s1.value.currCount == 1 && s1.value.prevCount == 0;
    assert Load(cfg, s1.value, r) == cfg.window;
    TwoEvents(cfg, slot, Request(t), Request(r));
    assert [Request(t)][1..] == [] && [Request(r)][1..] == [];
    assert Answers(cfg, slot, [Request(t)]) == [Reply(cfg, slot, t)];
    assert Answers(cfg, s1, [Request(r)]) == [Reply(cfg, s1, r)];
    CountConcat(cfg, Any, [Reply(cfg, slot, t)], [Reply(cfg, s1, r)], r, r + 1);
  }

  /** No cleanup is needed for that once the limit is two or more. */
  lemma {:induction false} BackwardCallsUnbounded(cfg: Config, slot: Option<EntryState>, r: int, t: int, k: nat)
    requires cfg.max >= 2 && t % cfg.window == 0 && r < t
    requires slot.Some? ==> slot.value.currStart + 2 * cfg.window <= t
    ensures Count(cfg, Any, Answers(cfg, slot, Jumps(cfg, r, t, k)), r, r + 1) == k
    decreases k
  {
    if k > 0 {
      var evs, next := [Request(t), Request(r)], t + 2 * cfg.window;
      JumpRound(cfg, slot, r, t);
      NextMultiple(t, cfg.window);
      NextMultiple(t + cfg.window, cfg.window);
      BackwardCallsUnbounded(cfg, Run(cfg, slot, evs), r, next, k - 1);
      JoinCounts(cfg, slot, evs, Jumps(cfg, r, next, k - 1), r, r + 1);
    }
  }
}

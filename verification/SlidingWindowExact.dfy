/**
 Exactly when the limiter keeps what its configuration promises, at most `max` admissions in any
 interval as long as one window: never for a positive limit, but for windows of one or two
 nanoseconds.
 */
module SlidingWindowExact {
  import opened Common
  import opened SlidingWindow
  import opened SlidingWindowInvariant
  import opened SlidingWindowBound
  import opened SlidingWindowWitness

  predicate AtMostMax(cfg: Config, evs: seq<Event>, a: int) {
    Count(cfg, Any, Answers(cfg, None, evs), a, a + cfg.window) <= Limit(cfg)
  }

  /** The configurations that keep the promise. */
  predicate Strict(cfg: Config) {
    cfg.max <= 0 || cfg.window == 1 || (cfg.window == 2 && cfg.max <= 2)
  }

  // ---------------------------------------------------------------- where it fails

  lemma OneMoreRequest(cfg: Config, e: EntryState, now: int, a: int, b: int)
    requires a <= now < b && Load(cfg, Rotated(cfg, e, now), now) < cfg.max * cfg.window
    ensures Count(cfg, Any, Answers(cfg, Some(e), [Request(now)]), a, b) == 1
  {
    AnswersUnfold(cfg, Some(e), [Request(now)]);
    assert [Request(now)][1..] == [];
    assert Answers(cfg, Some(e), [Request(now)]) == [Reply(cfg, Some(e), now)];
  }

  /** A full burst at the last instant of an aligned window. */
  lemma LastInstantFull(cfg: Config, s: int)
    requires cfg.max >= 1 && s % cfg.window == 0
    ensures var w := cfg.window; var evs := [Request(s)] + Burst(s + 3 * w - 1, cfg.max);
            && Run(cfg, None, evs) == Some(EntryState(0, s, cfg.max, s + 2 * w))
            && Count(cfg, Any, Answers(cfg, None, evs), s + 3 * w - 1, s + 4 * w - 1) == cfg.max
  {
    var w, now := cfg.window, s + 3 * cfg.window - 1;
    var e, r := EntryState(0, 0, 1, s), EntryState(0, s, 0, s + 2 * cfg.window);
    FirstRequest(cfg, s, now, now + w);
    NextMultiple(s, w);
    NextMultiple(s + w, w);
    TruncateTo(now, w, s + 2 * w);
    assert Rotated(cfg, e, now) == r && Load(cfg, r, now) == 0;
    BurstFits(cfg.max, w);
    BurstAdmitted(cfg, r, now, cfg.max, now, now + w);
    // the first request of the burst sees the same window whether or not it rotates
    assert Allow(cfg, Some(e), now) == Allow(cfg, Some(r), now);
    AnswersUnfold(cfg, Some(e), Burst(now, cfg.max));
    AnswersUnfold(cfg, Some(r), Burst(now, cfg.max));
    JoinCounts(cfg, None, [Request(s)], Burst(now, cfg.max), now, now + w);
    Concatenation(cfg, None, [Request(s)], Burst(now, cfg.max));
  }

  /** Two ticks later the full window already weighs a little less than the limit. */
  lemma OneMoreFits(cfg: Config, s: int)
    requires cfg.max >= 1 && cfg.window >= 3 && s % cfg.window == 0
    ensures var e, now := EntryState(0, s, cfg.max, s + 2 * cfg.window), s + 3 * cfg.window + 1;
            Load(cfg, Rotated(cfg, e, now), now) < cfg.max * cfg.window
  {
    var w, now := cfg.window, s + 3 * cfg.window + 1;
    var e := EntryState(0, s, cfg.max, s + 2 * w);
    NextMultiple(s, w);
    NextMultiple(s + w, w);
    NextMultiple(s + 2 * w, w);
    TruncateTo(now, w, s + 3 * w);
    var r := Rotated(cfg, e, now);
    assert r == EntryState(cfg.max, s + 2 * w, 0, s + 3 * w);
    assert Load(cfg, r, now) == cfg.max * (w - 1) == cfg.max * w - cfg.max;
  }

  lemma {:induction false} LongWindowFails(cfg: Config, s: int) returns (evs: seq<Event>)
    requires cfg.max >= 1 && cfg.window >= 3 && s % cfg.window == 0
    ensures Ordered(evs, s) && !AtMostMax(cfg, evs, s + 3 * cfg.window - 1)
  {
    var w, now := cfg.window, s + 3 * cfg.window - 1;
    var front, last := [Request(s)] + Burst(now, cfg.max), [Request(now + 2)];
    evs := front + last;
    BurstOrdered(s, now, cfg.max, last, now + 2);
    LastInstantFull(cfg, s);
    OneMoreFits(cfg, s);
    OneMoreRequest(cfg, EntryState(0, s, cfg.max, s + 2 * w), now + 2, now, now + w);
    JoinCounts(cfg, None, front, last, now, now + w);
  }

  /** After a full window that opened at an odd time, two requests at the next odd time fit. */
  lemma TwoMoreFit(cfg: Config, s: int)
    requires cfg.max >= 3 && cfg.window == 2 && s % 2 == 0
    ensures Count(cfg, Any, Answers(cfg, Some(EntryState(0, 0, cfg.max, s + 1)), Burst(s + 3, 2)), s + 2, s + 4) == 2
  {
    var later := Burst(s + 3, 2);
    var e, r := EntryState(0, 0, cfg.max, s + 1), EntryState(cfg.max, s + 1, 0, s + 2);
    TruncateTo(s + 3, 2, s + 2);
    assert Rotated(cfg, e, s + 3) == r && Load(cfg, r, s + 3) == cfg.max;
    BurstAdmitted(cfg, r, s + 3, 2, s + 2, s + 4);
    // the first request of the burst sees the same window whether or not it rotates
    assert Allow(cfg, Some(e), s + 3) == Allow(cfg, Some(r), s + 3);
    AnswersUnfold(cfg, Some(e), later);
    AnswersUnfold(cfg, Some(r), later);
  }

  /** A first window that opens in the middle of an aligned one, and two requests right after it. */
  lemma {:induction false} TwoTickWindowFails(cfg: Config, s: int) returns (evs: seq<Event>)
    requires cfg.max >= 3 && cfg.window == 2 && s % 2 == 0
    ensures Ordered(evs, s + 1) && !AtMostMax(cfg, evs, s + 2)
  {
    var first, later := [Request(s + 1)] + Burst(s + 2, cfg.max - 1), Burst(s + 3, 2);
    evs := first + later;
    BurstThen(s + 3, 2, s + 3, [], s + 3);
    assert later + [] == later;
    BurstOrdered(s + 1, s + 2, cfg.max - 1, later, s + 3);
    FirstWindowFull(cfg, s + 1, s + 2, s + 4);
    TwoMoreFit(cfg, s);
    JoinCounts(cfg, None, first, later, s + 2, s + 4);
  }

  // ---------------------------------------------------------------- where it holds

  /** What a window of at most two ticks keeps while the interval from a is open; n admissions so far. */
  predicate NarrowInv(cfg: Config, slot: Option<EntryState>, last: int, a: int, n: nat) {
    if slot.None? then n == 0
    else
      var e := slot.value;
      && EntryInv(cfg, e)
      && e.currStart <= last
      && if e.currStart + cfg.window <= a then n == 0
         else if e.currStart < a then n <= e.currCount && (!Aligned(cfg, e.currStart) ==> n < e.currCount)
         else if e.currStart > a then n <= e.prevCount + e.currCount <= cfg.max
         else n <= e.currCount || LateRotation(cfg, e, last, n)
  }

  /** The window at a was only opened by a request at a + 1, after an unaligned one that opened before a. */
  predicate LateRotation(cfg: Config, e: EntryState, last: int, n: nat) {
    && last == e.currStart + 1
    && e.prevCount >= 1 && n <= e.prevCount - 1 + e.currCount
    && e.prevCount + 2 * e.currCount < 2 * cfg.max + 2
  }

  lemma NarrowEnough(cfg: Config, slot: Option<EntryState>, last: int, a: int, n: nat)
    requires cfg.max >= 1 && Strict(cfg) && last < a + cfg.window && NarrowInv(cfg, slot, last, a, n)
    ensures n <= cfg.max
  {
  }

  predicate NarrowBound(cfg: Config, slot: Option<EntryState>, last: int, a: int, n: nat) {
    if last >= a + cfg.window then n <= cfg.max else NarrowInv(cfg, slot, last, a, n)
  }

  lemma StepKeepsNarrow(cfg: Config, slot: Option<EntryState>, last: int, ev: Event, a: int, n: nat)
    requires cfg.max >= 1 && Strict(cfg) && last <= ev.now && NarrowBound(cfg, slot, last, a, n)
    ensures NarrowBound(cfg, Step(cfg, slot, ev), ev.now, a, Counted(cfg, slot, ev, a, n))
  {
    if last < a + cfg.window { NarrowEnough(cfg, slot, last, a, n); }
    if ev.Request? && ev.now < a + cfg.window {
      StepInv(cfg, slot, ev);
      OpenedFacts(cfg, slot, ev.now);
      NarrowRequest(cfg, slot, last, ev.now, a, n);
    }
  }

  /** Within a window of one or two ticks the weights are whole. */
  lemma NarrowLoad(cfg: Config, e: EntryState, now: int)
    requires cfg.window <= 2 && e.currStart <= now < e.currStart + cfg.window
    ensures cfg.window == 1 ==> Load(cfg, e, now) == e.prevCount + e.currCount
    ensures cfg.window == 2 ==>
              Load(cfg, e, now) == (if now == e.currStart then 2 * e.prevCount else e.prevCount) + 2 * e.currCount
    ensures cfg.max * cfg.window == if cfg.window == 1 then cfg.max else 2 * cfg.max
  {
    var o := Overlap(cfg, e, now);
    assert o == if cfg.window == 1 || now > e.currStart then 1 else 2;
    assert e.prevCount * o == if o == 1 then e.prevCount else 2 * e.prevCount;
  }

  lemma NarrowRequest(cfg: Config, slot: Option<EntryState>, last: int, now: int, a: int, n: nat)
    requires cfg.max >= 1 && Strict(cfg) && last <= now < a + cfg.window && NarrowInv(cfg, slot, last, a, n)
    ensures NarrowInv(cfg, Step(cfg, slot, Request(now)), now, a, Counted(cfg, slot, Request(now), a, n))
  {
    StepInv(cfg, slot, Request(now));
    OpenedFacts(cfg, slot, now);
    TruncateSpec(now, cfg.window);
    NarrowLoad(cfg, Opened(cfg, slot, now), now);
  }

  lemma {:induction false} NarrowRun(cfg: Config, slot: Option<EntryState>, last: int, evs: seq<Event>, a: int, n: nat)
    requires cfg.max >= 1 && Strict(cfg) && Ordered(evs, last) && NarrowBound(cfg, slot, last, a, n)
    ensures n + Count(cfg, Any, Answers(cfg, slot, evs), a, a + cfg.window) <= cfg.max
    decreases |evs|
  {
    if evs == [] {
      if last < a + cfg.window { NarrowEnough(cfg, slot, last, a, n); }
    } else {
      StepKeepsNarrow(cfg, slot, last, evs[0], a, n);
      AnswersUnfold(cfg, slot, evs);
      NarrowRun(cfg, Step(cfg, slot, evs[0]), evs[0].now, evs[1..], a, Counted(cfg, slot, evs[0], a, n));
    }
  }

  // ---------------------------------------------------------------- the equivalence

  lemma StrictKeeps(cfg: Config, evs: seq<Event>, from: int, a: int)
    requires Strict(cfg) && Ordered(evs, from)
    ensures AtMostMax(cfg, evs, a)
  {
    if cfg.max <= 0 {
      NothingBelowOne(cfg, None, evs, a, a + cfg.window);
    } else {
      NarrowRun(cfg, None, from, evs, a, 0);
    }
  }

  lemma OthersFail(cfg: Config, since: int) returns (evs: seq<Event>, from: int, a: int)
    requires !Strict(cfg)
    ensures from >= since && Ordered(evs, from) && !AtMostMax(cfg, evs, a)
  {
    var s := Truncate(since, cfg.window) + cfg.window;
    TruncateSpec(since, cfg.window);
    NextMultiple(s - cfg.window, cfg.window);
    if cfg.window >= 3 {
      evs := LongWindowFails(cfg, s);
      from, a := s, s + 3 * cfg.window - 1;
    } else {
      evs := TwoTickWindowFails(cfg, s);
      from, a := s + 1, s + 2;
    }
  }

  predicate StartsAfter(evs: seq<Event>, from: int, since: int) {
    from >= since && Ordered(evs, from)
  }

  /**
   However late the runs begin: every ordered run keeps every interval of one window's length to
   the limit if and only if the limit admits nothing, or the window has one tick, or it has two
   and the limit is at most two.
   */
  lemma LimitKeptExactly(cfg: Config, since: int)
    ensures Strict(cfg) <==>
            forall evs, from, a | StartsAfter(evs, from, since) :: AtMostMax(cfg, evs, a)
  {
    if Strict(cfg) {
      forall evs, from, a | StartsAfter(evs, from, since) ensures AtMostMax(cfg, evs, a) {
        StrictKeeps(cfg, evs, from, a);
      }
    } else {
      var evs, from, a := OthersFail(cfg, since);
      assert StartsAfter(evs, from, since) && !AtMostMax(cfg, evs, a);
    }
  }

  // ---------------------------------------------------------------- when the bound is reached

  /** The configurations that reach 3 * max - 1. */
  predicate Reaching(cfg: Config) {
    cfg.window > 3 * cfg.max || (cfg.max == 1 && cfg.window == 3)
  }

  /** What a window of at most 3 * max ticks keeps while the interval from a is open. */
  predicate ShortInv(cfg: Config, slot: Option<EntryState>, last: int, a: int, n: nat) {
    match slot
    case None => n == 0
    case Some(e) =>
      && EntryInv(cfg, e) && e.currStart <= last
      && (!Aligned(cfg, e.currStart) ==> e.currCount >= 1)
      && ShortFits(cfg, e, a, n)
  }

  predicate ShortFits(cfg: Config, e: EntryState, a: int, n: nat) {
    var m, s, c := cfg.max, e.currStart, e.currCount;
    if s <= a - cfg.window then n == 0
    else if !Aligned(cfg, s) then n == 0 || n <= if s < a then c - 1 else c
    else if s <= a then n <= m - 2 + c || (s >= a - cfg.window + 2 && n <= m - 1 + c)
    else n <= 2 * m - 2 + c || (s >= a + 2 && e.prevCount == m && n <= 2 * m - 1 + c && c < m)
  }

  predicate ShortBound(cfg: Config, slot: Option<EntryState>, last: int, a: int, n: nat) {
    n <= 3 * cfg.max - 2 && (last < a + cfg.window ==> ShortInv(cfg, slot, last, a, n))
  }

  lemma ShortOpened(cfg: Config, slot: Option<EntryState>, last: int, now: int, a: int, n: nat)
    requires cfg.max >= 2 && last <= now < a + cfg.window && ShortInv(cfg, slot, last, a, n)
    ensures ShortFits(cfg, Opened(cfg, slot, now), a, n)
  {
    OpenedFacts(cfg, slot, now);
    var e := Opened(cfg, slot, now);
    if slot.Some? && e != slot.value && Aligned(cfg, slot.value.currStart) {
      MultiplesApart(slot.value.currStart, e.currStart, cfg.window);
    }
  }

  /** Two full windows before it leave an aligned window no room for its last call so early. */
  lemma NotYet(cfg: Config, e: EntryState, now: int, a: int)
    requires 2 <= cfg.max && cfg.window <= 3 * cfg.max && e.prevCount == cfg.max && e.currCount >= cfg.max - 1
    requires a + 2 <= e.currStart <= now < a + cfg.window
    ensures Load(cfg, e, now) >= cfg.max * cfg.window
  {
    MulMono(3, Overlap(cfg, e, now), cfg.max);
    MulMono(cfg.max - 1, e.currCount, cfg.window);
    assert (cfg.max - 1) * cfg.window == cfg.max * cfg.window - cfg.window;
  }

  lemma ShortCount(cfg: Config, e: EntryState, now: int, a: int, n: nat)
    requires 2 <= cfg.max && cfg.window <= 3 * cfg.max && EntryInv(cfg, e) && ShortFits(cfg, e, a, n)
    requires e.currStart <= now < e.currStart + cfg.window && now < a + cfg.window && e.currCount < cfg.max
    requires e.currStart < now && !Aligned(cfg, e.currStart) ==> e.currCount >= 1
    requires Load(cfg, e, now) < cfg.max * cfg.window
    ensures var n' := if a <= now then n + 1 else n;
            n' <= 3 * cfg.max - 2 && ShortFits(cfg, e.(currCount := e.currCount + 1), a, n')
  {
    if e.prevCount == cfg.max && e.currStart >= a + 2 && e.currCount >= cfg.max - 1 { NotYet(cfg, e, now, a); }
  }

  lemma StepKeepsShort(cfg: Config, slot: Option<EntryState>, last: int, ev: Event, a: int, n: nat)
    requires 2 <= cfg.max && cfg.window <= 3 * cfg.max && last <= ev.now && ShortBound(cfg, slot, last, a, n)
    ensures ShortBound(cfg, Step(cfg, slot, ev), ev.now, a, Counted(cfg, slot, ev, a, n))
  {
    if ev.Request? && ev.now < a + cfg.window {
      var e := Opened(cfg, slot, ev.now);
      StepInv(cfg, slot, ev);
      OpenedFacts(cfg, slot, ev.now);
      ShortOpened(cfg, slot, last, ev.now, a, n);
      if Load(cfg, e, ev.now) < cfg.max * cfg.window {
        assert Allow(cfg, slot, ev.now).0 == e.(currCount := e.currCount + 1);
        ShortCount(cfg, e, ev.now, a, n);
      } else if slot.None? {
        MulMono(1, cfg.max, cfg.window);
      }
    }
  }

  lemma {:induction false} ShortRun(cfg: Config, slot: Option<EntryState>, last: int, evs: seq<Event>, a: int, n: nat)
    requires 2 <= cfg.max && cfg.window <= 3 * cfg.max && Ordered(evs, last) && ShortBound(cfg, slot, last, a, n)
    ensures n + Count(cfg, Any, Answers(cfg, slot, evs), a, a + cfg.window) <= 3 * cfg.max - 2
    decreases |evs|
  {
    if evs != [] {
      StepKeepsShort(cfg, slot, last, evs[0], a, n);
      AnswersUnfold(cfg, slot, evs);
      ShortRun(cfg, Step(cfg, slot, evs[0]), evs[0].now, evs[1..], a, Counted(cfg, slot, evs[0], a, n));
    }
  }

  /** The run has 3 * max - 1 admissions in the interval from a. */
  predicate Reaches(cfg: Config, evs: seq<Event>, a: int) {
    Count(cfg, Any, Answers(cfg, None, evs), a, a + cfg.window) == 3 * cfg.max - 1
  }

  lemma OthersStayBelow(cfg: Config, evs: seq<Event>, from: int, a: int)
    requires cfg.max >= 1 && !Reaching(cfg) && Ordered(evs, from)
    ensures !Reaches(cfg, evs, a)
  {
    if cfg.max == 1 {
      StrictKeeps(cfg, evs, from, a);
    } else {
      ShortRun(cfg, None, from, evs, a, 0);
    }
  }

  lemma ReachingRun(cfg: Config, since: int) returns (evs: seq<Event>, from: int, a: int)
    requires cfg.max >= 1 && Reaching(cfg)
    ensures StartsAfter(evs, from, since) && Reaches(cfg, evs, a)
  {
    var c := Truncate(since, cfg.window) + 2 * cfg.window;
    TruncateSpec(since, cfg.window);
    NextMultiple(c - 2 * cfg.window, cfg.window);
    NextMultiple(c - cfg.window, cfg.window);
    if cfg.window > 3 * cfg.max {
      evs := BoundAttained(cfg, c, 1);
      from, a := c - 1, c + cfg.window - 2;
    } else {
      evs := LongWindowFails(cfg, c);
      from, a := c, c + 3 * cfg.window - 1;
      IntervalBound(cfg, evs, from, a);
    }
  }

  /**
   However late the runs begin: some ordered run reaches 3 * max - 1 admissions in one interval if
   and only if the window is longer than 3 * max, or has three ticks under a limit of one.
   */
  lemma BoundReachedExactly(cfg: Config, since: int)
    requires cfg.max >= 1
    ensures Reaching(cfg) <==> exists evs, from, a :: StartsAfter(evs, from, since) && Reaches(cfg, evs, a)
  {
    if Reaching(cfg) {
      var evs, from, a := ReachingRun(cfg, since);
    } else {
      forall evs, from, a | StartsAfter(evs, from, since) ensures !Reaches(cfg, evs, a) {
        OthersStayBelow(cfg, evs, from, a);
      }
    }
  }
}

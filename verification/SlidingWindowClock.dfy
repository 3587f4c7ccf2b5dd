/**
 What the limiter asks of the clock, exactly: how late readings may be for the bound of an ordered
 clock, how late for any bound at all, and when calls alone are bounded for any readings.
 */
module SlidingWindowClock {
  import opened Common
  import opened SlidingWindow
  import opened SlidingWindowInvariant
  import opened SlidingWindowBound
  import opened SlidingWindowWitness
  import opened SlidingWindowExact
  import opened SlidingWindowSkew
  import opened SlidingWindowLongRun

  /** Admissions in the interval of one window's length from a, in a run from the empty limiter. */
  function Admitted(cfg: Config, evs: seq<Event>, a: int): nat {
    Count(cfg, Any, Answers(cfg, None, evs), a, a + cfg.window)
  }

  /** Readings at most d behind the largest so far, which is `since` or later at the beginning. */
  predicate Late(evs: seq<Event>, high: int, d: int, since: int) {
    high >= since && Skewed(evs, high, d)
  }

  // ---------------------------------------------------------------- runs for late readings

  lemma {:induction false} LaterSkewed(evs: seq<Event>, high: int, less: int, d: int)
    requires Skewed(evs, high, less) && less <= d
    ensures Skewed(evs, high, d)
    decreases |evs|
  {
    if evs != [] { LaterSkewed(evs[1..], Max(high, evs[0].now), less, d); }
  }

  lemma {:induction false} BurstSkewed(t: int, k: nat, rest: seq<Event>, high: int, d: int)
    requires d >= 0 && t >= high - d && Skewed(rest, Max(high, t), d)
    ensures Skewed(Burst(t, k) + rest, high, d)
    decreases k
  {
    if k == 0 {
      assert Burst(t, k) + rest == rest;
      SkewedLower(rest, Max(high, t), high, d);
    } else {
      assert (Burst(t, k) + rest)[1..] == Burst(t, k - 1) + rest;
      BurstSkewed(t, k - 1, rest, Max(high, t), d);
    }
  }

  /** A burst on a new entry fills its window at once. */
  lemma FreshBurst(cfg: Config, t: int, a: int, b: int)
    requires cfg.max >= 1 && a <= t < b
    ensures Run(cfg, None, Burst(t, cfg.max)) == Some(EntryState(0, 0, cfg.max, t))
    ensures Count(cfg, Any, Answers(cfg, None, Burst(t, cfg.max)), a, b) == cfg.max
  {
    BurstFits(cfg.max, cfg.window);
    assert Load(cfg, Fresh(t), t) == 0;
    BurstAdmitted(cfg, Fresh(t), t, cfg.max, a, b);
    assert Allow(cfg, None, t) == Allow(cfg, Some(Fresh(t)), t);
    AnswersUnfold(cfg, None, Burst(t, cfg.max));
    AnswersUnfold(cfg, Some(Fresh(t)), Burst(t, cfg.max));
  }

  /** A cleanup two windows after the entry's start, and what comes after it on an empty slot. */
  lemma SweepThen(cfg: Config, e: EntryState, y: int, rest: seq<Event>, a: int, b: int)
    requires y >= e.currStart + 2 * cfg.window
    ensures Count(cfg, Any, Answers(cfg, Some(e), [Sweep(y)] + rest), a, b)
         == Count(cfg, Any, Answers(cfg, None, rest), a, b)
  {
    AnswersUnfold(cfg, Some(e), [Sweep(y)] + rest);
    assert ([Sweep(y)] + rest)[1..] == rest;
  }

  lemma ThreeBurstsSkewed(cfg: Config, s: int, a: int)
    requires cfg.max >= 1 && a == s + 3 * cfg.window - 1
    ensures Skewed([Request(s)] + (Burst(a, cfg.max) + ([Sweep(a + cfg.window + 1)]
              + (Burst(a, cfg.max) + ([Sweep(a + 2 * cfg.window)] + Burst(a + cfg.window - 1, cfg.max))))),
              s, cfg.window + 1)
  {
    var m, w, d := cfg.max, cfg.window, cfg.window + 1;
    var last := Burst(a + w - 1, m);
    BurstSkewed(a + w - 1, m, [], a + 2 * w, d);
    assert last + [] == last;
    var tail := [Sweep(a + 2 * w)] + last;
    assert tail[1..] == last && Skewed(tail, a + w + 1, d);
    BurstSkewed(a, m, tail, a + w + 1, d);
    var mid := [Sweep(a + w + 1)] + (Burst(a, m) + tail);
    assert mid[1..] == Burst(a, m) + tail && Skewed(mid, a, d);
    BurstSkewed(a, m, mid, s, d);
    var all := [Request(s)] + (Burst(a, m) + mid);
    assert all[1..] == Burst(a, m) + mid;
  }

  /** The last two of three full bursts, on new entries, all in the interval from a. */
  lemma TwoBurstsCount(cfg: Config, e: EntryState, a: int, last: seq<Event>, mid: seq<Event>)
    requires cfg.max >= 1 && e.currStart == a - cfg.window + 1
    requires last == [Sweep(a + 2 * cfg.window)] + Burst(a + cfg.window - 1, cfg.max)
    requires mid == [Sweep(a + cfg.window + 1)] + (Burst(a, cfg.max) + last)
    ensures Count(cfg, Any, Answers(cfg, Some(e), mid), a, a + cfg.window) == 2 * cfg.max
  {
    var b := a + cfg.window;
    var e2 := EntryState(0, 0, cfg.max, a);
    SweepThen(cfg, e, a + cfg.window + 1, Burst(a, cfg.max) + last, a, b);
    FreshBurst(cfg, a, a, b);
    JoinCounts(cfg, None, Burst(a, cfg.max), last, a, b);
    SweepThen(cfg, e2, a + 2 * cfg.window, Burst(a + cfg.window - 1, cfg.max), a, b);
    FreshBurst(cfg, a + cfg.window - 1, a, b);
  }

  /** Readings one window and a tick late are enough for 3 * max admissions. */
  lemma {:induction false} OneTickTooLate(cfg: Config, s: int) returns (evs: seq<Event>)
    requires cfg.max >= 1 && s % cfg.window == 0
    ensures Skewed(evs, s, cfg.window + 1) && Admitted(cfg, evs, s + 3 * cfg.window - 1) == 3 * cfg.max
  {
    var m, w, a := cfg.max, cfg.window, s + 3 * cfg.window - 1;
    var last := [Sweep(a + 2 * w)] + Burst(a + w - 1, m);
    var mid := [Sweep(a + w + 1)] + (Burst(a, m) + last);
    var first := [Request(s)] + Burst(a, m);
    evs := first + mid;
    ThreeBurstsSkewed(cfg, s, a);
    assert evs == [Request(s)] + (Burst(a, m) + mid);
    LastInstantFull(cfg, s);
    TwoBurstsCount(cfg, EntryState(0, s, m, s + 2 * w), a, last, mid);
    JoinCounts(cfg, None, first, mid, a, a + w);
  }

  /** Every run with readings at most d late keeps every interval to b. */
  ghost predicate Keeps(cfg: Config, d: int, since: int, b: int) {
    forall evs, high, a | Late(evs, high, d, since) :: Admitted(cfg, evs, a) <= b
  }

  /** A multiple of the window length after a given time. */
  function AlignedAfter(cfg: Config, since: int): int {
    Truncate(since, cfg.window) + cfg.window
  }

  lemma AlignedAfterSpec(cfg: Config, since: int)
    ensures AlignedAfter(cfg, since) > since && AlignedAfter(cfg, since) % cfg.window == 0
  {
    TruncateSpec(since, cfg.window);
    NextMultiple(Truncate(since, cfg.window), cfg.window);
  }

  /**
   The bound of an ordered clock holds for readings at most d late if and only if d is at most one
   window, or the limit admits nothing.
   */
  lemma PeakKeptExactly(cfg: Config, d: nat, since: int)
    ensures Keeps(cfg, d, since, Peak(cfg)) <==> cfg.max <= 0 || d <= cfg.window
  {
    if cfg.max <= 0 {
      forall evs, high, a | Late(evs, high, d, since) ensures Admitted(cfg, evs, a) <= Peak(cfg) {
        NothingBelowOne(cfg, None, evs, a, a + cfg.window);
      }
    } else if d <= cfg.window {
      forall evs, high, a | Late(evs, high, d, since) ensures Admitted(cfg, evs, a) <= Peak(cfg) {
        SkewedIntervalBound(cfg, evs, high, d, a);
      }
    } else {
      var s := AlignedAfter(cfg, since);
      AlignedAfterSpec(cfg, since);
      var evs := OneTickTooLate(cfg, s);
      LaterSkewed(evs, s, cfg.window + 1, d);
      assert Late(evs, s, d, since) && Admitted(cfg, evs, s + 3 * cfg.window - 1) > Peak(cfg);
    }
  }

  // ---------------------------------------------------------------- how late for any bound at all

  /**
   As long as readings are less than two windows late, windows of a key start ever later; n
   admissions so far are at most `max` for each possible start in the reach of the interval.
   */
  predicate PlaceInv(cfg: Config, slot: Option<EntryState>, high: int, a: int, s: int, n: nat) {
    && n <= 4 * cfg.window * cfg.max
    && match slot
       case None =>
         n == 0 || (n <= (s - (a - cfg.window)) * cfg.max && a - cfg.window < s && s + 2 * cfg.window <= high)
       case Some(e) =>
         && EntryInv(cfg, e) && e.currStart == s <= high
         && (n == 0 || (a - cfg.window < s && n <= (s - (a - cfg.window) - 1) * cfg.max + e.currCount))
  }

  lemma PlaceOpened(cfg: Config, slot: Option<EntryState>, high: int, now: int, d: int, a: int, s: int, n: nat)
    requires cfg.max >= 1 && d < 2 * cfg.window && now >= high - d && PlaceInv(cfg, slot, high, a, s, n) && n > 0
    ensures var e := Opened(cfg, slot, now);
            a - cfg.window < e.currStart && n <= (e.currStart - (a - cfg.window) - 1) * cfg.max + e.currCount
  {
    var e := Opened(cfg, slot, now);
    OpenedFacts(cfg, slot, now);
    if slot.None? || e != slot.value {
      MulMono(s - (a - cfg.window), e.currStart - (a - cfg.window) - 1, cfg.max);
      assert (s - (a - cfg.window)) * cfg.max == (s - (a - cfg.window) - 1) * cfg.max + cfg.max;
    }
  }

  lemma PlaceCount(cfg: Config, a: int, s: int, n: nat, count: int)
    requires cfg.max >= 1 && a - cfg.window < s < a + 3 * cfg.window && 0 <= count < cfg.max
    requires n == 0 || n <= (s - (a - cfg.window) - 1) * cfg.max + count
    ensures n + 1 <= (s - (a - cfg.window) - 1) * cfg.max + count + 1
    ensures n + 1 <= 4 * cfg.window * cfg.max
  {
    var x := s - (a - cfg.window);
    MulMono(0, x - 1, cfg.max);
    MulMono(x, 4 * cfg.window, cfg.max);
    assert (x - 1) * cfg.max == x * cfg.max - cfg.max;
  }

  lemma PlaceRequest(cfg: Config, slot: Option<EntryState>, high: int, now: int, d: int, a: int, s: int, n: nat)
    requires cfg.max >= 1 && d < 2 * cfg.window && now >= high - d && PlaceInv(cfg, slot, high, a, s, n)
    ensures PlaceInv(cfg, Step(cfg, slot, Request(now)), Max(high, now), a, Opened(cfg, slot, now).currStart,
                     Counted(cfg, slot, Request(now), a, n))
  {
    var e := Opened(cfg, slot, now);
    StepInv(cfg, slot, Request(now));
    OpenedFacts(cfg, slot, now);
    if n > 0 { PlaceOpened(cfg, slot, high, now, d, a, s, n); }
    if Counted(cfg, slot, Request(now), a, n) == n + 1 {
      PlaceCount(cfg, a, e.currStart, n, e.currCount);
    }
  }

  lemma PlaceSweep(cfg: Config, slot: Option<EntryState>, high: int, now: int, a: int, s: int, n: nat)
    requires cfg.max >= 1 && PlaceInv(cfg, slot, high, a, s, n)
    ensures PlaceInv(cfg, Step(cfg, slot, Sweep(now)), Max(high, now), a, s, n)
  {
    assert (s - (a - cfg.window)) * cfg.max == (s - (a - cfg.window) - 1) * cfg.max + cfg.max;
  }

  lemma {:induction false} PlaceRun(cfg: Config, slot: Option<EntryState>, high: int, evs: seq<Event>, d: int,
                                    a: int, s: int, n: nat)
    requires cfg.max >= 1 && d < 2 * cfg.window && Skewed(evs, high, d) && PlaceInv(cfg, slot, high, a, s, n)
    ensures n + Count(cfg, Any, Answers(cfg, slot, evs), a, a + cfg.window) <= 4 * cfg.window * cfg.max
    decreases |evs|
  {
    if evs != [] {
      var ev := evs[0];
      AnswersUnfold(cfg, slot, evs);
      if ev.Request? {
        PlaceRequest(cfg, slot, high, ev.now, d, a, s, n);
        PlaceRun(cfg, Step(cfg, slot, ev), Max(high, ev.now), evs[1..], d, a,
                 Opened(cfg, slot, ev.now).currStart, Counted(cfg, slot, ev, a, n));
      } else {
        PlaceSweep(cfg, slot, high, ev.now, a, s, n);
        PlaceRun(cfg, Step(cfg, slot, ev), Max(high, ev.now), evs[1..], d, a, s, n);
      }
    }
  }

  lemma {:induction false} SweptCallsSkewed(cfg: Config, r: int, k: nat, high: int)
    requires high <= r + 2 * cfg.window
    ensures Skewed(SweptCalls(cfg, r, k), high, 2 * cfg.window)
    decreases k
  {
    if k > 0 {
      var x, y := Request(r), Sweep(r + 2 * cfg.window);
      var rest := SweptCalls(cfg, r, k - 1);
      SweptCallsSkewed(cfg, r, k - 1, r + 2 * cfg.window);
      assert SweptCalls(cfg, r, k)[1..] == [y] + rest && ([y] + rest)[1..] == rest;
      assert Skewed([y] + rest, Max(high, r), 2 * cfg.window);
    }
  }

  lemma {:induction false} CountWider(cfg: Config, ans: seq<Answer>, a: int, b: int, c: int)
    requires b <= c
    ensures Count(cfg, Any, ans, a, b) <= Count(cfg, Any, ans, a, c)
  {
    if ans != [] { CountWider(cfg, ans[1..], a, b, c); }
  }

  /** A number of rounds that exceeds b. */
  function Beyond(b: int): nat {
    if b < 0 then 0 else b + 1
  }

  lemma TooLateForAny(cfg: Config, d: nat, since: int, b: int)
    requires cfg.max >= 1 && d >= 2 * cfg.window
    ensures !Keeps(cfg, d, since, b)
  {
    var k := Beyond(b);
    var evs := SweptCalls(cfg, since, k);
    SweptCallsSkewed(cfg, since, k, since);
    LaterSkewed(evs, since, 2 * cfg.window, d);
    BackwardClockUnbounded(cfg, since, k);
    CountWider(cfg, Answers(cfg, None, evs), since, since + 1, since + cfg.window);
    assert Late(evs, since, d, since) && Admitted(cfg, evs, since) > b;
  }

  /**
   With cleanups there is any bound at all for readings at most d late if and only if d is less
   than two windows, or the limit admits nothing.
   */
  lemma BoundedExactly(cfg: Config, d: nat, since: int)
    ensures (exists b :: Keeps(cfg, d, since, b)) <==> cfg.max <= 0 || d < 2 * cfg.window
  {
    if cfg.max <= 0 {
      PeakKeptExactly(cfg, d, since);
    } else if d < 2 * cfg.window {
      MulMono(0, 4 * cfg.window, cfg.max);
      forall evs, high, a | Late(evs, high, d, since) ensures Admitted(cfg, evs, a) <= 4 * cfg.window * cfg.max {
        PlaceRun(cfg, None, high, evs, d, a, high, 0);
      }
      assert Keeps(cfg, d, since, 4 * cfg.window * cfg.max);
    } else {
      forall b ensures !Keeps(cfg, d, since, b) { TooLateForAny(cfg, d, since, b); }
    }
  }

  // ---------------------------------------------------------------- calls alone, any clock

  predicate CallsSince(evs: seq<Event>, since: int) {
    CallsOnly(evs) && forall ev | ev in evs :: ev.now >= since
  }

  /** Every run of calls alone, whatever their readings from `since` on, keeps every interval to b. */
  ghost predicate CallsKeep(cfg: Config, since: int, b: int) {
    forall evs, a | CallsSince(evs, since) :: Admitted(cfg, evs, a) <= b
  }

  lemma {:induction false} JumpsAreCalls(cfg: Config, r: int, t: int, k: nat)
    requires r <= t
    ensures CallsSince(Jumps(cfg, r, t, k), r)
    decreases k
  {
    if k > 0 { JumpsAreCalls(cfg, r, t + 2 * cfg.window, k - 1); }
  }

  lemma CallsExceed(cfg: Config, since: int, b: int)
    requires cfg.max >= 2
    ensures !CallsKeep(cfg, since, b)
  {
    var k, t := Beyond(b), AlignedAfter(cfg, since);
    AlignedAfterSpec(cfg, since);
    var evs := Jumps(cfg, since, t, k);
    JumpsAreCalls(cfg, since, t, k);
    BackwardCallsUnbounded(cfg, None, since, t, k);
    CountWider(cfg, Answers(cfg, None, evs), since, since + 1, since + cfg.window);
    assert CallsSince(evs, since) && Admitted(cfg, evs, since) > b;
  }

  /** Without cleanups calls are bounded for every clock if and only if the limit is at most one. */
  lemma CallsBoundedExactly(cfg: Config, since: int)
    ensures (exists b :: CallsKeep(cfg, since, b)) <==> cfg.max <= 1
  {
    if cfg.max <= 1 {
      forall evs, a | CallsSince(evs, since) ensures Admitted(cfg, evs, a) <= LongPeak(cfg, 1) {
        CallsBound(cfg, evs, a, 1);
      }
      assert CallsKeep(cfg, since, LongPeak(cfg, 1));
    } else {
      forall b ensures !CallsKeep(cfg, since, b) { CallsExceed(cfg, since, b); }
    }
  }
}

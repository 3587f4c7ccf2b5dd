/**
 The interval bound for a clock that is read before the lock is taken: readings may come out of
 order, but by no more than one window.
 */
module SlidingWindowSkew {
  import opened Common
  import opened SlidingWindow
  import opened SlidingWindowInvariant
  import opened SlidingWindowBound

  function Max(a: int, b: int): int {
    if a >= b then a else b
  }

  /** No reading lies more than d behind the largest so far, which is `high` at the beginning. */
  predicate Skewed(evs: seq<Event>, high: int, d: int)
    decreases |evs|
  {
    evs == [] || (evs[0].now >= high - d && Skewed(evs[1..], Max(high, evs[0].now), d))
  }

  lemma {:induction false} SkewedLower(evs: seq<Event>, high: int, lower: int, d: int)
    requires Skewed(evs, high, d) && lower <= high
    ensures Skewed(evs, lower, d)
    decreases |evs|
  {
    if evs != [] { SkewedLower(evs[1..], Max(high, evs[0].now), Max(lower, evs[0].now), d); }
  }

  /** The multiple of the window length in (a, a + window]. */
  function NextAligned(cfg: Config, a: int): int {
    Truncate(a + cfg.window, cfg.window)
  }

  lemma NextAlignedSpec(cfg: Config, a: int, s: int)
    ensures var t := NextAligned(cfg, a); Aligned(cfg, t) && a < t <= a + cfg.window
    ensures Aligned(cfg, s) && a < s <= a + cfg.window ==> s == NextAligned(cfg, a)
    ensures Aligned(cfg, s) && s > NextAligned(cfg, a) ==> s >= NextAligned(cfg, a) + cfg.window
  {
    var t := NextAligned(cfg, a);
    TruncateSpec(a + cfg.window, cfg.window);
    if Aligned(cfg, s) && s < t { MultiplesApart(s, t, cfg.window); }
    if Aligned(cfg, s) && s > t { MultiplesApart(t, s, cfg.window); }
  }

  /**
   n admissions in [a, a + window) so far, the last window being that of the entry. How many they
   can be depends on where that window starts; its own admissions are in currCount.
   */
  predicate Fits(cfg: Config, e: EntryState, a: int, n: nat) {
    var s, c := e.currStart, e.currCount;
    n == 0
    || (a - cfg.window < s
        && if s <= a then
             n <= if Aligned(cfg, s) then cfg.max - 1 + c else if s < a then c - 1 else c
           else if s <= a + cfg.window then
             n <= (if Aligned(cfg, s) || NextAligned(cfg, a) < s then 2 * cfg.max else cfg.max) - 1 + c
           else n <= 2 * cfg.max - 1 + e.prevCount + c)
  }

  /** The same when the entry, whose window started at s, has been swept. */
  predicate SweptFits(cfg: Config, high: int, a: int, s: int, n: nat) {
    n == 0
    || (a - cfg.window < s && s + 2 * cfg.window <= high
        && n <= (if Aligned(cfg, s) then 2 * cfg.max else cfg.max) - 1)
  }

  /** While readings in the interval can still come; `s` is where the last window started. */
  predicate OpenSkew(cfg: Config, slot: Option<EntryState>, high: int, a: int, s: int, n: nat) {
    match slot
    case None => SweptFits(cfg, high, a, s, n)
    case Some(e) =>
      && EntryInv(cfg, e) && e.currStart == s <= high
      && (!Aligned(cfg, s) ==> e.currCount >= 1)
      && Fits(cfg, e, a, n)
  }

  predicate SkewInv(cfg: Config, slot: Option<EntryState>, high: int, a: int, s: int, n: nat) {
    && n <= 3 * cfg.max - 1
    && (high < a + 2 * cfg.window ==> OpenSkew(cfg, slot, high, a, s, n))
  }

  lemma FreshFits(cfg: Config, high: int, now: int, a: int, s: int, n: nat)
    requires cfg.max >= 1 && high - cfg.window <= now && high < a + 2 * cfg.window
    requires SweptFits(cfg, high, a, s, n)
    ensures Fits(cfg, Fresh(now), a, n)
  {
    if n > 0 && Aligned(cfg, s) {
      NextMultiple(s, cfg.window);
      NextAlignedSpec(cfg, a, s + cfg.window);
      NextAlignedSpec(cfg, a, now);
    }
  }

  lemma RotatedFits(cfg: Config, e: EntryState, now: int, a: int, n: nat)
    requires cfg.max >= 1 && EntryInv(cfg, e) && Fits(cfg, e, a, n)
    requires e.currStart + cfg.window <= now < a + 2 * cfg.window
    ensures Fits(cfg, Rotated(cfg, e, now), a, n)
  {
    OpenedFacts(cfg, Some(e), now);
    var s, t := e.currStart, Rotated(cfg, e, now).currStart;
    NextAlignedSpec(cfg, a, t);
    if Aligned(cfg, s) {
      MultiplesApart(s, t, cfg.window);
      NextAlignedSpec(cfg, a, s);
    }
  }

  /** A call admitted before its window's start weighs the previous count more than fully. */
  lemma EarlyAdmission(cfg: Config, e: EntryState, now: int)
    requires EntryInv(cfg, e) && now < e.currStart && Load(cfg, e, now) < cfg.max * cfg.window
    ensures e.prevCount + e.currCount + 1 <= cfg.max
  {
    MulMono(cfg.window, Overlap(cfg, e, now), e.prevCount);
    assert (e.prevCount + e.currCount) * cfg.window <= Load(cfg, e, now);
    if e.prevCount + e.currCount >= cfg.max { MulMono(cfg.max, e.prevCount + e.currCount, cfg.window); }
  }

  /** Counting the call keeps the caps, and the total with them. */
  lemma CountFits(cfg: Config, e: EntryState, now: int, a: int, n: nat)
    requires cfg.max >= 1 && EntryInv(cfg, e) && now < e.currStart + cfg.window && Fits(cfg, e, a, n)
    requires e.currStart < a && !Aligned(cfg, e.currStart) && a <= now ==> e.currCount >= 1
    requires n <= 3 * cfg.max - 1 && e.currCount < cfg.max
    requires Load(cfg, e, now) < cfg.max * cfg.window
    ensures var n' := if a <= now < a + cfg.window then n + 1 else n;
            n' <= 3 * cfg.max - 1 && Fits(cfg, e.(currCount := e.currCount + 1), a, n')
  {
    if now < e.currStart { EarlyAdmission(cfg, e, now); }
    NextAlignedSpec(cfg, a, e.currStart);
  }

  lemma OpenedFits(cfg: Config, slot: Option<EntryState>, high: int, now: int, a: int, s: int, n: nat)
    requires cfg.max >= 1 && high - cfg.window <= now && Max(high, now) < a + 2 * cfg.window
    requires OpenSkew(cfg, slot, high, a, s, n)
    ensures Fits(cfg, Opened(cfg, slot, now), a, n)
  {
    match slot
    case None => FreshFits(cfg, high, now, a, s, n);
    case Some(e) => if now - e.currStart >= cfg.window { RotatedFits(cfg, e, now, a, n); }
  }

  lemma SkewedRequest(cfg: Config, slot: Option<EntryState>, high: int, now: int, a: int, s: int, n: nat)
    requires cfg.max >= 1 && high - cfg.window <= now && SkewInv(cfg, slot, high, a, s, n)
    ensures SkewInv(cfg, Step(cfg, slot, Request(now)), Max(high, now), a, Opened(cfg, slot, now).currStart,
                    Counted(cfg, slot, Request(now), a, n))
  {
    if Max(high, now) < a + 2 * cfg.window {
      var e := Opened(cfg, slot, now);
      StepInv(cfg, slot, Request(now));
      OpenedFacts(cfg, slot, now);
      OpenedFits(cfg, slot, high, now, a, s, n);
      if Load(cfg, e, now) < cfg.max * cfg.window {
        assert Allow(cfg, slot, now).0 == e.(currCount := e.currCount + 1);
        CountFits(cfg, e, now, a, n);
      } else if slot.None? {
        MulMono(1, cfg.max, cfg.window);
      }
    }
  }

  lemma SkewedSweep(cfg: Config, slot: Option<EntryState>, high: int, now: int, a: int, s: int, n: nat)
    requires cfg.max >= 1 && SkewInv(cfg, slot, high, a, s, n)
    ensures SkewInv(cfg, Step(cfg, slot, Sweep(now)), Max(high, now), a, s, n)
  {
  }

  lemma {:induction false} SkewedRun(cfg: Config, slot: Option<EntryState>, high: int, evs: seq<Event>, d: int,
                                     a: int, s: int, n: nat)
    requires cfg.max >= 1 && d <= cfg.window && Skewed(evs, high, d) && SkewInv(cfg, slot, high, a, s, n)
    ensures n + Count(cfg, Any, Answers(cfg, slot, evs), a, a + cfg.window) <= 3 * cfg.max - 1
    decreases |evs|
  {
    if evs != [] {
      var ev := evs[0];
      AnswersUnfold(cfg, slot, evs);
      if ev.Request? {
        SkewedRequest(cfg, slot, high, ev.now, a, s, n);
        SkewedRun(cfg, Step(cfg, slot, ev), Max(high, ev.now), evs[1..], d, a,
                  Opened(cfg, slot, ev.now).currStart, Counted(cfg, slot, ev, a, n));
      } else {
        SkewedSweep(cfg, slot, high, ev.now, a, s, n);
        SkewedRun(cfg, Step(cfg, slot, ev), Max(high, ev.now), evs[1..], d, a, s, n);
      }
    }
  }

  /**
   As long as no reading lies more than one window behind the largest so far, the bound is that of
   an ordered clock: 3 * max - 1 admissions of a key in any interval of one window's length.
   */
  lemma SkewedIntervalBound(cfg: Config, evs: seq<Event>, high: int, d: int, a: int)
    requires d <= cfg.window && Skewed(evs, high, d)
    ensures Count(cfg, Any, Answers(cfg, None, evs), a, a + cfg.window) <= Peak(cfg)
  {
    if cfg.max >= 1 {
      SkewedRun(cfg, None, high, evs, d, a, high, 0);
    } else {
      NothingBelowOne(cfg, None, evs, a, a + cfg.window);
    }
  }
}

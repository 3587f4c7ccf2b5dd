/** What every step of the rate limiter keeps, for any clock readings. */
module SlidingWindowInvariant {
  import opened Common
  import opened SlidingWindow

  // ---------------------------------------------------------------- arithmetic

  lemma MulMono(a: int, b: int, c: int)
    requires a <= b && c >= 0
    ensures a * c <= b * c
  {
  }

  /** Truncation gives the last multiple of w at or before t. */
  lemma TruncateSpec(t: int, w: int)
    requires w > 0
    ensures Truncate(t, w) % w == 0 && Truncate(t, w) <= t < Truncate(t, w) + w
  {
    assert Truncate(t, w) == w * (t / w);
    MultipleMod(t / w, w);
  }

  lemma MultipleMod(k: int, w: int)
    requires w > 0
    ensures (w * k) % w == 0
  {
    var q, r := (w * k) / w, (w * k) % w;
    assert w * (k - q) == r;
    if k - q >= 1 { MulMono(1, k - q, w); }
    if k - q <= -1 { MulMono(k - q, -1, w); }
  }

  /** Two different multiples of w are at least w apart. */
  lemma MultiplesApart(s: int, t: int, w: int)
    requires w > 0 && s % w == 0 && t % w == 0 && s < t
    ensures s + w <= t
  {
    assert s == w * (s / w) && t == w * (t / w);
    if t / w <= s / w { MulMono(t / w, s / w, w); }
    MulMono(s / w + 1, t / w, w);
  }

  /** The next multiple of w after s. */
  lemma NextMultiple(s: int, w: int)
    requires w > 0 && s % w == 0
    ensures (s + w) % w == 0
  {
    MultipleMod(s / w + 1, w);
    assert w * (s / w + 1) == s + w;
  }

  // ---------------------------------------------------------------- any clock

  function Limit(cfg: Config): int {
    if cfg.max < 0 then 0 else cfg.max
  }

  predicate EntryInv(cfg: Config, e: EntryState) {
    0 <= e.prevCount <= Limit(cfg) && 0 <= e.currCount <= Limit(cfg)
  }

  predicate SlotInv(cfg: Config, slot: Option<EntryState>) {
    slot.Some? ==> EntryInv(cfg, slot.value)
  }

  /** After the rotation the current window has not elapsed, whatever the clock did before. */
  lemma {:induction false} OpenedFacts(cfg: Config, slot: Option<EntryState>, now: int)
    requires SlotInv(cfg, slot)
    ensures var e := Opened(cfg, slot, now);
            EntryInv(cfg, e) && now < e.currStart + cfg.window
            && (slot.Some? && e != slot.value ==>
                  slot.value.currStart < e.currStart <= now && Aligned(cfg, e.currStart))
  {
    TruncateSpec(now, cfg.window);
  }

  lemma LoadNonNegative(cfg: Config, e: EntryState, now: int)
    requires EntryInv(cfg, e)
    ensures Load(cfg, e, now) >= e.currCount * cfg.window >= 0
  {
    MulMono(0, e.prevCount, Overlap(cfg, e, now));
    MulMono(0, e.currCount, cfg.window);
  }

  lemma DivBounds(n: int, d: int)
    requires d > 0 && n >= 0
    ensures 0 <= n / d && (n / d) * d <= n < (n / d + 1) * d
  {
    var q, r := n / d, n % d;
    assert n == d * q + r;
    if q <= -1 { MulMono(q, -1, d); }
    assert (q + 1) * d == d * q + d;
  }

  /** The division that gives the remaining count, as inequalities. */
  lemma TruncDivBounds(n: int, d: int)
    requires d > 0 && n > -d
    ensures TruncDiv(n, d) >= 0
    ensures n >= 0 ==> TruncDiv(n, d) * d <= n < (TruncDiv(n, d) + 1) * d
    ensures n < 0 ==> TruncDiv(n, d) == 0
  {
    if n >= 0 {
      DivBounds(n, d);
    } else {
      DivBounds(-n, d);
      if (-n) / d >= 1 { MulMono(1, (-n) / d, d); }
    }
  }

  /**
   Neither clamp of `allow` ever fires: the window is still open after the rotation, and an
   admitted call leaves a non-negative raw remaining count.
   */
  lemma {:induction false} ClampsIdle(cfg: Config, slot: Option<EntryState>, now: int)
    requires SlotInv(cfg, slot)
    ensures var e := Opened(cfg, slot, now);
            cfg.window - (now - e.currStart) > 0
            && (Load(cfg, e, now) < cfg.max * cfg.window ==> RawRemaining(cfg, e, now) >= 0)
  {
    OpenedFacts(cfg, slot, now);
    var e := Opened(cfg, slot, now);
    if Load(cfg, e, now) < cfg.max * cfg.window {
      TruncDivBounds(cfg.max * cfg.window - (Load(cfg, e, now) + cfg.window), cfg.window);
    }
  }

  lemma {:induction false} StepInv(cfg: Config, slot: Option<EntryState>, ev: Event)
    requires SlotInv(cfg, slot)
    ensures SlotInv(cfg, Step(cfg, slot, ev))
  {
    if ev.Request? {
      OpenedFacts(cfg, slot, ev.now);
      var e := Opened(cfg, slot, ev.now);
      LoadNonNegative(cfg, e, ev.now);
      if Load(cfg, e, ev.now) < cfg.max * cfg.window && e.currCount >= Limit(cfg) {
        MulMono(cfg.max, e.currCount, cfg.window);
      }
    }
  }

  /** What a caller can rely on in any single answer. */
  predicate AnswerOk(cfg: Config, x: Answer) {
    && x.verdict.resetAt == x.start + cfg.window
    && x.at < x.verdict.resetAt
    && 0 <= x.verdict.remaining
    && (x.verdict.allowed ==> x.verdict.remaining < Limit(cfg))
    && (!x.verdict.allowed ==> x.verdict.remaining == 0)
  }

  lemma {:induction false} ReplyOk(cfg: Config, slot: Option<EntryState>, now: int)
    requires SlotInv(cfg, slot)
    ensures AnswerOk(cfg, Reply(cfg, slot, now))
  {
    OpenedFacts(cfg, slot, now);
    var e := Opened(cfg, slot, now);
    LoadNonNegative(cfg, e, now);
    var n := cfg.max * cfg.window - (Load(cfg, e, now) + cfg.window);
    if Load(cfg, e, now) < cfg.max * cfg.window {
      TruncDivBounds(n, cfg.window);
      if cfg.max <= 0 { MulMono(cfg.max, 0, cfg.window); }
      if n >= 0 && TruncDiv(n, cfg.window) >= cfg.max {
        MulMono(cfg.max, TruncDiv(n, cfg.window), cfg.window);
      }
    }
  }

  /**
   Any run, with the clock free to jump anywhere: the counts stay between 0 and the limit, and
   every answer's reset time is in the future and its remaining count within the limit.
   */
  lemma {:induction false} RunInv(cfg: Config, slot: Option<EntryState>, evs: seq<Event>)
    requires SlotInv(cfg, slot)
    ensures SlotInv(cfg, Run(cfg, slot, evs))
    ensures forall x | x in Answers(cfg, slot, evs) :: AnswerOk(cfg, x)
    decreases |evs|
  {
    if evs != [] {
      StepInv(cfg, slot, evs[0]);
      RunInv(cfg, Step(cfg, slot, evs[0]), evs[1..]);
      if evs[0].Request? {
        ReplyOk(cfg, slot, evs[0].now);
      }
    }
  }

  /** The start of the window of an entry never moves back, and moves forward at every rotation. */
  lemma {:induction false} StartsNeverGoBack(cfg: Config, e: EntryState, evs: seq<Event>)
    requires EntryInv(cfg, e)
    requires forall ev | ev in evs :: ev.Request?
    ensures var after := Run(cfg, Some(e), evs);
            after.Some? && e.currStart <= after.value.currStart
            && (after.value.currStart == e.currStart ==>
                  after.value.prevCount == e.prevCount && e.currCount <= after.value.currCount)
    decreases |evs|
  {
    if evs != [] {
      StepInv(cfg, Some(e), evs[0]);
      OpenedFacts(cfg, Some(e), evs[0].now);
      StartsNeverGoBack(cfg, Step(cfg, Some(e), evs[0]).value, evs[1..]);
    }
  }
}

/**
 The long-run rate: how many calls of a key are admitted in an interval of k windows. One
 invariant serves an ordered clock with cleanups, and any clock at all for calls alone under a
 limit of one.
 */
module SlidingWindowLongRun {
  import opened Common
  import opened SlidingWindow
  import opened SlidingWindowInvariant
  import opened SlidingWindowBound

  /** How many window lengths after a the time s lies, rounded up. */
  function Lengths(cfg: Config, a: int, s: int): int {
    -((a - s) / cfg.window)
  }

  lemma LengthsSpec(cfg: Config, a: int, s: int)
    ensures var j := Lengths(cfg, a, s); a + (j - 1) * cfg.window < s <= a + j * cfg.window
  {
    var q, r := (a - s) / cfg.window, (a - s) % cfg.window;
    assert a - s == cfg.window * q + r;
    assert Lengths(cfg, a, s) * cfg.window == -(cfg.window * q);
    assert (Lengths(cfg, a, s) - 1) * cfg.window == Lengths(cfg, a, s) * cfg.window - cfg.window;
  }

  /** The number of lengths is settled by bounds on the time. */
  lemma LengthsAtLeast(cfg: Config, a: int, s: int, j: int)
    requires s > a + (j - 1) * cfg.window
    ensures Lengths(cfg, a, s) >= j
  {
    LengthsSpec(cfg, a, s);
    var m := Lengths(cfg, a, s);
    if m < j { MulMono(m, j - 1, cfg.window); }
  }

  lemma LengthsAtMost(cfg: Config, a: int, s: int, j: int)
    requires s <= a + j * cfg.window
    ensures Lengths(cfg, a, s) <= j
  {
    LengthsSpec(cfg, a, s);
    var m := Lengths(cfg, a, s);
    if m > j { MulMono(j, m - 1, cfg.window); }
  }

  /** How many admissions from a on the windows before the one that starts at s can have taken. */
  function Cap(cfg: Config, a: int, s: int): int {
    var j := Lengths(cfg, a, s);
    if Aligned(cfg, s) then (j + 1) * cfg.max - 1
    else if s == a then 0
    else j * cfg.max - 1
  }

  lemma CapAtLeast(cfg: Config, a: int, s: int, j: int)
    requires cfg.max >= 1 && s > a + (j - 1) * cfg.window
    ensures Aligned(cfg, s) ==> Cap(cfg, a, s) >= (j + 1) * cfg.max - 1
    ensures !Aligned(cfg, s) && s != a ==> Cap(cfg, a, s) >= j * cfg.max - 1
  {
    LengthsAtLeast(cfg, a, s, j);
    MulMono(j, Lengths(cfg, a, s), cfg.max);
    MulMono(j + 1, Lengths(cfg, a, s) + 1, cfg.max);
  }

  /** A window of its own limit fits between two starts: aligned ones, or after a sweep, or after the first. */
  lemma CapRises(cfg: Config, a: int, s: int, t: int)
    requires cfg.max >= 1 && a - cfg.window < s < t
    requires s + 2 * cfg.window <= t || (Aligned(cfg, t) && (Aligned(cfg, s) ==> s + cfg.window <= t))
    ensures Cap(cfg, a, s) + cfg.max <= Cap(cfg, a, t)
  {
    var j := Lengths(cfg, a, s);
    LengthsSpec(cfg, a, s);
    LengthsAtLeast(cfg, a, s, 0);
    if s + 2 * cfg.window <= t {
      assert (j + 1) * cfg.window == (j - 1) * cfg.window + 2 * cfg.window;
      CapAtLeast(cfg, a, t, j + 2);
    } else if Aligned(cfg, s) {
      assert j * cfg.window == (j - 1) * cfg.window + cfg.window;
      CapAtLeast(cfg, a, t, j + 1);
    } else {
      CapAtLeast(cfg, a, t, if s == a then 1 else j);
    }
    CapUnfolds(cfg, a, s);
  }

  lemma CapUnfolds(cfg: Config, a: int, s: int)
    ensures var j := Lengths(cfg, a, s);
            && (j + 1) * cfg.max == j * cfg.max + cfg.max
            && (j + 2) * cfg.max == j * cfg.max + 2 * cfg.max
            && (j + 3) * cfg.max == j * cfg.max + 3 * cfg.max
            && (s == a ==> j == 0)
  {
    LengthsSpec(cfg, a, s);
    if s == a {
      LengthsAtMost(cfg, a, s, 0);
      LengthsAtLeast(cfg, a, s, 0);
    }
  }

  /** The most admissions an interval of k windows can hold. */
  function LongPeak(cfg: Config, k: nat): int {
    if cfg.max >= 1 then (k + 2) * cfg.max - 1 else 0
  }

  /** A window that starts before the end of the interval keeps the total. */
  lemma CapAtEnd(cfg: Config, a: int, s: int, k: nat)
    requires cfg.max >= 1 && s < a + k * cfg.window
    ensures Cap(cfg, a, s) + cfg.max <= LongPeak(cfg, k)
  {
    LengthsAtMost(cfg, a, s, k);
    var j := Lengths(cfg, a, s);
    MulMono(j, k, cfg.max);
    assert (j + 1) * cfg.max == j * cfg.max + cfg.max && (k + 2) * cfg.max == k * cfg.max + 2 * cfg.max;
    MulMono(0, k, cfg.max);
  }

  /** n admissions in [a, a + k * window) so far; the last window started at s, and `last` is the clock. */
  predicate LongInv(cfg: Config, slot: Option<EntryState>, last: int, a: int, k: nat, s: int, n: nat) {
    && n <= LongPeak(cfg, k)
    && match slot
       case None =>
         n == 0 || (a - cfg.window < s && s + 2 * cfg.window <= last && n <= Cap(cfg, a, s) + cfg.max)
       case Some(e) =>
         && EntryInv(cfg, e) && e.currStart == s
         && (!Aligned(cfg, s) ==> e.currCount >= 1)
         && (n == 0 || (a - cfg.window < s && n <= Cap(cfg, a, s) + e.currCount))
  }

  function CountedLong(cfg: Config, slot: Option<EntryState>, ev: Event, a: int, k: nat, n: nat): nat {
    if ev.Request? && Counts(cfg, Any, Reply(cfg, slot, ev.now), a, a + k * cfg.window) then n + 1 else n
  }

  /** Opening the entry of a call leaves room for what was admitted before. */
  lemma OpenedCap(cfg: Config, slot: Option<EntryState>, last: int, now: int, a: int, k: nat, s: int, n: nat)
    requires cfg.max >= 1 && LongInv(cfg, slot, last, a, k, s, n) && n > 0
    requires slot.None? ==> last <= now
    ensures var e := Opened(cfg, slot, now);
            a - cfg.window < e.currStart && n <= Cap(cfg, a, e.currStart) + e.currCount
  {
    var e := Opened(cfg, slot, now);
    OpenedFacts(cfg, slot, now);
    if slot.None? {
      CapRises(cfg, a, s, now);
    } else if e != slot.value {
      if Aligned(cfg, s) { MultiplesApart(s, e.currStart, cfg.window); }
      CapRises(cfg, a, s, e.currStart);
    }
  }

  /** The first admission of the interval fits under the cap of its window. */
  lemma FirstFits(cfg: Config, a: int, s: int, count: int, now: int)
    requires cfg.max >= 1 && count >= 0 && s <= now < s + cfg.window && a <= now
    requires s < now && !Aligned(cfg, s) ==> count >= 1
    ensures a - cfg.window < s && 0 <= Cap(cfg, a, s) + count
  {
    assert -1 * cfg.window == -cfg.window;
    if s <= a {
      CapAtLeast(cfg, a, s, 0);
    } else {
      CapAtLeast(cfg, a, s, 1);
    }
  }

  /** A call that is not admitted before its window's start keeps the invariant. */
  lemma LongRequest(cfg: Config, slot: Option<EntryState>, last: int, now: int, a: int, k: nat, s: int, n: nat)
    requires cfg.max >= 1 && LongInv(cfg, slot, last, a, k, s, n)
    requires slot.None? ==> n == 0 || last <= now
    requires Reply(cfg, slot, now).verdict.allowed ==> Opened(cfg, slot, now).currStart <= now
    ensures LongInv(cfg, Step(cfg, slot, Request(now)), now, a, k, Opened(cfg, slot, now).currStart,
                    CountedLong(cfg, slot, Request(now), a, k, n))
  {
    var e := Opened(cfg, slot, now);
    StepInv(cfg, slot, Request(now));
    OpenedFacts(cfg, slot, now);
    if n > 0 { OpenedCap(cfg, slot, last, now, a, k, s, n); }
    if Reply(cfg, slot, now).verdict.allowed {
      assert Allow(cfg, slot, now).0 == e.(currCount := e.currCount + 1);
      if CountedLong(cfg, slot, Request(now), a, k, n) == n + 1 {
        FirstFits(cfg, a, e.currStart, e.currCount, now);
        CapAtEnd(cfg, a, e.currStart, k);
      }
    } else if slot.None? {
      MulMono(1, cfg.max, cfg.window);
    }
  }

  lemma LongSweep(cfg: Config, slot: Option<EntryState>, last: int, now: int, a: int, k: nat, s: int, n: nat)
    requires cfg.max >= 1 && LongInv(cfg, slot, last, a, k, s, n) && last <= now
    ensures LongInv(cfg, Step(cfg, slot, Sweep(now)), now, a, k, s, n)
  {
  }

  predicate StartedBefore(slot: Option<EntryState>, last: int) {
    slot.Some? ==> slot.value.currStart <= last
  }

  lemma {:induction false} LongRun(cfg: Config, slot: Option<EntryState>, last: int, evs: seq<Event>,
                                   a: int, k: nat, s: int, n: nat)
    requires cfg.max >= 1 && Ordered(evs, last)
    requires LongInv(cfg, slot, last, a, k, s, n) && StartedBefore(slot, last)
    ensures n + Count(cfg, Any, Answers(cfg, slot, evs), a, a + k * cfg.window) <= LongPeak(cfg, k)
    decreases |evs|
  {
    if evs != [] {
      var ev := evs[0];
      AnswersUnfold(cfg, slot, evs);
      if ev.Request? {
        OpenedFacts(cfg, slot, ev.now);
        LongRequest(cfg, slot, last, ev.now, a, k, s, n);
        LongRun(cfg, Step(cfg, slot, ev), ev.now, evs[1..], a, k,
                Opened(cfg, slot, ev.now).currStart, CountedLong(cfg, slot, ev, a, k, n));
      } else {
        LongSweep(cfg, slot, last, ev.now, a, k, s, n);
        LongRun(cfg, Step(cfg, slot, ev), ev.now, evs[1..], a, k, s, n);
      }
    }
  }

  /** With a clock that never goes back, k windows in a row hold at most (k + 2) * max - 1 admissions of a key. */
  lemma LongRunBound(cfg: Config, evs: seq<Event>, from: int, a: int, k: nat)
    requires Ordered(evs, from)
    ensures Count(cfg, Any, Answers(cfg, None, evs), a, a + k * cfg.window) <= LongPeak(cfg, k)
  {
    if cfg.max >= 1 {
      MulMono(2, k + 2, cfg.max);
      LongRun(cfg, None, from, evs, a, k, a, 0);
    } else {
      NothingBelowOne(cfg, None, evs, a, a + k * cfg.window);
    }
  }

  // ---------------------------------------------------------------- calls alone, under a limit of one

  predicate CallsOnly(evs: seq<Event>) {
    forall ev | ev in evs :: ev.Request?
  }

  /** Under a limit of one an entry that has been called holds a count, so nothing is admitted early. */
  lemma NeverEarly(cfg: Config, slot: Option<EntryState>, now: int)
    requires cfg.max == 1 && SlotInv(cfg, slot)
    requires slot.Some? ==> slot.value.prevCount + slot.value.currCount >= 1
    ensures var (e, v) := Allow(cfg, slot, now);
            && e.prevCount + e.currCount >= 1
            && (v.allowed ==> Opened(cfg, slot, now).currStart <= now)
  {
    var e := Opened(cfg, slot, now);
    OpenedFacts(cfg, slot, now);
    if now < e.currStart && Load(cfg, e, now) < cfg.window {
      MulMono(cfg.window, Overlap(cfg, e, now), e.prevCount);
      MulMono(1, e.prevCount + e.currCount, cfg.window);
    }
  }

  lemma {:induction false} CallsRun(cfg: Config, slot: Option<EntryState>, evs: seq<Event>, a: int, k: nat, s: int,
                                    n: nat)
    requires cfg.max == 1 && CallsOnly(evs) && LongInv(cfg, slot, 0, a, k, s, n)
    requires if slot.None? then n == 0 else slot.value.prevCount + slot.value.currCount >= 1
    ensures n + Count(cfg, Any, Answers(cfg, slot, evs), a, a + k * cfg.window) <= LongPeak(cfg, k)
    decreases |evs|
  {
    if evs != [] {
      var ev := evs[0];
      assert ev in evs && CallsOnly(evs[1..]);
      AnswersUnfold(cfg, slot, evs);
      NeverEarly(cfg, slot, ev.now);
      LongRequest(cfg, slot, 0, ev.now, a, k, s, n);
      CallsRun(cfg, Step(cfg, slot, ev), evs[1..], a, k,
               Opened(cfg, slot, ev.now).currStart, CountedLong(cfg, slot, ev, a, k, n));
    }
  }

  /** Without cleanups a limit of at most one keeps the bound for any clock readings. */
  lemma CallsBound(cfg: Config, evs: seq<Event>, a: int, k: nat)
    requires cfg.max <= 1 && CallsOnly(evs)
    ensures Count(cfg, Any, Answers(cfg, None, evs), a, a + k * cfg.window) <= LongPeak(cfg, k)
  {
    if cfg.max == 1 {
      CallsRun(cfg, None, evs, a, k, a, 0);
    } else {
      NothingBelowOne(cfg, None, evs, a, a + k * cfg.window);
    }
  }
}

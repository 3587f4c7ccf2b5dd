/**
 The rate limiter with its mutable state: a map of entries updated in place, the weighted
 count computed as a fraction. Each method is proved against the functions on values of
 module SlidingWindow.
 */
module RateLimiter {
  import opened Common
  import S = SlidingWindow
  import I = SlidingWindowInvariant

  /** Go's conversion of a floating-point value to int: the fraction is dropped. */
  function ToInt(x: real): int {
    if x >= 0.0 then x.Floor else -((-x).Floor)
  }

  // ---------------------------------------------------------------- fractions and scaled integers

  lemma ScaledWeight(prev: int, curr: int, elapsed: int, w: int, overlap: real, effective: real)
    requires w > 0
    requires overlap == 1.0 - elapsed as real / w as real
    requires effective == prev as real * overlap + curr as real
    ensures effective * w as real == (prev * (w - elapsed) + curr * w) as real
  {
    var q := elapsed as real / w as real;
    assert q * w as real == elapsed as real;
    assert overlap * w as real == (w - elapsed) as real;
    assert prev as real * overlap * w as real == prev as real * (overlap * w as real);
    assert prev as real * (w - elapsed) as real == (prev * (w - elapsed)) as real;
    assert curr as real * w as real == (curr * w) as real;
  }

  lemma RealMulMono(x: real, y: real, c: real)
    requires c > 0.0
    ensures x >= y <==> x * c >= y * c
  {
    if x < y { assert (y - x) * c > 0.0; }
    if x >= y { assert (x - y) * c >= 0.0; }
  }

  /** A fraction n / w compares with an integer as n does with its multiple. */
  lemma ScaledCompare(x: real, n: int, w: int, k: int)
    requires w > 0 && x * w as real == n as real
    ensures x >= k as real <==> n >= k * w
  {
    RealMulMono(x, k as real, w as real);
    assert k as real * w as real == (k * w) as real;
  }

  /** Dropping the fraction of n / w is integer division towards zero. */
  lemma ScaledToInt(x: real, n: int, w: int)
    requires w > 0 && x * w as real == n as real
    ensures ToInt(x) == S.TruncDiv(n, w)
  {
    ScaledCompare(x, n, w, 0);
    if n >= 0 {
      FloorIsDiv(x, n, w);
    } else {
      assert (-x) * w as real == (-n) as real;
      FloorIsDiv(-x, -n, w);
    }
  }

  lemma FloorIsDiv(x: real, n: int, w: int)
    requires w > 0 && n >= 0 && x * w as real == n as real
    ensures x.Floor == n / w
  {
    var q := n / w;
    I.DivBounds(n, w);
    ScaledCompare(x, n, w, q);
    ScaledCompare(x, n, w, q + 1);
  }

  lemma ScaledRest(max: int, effective: real, load: int, w: int)
    requires w > 0 && (effective - 1.0) * w as real == load as real
    ensures (max as real - effective) * w as real == (max * w - (load + w)) as real
  {
    assert max as real * w as real == (max * w) as real;
    assert effective * w as real == load as real + w as real;
  }

  lemma OverlapNotNegative(elapsed: int, w: int, overlap: real)
    requires w > 0 && elapsed < w && overlap == 1.0 - elapsed as real / w as real
    ensures overlap >= 0.0
  {
    var q := elapsed as real / w as real;
    assert q * w as real == elapsed as real;
    assert overlap * w as real == (w - elapsed) as real;
    ScaledCompare(overlap, w - elapsed, w, 0);
  }

  lemma WholePlusOne(x: real)
    requires x == x.Floor as real
    ensures (x + 1.0).Floor == x.Floor + 1
  {
  }

  /**
   The source's fractional test and remaining count are the scaled integer ones, as long as the
   window of `e` is open at `now`.
   */
  lemma WeightedTest(cfg: S.Config, e: S.EntryState, now: int, overlap: real, effective: real)
    requires now - e.currStart < cfg.window
    requires overlap == 1.0 - (now - e.currStart) as real / cfg.window as real
    requires effective == e.prevCount as real * overlap + e.currCount as real
    ensures overlap >= 0.0
    ensures effective >= cfg.max as real <==> S.Load(cfg, e, now) >= cfg.max * cfg.window
    ensures ToInt(cfg.max as real - (effective + 1.0)) == S.RawRemaining(cfg, e, now)
  {
    var elapsed, load := now - e.currStart, S.Load(cfg, e, now);
    OverlapNotNegative(elapsed, cfg.window, overlap);
    ScaledWeight(e.prevCount, e.currCount, elapsed, cfg.window, overlap, effective);
    ScaledCompare(effective, load, cfg.window, cfg.max);
    ScaledRest(cfg.max, effective + 1.0, load, cfg.window);
    ScaledToInt(cfg.max as real - (effective + 1.0), cfg.max * cfg.window - (load + cfg.window), cfg.window);
  }

  // ---------------------------------------------------------------- the objects

  /** Creating the entry of a new key first and serving it then is one step of the state machine. */
  lemma EnsuredThenServed(cfg: S.Config, m: map<string, S.EntryState>, mid: map<string, S.EntryState>,
                          key: string, now: int)
    requires mid == if key in m then m else m[key := S.Fresh(now)]
    ensures key in mid
    ensures mid[key := S.Allow(cfg, Some(mid[key]), now).0] == S.StepAll(cfg, m, S.Allowing(key, now))
    ensures S.Allow(cfg, Some(mid[key]), now).1 == S.Reply(cfg, S.Lookup(m, key), now).verdict
  {
    assert S.Opened(cfg, Some(mid[key]), now) == S.Opened(cfg, S.Lookup(m, key), now);
  }

  class Entry {
    var prevCount: real
    var prevStart: int
    var currCount: real
    var currStart: int

    constructor (now: int)
      ensures prevCount == 0.0 && prevStart == 0 && currCount == 0.0 && currStart == now
    {
      prevCount, prevStart, currCount, currStart := 0.0, 0, 0.0, now;
    }

    ghost predicate Integral()
      reads this
    {
      prevCount == prevCount.Floor as real && currCount == currCount.Floor as real
    }

    ghost function State(): S.EntryState
      reads this
    {
      S.EntryState(prevCount.Floor, prevStart, currCount.Floor, currStart)
    }
  }

  class RateLimiter {
    const cfg: S.Config
    var entries: map<string, Entry>

    /** Keys do not share entries, and every count is a whole number between 0 and the limit. */
    ghost predicate Valid()
      reads this, entries.Values
    {
      && (forall k, k' | k in entries && k' in entries && k != k' :: entries[k] != entries[k'])
      && (forall k | k in entries :: entries[k].Integral() && I.EntryInv(cfg, entries[k].State()))
    }

    ghost function View(): map<string, S.EntryState>
      reads this, entries.Values
    {
      map k | k in entries :: entries[k].State()
    }

    constructor (cfg: S.Config)
      ensures Valid() && View() == map[] && this.cfg == cfg
    {
      this.cfg := cfg;
      entries := map[];
    }

    /** The entry of `key` is created on first use. */
    method Ensure(key: string, now: int)
      requires Valid()
      modifies this`entries
      ensures Valid() && key in entries
      ensures View() == if key in old(View()) then old(View()) else old(View())[key := S.Fresh(now)]
      ensures fresh(entries.Values - old(entries.Values))
    {
      if key !in entries {
        var e := new Entry(now);
        entries := entries[key := e];
      }
    }

    /** Rotate the window if it has elapsed. */
    method Rotate(e: Entry, now: int)
      requires e.Integral()
      modifies e
      ensures e.Integral() && e.State() == S.Rotated(cfg, old(e.State()), now)
    {
      if now - e.currStart >= cfg.window {
        e.prevCount := e.currCount;
        e.prevStart := e.currStart;
        e.currCount := 0.0;
        e.currStart := S.Truncate(now, cfg.window);
        if now - e.prevStart >= 2 * cfg.window {
          e.prevCount := 0.0;
        }
      }
    }

    /** Weigh, decide and count the request, on an entry whose window is open. */
    method Decide(e: Entry, now: int) returns (remaining: int, resetAt: int, allowed: bool)
      requires e.Integral() && now - e.currStart < cfg.window
      modifies e
      ensures e.Integral()
      ensures var s := old(e.State());
              && resetAt == s.currStart + cfg.window
              && allowed == (S.Load(cfg, s, now) < cfg.max * cfg.window)
              && e.State() == (if allowed then s.(currCount := s.currCount + 1) else s)
              && remaining == (if allowed && S.RawRemaining(cfg, s, now) > 0 then S.RawRemaining(cfg, s, now) else 0)
    {
      ghost var s := e.State();
      var elapsed := now - e.currStart;
      var overlapRatio := 1.0 - elapsed as real / cfg.window as real;
      ghost var exact := s.prevCount as real * overlapRatio + s.currCount as real;
      WeightedTest(cfg, s, now, overlapRatio, exact);
      if overlapRatio < 0.0 {
        overlapRatio := 0.0;
      }
      var effectiveCount := e.prevCount * overlapRatio + e.currCount;
      assert effectiveCount == exact;
      resetAt := e.currStart + cfg.window;

      if effectiveCount >= cfg.max as real {
        return 0, resetAt, false;
      }

      WholePlusOne(e.currCount);
      e.currCount := e.currCount + 1.0;
      effectiveCount := effectiveCount + 1.0;
      remaining := ToInt(cfg.max as real - effectiveCount);
      if remaining < 0 {
        remaining := 0;
      }
      allowed := true;
    }

    /** When one entry changed and no key moved, the view changed at that key only. */
    twostate lemma OneEntryChanged(key: string)
      requires old(Valid()) && key in entries && entries == old(entries)
      requires forall k | k in entries && k != key :: unchanged(entries[k])
      requires entries[key].Integral() && I.EntryInv(cfg, entries[key].State())
      ensures Valid() && View() == old(View())[key := entries[key].State()]
    {
      assert forall k | k in entries && k != key :: entries[k].State() == old(entries[k].State());
    }

    /** Rotation and decision on the entry of `key`; the other entries stay as they are. */
    method Serve(key: string, now: int) returns (remaining: int, resetAt: int, allowed: bool)
      requires Valid() && key in entries
      modifies entries[key]
      ensures Valid()
      ensures var slot := Some(old(View())[key]);
              && View() == old(View())[key := S.Allow(cfg, slot, now).0]
              && S.Verdict(remaining, resetAt, allowed) == S.Allow(cfg, slot, now).1
    {
      ghost var slot := Some(View()[key]);
      I.StepInv(cfg, slot, S.Request(now));
      I.OpenedFacts(cfg, slot, now);
      var e := entries[key];
      Rotate(e, now);
      assert e.State() == S.Opened(cfg, slot, now);
      remaining, resetAt, allowed := Decide(e, now);
      assert e.State() == S.Allow(cfg, slot, now).0;
      OneEntryChanged(key);
    }

    method Allow(key: string, now: int) returns (remaining: int, resetAt: int, allowed: bool)
      requires Valid()
      modifies this`entries, entries.Values
      ensures Valid()
      ensures View() == S.StepAll(cfg, old(View()), S.Allowing(key, now))
      ensures S.Verdict(remaining, resetAt, allowed) == S.Reply(cfg, S.Lookup(old(View()), key), now).verdict
      ensures fresh(entries.Values - old(entries.Values))
    {
      Ensure(key, now);
      EnsuredThenServed(cfg, old(View()), View(), key, now);
      remaining, resetAt, allowed := Serve(key, now);
    }

    method Cleanup(now: int)
      requires Valid()
      modifies this`entries
      ensures Valid()
      ensures View() == S.StepAll(cfg, old(View()), S.Cleanup(now))
      ensures entries.Values <= old(entries.Values)
    {
      var keys := entries.Keys;
      ghost var view := View();
      while keys != {}
        invariant keys <= view.Keys
        invariant forall k :: k in entries <==> k in view && (k in keys || !S.Expired(cfg, view[k], now))
        invariant forall k | k in entries :: entries[k] == old(entries)[k]
      {
        var key :| key in keys;
        if now - entries[key].currStart >= 2 * cfg.window {
          entries := entries - {key};
        }
        keys := keys - {key};
      }
    }
  }
}

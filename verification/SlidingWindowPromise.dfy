/**
 What an answer of the rate limiter promises about later calls of the same key: how many
 are sure to be admitted, how many at most at the same instant, and when a denied caller
 gets in again. These need a clock that does not go back.
 */
module SlidingWindowPromise {
  import opened Common
  import opened SlidingWindow
  import opened SlidingWindowInvariant
  import opened SlidingWindowBound

  // ---------------------------------------------------------------- the remaining count

  /** The entry is as a call at time `at` leaves it: its current window contains `at`. */
  predicate Settled(cfg: Config, e: EntryState, at: int) {
    EntryInv(cfg, e) && e.currStart <= at < e.currStart + cfg.window
  }

  /** At time `at`, r further calls fit under the limit. */
  predicate Room(cfg: Config, slot: Option<EntryState>, at: int, r: nat) {
    && r <= cfg.max
    && (slot.Some? ==>
          && Settled(cfg, slot.value, at)
          && Load(cfg, slot.value, at) + r * cfg.window <= cfg.max * cfg.window)
  }

  lemma ScaleMono(count: int, less: int, more: int)
    requires count >= 0 && less <= more
    ensures count * less <= count * more
  {
  }

  /** The weighted count never rises between admissions, across a rotation included. */
  lemma {:induction false} LoadNeverRises(cfg: Config, e: EntryState, at: int, now: int)
    requires Settled(cfg, e, at) && at <= now
    ensures Load(cfg, Rotated(cfg, e, now), now) <= Load(cfg, e, at)
  {
    TruncateSpec(now, cfg.window);
    var e' := Rotated(cfg, e, now);
    ScaleMono(e.prevCount, 0, Overlap(cfg, e, at));
    ScaleMono(e.prevCount, Overlap(cfg, e, now), Overlap(cfg, e, at));
    ScaleMono(e.currCount, Overlap(cfg, e', now), cfg.window);
    ScaleMono(e.currCount, 0, cfg.window);
  }

  lemma OneLess(r: int, w: int)
    requires r >= 1 && w > 0
    ensures (r - 1) * w == r * w - w && r * w >= w
  {
    MulMono(1, r, w);
  }

  lemma RoomAdmits(cfg: Config, slot: Option<EntryState>, at: int, now: int, r: nat)
    requires r >= 1 && Room(cfg, slot, at, r) && at <= now
    ensures Reply(cfg, slot, now).verdict.allowed
    ensures Room(cfg, Step(cfg, slot, Request(now)), now, r - 1)
  {
    OpenedFacts(cfg, slot, now);
    TruncateSpec(now, cfg.window);
    StepInv(cfg, slot, Request(now));
    var e := Opened(cfg, slot, now);
    if slot.Some? { LoadNeverRises(cfg, slot.value, at, now); } else { MulMono(r, cfg.max, cfg.window); }
    assert Load(cfg, e, now) + r * cfg.window <= cfg.max * cfg.window;
    OneLess(r, cfg.window);
    AdmittedLoad(cfg, slot, now);
  }

  /** With room for r calls, the next r calls are admitted, whatever cleanups run in between. */
  lemma {:induction false} RoomKept(cfg: Config, slot: Option<EntryState>, at: int, evs: seq<Event>, r: nat)
    requires Room(cfg, slot, at, r) && Ordered(evs, at)
    ensures var ans := Answers(cfg, slot, evs);
            forall i | 0 <= i < r && i < |ans| :: ans[i].verdict.allowed
    decreases |evs|
  {
    if evs != [] && r > 0 {
      AnswersUnfold(cfg, slot, evs);
      var now, slot' := evs[0].now, Step(cfg, slot, evs[0]);
      if evs[0].Request? {
        RoomAdmits(cfg, slot, at, now, r);
        RoomKept(cfg, slot', now, evs[1..], r - 1);
        var ans, rest := Answers(cfg, slot, evs), Answers(cfg, slot', evs[1..]);
        assert forall i | 0 < i < |ans| :: ans[i] == rest[i - 1];
      } else {
        RoomKept(cfg, slot', at, evs[1..], r);
      }
    }
  }

  lemma RawRemainingBounds(cfg: Config, e: EntryState, now: int)
    requires Load(cfg, e, now) < cfg.max * cfg.window
    ensures var q, next := RawRemaining(cfg, e, now), Load(cfg, e, now) + cfg.window;
            && q >= 0
            && cfg.max * cfg.window < next + (q + 1) * cfg.window
            && (q > 0 ==> next + q * cfg.window <= cfg.max * cfg.window)
  {
    TruncDivBounds(cfg.max * cfg.window - (Load(cfg, e, now) + cfg.window), cfg.window);
  }

  /** The scaled room left by an admitted call lies between its remaining count and one more. */
  lemma RemainingMeansRoom(cfg: Config, slot: Option<EntryState>, now: int)
    requires SlotInv(cfg, slot) && (slot.Some? ==> slot.value.currStart <= now)
    requires Reply(cfg, slot, now).verdict.allowed
    ensures var (e, v) := Allow(cfg, slot, now);
            && v.remaining >= 0
            && Settled(cfg, e, now)
            && cfg.max * cfg.window < Load(cfg, e, now) + (v.remaining + 1) * cfg.window
            && (v.remaining > 0 ==> Room(cfg, Some(e), now, v.remaining))
  {
    OpenedFacts(cfg, slot, now);
    TruncateSpec(now, cfg.window);
    StepInv(cfg, slot, Request(now));
    ReplyOk(cfg, slot, now);
    RawRemainingBounds(cfg, Opened(cfg, slot, now), now);
    AdmittedLoad(cfg, slot, now);
  }

  lemma AdmittedLoad(cfg: Config, slot: Option<EntryState>, now: int)
    requires Reply(cfg, slot, now).verdict.allowed
    ensures Load(cfg, Allow(cfg, slot, now).0, now) == Load(cfg, Opened(cfg, slot, now), now) + cfg.window
  {
  }

  /** A returned remaining count r is a promise: the next r calls of the key are all admitted. */
  lemma RemainingIsAPromise(cfg: Config, slot: Option<EntryState>, now: int, evs: seq<Event>)
    requires SlotInv(cfg, slot) && (slot.Some? ==> slot.value.currStart <= now)
    requires Reply(cfg, slot, now).verdict.allowed && Ordered(evs, now)
    ensures var (e, v) := Allow(cfg, slot, now);
            var ans := Answers(cfg, Some(e), evs);
            forall i | 0 <= i < v.remaining && i < |ans| :: ans[i].verdict.allowed
  {
    RemainingMeansRoom(cfg, slot, now);
    var (e, v) := Allow(cfg, slot, now);
    if v.remaining > 0 { RoomKept(cfg, Some(e), now, evs, v.remaining); }
  }

  predicate AllAt(evs: seq<Event>, now: int) {
    forall ev | ev in evs :: ev.now == now
  }

  /** At the instant of an entry's last call, an event changes it only by admitting one of the r calls that fit. */
  lemma InstantStep(cfg: Config, e: EntryState, now: int, ev: Event, r: nat)
    requires Settled(cfg, e, now) && ev.now == now
    requires cfg.max * cfg.window <= Load(cfg, e, now) + r * cfg.window
    ensures Step(cfg, Some(e), ev).Some?
    ensures var e' := Step(cfg, Some(e), ev).value;
            && Settled(cfg, e', now)
            && (ev.Request? ==> (Reply(cfg, Some(e), now).verdict.allowed <==> e' != e))
            && (e' != e ==> ev.Request? && r >= 1
                            && cfg.max * cfg.window <= Load(cfg, e', now) + (r - 1) * cfg.window)
  {
    StepInv(cfg, Some(e), ev);
    assert Opened(cfg, Some(e), now) == e;
    if ev.Request? && Load(cfg, e, now) < cfg.max * cfg.window {
      AdmittedLoad(cfg, Some(e), now);
      if r > 0 { OneLess(r, cfg.window); }
    }
  }

  lemma {:induction false} SameInstant(cfg: Config, e: EntryState, now: int, evs: seq<Event>, r: nat)
    requires Settled(cfg, e, now) && AllAt(evs, now)
    requires cfg.max * cfg.window <= Load(cfg, e, now) + r * cfg.window
    ensures Count(cfg, Any, Answers(cfg, Some(e), evs), now, now + 1) <= r
    decreases |evs|
  {
    if evs != [] {
      assert evs[0].now == now;
      AnswersUnfold(cfg, Some(e), evs);
      InstantStep(cfg, e, now, evs[0], r);
      var e' := Step(cfg, Some(e), evs[0]).value;
      SameInstant(cfg, e', now, evs[1..], if e' == e then r else r - 1);
    }
  }

  /** At the same instant at most one call more than the promised r is admitted. */
  lemma AtMostOneMore(cfg: Config, slot: Option<EntryState>, now: int, evs: seq<Event>)
    requires SlotInv(cfg, slot) && (slot.Some? ==> slot.value.currStart <= now)
    requires Reply(cfg, slot, now).verdict.allowed && AllAt(evs, now)
    ensures var (e, v) := Allow(cfg, slot, now);
            Count(cfg, Any, Answers(cfg, Some(e), evs), now, now + 1) <= v.remaining + 1
  {
    RemainingMeansRoom(cfg, slot, now);
    var (e, v) := Allow(cfg, slot, now);
    SameInstant(cfg, e, now, evs, v.remaining + 1);
  }

  // ---------------------------------------------------------------- no starvation

  /** Nothing was admitted since a denial in the window that starts at c. */
  predicate Waiting(cfg: Config, slot: Option<EntryState>, last: int, c: int) {
    slot.Some? ==>
      var e := slot.value;
      && EntryInv(cfg, e)
      && e.currStart <= last
      && (e.currStart == c
          || (e.currCount == 0 && e.currStart >= c && (e.currStart >= c + 2 * cfg.window ==> e.prevCount == 0)))
  }

  /** A denied call or a cleanup keeps the caller waiting on the same window. */
  lemma DenialKeepsWaiting(cfg: Config, slot: Option<EntryState>, last: int, ev: Event, c: int)
    requires cfg.max >= 1 && Waiting(cfg, slot, last, c) && last <= ev.now
    requires ev.Request? ==> !Reply(cfg, slot, ev.now).verdict.allowed
    ensures Waiting(cfg, Step(cfg, slot, ev), ev.now, c)
  {
    if ev.Request? {
      OpenedFacts(cfg, slot, ev.now);
      MulMono(1, cfg.max, cfg.window);
    }
  }

  lemma LateCallAdmitted(cfg: Config, slot: Option<EntryState>, last: int, c: int, now: int)
    requires cfg.max >= 1 && Waiting(cfg, slot, last, c) && now >= last && now >= c + 2 * cfg.window
    ensures Reply(cfg, slot, now).verdict.allowed
  {
    OpenedFacts(cfg, slot, now);
    MulMono(1, cfg.max, cfg.window);
    var e := Opened(cfg, slot, now);
    assert e.currCount == 0;
    if e.prevCount != 0 {
      // a denied call rotated before now, into a window that started before c + 2 * window
      assert Overlap(cfg, e, now) < cfg.window;
      ScaleMono(e.prevCount, Overlap(cfg, e, now) + 1, cfg.window);
      MulMono(e.prevCount, cfg.max, cfg.window);
      assert e.prevCount * (Overlap(cfg, e, now) + 1) == e.prevCount * Overlap(cfg, e, now) + e.prevCount;
    }
  }

  predicate NoneAdmitted(ans: seq<Answer>) {
    forall x | x in ans :: !x.verdict.allowed
  }

  /**
   After a denial in the window that starts at c, as long as nothing is admitted, a call at or
   after c + 2 * window is admitted, even if denied calls rotated the window in between.
   */
  lemma {:induction false} NoStarvation(cfg: Config, slot: Option<EntryState>, last: int, c: int, evs: seq<Event>,
                                        now: int)
    requires cfg.max >= 1 && Waiting(cfg, slot, last, c)
    requires Ordered(evs + [Request(now)], last) && now >= c + 2 * cfg.window
    requires NoneAdmitted(Answers(cfg, slot, evs))
    ensures Reply(cfg, Run(cfg, slot, evs), now).verdict.allowed
    decreases |evs|
  {
    if evs == [] {
      LateCallAdmitted(cfg, slot, last, c, now);
    } else {
      AnswersUnfold(cfg, slot, evs);
      assert (evs + [Request(now)])[1..] == evs[1..] + [Request(now)];
      DenialKeepsWaiting(cfg, slot, last, evs[0], c);
      NoStarvation(cfg, Step(cfg, slot, evs[0]), evs[0].now, c, evs[1..], now);
    }
  }

  /** A denial leaves the caller waiting on the window it was denied in. */
  lemma {:induction false} DeniedWaits(cfg: Config, slot: Option<EntryState>, now: int)
    requires SlotInv(cfg, slot) && (slot.Some? ==> slot.value.currStart <= now)
    requires !Reply(cfg, slot, now).verdict.allowed
    ensures Waiting(cfg, Step(cfg, slot, Request(now)), now, Reply(cfg, slot, now).start)
  {
    OpenedFacts(cfg, slot, now);
  }

  /** The two together: nobody who keeps asking is kept out for two windows from the one it was denied in. */
  lemma DeniedCallerGetsIn(cfg: Config, slot: Option<EntryState>, denied: int, evs: seq<Event>, now: int)
    requires cfg.max >= 1 && SlotInv(cfg, slot) && (slot.Some? ==> slot.value.currStart <= denied)
    requires !Reply(cfg, slot, denied).verdict.allowed
    requires Ordered(evs + [Request(now)], denied)
    requires now >= Reply(cfg, slot, denied).start + 2 * cfg.window
    ensures var ans := Answers(cfg, Step(cfg, slot, Request(denied)), evs + [Request(now)]);
            exists x | x in ans :: x.verdict.allowed
  {
    var slot' := Step(cfg, slot, Request(denied));
    DeniedWaits(cfg, slot, denied);
    AnswersSnoc(cfg, slot', evs, now);
    var ans := Answers(cfg, slot', evs);
    var last := Reply(cfg, Run(cfg, slot', evs), now);
    if NoneAdmitted(ans) {
      NoStarvation(cfg, slot', denied, Reply(cfg, slot, denied).start, evs, now);
      assert last in ans + [last];
    } else {
      var x :| x in ans && x.verdict.allowed;
      assert x in ans + [last];
    }
  }

  lemma {:induction false} AnswersSnoc(cfg: Config, slot: Option<EntryState>, evs: seq<Event>, now: int)
    ensures Answers(cfg, slot, evs + [Request(now)]) == Answers(cfg, slot, evs) + [Reply(cfg, Run(cfg, slot, evs), now)]
    decreases |evs|
  {
    var all := evs + [Request(now)];
    AnswersUnfold(cfg, slot, all);
    if evs == [] {
      assert all[1..] == [];
    } else {
      assert all[1..] == evs[1..] + [Request(now)];
      AnswersSnoc(cfg, Step(cfg, slot, evs[0]), evs[1..], now);
    }
  }

  /**
   The first call after a window elapsed is denied exactly when that window was full, the call
   comes at a multiple of the window length, and less than two lengths have passed.
   */
  lemma {:induction false} FirstCallAfterWindow(cfg: Config, e: EntryState, now: int)
    requires cfg.max >= 1 && EntryInv(cfg, e) && now >= e.currStart + cfg.window
    ensures !Reply(cfg, Some(e), now).verdict.allowed
       <==> e.currCount == cfg.max && Aligned(cfg, now) && now < e.currStart + 2 * cfg.window
  {
    TruncateSpec(now, cfg.window);
    var r := Rotated(cfg, e, now);
    var o := Overlap(cfg, r, now);
    assert o == cfg.window - now % cfg.window && r.currCount == 0;
    FullWeight(r.prevCount, cfg.max, o, cfg.window);
    assert Load(cfg, r, now) == r.prevCount * o;
  }

  /** A weighted count reaches the limit only if both the count and the weight are full. */
  lemma FullWeight(count: int, max: int, weight: int, w: int)
    requires 0 <= count <= max && max >= 1 && 0 <= weight <= w && w >= 1
    ensures count * weight >= max * w <==> count == max && weight == w
  {
    ScaleMono(count, weight, w);
    if count < max {
      MulMono(count + 1, max, w);
    } else if weight < w {
      ScaleMono(max, weight, w - 1);
    }
  }
}

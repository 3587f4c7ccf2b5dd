/**
 How many calls the rate limiter admits in any time interval as long as one window.

 An entry's first window starts at the time of its first call, so it may overlap the aligned
 window that follows; three windows can then meet one interval.
 */
module SlidingWindowBound {
  import opened Common
  import opened SlidingWindow
  import opened SlidingWindowInvariant

  /**
   Admissions so far in the interval: in an unaligned window, in aligned windows before the
   current one, and in the current window when it is aligned.
   */
  datatype Tally = Tally(unaligned: nat, earlier: nat, current: nat)

  predicate FinalBound(cfg: Config, t: Tally) {
    && t.unaligned <= cfg.max
    && t.earlier + t.current <= 2 * cfg.max
    && (t.unaligned > 0 && t.earlier + t.current > 0 ==> t.unaligned < cfg.max)
  }

  /** While the interval [a, a + window) is still open at time `last`. */
  predicate OpenInv(cfg: Config, slot: Option<EntryState>, last: int, a: int, t: Tally) {
    if slot.None? then t == Tally(0, 0, 0)
    else
      var e := slot.value;
      && EntryInv(cfg, e)
      && e.currStart <= last
      && (e.currStart <= a - cfg.window ==> t == Tally(0, 0, 0))
      && if Aligned(cfg, e.currStart) then
           t.unaligned < cfg.max && t.current <= e.currCount && t.earlier <= cfg.max
           && (e.currStart <= a ==> t.earlier == 0)
         else
           t.earlier == t.current == 0 && 1 <= e.currCount && t.unaligned <= e.currCount
           && (e.currStart < a ==> t.unaligned < e.currCount)
  }

  predicate TallyInv(cfg: Config, slot: Option<EntryState>, last: int, a: int, t: Tally) {
    if last >= a + cfg.window then FinalBound(cfg, t) else OpenInv(cfg, slot, last, a, t)
  }

  /** The tally after a request at `now` on `slot`. */
  function Tallied(cfg: Config, slot: Option<EntryState>, now: int, a: int, t: Tally): Tally {
    var x := Reply(cfg, slot, now);
    var rotated := slot.Some? && x.start != slot.value.currStart;
    var t' := if rotated then Tally(t.unaligned, t.earlier + t.current, 0) else t;
    if !Counts(cfg, Any, x, a, a + cfg.window) then t'
    else if Aligned(cfg, x.start) then t'.(current := t'.current + 1)
    else t'.(unaligned := t'.unaligned + 1)
  }

  lemma OpenEnough(cfg: Config, slot: Option<EntryState>, last: int, a: int, t: Tally)
    requires cfg.max >= 1 && OpenInv(cfg, slot, last, a, t)
    ensures FinalBound(cfg, t)
  {
  }

  lemma RequestKeepsTally(cfg: Config, slot: Option<EntryState>, last: int, now: int, a: int, t: Tally)
    requires cfg.max >= 1 && last <= now < a + cfg.window && OpenInv(cfg, slot, last, a, t)
    ensures OpenInv(cfg, Step(cfg, slot, Request(now)), now, a, Tallied(cfg, slot, now, a, t))
  {
    StepInv(cfg, slot, Request(now));
    OpenedFacts(cfg, slot, now);
    var e := Opened(cfg, slot, now);
    if slot.None? {
      MulMono(1, cfg.max, cfg.window);
    } else if now - slot.value.currStart >= cfg.window && Aligned(cfg, slot.value.currStart) {
      MultiplesApart(slot.value.currStart, e.currStart, cfg.window);
    }
  }

  lemma LateRequest(cfg: Config, slot: Option<EntryState>, now: int, a: int, t: Tally)
    requires now >= a + cfg.window && FinalBound(cfg, t)
    ensures FinalBound(cfg, Tallied(cfg, slot, now, a, t))
  {
  }

  /** One event keeps the tally invariant. */
  lemma StepKeepsTally(cfg: Config, slot: Option<EntryState>, last: int, ev: Event, a: int, t: Tally)
    requires cfg.max >= 1 && last <= ev.now && TallyInv(cfg, slot, last, a, t)
    ensures TallyInv(cfg, Step(cfg, slot, ev), ev.now, a,
                     if ev.Request? then Tallied(cfg, slot, ev.now, a, t) else t)
  {
    if last < a + cfg.window {
      OpenEnough(cfg, slot, last, a, t);
    }
    if ev.now >= a + cfg.window {
      LateRequest(cfg, slot, ev.now, a, t);
    } else if ev.Request? {
      RequestKeepsTally(cfg, slot, last, ev.now, a, t);
    }
  }

  /** The tally takes over from the counts what the first event contributes to them. */
  lemma {:induction false} TallyAdds(cfg: Config, slot: Option<EntryState>, evs: seq<Event>, a: int, t: Tally)
    requires evs != []
    ensures var t' := if evs[0].Request? then Tallied(cfg, slot, evs[0].now, a, t) else t;
            var slot' := Step(cfg, slot, evs[0]);
            && t'.unaligned + CountUnaligned(cfg, slot', evs[1..], a) == t.unaligned + CountUnaligned(cfg, slot, evs, a)
            && t'.earlier + t'.current + CountAligned(cfg, slot', evs[1..], a)
               == t.earlier + t.current + CountAligned(cfg, slot, evs, a)
  {
    AnswersUnfold(cfg, slot, evs);
  }

  lemma {:induction false} TallyRun(cfg: Config, slot: Option<EntryState>, last: int, evs: seq<Event>,
                                    a: int, t: Tally) returns (final: Tally)
    requires cfg.max >= 1 && Ordered(evs, last) && TallyInv(cfg, slot, last, a, t)
    ensures FinalBound(cfg, final)
    ensures final.unaligned == t.unaligned + CountUnaligned(cfg, slot, evs, a)
    ensures final.earlier + final.current == t.earlier + t.current + CountAligned(cfg, slot, evs, a)
    decreases |evs|
  {
    if evs == [] {
      final := t;
      if last < a + cfg.window { OpenEnough(cfg, slot, last, a, t); }
    } else {
      StepKeepsTally(cfg, slot, last, evs[0], a, t);
      var t' := if evs[0].Request? then Tallied(cfg, slot, evs[0].now, a, t) else t;
      var slot' := Step(cfg, slot, evs[0]);
      final := TallyRun(cfg, slot', evs[0].now, evs[1..], a, t');
      TallyAdds(cfg, slot, evs, a, t);
    }
  }

  /** n, and one more if the event is an admission in the interval. */
  function Counted(cfg: Config, slot: Option<EntryState>, ev: Event, a: int, n: nat): nat {
    if ev.Request? && Counts(cfg, Any, Reply(cfg, slot, ev.now), a, a + cfg.window) then n + 1 else n
  }

  function CountAligned(cfg: Config, slot: Option<EntryState>, evs: seq<Event>, a: int): nat {
    Count(cfg, InAligned, Answers(cfg, slot, evs), a, a + cfg.window)
  }

  function CountUnaligned(cfg: Config, slot: Option<EntryState>, evs: seq<Event>, a: int): nat {
    Count(cfg, InUnaligned, Answers(cfg, slot, evs), a, a + cfg.window)
  }

  lemma AnswersUnfold(cfg: Config, slot: Option<EntryState>, evs: seq<Event>)
    requires evs != []
    ensures var rest := Answers(cfg, Step(cfg, slot, evs[0]), evs[1..]);
            var all := Answers(cfg, slot, evs);
            if evs[0].Request? then all != [] && all[0] == Reply(cfg, slot, evs[0].now) && all[1..] == rest
            else all == rest
  {
  }

  lemma {:induction false} CountSplits(cfg: Config, ans: seq<Answer>, a: int, b: int)
    ensures Count(cfg, Any, ans, a, b) == Count(cfg, InAligned, ans, a, b) + Count(cfg, InUnaligned, ans, a, b)
  {
    if ans != [] { CountSplits(cfg, ans[1..], a, b); }
  }

  lemma {:induction false} NothingBelowOne(cfg: Config, slot: Option<EntryState>, evs: seq<Event>, a: int, b: int)
    requires cfg.max <= 0 && SlotInv(cfg, slot)
    ensures Count(cfg, Any, Answers(cfg, slot, evs), a, b) == 0
    decreases |evs|
  {
    if evs != [] {
      StepInv(cfg, slot, evs[0]);
      NothingBelowOne(cfg, Step(cfg, slot, evs[0]), evs[1..], a, b);
      AnswersUnfold(cfg, slot, evs);
      if evs[0].Request? { ReplyOk(cfg, slot, evs[0].now); }
    }
  }

  /** The most admissions an interval of one window's length can hold. */
  function Peak(cfg: Config): int {
    if cfg.max >= 1 then 3 * cfg.max - 1 else 0
  }

  /**
   With a clock that never goes back, any interval of one window's length holds at most
   3 * max - 1 admissions of a key, at most 2 * max of them in aligned windows.
   */
  lemma IntervalBound(cfg: Config, evs: seq<Event>, from: int, a: int)
    requires Ordered(evs, from)
    ensures Count(cfg, Any, Answers(cfg, None, evs), a, a + cfg.window) <= Peak(cfg)
    ensures CountAligned(cfg, None, evs, a) <= 2 * Limit(cfg)
    ensures CountUnaligned(cfg, None, evs, a) <= Limit(cfg)
  {
    CountSplits(cfg, Answers(cfg, None, evs), a, a + cfg.window);
    if cfg.max >= 1 {
      var t := TallyRun(cfg, None, from, evs, a, Tally(0, 0, 0));
    } else {
      NothingBelowOne(cfg, None, evs, a, a + cfg.window);
    }
  }
}

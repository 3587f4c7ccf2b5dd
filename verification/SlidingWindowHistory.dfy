/**
 The limiter described by its own past answers: with a clock that never goes back, each answer of
 a key follows from the times and windows of the answers before it.
 */
module SlidingWindowHistory {
  import opened Common
  import opened SlidingWindow
  import opened SlidingWindowInvariant
  import opened SlidingWindowBound
  import opened SlidingWindowPromise
  import opened SlidingWindowWitness

  /** The admissions counted in the window that starts at s. */
  function AdmittedIn(ans: seq<Answer>, s: int): nat {
    if ans == [] then 0
    else
      var last := ans[|ans| - 1];
      AdmittedIn(ans[..|ans| - 1], s) + if last.verdict.allowed && last.start == s then 1 else 0
  }

  /**
   The admissions of the window before the one of answer n, unless its own window was opened two
   lengths or more after that one started, or there was none.
   */
  function Before(cfg: Config, ans: seq<Answer>, n: nat): nat
    requires n < |ans|
  {
    if n == 0 then 0
    else if ans[n].start == ans[n - 1].start then Before(cfg, ans, n - 1)
    else if ans[n].at >= ans[n - 1].start + 2 * cfg.window then 0
    else AdmittedIn(ans[..n], ans[n - 1].start)
  }

  lemma {:induction false} BeforePrefix(cfg: Config, ans: seq<Answer>, x: Answer, n: nat)
    requires n < |ans|
    ensures Before(cfg, ans + [x], n) == Before(cfg, ans, n)
  {
    assert (ans + [x])[..n] == ans[..n];
    if n > 0 { BeforePrefix(cfg, ans, x, n - 1); }
  }

  lemma AdmittedNext(ans: seq<Answer>, x: Answer, s: int)
    ensures AdmittedIn(ans + [x], s) == AdmittedIn(ans, s) + if x.verdict.allowed && x.start == s then 1 else 0
  {
    assert (ans + [x])[..|ans|] == ans;
  }

  lemma {:induction false} NoneLater(ans: seq<Answer>, s: int)
    requires forall x | x in ans :: x.start < s
    ensures AdmittedIn(ans, s) == 0
  {
    if ans != [] {
      var front, last := ans[..|ans| - 1], ans[|ans| - 1];
      assert ans == front + [last];
      NoneLater(front, s);
    }
  }

  // ---------------------------------------------------------------- the entry is its history

  predicate Ledger(cfg: Config, slot: Option<EntryState>, ans: seq<Answer>, last: int) {
    match slot
    case None => forall x | x in ans :: x.start + 2 * cfg.window <= last
    case Some(e) =>
      && EntryInv(cfg, e) && e.currStart <= last
      && (forall x | x in ans :: x.start <= e.currStart)
      && ans != [] && ans[|ans| - 1].start == e.currStart
      && e.currCount == AdmittedIn(ans, e.currStart)
      && e.prevCount == Before(cfg, ans, |ans| - 1)
  }

  /** The counts a call finds when it has opened its entry are those of the answers before it. */
  lemma OpenedLedger(cfg: Config, slot: Option<EntryState>, ans: seq<Answer>, last: int, now: int)
    requires Ledger(cfg, slot, ans, last) && last <= now
    ensures var e, x := Opened(cfg, slot, now), Reply(cfg, slot, now);
            && e.currStart == x.start
            && e.currCount == AdmittedIn(ans, x.start)
            && e.prevCount == Before(cfg, ans + [x], |ans|)
            && forall y | y in ans :: y.start <= x.start
  {
    OpenedFacts(cfg, slot, now);
    var e, x := Opened(cfg, slot, now), Reply(cfg, slot, now);
    var all, n := ans + [x], |ans|;
    if n > 0 { assert all[n - 1] == ans[n - 1] && all[n - 1] in ans; }
    if slot.Some? && e == slot.value {
      BeforePrefix(cfg, ans, x, n - 1);
    } else {
      NoneLater(ans, x.start);
      assert all[..n] == ans;
    }
  }

  lemma RequestKeepsLedger(cfg: Config, slot: Option<EntryState>, ans: seq<Answer>, last: int, now: int)
    requires Ledger(cfg, slot, ans, last) && last <= now
    ensures Ledger(cfg, Step(cfg, slot, Request(now)), ans + [Reply(cfg, slot, now)], now)
  {
    var x := Reply(cfg, slot, now);
    OpenedLedger(cfg, slot, ans, last, now);
    OpenedFacts(cfg, slot, now);
    TruncateSpec(now, cfg.window);
    StepInv(cfg, slot, Request(now));
    AdmittedNext(ans, x, x.start);
  }

  lemma {:induction false} LedgerRun(cfg: Config, evs: seq<Event>, from: int, next: Event)
    requires Ordered(evs + [next], from)
    ensures Ledger(cfg, Run(cfg, None, evs), Answers(cfg, None, evs), next.now)
    decreases |evs|
  {
    if evs != [] {
      var front, ev := evs[..|evs| - 1], evs[|evs| - 1];
      assert evs == front + [ev];
      OrderedPrefix(front, ev, next, from);
      LedgerRun(cfg, front, from, ev);
      Concatenation(cfg, None, front, [ev]);
      var slot, ans := Run(cfg, None, front), Answers(cfg, None, front);
      OneEvent(cfg, slot, ev);
      if ev.Request? {
        RequestKeepsLedger(cfg, slot, ans, ev.now, ev.now);
      } else {
        assert ans + [] == ans;
      }
    }
  }

  lemma OneEvent(cfg: Config, slot: Option<EntryState>, ev: Event)
    ensures Run(cfg, slot, [ev]) == Step(cfg, slot, ev)
    ensures Answers(cfg, slot, [ev]) == if ev.Request? then [Reply(cfg, slot, ev.now)] else []
  {
    assert [ev][1..] == [];
    AnswersUnfold(cfg, slot, [ev]);
  }

  lemma {:induction false} OrderedPrefix(front: seq<Event>, ev: Event, next: Event, from: int)
    requires Ordered(front + [ev] + [next], from)
    ensures Ordered(front + [ev], from) && ev.now <= next.now
    decreases |front|
  {
    var all := front + [ev] + [next];
    if front == [] {
      assert all[1..] == [next] && (front + [ev])[1..] == [];
    } else {
      assert all[1..] == front[1..] + [ev] + [next] && (front + [ev])[1..] == front[1..] + [ev];
      OrderedPrefix(front[1..], ev, next, front[0].now);
    }
  }

  // ---------------------------------------------------------------- every answer from the ones before it

  /** Which window a call after `p`'s window is counted in: the same, or the aligned one, or a new entry's own. */
  predicate NextStart(cfg: Config, p: int, at: int, s: int) {
    if at < p + cfg.window then s == p
    else if at < p + 2 * cfg.window then s == Truncate(at, cfg.window)
    else s == Truncate(at, cfg.window) || s == at
  }

  /** How many calls of the limit are left beside a weighted count, the call itself included in neither. */
  predicate Leaves(cfg: Config, weighted: int, left: int) {
    && left >= 0
    && cfg.max * cfg.window < weighted + (left + 2) * cfg.window
    && (left > 0 ==> weighted + (left + 1) * cfg.window <= cfg.max * cfg.window)
  }

  /** The verdict, with the weights written out. */
  predicate Decided(cfg: Config, prev: int, curr: int, x: Answer) {
    var weighted := prev * (x.start + cfg.window - x.at) + curr * cfg.window;
    && x.verdict.resetAt == x.start + cfg.window
    && (x.verdict.allowed <==> weighted < cfg.max * cfg.window)
    && (if x.verdict.allowed then Leaves(cfg, weighted, x.verdict.remaining) else x.verdict.remaining == 0)
  }

  lemma LeavesRemaining(cfg: Config, e: EntryState, now: int)
    requires Load(cfg, e, now) < cfg.max * cfg.window
    ensures Leaves(cfg, Load(cfg, e, now), RawRemaining(cfg, e, now))
  {
    RawRemainingBounds(cfg, e, now);
    var left, w := RawRemaining(cfg, e, now), cfg.window;
    assert (left + 1) * w == left * w + w && (left + 2) * w == (left + 1) * w + w;
  }

  lemma EntryDecides(cfg: Config, slot: Option<EntryState>, now: int)
    requires SlotInv(cfg, slot)
    ensures var e := Opened(cfg, slot, now);
            Reply(cfg, slot, now).at == now && Decided(cfg, e.prevCount, e.currCount, Reply(cfg, slot, now))
  {
    OpenedFacts(cfg, slot, now);
    var e := Opened(cfg, slot, now);
    assert Overlap(cfg, e, now) == e.currStart + cfg.window - now;
    if Load(cfg, e, now) < cfg.max * cfg.window { LeavesRemaining(cfg, e, now); }
  }

  /**
   The answer to a call, from the answers before it: the window it is counted in; admitted exactly
   if the previous window's admissions, weighted by the part of it that still overlaps, and the
   current window's are below the limit; and how much of the limit is left then.
   */
  lemma HistoryDecides(cfg: Config, evs: seq<Event>, from: int, now: int)
    requires Ordered(evs + [Request(now)], from)
    ensures var ans := Answers(cfg, None, evs);
            var x := Reply(cfg, Run(cfg, None, evs), now);
            && x.at == now
            && (if ans == [] then x.start == now else NextStart(cfg, ans[|ans| - 1].start, now, x.start))
            && Decided(cfg, Before(cfg, ans + [x], |ans|), AdmittedIn(ans, x.start), x)
  {
    var slot, ans := Run(cfg, None, evs), Answers(cfg, None, evs);
    LedgerRun(cfg, evs, from, Request(now));
    OpenedLedger(cfg, slot, ans, now, now);
    EntryDecides(cfg, slot, now);
    if ans != [] { assert ans[|ans| - 1] in ans; }
  }
}

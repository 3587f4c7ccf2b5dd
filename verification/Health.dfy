/** Health checks with failure and success thresholds (pkg/health/health.go). */
module Health {
  import opened Common

  /** How many consecutive results it takes to change the flag. */
  datatype Thresholds = Thresholds(failure: int, success: int)

  /** A check's counters and flag. */
  datatype CheckState = CheckState(fails: int, oks: int, healthy: bool)

  /** The outcome of one execution: no error, or an error with its message. */
  type Outcome = Option<string>

  const INITIAL := CheckState(0, 0, true)

  function Recorded(th: Thresholds, s: CheckState, failed: bool): CheckState {
    if failed then
      CheckState(s.fails + 1, 0, if s.fails + 1 >= th.failure then false else s.healthy)
    else
      CheckState(0, s.oks + 1, if s.oks + 1 >= th.success then true else s.healthy)
  }

  /** The state after a history of executions, `true` standing for a failure; the latest comes last. */
  function After(th: Thresholds, history: seq<bool>): CheckState {
    if history == [] then INITIAL
    else Recorded(th, After(th, history[..|history| - 1]), history[|history| - 1])
  }

  // ---------------------------------------------------------------- the counters are trailing runs

  /** The last n results are all `b`. */
  predicate EndsWith(history: seq<bool>, n: nat, b: bool) {
    n <= |history| && forall i | |history| - n <= i < |history| :: history[i] == b
  }

  /** n is the length of the longest run of `b` at the end of the history. */
  predicate TrailingRun(history: seq<bool>, n: int, b: bool) {
    n >= 0 && EndsWith(history, n, b) && !EndsWith(history, n + 1, b)
  }

  lemma {:induction false} CountersAreTrailingRuns(th: Thresholds, history: seq<bool>)
    ensures var s := After(th, history);
            TrailingRun(history, s.fails, true) && TrailingRun(history, s.oks, false)
    decreases |history|
  {
    if history != [] {
      var n := |history| - 1;
      var front, last := history[..n], history[n];
      CountersAreTrailingRuns(th, front);
      var s := After(th, front);
      ExtendRun(front, s.fails, true, last);
      ExtendRun(front, s.oks, false, last);
      assert history == front + [last];
    }
  }

  lemma EndsWithNext(front: seq<bool>, m: nat, b: bool, last: bool)
    ensures EndsWith(front + [last], m + 1, b) <==> last == b && EndsWith(front, m, b)
  {
    var h := front + [last];
    assert forall i | 0 <= i < |front| :: front[i] == h[i];
    assert h[|front|] == last;
  }

  lemma ExtendRun(front: seq<bool>, n: int, b: bool, last: bool)
    requires TrailingRun(front, n, b)
    ensures TrailingRun(front + [last], if last == b then n + 1 else 0, b)
  {
    EndsWithNext(front, 0, b, last);
    EndsWithNext(front, n, b, last);
    EndsWithNext(front, n + 1, b, last);
  }

  lemma AfterNext(th: Thresholds, history: seq<bool>, failed: bool)
    ensures After(th, history + [failed]) == Recorded(th, After(th, history), failed)
  {
    assert (history + [failed])[..|history|] == history;
  }

  // ---------------------------------------------------------------- the flag is decided by the latest completed run

  /** Execution j (counting from 1) completes a run of `threshold` results `b`. */
  predicate Completes(history: seq<bool>, j: nat, threshold: int, b: bool) {
    0 < j <= |history| && threshold >= 1 && EndsWith(history[..j], threshold, b)
  }

  lemma CompletesEarlier(history: seq<bool>, j: nat, threshold: int, b: bool)
    requires history != [] && j < |history|
    ensures Completes(history, j, threshold, b) <==> Completes(history[..|history| - 1], j, threshold, b)
  {
    assert history[..|history| - 1][..j] == history[..j];
  }

  lemma CompletesNow(th: Thresholds, history: seq<bool>, b: bool)
    requires history != [] && th.failure >= 1 && th.success >= 1
    ensures var s := After(th, history);
            && (Completes(history, |history|, th.failure, true) <==> s.fails >= th.failure)
            && (Completes(history, |history|, th.success, false) <==> s.oks >= th.success)
  {
    CountersAreTrailingRuns(th, history);
    assert history[..|history|] == history;
    var s := After(th, history);
    LongerRun(history, s.fails, th.failure, true);
    LongerRun(history, s.oks, th.success, false);
  }

  lemma EndsWithFewer(history: seq<bool>, m: nat, n: nat, b: bool)
    requires n <= m
    ensures EndsWith(history, m, b) ==> EndsWith(history, n, b)
  {
  }

  lemma LongerRun(history: seq<bool>, n: int, m: int, b: bool)
    requires TrailingRun(history, n, b) && m >= 0
    ensures EndsWith(history, m, b) <==> m <= n
  {
    if m > n { EndsWithFewer(history, m, n + 1, b); }
  }

  /** Every completed run of failures has a completed run of successes after it. */
  ghost predicate Recovered(th: Thresholds, history: seq<bool>) {
    forall j | Completes(history, j, th.failure, true) ::
      exists i | i > j :: Completes(history, i, th.success, false)
  }

  /** An execution that completes no run leaves the question of recovery as it was. */
  lemma RunsUnchanged(th: Thresholds, front: seq<bool>, history: seq<bool>)
    requires forall j: nat ::
      && (Completes(history, j, th.failure, true) <==> Completes(front, j, th.failure, true))
      && (Completes(history, j, th.success, false) <==> Completes(front, j, th.success, false))
    ensures Recovered(th, history) <==> Recovered(th, front)
  {
    if Recovered(th, front) {
      forall j: nat | Completes(history, j, th.failure, true)
        ensures exists i | i > j :: Completes(history, i, th.success, false)
      {
        var i :| i > j && Completes(front, i, th.success, false);
        assert Completes(history, i, th.success, false);
      }
    }
    if Recovered(th, history) {
      forall j: nat | Completes(front, j, th.failure, true)
        ensures exists i | i > j :: Completes(front, i, th.success, false)
      {
        assert Completes(history, j, th.failure, true);
        var i :| i > j && Completes(history, i, th.success, false);
        assert Completes(front, i, th.success, false);
      }
    }
  }

  /**
   The flag is unhealthy exactly when some execution completed a run of failures and no later
   one completed a run of successes; with no completed run at all it is healthy.
   */
  lemma {:induction false} LatestRunDecides(th: Thresholds, history: seq<bool>)
    requires th.failure >= 1 && th.success >= 1
    ensures After(th, history).healthy <==> Recovered(th, history)
    decreases |history|
  {
    if history != [] {
      var n := |history|;
      var front, s := history[..n - 1], After(th, history);
      LatestRunDecides(th, front);
      CompletesNow(th, history, true);
      CountersAreTrailingRuns(th, history);
      forall j: nat | j < n ensures
        && (Completes(history, j, th.failure, true) <==> Completes(front, j, th.failure, true))
        && (Completes(history, j, th.success, false) <==> Completes(front, j, th.success, false))
      {
        CompletesEarlier(history, j, th.failure, true);
        CompletesEarlier(history, j, th.success, false);
      }
      if Completes(history, n, th.success, false) {
        assert s.healthy && s.fails == 0;
      } else if Completes(history, n, th.failure, true) {
        assert !s.healthy;
      } else {
        assert s.healthy == After(th, front).healthy;
        RunsUnchanged(th, front, history);
      }
    }
  }

  // ---------------------------------------------------------------- flapping

  /** How often the flag changed in the course of the history. */
  function Flips(th: Thresholds, history: seq<bool>): nat {
    if history == [] then 0
    else
      var front := history[..|history| - 1];
      Flips(th, front) + if After(th, front).healthy != After(th, history).healthy then 1 else 0
  }

  /** The executions k flips cost: runs of failures and of successes in turn. */
  function Cost(th: Thresholds, k: nat): int {
    if k == 0 then 0
    else Cost(th, k - 1) + if k % 2 == 1 then th.failure else th.success
  }

  /** The cost in closed form: half of the flips, rounded up, fail, and the other half succeed. */
  lemma {:induction false} CostClosedForm(th: Thresholds, k: nat)
    ensures Cost(th, k) == ((k + 1) / 2) * th.failure + (k / 2) * th.success
  {
    if k > 0 {
      CostClosedForm(th, k - 1);
      if k % 2 == 1 {
        assert (k + 1) / 2 == k / 2 + 1 && (k - 1) / 2 == k / 2;
        assert (k / 2 + 1) * th.failure == (k / 2) * th.failure + th.failure;
      } else {
        assert (k + 1) / 2 == k / 2 && (k - 1) / 2 == k / 2 - 1;
        assert (k / 2 - 1) * th.success == (k / 2) * th.success - th.success;
      }
    }
  }

  lemma {:induction false} FlipsNeedRuns(th: Thresholds, history: seq<bool>)
    requires th.failure >= 1 && th.success >= 1
    ensures var s, k := After(th, history), Flips(th, history);
            && s.healthy == (k % 2 == 0) && s.fails >= 0 && s.oks >= 0
            && |history| >= Cost(th, k) + (if s.healthy then s.fails else s.oks)
            && (if s.healthy then s.fails < th.failure else s.oks < th.success)
    decreases |history|
  {
    if history != [] {
      FlipsNeedRuns(th, history[..|history| - 1]);
    }
  }

  /** k flips take at least ceil(k/2) * failure + floor(k/2) * success executions. */
  lemma FlappingIsBounded(th: Thresholds, history: seq<bool>)
    requires th.failure >= 1 && th.success >= 1
    ensures var k := Flips(th, history);
            ((k + 1) / 2) * th.failure + (k / 2) * th.success <= |history|
  {
    FlipsNeedRuns(th, history);
    CostClosedForm(th, Flips(th, history));
  }

  function Repeated(b: bool, n: nat): seq<bool> {
    seq(n, i => b)
  }

  /** A run of equal results flips the flag with its last result, if it starts on the other side. */
  lemma {:induction false} RunFlips(th: Thresholds, history: seq<bool>, b: bool, n: nat)
    requires th.failure >= 1 && th.success >= 1
    requires var s := After(th, history); s.healthy == b && (if b then s.fails == 0 else s.oks == 0)
    requires n <= if b then th.failure else th.success
    ensures var s := After(th, history + Repeated(b, n));
            && (n > 0 ==> if b then s.fails == n && s.oks == 0 else s.oks == n && s.fails == 0)
            && s.healthy == (if n == (if b then th.failure else th.success) then !b else b)
    ensures Flips(th, history + Repeated(b, n))
         == Flips(th, history) + if n == (if b then th.failure else th.success) then 1 else 0
    decreases n
  {
    var h := history + Repeated(b, n);
    if n == 0 {
      assert h == history;
    } else {
      assert h[..|h| - 1] == history + Repeated(b, n - 1);
      RunFlips(th, history, b, n - 1);
    }
  }

  lemma OneMoreFlip(th: Thresholds, history: seq<bool>, b: bool)
    requires th.failure >= 1 && th.success >= 1
    requires var s := After(th, history); s.healthy == b && (if b then s.fails == 0 else s.oks == 0)
    ensures var n := if b then th.failure else th.success;
            var longer := history + Repeated(b, n);
            var s := After(th, longer);
            && Flips(th, longer) == Flips(th, history) + 1 && |longer| == |history| + n
            && s.healthy == !b && (if b then s.oks == 0 else s.fails == 0)
  {
    RunFlips(th, history, b, if b then th.failure else th.success);
  }

  /** The bound is attained: for every k some history of exactly that cost has k flips. */
  lemma {:induction false} FlappingAttained(th: Thresholds, k: nat) returns (history: seq<bool>)
    requires th.failure >= 1 && th.success >= 1
    ensures Flips(th, history) == k && |history| == Cost(th, k)
    ensures var s := After(th, history);
            s.healthy == (k % 2 == 0) && (if s.healthy then s.fails == 0 else s.oks == 0)
    decreases k
  {
    if k == 0 {
      history := [];
    } else {
      var shorter := FlappingAttained(th, k - 1);
      OneMoreFlip(th, shorter, k % 2 == 1);
      history := shorter + Repeated(k % 2 == 1, if k % 2 == 1 then th.failure else th.success);
    }
  }
}

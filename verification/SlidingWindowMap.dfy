/**
 The rate limiter as a whole: the shared map behaves as independent limiters, one per key,
 so the single-key results hold in every run of interleaved calls and cleanups.
 */
module SlidingWindowMap {
  import opened Common
  import opened SlidingWindow
  import opened SlidingWindowInvariant
  import opened SlidingWindowBound
  import opened SlidingWindowPromise
  import opened SlidingWindowSkew

  predicate MapInv(cfg: Config, m: map<string, EntryState>) {
    forall k | k in m :: EntryInv(cfg, m[k])
  }

  /** One operation on the map is, for each key, that key's event or nothing. */
  lemma StepRefines(cfg: Config, m: map<string, EntryState>, op: Op, key: string)
    ensures Lookup(StepAll(cfg, m, op), key) ==
            match op
            case Allowing(k, now) => if k == key then Step(cfg, Lookup(m, key), Request(now)) else Lookup(m, key)
            case Cleanup(now) => Step(cfg, Lookup(m, key), Sweep(now))
  {
  }

  /** A key's slot and answers in a run of the map are those of the run restricted to the key. */
  lemma {:induction false} MapRefinesKeys(cfg: Config, m: map<string, EntryState>, ops: seq<Op>, key: string)
    ensures Lookup(RunAll(cfg, m, ops), key) == Run(cfg, Lookup(m, key), Project(ops, key))
    ensures AnswersFor(cfg, m, ops, key) == Answers(cfg, Lookup(m, key), Project(ops, key))
    decreases |ops|
  {
    if ops != [] {
      var op, rest := ops[0], Project(ops[1..], key);
      StepRefines(cfg, m, op, key);
      MapRefinesKeys(cfg, StepAll(cfg, m, op), ops[1..], key);
      if op.Cleanup? || op.key == key {
        assert Project(ops, key)[1..] == rest;
      } else {
        assert Project(ops, key) == rest;
      }
    }
  }

  lemma {:induction false} ProjectOrdered(ops: seq<Op>, key: string, from: int)
    requires OrderedAll(ops, from)
    ensures Ordered(Project(ops, key), from)
    decreases |ops|
  {
    if ops != [] {
      ProjectOrdered(ops[1..], key, ops[0].now);
      if ops[0].Cleanup? || ops[0].key == key {
        assert Project(ops, key)[1..] == Project(ops[1..], key);
      } else {
        OrderedEarlier(Project(ops[1..], key), ops[0].now, from);
        assert Project(ops, key) == Project(ops[1..], key);
      }
    }
  }

  lemma OrderedEarlier(evs: seq<Event>, from: int, earlier: int)
    requires Ordered(evs, from) && earlier <= from
    ensures Ordered(evs, earlier)
  {
  }

  /** Every reachable map satisfies the invariant, for any clock readings. */
  lemma {:induction false} MapRunInv(cfg: Config, m: map<string, EntryState>, ops: seq<Op>, key: string)
    requires MapInv(cfg, m)
    ensures MapInv(cfg, RunAll(cfg, m, ops))
    ensures forall x | x in AnswersFor(cfg, m, ops, key) :: AnswerOk(cfg, x)
    decreases |ops|
  {
    if ops != [] {
      var m' := StepAll(cfg, m, ops[0]);
      if ops[0].Allowing? { StepInv(cfg, Lookup(m, ops[0].key), Request(ops[0].now)); }
      MapRunInv(cfg, m', ops[1..], key);
      if ops[0].Allowing? { ReplyOk(cfg, Lookup(m, ops[0].key), ops[0].now); }
    }
  }

  /** In an ordered run from the empty map, no key gets more than 3 * max - 1 admissions in one interval. */
  lemma MapIntervalBound(cfg: Config, ops: seq<Op>, from: int, key: string, a: int)
    requires OrderedAll(ops, from)
    ensures var ans := AnswersFor(cfg, map[], ops, key);
            && Count(cfg, Any, ans, a, a + cfg.window) <= Peak(cfg)
            && Count(cfg, InAligned, ans, a, a + cfg.window) <= 2 * Limit(cfg)
            && Count(cfg, InUnaligned, ans, a, a + cfg.window) <= Limit(cfg)
  {
    MapRefinesKeys(cfg, map[], ops, key);
    ProjectOrdered(ops, key, from);
    IntervalBound(cfg, Project(ops, key), from, a);
  }

  /** No reading of any key lies more than d behind the largest so far. */
  predicate SkewedAll(ops: seq<Op>, high: int, d: int)
    decreases |ops|
  {
    ops == [] || (ops[0].now >= high - d && SkewedAll(ops[1..], Max(high, ops[0].now), d))
  }

  lemma {:induction false} ProjectSkewed(ops: seq<Op>, key: string, high: int, d: int)
    requires SkewedAll(ops, high, d)
    ensures Skewed(Project(ops, key), high, d)
    decreases |ops|
  {
    if ops != [] {
      var rest := Project(ops[1..], key);
      ProjectSkewed(ops[1..], key, Max(high, ops[0].now), d);
      if ops[0].Cleanup? || ops[0].key == key {
        assert Project(ops, key)[1..] == rest;
      } else {
        assert Project(ops, key) == rest;
        SkewedLower(rest, Max(high, ops[0].now), high, d);
      }
    }
  }

  /** Readings taken before the lock, at most one window late: no key gets more than 3 * max - 1 admissions. */
  lemma MapSkewedBound(cfg: Config, ops: seq<Op>, high: int, d: int, key: string, a: int)
    requires d <= cfg.window && SkewedAll(ops, high, d)
    ensures Count(cfg, Any, AnswersFor(cfg, map[], ops, key), a, a + cfg.window) <= Peak(cfg)
  {
    MapRefinesKeys(cfg, map[], ops, key);
    ProjectSkewed(ops, key, high, d);
    SkewedIntervalBound(cfg, Project(ops, key), high, d, a);
  }

  predicate StartedBy(m: map<string, EntryState>, last: int) {
    forall k | k in m :: m[k].currStart <= last
  }

  /** With an ordered clock every window starts in the past. */
  lemma {:induction false} StartsInPast(cfg: Config, m: map<string, EntryState>, pre: seq<Op>, from: int, next: Op)
    requires OrderedAll(pre + [next], from) && StartedBy(m, from) && MapInv(cfg, m)
    ensures MapInv(cfg, RunAll(cfg, m, pre)) && StartedBy(RunAll(cfg, m, pre), next.now)
    decreases |pre|
  {
    if pre != [] {
      assert (pre + [next])[1..] == pre[1..] + [next];
      var op := pre[0];
      if op.Allowing? {
        StepInv(cfg, Lookup(m, op.key), Request(op.now));
        OpenedFacts(cfg, Lookup(m, op.key), op.now);
      }
      StartsInPast(cfg, StepAll(cfg, m, op), pre[1..], op.now, next);
    }
  }

  /**
   The promise in the shared map: if a call for `key` returns remaining r, then whatever other
   keys do and whenever cleanups run, the next r calls for `key` are admitted.
   */
  lemma MapPromise(cfg: Config, pre: seq<Op>, from: int, key: string, now: int, post: seq<Op>)
    requires OrderedAll(pre + [Allowing(key, now)], from) && OrderedAll(post, now)
    requires Reply(cfg, Lookup(RunAll(cfg, map[], pre), key), now).verdict.allowed
    ensures var m := RunAll(cfg, map[], pre);
            var v := Allow(cfg, Lookup(m, key), now).1;
            var later := AnswersFor(cfg, StepAll(cfg, m, Allowing(key, now)), post, key);
            forall i | 0 <= i < v.remaining && i < |later| :: later[i].verdict.allowed
  {
    var m := RunAll(cfg, map[], pre);
    StartsInPast(cfg, map[], pre, from, Allowing(key, now));
    ProjectOrdered(post, key, now);
    RemainingIsAPromise(cfg, Lookup(m, key), now, Project(post, key));
    MapRefinesKeys(cfg, StepAll(cfg, m, Allowing(key, now)), post, key);
  }

  /**
   Deleting an expired entry is invisible to the next call of its key, except that the reset
   time it reports is later by less than one window.
   */
  lemma CleanupTransparent(cfg: Config, e: EntryState, sweep: int, now: int)
    requires EntryInv(cfg, e) && Expired(cfg, e, sweep) && sweep <= now
    ensures Swept(cfg, Some(e), sweep) == None
    ensures var kept, gone := Reply(cfg, Some(e), now).verdict, Reply(cfg, None, now).verdict;
            && kept.allowed == gone.allowed && kept.remaining == gone.remaining
            && kept.resetAt <= gone.resetAt < kept.resetAt + cfg.window
  {
    TruncateSpec(now, cfg.window);
    assert Load(cfg, Rotated(cfg, e, now), now) == 0 == Load(cfg, Fresh(now), now);
  }
}

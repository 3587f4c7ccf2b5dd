/**
 The sliding-window rate limiter of pkg/httpmiddleware/ratelimit.go as functions on values.

 Times are integer nanoseconds since Go's zero time. The weighted request count is kept
 multiplied by the window length, so that the comparison with the limit is exact; module
 RateLimiter shows that the source's fractional computation decides the same way.
 */
module SlidingWindow {
  import opened Common

  datatype RawConfig = RawConfig(max: int, window: int)
  type Config = c: RawConfig | c.window > 0 witness RawConfig(0, 1)

  datatype EntryState = EntryState(prevCount: int, prevStart: int, currCount: int, currStart: int)

  /** What `allow` returns. */
  datatype Verdict = Verdict(remaining: int, resetAt: int, allowed: bool)

  function Truncate(t: int, w: int): int
    requires w > 0
  {
    t - t % w
  }

  /** Go's conversion of a fraction n/d to an int drops the fraction, towards zero. */
  function TruncDiv(n: int, d: int): int
    requires d > 0
  {
    if n >= 0 then n / d else -((-n) / d)
  }

  function Fresh(now: int): EntryState {
    EntryState(0, 0, 0, now)
  }

  /** The entry after the rotation that a call at `now` performs, if any. */
  function Rotated(cfg: Config, e: EntryState, now: int): EntryState {
    if now - e.currStart >= cfg.window then
      EntryState(if now - e.currStart >= 2 * cfg.window then 0 else e.currCount,
                 e.currStart, 0, Truncate(now, cfg.window))
    else e
  }

  function Overlap(cfg: Config, e: EntryState, now: int): int {
    var left := cfg.window - (now - e.currStart);
    if left < 0 then 0 else left
  }

  /** The weighted count, times the window length. */
  function Load(cfg: Config, e: EntryState, now: int): int {
    e.prevCount * Overlap(cfg, e, now) + e.currCount * cfg.window
  }

  function RawRemaining(cfg: Config, e: EntryState, now: int): int {
    TruncDiv(cfg.max * cfg.window - (Load(cfg, e, now) + cfg.window), cfg.window)
  }

  function Opened(cfg: Config, slot: Option<EntryState>, now: int): EntryState {
    Rotated(cfg, if slot.Some? then slot.value else Fresh(now), now)
  }

  /** One call of `allow` on the slot of its key. */
  function Allow(cfg: Config, slot: Option<EntryState>, now: int): (EntryState, Verdict) {
    var e := Opened(cfg, slot, now);
    var resetAt := e.currStart + cfg.window;
    if Load(cfg, e, now) >= cfg.max * cfg.window then
      (e, Verdict(0, resetAt, false))
    else
      var left := RawRemaining(cfg, e, now);
      (e.(currCount := e.currCount + 1), Verdict(if left < 0 then 0 else left, resetAt, true))
  }

  predicate Expired(cfg: Config, e: EntryState, now: int) {
    now - e.currStart >= 2 * cfg.window
  }

  /** The effect of `cleanup` on one slot. */
  function Swept(cfg: Config, slot: Option<EntryState>, now: int): Option<EntryState> {
    if slot.Some? && Expired(cfg, slot.value, now) then None else slot
  }

  // ---------------------------------------------------------------- runs of one key

  datatype Event = Request(now: int) | Sweep(now: int)

  /** A request's time, the start of the window it was counted in, and the verdict. */
  datatype Answer = Answer(at: int, start: int, verdict: Verdict)

  function Step(cfg: Config, slot: Option<EntryState>, ev: Event): Option<EntryState> {
    match ev
    case Request(now) => Some(Allow(cfg, slot, now).0)
    case Sweep(now) => Swept(cfg, slot, now)
  }

  function Reply(cfg: Config, slot: Option<EntryState>, now: int): Answer {
    var (e, v) := Allow(cfg, slot, now);
    Answer(now, e.currStart, v)
  }

  function Run(cfg: Config, slot: Option<EntryState>, evs: seq<Event>): Option<EntryState>
    decreases |evs|
  {
    if evs == [] then slot else Run(cfg, Step(cfg, slot, evs[0]), evs[1..])
  }

  function Answers(cfg: Config, slot: Option<EntryState>, evs: seq<Event>): seq<Answer>
    decreases |evs|
  {
    if evs == [] then []
    else
      (if evs[0].Request? then [Reply(cfg, slot, evs[0].now)] else [])
      + Answers(cfg, Step(cfg, slot, evs[0]), evs[1..])
  }

  /** The clock readings never go back, starting from `from`. */
  predicate Ordered(evs: seq<Event>, from: int) {
    evs == [] || (evs[0].now >= from && Ordered(evs[1..], evs[0].now))
  }

  // ---------------------------------------------------------------- counting admissions

  predicate Aligned(cfg: Config, t: int) {
    t % cfg.window == 0
  }

  /** Which admissions to count: all, or by how the window they were counted in starts. */
  datatype Kind = Any | InAligned | InUnaligned

  predicate Counts(cfg: Config, kind: Kind, x: Answer, a: int, b: int) {
    && x.verdict.allowed
    && a <= x.at < b
    && (kind.InAligned? ==> Aligned(cfg, x.start))
    && (kind.InUnaligned? ==> !Aligned(cfg, x.start))
  }

  /** Admissions of the given kind at times in [a, b). */
  function Count(cfg: Config, kind: Kind, ans: seq<Answer>, a: int, b: int): nat {
    if ans == [] then 0
    else (if Counts(cfg, kind, ans[0], a, b) then 1 else 0) + Count(cfg, kind, ans[1..], a, b)
  }

  // ---------------------------------------------------------------- the map of all keys

  datatype Op = Allowing(key: string, now: int) | Cleanup(now: int)

  function Lookup(m: map<string, EntryState>, key: string): Option<EntryState> {
    if key in m then Some(m[key]) else None
  }

  function CleanedUp(cfg: Config, m: map<string, EntryState>, now: int): map<string, EntryState> {
    map k | k in m && !Expired(cfg, m[k], now) :: m[k]
  }

  function StepAll(cfg: Config, m: map<string, EntryState>, op: Op): map<string, EntryState> {
    match op
    case Allowing(key, now) => m[key := Allow(cfg, Lookup(m, key), now).0]
    case Cleanup(now) => CleanedUp(cfg, m, now)
  }

  function RunAll(cfg: Config, m: map<string, EntryState>, ops: seq<Op>): map<string, EntryState>
    decreases |ops|
  {
    if ops == [] then m else RunAll(cfg, StepAll(cfg, m, ops[0]), ops[1..])
  }

  /** The answers given to one key in a run of the shared map. */
  function AnswersFor(cfg: Config, m: map<string, EntryState>, ops: seq<Op>, key: string): seq<Answer>
    decreases |ops|
  {
    if ops == [] then []
    else
      (if ops[0].Allowing? && ops[0].key == key then [Reply(cfg, Lookup(m, key), ops[0].now)] else [])
      + AnswersFor(cfg, StepAll(cfg, m, ops[0]), ops[1..], key)
  }

  /** The run as one key sees it: its own calls and every cleanup. */
  function Project(ops: seq<Op>, key: string): seq<Event> {
    if ops == [] then []
    else
      (match ops[0]
       case Allowing(k, now) => if k == key then [Request(now)] else []
       case Cleanup(now) => [Sweep(now)])
      + Project(ops[1..], key)
  }

  predicate OrderedAll(ops: seq<Op>, from: int) {
    ops == [] || (ops[0].now >= from && OrderedAll(ops[1..], ops[0].now))
  }
}

/** The mutable checks and the endpoints that aggregate them (pkg/health/health.go). */
module HealthService {
  import opened Common
  import opened Health

  /** Which executions failed. */
  function Fails(history: seq<Outcome>): seq<bool> {
    seq(|history|, i requires 0 <= i < |history| => history[i].Some?)
  }

  class CheckConfig {
    const name: string
    const thresholds: Thresholds
    var healthy: bool
    var lastErr: Option<Outcome>
    var consecutiveFails: int
    var consecutiveOK: int
    ghost var history: seq<Outcome>

    /** A check starts healthy, with thresholds of three failures and one success. */
    constructor (name: string)
      ensures Valid() && history == [] && this.name == name && fresh(this)
      ensures thresholds == Thresholds(3, 1)
    {
      this.name := name;
      thresholds := Thresholds(3, 1);
      healthy, lastErr, consecutiveFails, consecutiveOK := true, None, 0, 0;
      history := [];
    }

    /** The fields are what the history of executions makes them. */
    ghost predicate Valid()
      reads this
    {
      && After(thresholds, Fails(history)) == CheckState(consecutiveFails, consecutiveOK, healthy)
      && lastErr == if history == [] then None else Some(history[|history| - 1])
    }

    /** The message the endpoints show for an unhealthy check. */
    function Message(): string
      reads this
    {
      if lastErr.Some? && lastErr.value.Some? then lastErr.value.value else "check is unhealthy"
    }

    /** One execution of the check with the given outcome. */
    method Run(err: Outcome)
      requires Valid()
      modifies this
      ensures Valid() && history == old(history) + [err]
      ensures Message() == if err.Some? then err.value else "check is unhealthy"
    {
      AfterNext(thresholds, Fails(history), err.Some?);
      assert Fails(history + [err]) == Fails(history) + [err.Some?];
      lastErr := Some(err);
      if err.Some? {
        consecutiveOK := 0;
        consecutiveFails := consecutiveFails + 1;
        if consecutiveFails >= thresholds.failure {
          healthy := false;
        }
      } else {
        consecutiveFails := 0;
        consecutiveOK := consecutiveOK + 1;
        if consecutiveOK >= thresholds.success {
          healthy := true;
        }
      }
      history := history + [err];
    }
  }

  const NOT_READY_KEY := "_readiness"
  const NOT_READY_MESSAGE := "service is not ready"

  /** What an endpoint reads of a check. */
  datatype Status = Status(name: string, healthy: bool, message: string)

  function Statuses(checks: seq<CheckConfig>): seq<Status>
    reads set i | 0 <= i < |checks| :: checks[i]
  {
    seq(|checks|, i requires 0 <= i < |checks| reads set j | 0 <= j < |checks| :: checks[j] =>
      Status(checks[i].name, checks[i].healthy, checks[i].Message()))
  }

  predicate AllHealthy(ss: seq<Status>) {
    forall i | 0 <= i < |ss| :: ss[i].healthy
  }

  function Failures(ss: seq<Status>): map<string, string> {
    if ss == [] then map[]
    else
      var front, last := Failures(ss[..|ss| - 1]), ss[|ss| - 1];
      if last.healthy then front else front[last.name := last.message]
  }

  /** `i` is the last unhealthy check of that name. */
  predicate LastFailing(ss: seq<Status>, name: string, i: int) {
    && 0 <= i < |ss| && !ss[i].healthy && ss[i].name == name
    && forall j | i < j < |ss| && ss[j].name == name :: ss[j].healthy
  }

  /** A name is listed exactly when a check of that name is unhealthy, with the message of the last such check. */
  lemma {:induction false} FailuresSpec(ss: seq<Status>, name: string)
    ensures if name in Failures(ss)
            then exists i :: LastFailing(ss, name, i) && Failures(ss)[name] == ss[i].message
            else forall i | 0 <= i < |ss| && ss[i].name == name :: ss[i].healthy
    decreases |ss|
  {
    if ss != [] {
      var n := |ss| - 1;
      var front := ss[..n];
      FailuresSpec(front, name);
      if !ss[n].healthy && name == ss[n].name {
        assert LastFailing(ss, name, n);
      } else if name in Failures(front) {
        var i :| LastFailing(front, name, i) && Failures(front)[name] == front[i].message;
        assert LastFailing(ss, name, i);
      }
    }
  }

  lemma NoFailures(ss: seq<Status>)
    ensures Failures(ss) == map[] <==> AllHealthy(ss)
  {
    forall name ensures name in Failures(ss) <==> exists i | 0 <= i < |ss| :: ss[i].name == name && !ss[i].healthy {
      FailuresSpec(ss, name);
    }
    if i :| 0 <= i < |ss| && !ss[i].healthy { assert ss[i].name in Failures(ss); }
  }

  // ---------------------------------------------------------------- the endpoints

  ghost predicate ChecksHealthy(checks: seq<CheckConfig>)
    reads set i | 0 <= i < |checks| :: checks[i]
  {
    forall i | 0 <= i < |checks| :: checks[i].healthy
  }

  /** Check i is the last unhealthy one of that name. */
  ghost predicate LastUnhealthy(checks: seq<CheckConfig>, name: string, i: int)
    reads set i | 0 <= i < |checks| :: checks[i]
  {
    && 0 <= i < |checks| && !checks[i].healthy && checks[i].name == name
    && forall j | i < j < |checks| && checks[j].name == name :: checks[j].healthy
  }

  /** What is listed under a name: nothing, or the last error of the last unhealthy check of that name. */
  ghost predicate Listed(checks: seq<CheckConfig>, failures: map<string, string>, name: string)
    reads set i | 0 <= i < |checks| :: checks[i]
  {
    && (name in failures <==> exists i :: LastUnhealthy(checks, name, i))
    && forall i | LastUnhealthy(checks, name, i) && name in failures ::
         failures[name] == match checks[i].lastErr
                           case Some(Some(message)) => message
                           case _ => "check is unhealthy"
  }

  lemma StatusesList(checks: seq<CheckConfig>)
    ensures forall name :: Listed(checks, Failures(Statuses(checks)), name)
    ensures AllHealthy(Statuses(checks)) <==> ChecksHealthy(checks)
  {
    var ss := Statuses(checks);
    assert forall i | 0 <= i < |checks| :: ss[i].name == checks[i].name && ss[i].healthy == checks[i].healthy
                                           && ss[i].message == checks[i].Message();
    forall name ensures Listed(checks, Failures(ss), name) {
      FailuresSpec(ss, name);
      assert forall i :: LastFailing(ss, name, i) <==> LastUnhealthy(checks, name, i);
    }
  }

  /** With a success threshold of one, an unhealthy check shows the error of its latest execution. */
  lemma UnhealthyShowsError(c: CheckConfig)
    requires c.Valid() && c.thresholds.success <= 1 && !c.healthy
    ensures c.history != [] && c.history[|c.history| - 1].Some?
    ensures c.Message() == c.history[|c.history| - 1].value
  {
    var n := |c.history|;
    if n > 0 { CountersAreTrailingRuns(c.thresholds, Fails(c.history)[..n - 1]); }
  }

  method CollectFailures(checks: seq<CheckConfig>) returns (failures: map<string, string>)
    ensures forall name :: Listed(checks, failures, name)
    ensures failures == map[] <==> ChecksHealthy(checks)
  {
    failures := map[];
    ghost var ss := Statuses(checks);
    for i := 0 to |checks|
      invariant failures == Failures(ss[..i])
    {
      assert ss[..i + 1][..i] == ss[..i];
      var c := checks[i];
      if !c.healthy {
        failures := failures[c.name := c.Message()];
      }
    }
    assert ss[..|checks|] == ss;
    NoFailures(ss);
    StatusesList(checks);
  }

  class Service {
    var ready: bool
    var readinessChecks: seq<CheckConfig>

    method IsReady() returns (r: bool)
      ensures r <==> ready && forall i | 0 <= i < |readinessChecks| :: readinessChecks[i].healthy
    {
      if !ready {
        return false;
      }
      for i := 0 to |readinessChecks|
        invariant forall j | 0 <= j < i :: readinessChecks[j].healthy
      {
        if !readinessChecks[i].healthy {
          return false;
        }
      }
      r := true;
    }

    /**
     The status code and the failures listed in the body. The endpoint answers 200 exactly when
     `IsReady` holds, and then lists nothing.
     */
    method ReadyEndpoint() returns (status: int, failures: map<string, string>)
      ensures status == if ready && forall i | 0 <= i < |readinessChecks| :: readinessChecks[i].healthy
                        then 200 else 503
      ensures failures == map[] <==> status == 200
      ensures forall name | ready || name != "_readiness" :: Listed(readinessChecks, failures, name)
      ensures !ready ==> "_readiness" in failures && failures["_readiness"] == "service is not ready"
    {
      failures := CollectFailures(readinessChecks);
      ghost var listed := failures;
      if !ready {
        failures := failures[NOT_READY_KEY := NOT_READY_MESSAGE];
      }
      forall name | ready || name != "_readiness" ensures Listed(readinessChecks, failures, name) {
        assert Listed(readinessChecks, listed, name);
        assert name in failures <==> name in listed;
        assert name in failures ==> failures[name] == listed[name];
      }
      status := if |failures| > 0 then 503 else 200;
    }
  }
}

/** Health checks with flapping protection, and the service state they drive. */
module HealthChecker {
  import opened Domain

  type Name = nat

  datatype Severity = Info | Warning | Critical

  datatype Status = Unknown | Healthy | Degraded | Unhealthy

  /** Times are 0 until they are set. */
  datatype CheckStatus = CheckStatus(
    severity: Severity, status: Status, fails: nat, failed: bool, lastCheck: int, lastChange: int)

  datatype ServiceState = Starting | Running | InDegraded | Recovering | ShuttingDown | Offline

  datatype Response = Response(status: Status, state: ServiceState, checks: map<Name, CheckStatus>)

  /** A threshold of 0 means the default. */
  function FailureThreshold(configured: int): (threshold: int)
    ensures threshold == if configured == 0 then 3 else configured
  { if configured == 0 then 3 else configured }

  // ----- one check over its whole history -----

  /** The outcomes of a check since it was last removed, true for success, with their times. The check
      was last registered after the first `since` of them. */
  datatype Log = Log(outcomes: seq<bool>, times: seq<int>, since: nat)

  predicate LogOk(log: Log) { |log.times| == |log.outcomes| && log.since <= |log.outcomes| }

  /** The length of the run of failures that the outcomes end in. */
  function TrailingFailures(o: seq<bool>): (k: nat)
    ensures k <= |o| && (forall i :: |o| - k <= i < |o| ==> !o[i]) && (k < |o| ==> o[|o| - 1 - k])
  {
    if o == [] || o[|o| - 1] then 0 else 1 + TrailingFailures(o[..|o| - 1])
  }

  /** Unhealthy while the trailing failures reach the threshold; otherwise healthy after a success since
      registration, degraded without one. */
  ghost function StatusAfter(log: Log, threshold: int): Status
    requires LogOk(log)
  {
    var o := log.outcomes;
    if log.since == |o| then Unknown
    else if !o[|o| - 1] && TrailingFailures(o) >= threshold then Unhealthy
    else if SucceededSince(o, log.since) then Healthy
    else Degraded
  }

  ghost predicate SucceededSince(o: seq<bool>, since: nat) { exists i :: since <= i < |o| && o[i] }

  function Shorter(log: Log): Log
    requires LogOk(log) && log.since < |log.outcomes|
    ensures LogOk(Shorter(log))
  {
    var n := |log.outcomes| - 1;
    Log(log.outcomes[..n], log.times[..n], log.since)
  }

  function Longer(log: Log, ok: bool, now: int): (longer: Log)
    requires LogOk(log)
    ensures LogOk(longer) && longer.since == log.since && |longer.outcomes| == |log.outcomes| + 1
    ensures Shorter(longer) == log
  {
    Log(log.outcomes + [ok], log.times + [now], log.since)
  }

  /** Each status in terms of the outcomes: unknown before the first one since registration; unhealthy after a last
      failure with the threshold reached; otherwise healthy or degraded by whether any succeeded since. */
  lemma StatusExactly(log: Log, threshold: int)
    requires LogOk(log)
    ensures var o, status := log.outcomes, StatusAfter(log, threshold);
            && (status == Unknown <==> log.since == |o|)
            && (log.since < |o| ==>
                  && (status == Unhealthy <==> !o[|o| - 1] && TrailingFailures(o) >= threshold)
                  && (status == Healthy <==> !(!o[|o| - 1] && TrailingFailures(o) >= threshold)
                                             && exists i :: log.since <= i < |o| && o[i])
                  && (status == Degraded <==> !o[|o| - 1] && TrailingFailures(o) < threshold
                                              && forall i :: log.since <= i < |o| ==> !o[i]))
  {
    var o := log.outcomes;
    if log.since < |o| && o[|o| - 1] {
      assert SucceededSince(o, log.since);
    }
  }

  /** When the status last became healthy or unhealthy. A threshold below 1 counts every success. */
  ghost function LastChange(log: Log, threshold: int): int
    requires LogOk(log)
    decreases |log.outcomes|
  {
    var n := |log.outcomes| - 1;
    if log.since == |log.outcomes| then 0
    else if StatusAfter(log, threshold) != Degraded
            && (StatusAfter(log, threshold) != StatusAfter(Shorter(log), threshold) || (threshold <= 0 && log.outcomes[n]))
    then log.times[n]
    else LastChange(Shorter(log), threshold)
  }

  /** What is reported for a check with this history. */
  ghost function Reported(log: Log, severity: Severity, threshold: int): CheckStatus
    requires LogOk(log)
  {
    var n := |log.outcomes| - 1;
    if log.since == |log.outcomes| then CheckStatus(severity, Unknown, 0, false, 0, 0)
    else CheckStatus(severity, StatusAfter(log, threshold), TrailingFailures(log.outcomes), !log.outcomes[n],
                     log.times[n], LastChange(log, threshold))
  }

  lemma TrailingGrows(o: seq<bool>, ok: bool)
    ensures TrailingFailures(o + [ok]) == if ok then 0 else TrailingFailures(o) + 1
  {
    assert (o + [ok])[..|o|] == o;
  }

  lemma StatusGrows(log: Log, ok: bool, now: int, threshold: int)
    requires LogOk(log)
    ensures StatusAfter(Longer(log, ok, now), threshold) ==
            if ok then Healthy
            else if TrailingFailures(log.outcomes) + 1 >= threshold then Unhealthy
            else if StatusAfter(log, threshold) == Healthy then Healthy
            else Degraded
  {
    TrailingGrows(log.outcomes, ok);
    SuccessGrows(log.outcomes, ok, log.since);
  }

  lemma SuccessGrows(o: seq<bool>, ok: bool, since: nat)
    requires since <= |o|
    ensures SucceededSince(o + [ok], since) <==> SucceededSince(o, since) || ok
  {
    var o' := o + [ok];
    assert ok ==> o'[|o|];
    if SucceededSince(o, since) {
      var i :| since <= i < |o| && o[i];
      assert o'[i];
    }
    if SucceededSince(o', since) && !ok {
      var i :| since <= i < |o'| && o'[i];
      assert o[i];
    }
  }

  lemma LastChangeGrows(log: Log, ok: bool, now: int, threshold: int)
    requires LogOk(log)
    ensures var before, after := StatusAfter(log, threshold), StatusAfter(Longer(log, ok, now), threshold);
            LastChange(Longer(log, ok, now), threshold) ==
            if after != Degraded && (after != before || (threshold <= 0 && ok)) then now else LastChange(log, threshold)
  {
  }

  /** What is reported after one more outcome, from what was reported before. */
  lemma ReportedGrows(log: Log, severity: Severity, threshold: int, ok: bool, now: int)
    requires LogOk(log)
    ensures var before, count := Reported(log, severity, threshold), TrailingFailures(log.outcomes);
            Reported(Longer(log, ok, now), severity, threshold) ==
            if ok then
              CheckStatus(severity, Healthy, 0, false, now,
                          if count >= threshold || before.status != Healthy then now else before.lastChange)
            else if count + 1 >= threshold then
              CheckStatus(severity, Unhealthy, count + 1, true, now,
                          if before.status != Unhealthy then now else before.lastChange)
            else
              CheckStatus(severity, if before.status == Healthy then Healthy else Degraded, count + 1, true, now, before.lastChange)
  {
    StatusGrows(log, ok, now, threshold);
    LastChangeGrows(log, ok, now, threshold);
    TrailingGrows(log.outcomes, ok);
    StatusShape(log, threshold);
    hide StatusAfter, LastChange, TrailingFailures;
  }

  /** One more outcome in the report: what it shows, and that the time of the last change moves exactly with the
      status, except into degraded. */
  lemma ReportMeans(log: Log, severity: Severity, threshold: int, ok: bool, now: int)
    requires LogOk(log)
    ensures var before, after := Reported(log, severity, threshold), Reported(Longer(log, ok, now), severity, threshold);
            && after.severity == severity && after.failed == !ok && after.lastCheck == now
            && after.fails == TrailingFailures(Longer(log, ok, now).outcomes)
            && after.status == StatusAfter(Longer(log, ok, now), threshold)
            && (after.status == before.status && threshold > 0 ==> after.lastChange == before.lastChange)
            && (after.status != before.status && after.status != Degraded ==> after.lastChange == now)
  {
    LastChangeGrows(log, ok, now, threshold);
    StatusShape(log, threshold);
    hide StatusAfter, LastChange, TrailingFailures;
  }

  lemma StatusShape(log: Log, threshold: int)
    requires LogOk(log)
    ensures log.since == |log.outcomes| ==> StatusAfter(log, threshold) == Unknown && LastChange(log, threshold) == 0
    ensures TrailingFailures(log.outcomes) >= threshold >= 1 && log.since < |log.outcomes| ==>
              StatusAfter(log, threshold) == Unhealthy
  {
  }

  /** A check that was healthy turns unhealthy exactly when the failures in a row reach the threshold. */
  lemma UnhealthyExactly(log: Log, threshold: int)
    requires LogOk(log) && threshold >= 1 && log.since < |log.outcomes|
    ensures StatusAfter(log, threshold) == Unhealthy <==> TrailingFailures(log.outcomes) >= threshold
  {
  }

  // ----- the overall status -----

  type Logs = map<Name, Log>

  /** A registered check of the severity is unhealthy. */
  ghost predicate SomeUnhealthy(checks: map<Name, Severity>, logs: Logs, severity: Severity, threshold: int) {
    exists name :: name in checks && checks[name] == severity && IsUnhealthy(logs, name, threshold)
  }

  ghost predicate IsUnhealthy(logs: Logs, name: Name, threshold: int) {
    name in logs && LogOk(logs[name]) && StatusAfter(logs[name], threshold) == Unhealthy
  }

  ghost function Overall(checks: map<Name, Severity>, logs: Logs, threshold: int): Status {
    if SomeUnhealthy(checks, logs, Critical, threshold) then Unhealthy
    else if SomeUnhealthy(checks, logs, Warning, threshold) then Degraded
    else Healthy
  }

  // ----- the service state over the rounds since it was last set -----

  predicate Terminal(s: ServiceState) { s == ShuttingDown || s == Offline }

  /** Degraded after a round that was not healthy, recovering after the first healthy round that
      follows, running otherwise. */
  function StateAfter(base: ServiceState, rounds: seq<Status>): ServiceState {
    var n := |rounds|;
    if Terminal(base) || n == 0 then base
    else if rounds[n - 1] != Healthy then InDegraded
    else if n == 1 then (if base == InDegraded then Recovering else Running)
    else if rounds[n - 2] != Healthy then Recovering
    else Running
  }

  /** The state after each round: degraded after one that was not healthy; after a healthy one recovering if the
      state before was degraded and running otherwise; and for good shutting down or offline. */
  lemma StateExactly(base: ServiceState, before: seq<Status>, health: Status)
    ensures var was, now := StateAfter(base, before), StateAfter(base, before + [health]);
            && (was == ShuttingDown || was == Offline ==> now == was)
            && (was != ShuttingDown && was != Offline && health != Healthy ==> now == InDegraded)
            && (was == InDegraded && health == Healthy ==> now == Recovering)
            && (was == Starting || was == Running || was == Recovering ==> health == Healthy ==> now == Running)
    ensures StateAfter(base, []) == base
  {
    StateFollows(base, before, health);
  }

  /** After a round that was not healthy, the service runs again exactly when the last two rounds
      were healthy. */
  lemma RunsAgainAfterTwo(base: ServiceState, rounds: seq<Status>, k: nat)
    requires !Terminal(base) && k < |rounds| && rounds[k] != Healthy
    ensures StateAfter(base, rounds) == Running <==>
            k + 2 < |rounds| && rounds[|rounds| - 1] == Healthy && rounds[|rounds| - 2] == Healthy
  {
  }

  // ----- flapping over whole histories -----

  /** The overall status of each round, from the logs after it. */
  ghost function Healths(checks: map<Name, Severity>, history: seq<Logs>, threshold: int): seq<Status> {
    seq(|history|, i requires 0 <= i < |history| => Overall(checks, history[i], threshold))
  }

  lemma HealthsGrow(checks: map<Name, Severity>, history: seq<Logs>, logs: Logs, threshold: int)
    ensures Healths(checks, history + [logs], threshold) == Healths(checks, history, threshold) + [Overall(checks, logs, threshold)]
  {
  }

  /** Every registered check had an outcome in every round. */
  ghost predicate Covers(checks: map<Name, Severity>, history: seq<Logs>) {
    forall i, name :: 0 <= i < |history| && name in checks ==> HasOutcome(history[i], name)
  }

  predicate HasOutcome(logs: Logs, name: Name) { name in logs && LogOk(logs[name]) && logs[name].since < |logs[name].outcomes| }

  /** A check that matters has failed at least `threshold` times in a row. */
  ghost predicate BurstIn(checks: map<Name, Severity>, logs: Logs, threshold: int, name: Name) {
    && name in checks && checks[name] != Info && HasOutcome(logs, name)
    && TrailingFailures(logs[name].outcomes) >= threshold
  }

  ghost predicate NoBurst(checks: map<Name, Severity>, history: seq<Logs>, threshold: int) {
    forall i, name :: 0 <= i < |history| ==> !BurstIn(checks, history[i], threshold, name)
  }

  lemma BurstExactly(checks: map<Name, Severity>, logs: Logs, threshold: int)
    requires threshold >= 1 && forall name :: name in checks ==> HasOutcome(logs, name)
    ensures Overall(checks, logs, threshold) == Healthy <==> forall name :: !BurstIn(checks, logs, threshold, name)
  {
    if Overall(checks, logs, threshold) != Healthy {
      var severity := if SomeUnhealthy(checks, logs, Critical, threshold) then Critical else Warning;
      var name :| name in checks && checks[name] == severity && IsUnhealthy(logs, name, threshold);
      assert BurstIn(checks, logs, threshold, name);
    }
    if name :| BurstIn(checks, logs, threshold, name) {
      assert IsUnhealthy(logs, name, threshold);
      assert SomeUnhealthy(checks, logs, checks[name], threshold);
    }
  }

  /** The service is running after each of the later rounds. */
  ghost predicate StaysRunning(base: ServiceState, before: seq<Status>, later: seq<Status>) {
    forall n :: 0 < n <= |later| ==> RunsAfter(base, before, later, n)
  }

  predicate RunsAfter(base: ServiceState, before: seq<Status>, later: seq<Status>, n: nat)
    requires n <= |later|
  {
    StateAfter(base, before + later[..n]) == Running
  }

  /** The states from which one healthy round leads to running. */
  predicate CanRun(s: ServiceState) { s == Starting || s == Running || s == Recovering }

  lemma RunsNext(base: ServiceState, before: seq<Status>, later: seq<Status>, n: nat)
    requires n < |later|
    ensures RunsAfter(base, before, later, n + 1) <==> CanRun(StateAfter(base, before + later[..n])) && later[n] == Healthy
  {
    assert before + later[..n + 1] == (before + later[..n]) + [later[n]];
    StateFollows(base, before + later[..n], later[n]);
  }

  lemma {:induction false} HealthyRun(base: ServiceState, before: seq<Status>, later: seq<Status>, n: nat)
    requires n <= |later| && CanRun(StateAfter(base, before)) && forall i :: 0 <= i < n ==> later[i] == Healthy
    ensures CanRun(StateAfter(base, before + later[..n])) && (n > 0 ==> RunsAfter(base, before, later, n))
  {
    if n == 0 {
      assert before + later[..0] == before;
    } else {
      HealthyRun(base, before, later, n - 1);
      RunsNext(base, before, later, n - 1);
    }
  }

  lemma StaysRunningExactly(base: ServiceState, before: seq<Status>, later: seq<Status>)
    ensures StaysRunning(base, before, later) <==>
            later == [] || (CanRun(StateAfter(base, before)) && forall i :: 0 <= i < |later| ==> later[i] == Healthy)
  {
    hide StateAfter, RunsAfter;
    if StaysRunning(base, before, later) && later != [] {
      forall i | 0 <= i < |later| ensures later[i] == Healthy && (i == 0 ==> CanRun(StateAfter(base, before))) {
        assert RunsAfter(base, before, later, i + 1);
        RunsNext(base, before, later, i);
        assert before + later[..0] == before;
      }
      assert later[0] == Healthy;
    }
    if CanRun(StateAfter(base, before)) && forall i :: 0 <= i < |later| ==> later[i] == Healthy {
      forall n | 0 < n <= |later| ensures RunsAfter(base, before, later, n) {
        HealthyRun(base, before, later, n);
      }
    }
  }

  /** From any state on, the service is running after every later round exactly when it was starting, running
      or recovering and no run of failures of a critical or warning check ever reaches the threshold. */
  lemma RunningExactlyWithoutBursts(checks: map<Name, Severity>, history: seq<Logs>, threshold: int,
                                    base: ServiceState, before: seq<Status>)
    requires threshold >= 1 && Covers(checks, history)
    ensures StaysRunning(base, before, Healths(checks, history, threshold)) <==>
            history == [] || (CanRun(StateAfter(base, before)) && NoBurst(checks, history, threshold))
  {
    hide StaysRunning, StateAfter;
    var later := Healths(checks, history, threshold);
    StaysRunningExactly(base, before, later);
    forall i | 0 <= i < |history|
      ensures later[i] == Healthy <==> forall name :: !BurstIn(checks, history[i], threshold, name)
    {
      assert forall name :: name in checks ==> HasOutcome(history[i], name);
      BurstExactly(checks, history[i], threshold);
    }
    hide Overall, BurstIn;
  }

  // ----- the checker's own state against the history -----

  function Count(counts: map<Name, nat>, name: Name): nat { if name in counts then counts[name] else 0 }

  ghost predicate OneAgrees(log: Log, count: nat, status: CheckStatus, severity: Severity, threshold: int) {
    LogOk(log) && count == TrailingFailures(log.outcomes) && status == Reported(log, severity, threshold)
  }

  ghost predicate AgreesAt(checks: map<Name, Severity>, counts: map<Name, nat>, statuses: map<Name, CheckStatus>, logs: Logs,
                           threshold: int, name: Name)
    requires name in checks && name in statuses && name in logs
  {
    OneAgrees(logs[name], Count(counts, name), statuses[name], checks[name], threshold)
  }

  ghost predicate Agrees(checks: map<Name, Severity>, counts: map<Name, nat>, statuses: map<Name, CheckStatus>, logs: Logs,
                         threshold: int) {
    && checks.Keys == statuses.Keys == logs.Keys && counts.Keys <= checks.Keys
    && forall name :: name in checks ==> AgreesAt(checks, counts, statuses, logs, threshold, name)
  }

  function LogOf(logs: Logs, name: Name): Log { if name in logs then logs[name] else Log([], [], 0) }

  function Registered(logs: Logs, name: Name): Logs {
    logs[name := LogOf(logs, name).(since := |LogOf(logs, name).outcomes|)]
  }

  lemma AgreesAdd(checks: map<Name, Severity>, counts: map<Name, nat>, statuses: map<Name, CheckStatus>, logs: Logs,
                  threshold: int, name: Name, severity: Severity)
    requires Agrees(checks, counts, statuses, logs, threshold)
    ensures Agrees(checks[name := severity], counts, statuses[name := CheckStatus(severity, Unknown, 0, false, 0, 0)],
                   Registered(logs, name), threshold)
  {
    if name in checks {
      AgreesFor(checks, counts, statuses, logs, threshold, name);
    }
    assert Count(counts, name) == TrailingFailures(LogOf(logs, name).outcomes);
    JustRegistered(LogOf(logs, name), severity, threshold);
    hide Agrees, OneAgrees, Count;
    AgreesPut(checks, counts, statuses, logs, threshold, name, severity, counts,
              CheckStatus(severity, Unknown, 0, false, 0, 0), Registered(logs, name)[name]);
  }

  lemma JustRegistered(log: Log, severity: Severity, threshold: int)
    requires LogOk(log)
    ensures OneAgrees(log.(since := |log.outcomes|), TrailingFailures(log.outcomes), CheckStatus(severity, Unknown, 0, false, 0, 0),
                      severity, threshold)
  {
  }

  /** Replacing everything about one check. */
  lemma AgreesPut(checks: map<Name, Severity>, counts: map<Name, nat>, statuses: map<Name, CheckStatus>, logs: Logs,
                  threshold: int, name: Name, severity: Severity, counts': map<Name, nat>, status: CheckStatus, log: Log)
    requires Agrees(checks, counts, statuses, logs, threshold)
    requires OneAgrees(log, Count(counts', name), status, severity, threshold)
    requires counts'.Keys <= checks.Keys + {name} && forall x :: x != name ==> Count(counts', x) == Count(counts, x)
    ensures Agrees(checks[name := severity], counts', statuses[name := status], logs[name := log], threshold)
  {
    hide OneAgrees, Count;
    forall x | x in checks && x != name
      ensures OneAgrees(logs[x], Count(counts', x), statuses[x], checks[x], threshold)
    {
      assert AgreesAt(checks, counts, statuses, logs, threshold, x);
    }
  }

  lemma AgreesRemove(checks: map<Name, Severity>, counts: map<Name, nat>, statuses: map<Name, CheckStatus>, logs: Logs,
                     threshold: int, name: Name)
    requires Agrees(checks, counts, statuses, logs, threshold)
    ensures Agrees(checks - {name}, counts - {name}, statuses - {name}, logs - {name}, threshold)
  {
    hide OneAgrees;
    forall x | x in checks && x != name
      ensures OneAgrees(logs[x], Count(counts, x), statuses[x], checks[x], threshold)
    {
      assert AgreesAt(checks, counts, statuses, logs, threshold, x);
    }
  }

  lemma AgreesUpdate(checks: map<Name, Severity>, counts: map<Name, nat>, statuses: map<Name, CheckStatus>, logs: Logs,
                     threshold: int, name: Name, count: nat, status: CheckStatus, log: Log)
    requires Agrees(checks, counts, statuses, logs, threshold) && name in checks
    requires OneAgrees(log, count, status, checks[name], threshold)
    ensures Agrees(checks, counts[name := count], statuses[name := status], logs[name := log], threshold)
  {
    AgreesPut(checks, counts, statuses, logs, threshold, name, checks[name], counts[name := count], status, log);
    assert checks[name := checks[name]] == checks;
  }

  lemma AgreesFor(checks: map<Name, Severity>, counts: map<Name, nat>, statuses: map<Name, CheckStatus>, logs: Logs,
                  threshold: int, name: Name)
    requires Agrees(checks, counts, statuses, logs, threshold) && name in checks
    ensures name in logs && name in statuses && LogOk(logs[name])
    ensures Count(counts, name) == TrailingFailures(logs[name].outcomes)
    ensures statuses[name] == Reported(logs[name], checks[name], threshold)
  {
    assert AgreesAt(checks, counts, statuses, logs, threshold, name);
  }

  ghost predicate SomeReported(checks: map<Name, Severity>, seen: map<Name, CheckStatus>, severity: Severity) {
    exists x :: x in seen && ReportsUnhealthy(checks, seen, severity, x)
  }

  predicate ReportsUnhealthy(checks: map<Name, Severity>, seen: map<Name, CheckStatus>, severity: Severity, x: Name)
    requires x in seen
  {
    x in checks && checks[x] == severity && seen[x].status == Unhealthy
  }

  lemma ReportedMore(checks: map<Name, Severity>, seen: map<Name, CheckStatus>, severity: Severity, name: Name, status: CheckStatus)
    requires name in checks && name !in seen
    ensures SomeReported(checks, seen[name := status], severity) <==>
            SomeReported(checks, seen, severity) || (checks[name] == severity && status.status == Unhealthy)
  {
    var seen' := seen[name := status];
    if SomeReported(checks, seen, severity) {
      var x :| x in seen && ReportsUnhealthy(checks, seen, severity, x);
      assert x in seen' && ReportsUnhealthy(checks, seen', severity, x);
    }
    if checks[name] == severity && status.status == Unhealthy {
      assert name in seen' && ReportsUnhealthy(checks, seen', severity, name);
    }
    if SomeReported(checks, seen', severity) {
      var x :| x in seen' && ReportsUnhealthy(checks, seen', severity, x);
      assert x != name ==> x in seen && ReportsUnhealthy(checks, seen, severity, x);
    }
  }

  /** What the statuses report is what the logs say. */
  lemma ReportedIsUnhealthy(checks: map<Name, Severity>, counts: map<Name, nat>, statuses: map<Name, CheckStatus>, logs: Logs,
                            threshold: int, severity: Severity)
    requires Agrees(checks, counts, statuses, logs, threshold)
    ensures SomeReported(checks, statuses, severity) <==> SomeUnhealthy(checks, logs, severity, threshold)
  {
    if SomeReported(checks, statuses, severity) {
      var x :| x in statuses && ReportsUnhealthy(checks, statuses, severity, x);
      AgreesFor(checks, counts, statuses, logs, threshold, x);
      assert IsUnhealthy(logs, x, threshold);
    }
    if SomeUnhealthy(checks, logs, severity, threshold) {
      var x :| x in checks && checks[x] == severity && IsUnhealthy(logs, x, threshold);
      AgreesFor(checks, counts, statuses, logs, threshold, x);
      assert x in statuses && ReportsUnhealthy(checks, statuses, severity, x);
    }
  }

  /** The overall status in terms of the reported ones: unhealthy if a critical check is, degraded if only a warning
      check is, healthy otherwise. */
  lemma OverallMeans(checks: map<Name, Severity>, counts: map<Name, nat>, statuses: map<Name, CheckStatus>, logs: Logs, threshold: int)
    requires Agrees(checks, counts, statuses, logs, threshold)
    ensures statuses.Keys == checks.Keys
    ensures var overall := Overall(checks, logs, threshold);
            && (overall == Unhealthy <==> exists x :: x in checks && checks[x] == Critical && statuses[x].status == Unhealthy)
            && (overall == Degraded <==>
                  && (forall x :: x in checks && checks[x] == Critical ==> statuses[x].status != Unhealthy)
                  && exists x :: x in checks && checks[x] == Warning && statuses[x].status == Unhealthy)
            && (overall == Healthy || overall == Degraded || overall == Unhealthy)
  {
    ReportedIsUnhealthy(checks, counts, statuses, logs, threshold, Critical);
    ReportedIsUnhealthy(checks, counts, statuses, logs, threshold, Warning);
    assert statuses.Keys == checks.Keys;
    hide Agrees, SomeUnhealthy;
    SomeReportedMeans(checks, statuses, Critical);
    SomeReportedMeans(checks, statuses, Warning);
    hide SomeReported;
  }

  lemma SomeReportedMeans(checks: map<Name, Severity>, statuses: map<Name, CheckStatus>, severity: Severity)
    requires statuses.Keys == checks.Keys
    ensures SomeReported(checks, statuses, severity) <==>
            exists x :: x in checks && checks[x] == severity && statuses[x].status == Unhealthy
  {
    if x :| x in checks && checks[x] == severity && statuses[x].status == Unhealthy {
      assert x in statuses && ReportsUnhealthy(checks, statuses, severity, x);
    }
  }

  lemma StateFollows(base: ServiceState, rounds: seq<Status>, health: Status)
    ensures StateAfter(base, rounds + [health]) ==
            if Terminal(StateAfter(base, rounds)) then StateAfter(base, rounds)
            else if health != Healthy then InDegraded
            else if StateAfter(base, rounds) == InDegraded then Recovering
            else Running
  {
  }

  class HealthChecker {
    const threshold: int
    var checks: map<Name, Severity>
    var failureCounts: map<Name, nat>
    var statuses: map<Name, CheckStatus>
    var state: ServiceState
    var cached: Option<Response>
    ghost var logs: Logs
    ghost var base: ServiceState
    ghost var rounds: seq<Status>

    ghost predicate Valid()
      reads this
    {
      Agrees(checks, failureCounts, statuses, logs, threshold) && state == StateAfter(base, rounds)
    }

    constructor (configured: int)
      ensures Valid() && threshold == FailureThreshold(configured)
      ensures checks == map[] && logs == map[] && state == base == Starting && rounds == [] && cached == None
    {
      threshold := FailureThreshold(configured);
      checks, failureCounts, statuses, logs := map[], map[], map[], map[];
      state, base, rounds, cached := Starting, Starting, [], None;
    }

    /** Registering a check again keeps its failure count. */
    method AddCheckWithSeverity(name: Name, severity: Severity)
      requires Valid()
      modifies this
      ensures Valid() && checks == old(checks)[name := severity] && logs == Registered(old(logs), name)
      ensures base == old(base) && rounds == old(rounds) && cached == old(cached)
    {
      hide Agrees, StateAfter, Registered;
      AgreesAdd(checks, failureCounts, statuses, logs, threshold, name, severity);
      checks := checks[name := severity];
      statuses := statuses[name := CheckStatus(severity, Unknown, 0, false, 0, 0)];
      logs := Registered(logs, name);
    }

    method RemoveCheck(name: Name)
      requires Valid()
      modifies this
      ensures Valid() && checks == old(checks) - {name} && logs == old(logs) - {name}
      ensures base == old(base) && rounds == old(rounds) && cached == old(cached)
    {
      hide Agrees, StateAfter;
      AgreesRemove(checks, failureCounts, statuses, logs, threshold, name);
      checks, statuses, failureCounts := checks - {name}, statuses - {name}, failureCounts - {name};
      logs := logs - {name};
    }

    /** The rounds are counted from here on. */
    method SetState(next: ServiceState)
      requires Valid()
      modifies this
      ensures Valid() && state == next == base && rounds == []
      ensures checks == old(checks) && logs == old(logs) && cached == old(cached)
    {
      hide Agrees;
      state, base, rounds := next, next, [];
    }

    /** Records one outcome of a registered check. */
    method UpdateCheckStatus(name: Name, ok: bool, now: int) returns (status: CheckStatus)
      requires Valid() && name in checks
      modifies this
      ensures Valid() && name in old(logs) && LogOk(old(logs)[name])
      ensures logs == old(logs)[name := Longer(old(logs)[name], ok, now)]
      ensures status == Reported(logs[name], checks[name], threshold) && statuses == old(statuses)[name := status]
      ensures checks == old(checks) && base == old(base) && rounds == old(rounds) && cached == old(cached)
      ensures status.severity == checks[name] && status.failed == !ok && status.lastCheck == now
      ensures status.fails == TrailingFailures(logs[name].outcomes) && status.status == StatusAfter(logs[name], threshold)
      ensures name in old(statuses)
      ensures status.status == old(statuses)[name].status && threshold > 0 ==> status.lastChange == old(statuses)[name].lastChange
      ensures status.status != old(statuses)[name].status && status.status != Degraded ==> status.lastChange == now
    {
      hide Agrees, StateAfter, Reported;
      AgreesFor(checks, failureCounts, statuses, logs, threshold, name);
      ghost var log := logs[name];
      ReportMeans(log, checks[name], threshold, ok, now);
      ReportedGrows(log, checks[name], threshold, ok, now);
      TrailingGrows(log.outcomes, ok);
      var before, count := statuses[name], Count(failureCounts, name);
      status := CheckStatus(checks[name], Unknown, before.fails, !ok, now, before.lastChange);
      if !ok {
        count := count + 1;
        status := status.(fails := count);
        if count >= threshold {
          status := status.(status := Unhealthy);
          if before.status != Unhealthy {
            status := status.(lastChange := now);
          }
        } else if before.status == Healthy {
          status := status.(status := Healthy);
        } else {
          status := status.(status := Degraded);
        }
      } else {
        status := status.(fails := 0, status := Healthy);
        if count >= threshold || before.status != Healthy {
          status := status.(lastChange := now);
        }
        count := 0;
      }
      assert OneAgrees(Longer(log, ok, now), count, status, checks[name], threshold);
      AgreesUpdate(checks, failureCounts, statuses, logs, threshold, name, count, status, Longer(log, ok, now));
      failureCounts, statuses := failureCounts[name := count], statuses[name := status];
      logs := logs[name := Longer(log, ok, now)];
    }

    method UpdateOperationalState(health: Status)
      requires Valid()
      modifies this`state, this`rounds
      ensures Valid() && rounds == old(rounds) + [health]
    {
      StateFollows(base, rounds, health);
      hide Agrees, StateAfter;
      match state {
        case Starting => state := if health == Healthy then Running else InDegraded;
        case Running =>
          if health != Healthy {
            state := InDegraded;
          }
        case InDegraded =>
          if health == Healthy {
            state := Recovering;
          }
        case Recovering => state := if health == Healthy then Running else InDegraded;
        case ShuttingDown =>
        case Offline =>
      }
      rounds := rounds + [health];
    }

    /** One round over all registered checks. */
    method RunChecks(outcomes: map<Name, bool>, now: int)
      requires Valid() && checks.Keys <= outcomes.Keys
      modifies this
      ensures Valid() && checks == old(checks) && base == old(base)
      ensures GrownBy(old(logs), logs, {}, outcomes, now)
      ensures rounds == old(rounds) + [Overall(checks, logs, threshold)]
      ensures cached == Some(Response(Overall(checks, logs, threshold), state, statuses))
      ensures statuses.Keys == checks.Keys
      ensures cached.value.status == Unhealthy <==> exists x :: x in checks && checks[x] == Critical && statuses[x].status == Unhealthy
      ensures cached.value.status == Degraded <==>
                && (forall x :: x in checks && checks[x] == Critical ==> statuses[x].status != Unhealthy)
                && exists x :: x in checks && checks[x] == Warning && statuses[x].status == Unhealthy
      ensures cached.value.status == Healthy || cached.value.status == Degraded || cached.value.status == Unhealthy
    {
      hide Agrees, StateAfter, Reported, SomeReported, SomeUnhealthy, GrownBy, MidRound;
      var todo, seen: map<Name, CheckStatus> := checks.Keys, map[];
      var critical, warning := false, false;
      KeysAgree(checks, failureCounts, statuses, logs, threshold);
      RoundBegins(checks, statuses, logs, outcomes, now);
      while todo != {}
        invariant Valid() && checks == old(checks) && base == old(base) && rounds == old(rounds) && todo <= checks.Keys
        invariant GrownBy(old(logs), logs, todo, outcomes, now)
        invariant MidRound(checks, statuses, todo, seen, critical, warning)
        decreases todo
      {
        var name :| name in todo;
        ghost var before, reported := logs, statuses;
        var status := UpdateCheckStatus(name, outcomes[name], now);
        GrowOne(old(logs), before, logs, todo, outcomes, now, name);
        MidRoundNext(checks, reported, todo, seen, critical, warning, name, status);
        seen, todo := seen[name := status], todo - {name};
        if status.status == Unhealthy {
          match checks[name] {
            case Critical => critical := true;
            case Warning => warning := true;
            case Info =>
          }
        }
      }
      KeysAgree(checks, failureCounts, statuses, logs, threshold);
      RoundEnds(checks, statuses, seen, critical, warning);
      ReportedIsUnhealthy(checks, failureCounts, statuses, logs, threshold, Critical);
      ReportedIsUnhealthy(checks, failureCounts, statuses, logs, threshold, Warning);
      var overall := if critical then Unhealthy else if warning then Degraded else Healthy;
      UpdateOperationalState(overall);
      OverallMeans(checks, failureCounts, statuses, logs, threshold);
      hide Overall;
      cached := Some(Response(overall, state, seen));
    }

    /** The background loop: one round after another. `history` records the logs after each. */
    method CheckLoop(outcomes: seq<map<Name, bool>>, times: seq<int>) returns (ghost history: seq<Logs>)
      requires Valid() && |times| == |outcomes| && forall i :: 0 <= i < |outcomes| ==> checks.Keys <= outcomes[i].Keys
      modifies this
      ensures Valid() && checks == old(checks) && base == old(base) && |history| == |outcomes|
      ensures Grows(old(logs), history, outcomes, times)
      ensures rounds == old(rounds) + Healths(checks, history, threshold)
      ensures threshold >= 1 ==>
                (StaysRunning(base, old(rounds), Healths(checks, history, threshold)) <==>
                 |outcomes| == 0 || (CanRun(old(state)) && NoBurst(checks, history, threshold)))
    {
      hide Agrees, Overall, GrownBy, Grows, StateAfter;
      GrowsNot(logs, outcomes, times);
      KeysAgree(checks, failureCounts, statuses, logs, threshold);
      history := [];
      for i := 0 to |outcomes|
        invariant Valid() && checks == old(checks) && base == old(base) && |history| == i
        invariant logs == if i == 0 then old(logs) else history[i - 1]
        invariant Grows(old(logs), history, outcomes, times)
        invariant rounds == old(rounds) + Healths(checks, history, threshold)
      {
        ghost var before := logs;
        RunChecks(outcomes[i], times[i]);
        GrowsOn(old(logs), history, outcomes, times, before, logs);
        HealthsGrow(checks, history, logs, threshold);
        history := history + [logs];
      }
      EveryRoundCovers(checks, old(logs), history, outcomes, times);
      if threshold >= 1 {
        RunningExactlyWithoutBursts(checks, history, threshold, base, old(rounds));
      }
    }
  }

  lemma KeysAgree(checks: map<Name, Severity>, counts: map<Name, nat>, statuses: map<Name, CheckStatus>, logs: Logs, threshold: int)
    requires Agrees(checks, counts, statuses, logs, threshold)
    ensures checks.Keys == statuses.Keys == logs.Keys && forall name :: name in logs ==> LogOk(logs[name])
  {
    forall name | name in checks ensures LogOk(logs[name]) {
      AgreesFor(checks, counts, statuses, logs, threshold, name);
    }
  }

  lemma RoundBegins(checks: map<Name, Severity>, statuses: map<Name, CheckStatus>, logs: Logs, outcomes: map<Name, bool>, now: int)
    requires checks.Keys == logs.Keys <= outcomes.Keys && forall name :: name in logs ==> LogOk(logs[name])
    ensures GrownBy(logs, logs, checks.Keys, outcomes, now)
    ensures MidRound(checks, statuses, checks.Keys, map[], false, false)
  {
  }

  /** The statuses seen so far in a round, and what they amount to. */
  ghost predicate MidRound(checks: map<Name, Severity>, statuses: map<Name, CheckStatus>, todo: set<Name>,
                           seen: map<Name, CheckStatus>, critical: bool, warning: bool) {
    && seen.Keys == checks.Keys - todo
    && (forall x :: x in seen ==> x in statuses && seen[x] == statuses[x])
    && (critical <==> SomeReported(checks, seen, Critical))
    && (warning <==> SomeReported(checks, seen, Warning))
  }

  lemma MidRoundNext(checks: map<Name, Severity>, statuses: map<Name, CheckStatus>, todo: set<Name>,
                     seen: map<Name, CheckStatus>, critical: bool, warning: bool, name: Name, status: CheckStatus)
    requires MidRound(checks, statuses, todo, seen, critical, warning) && name in todo && name in checks
    ensures MidRound(checks, statuses[name := status], todo - {name}, seen[name := status],
                     critical || (status.status == Unhealthy && checks[name] == Critical),
                     warning || (status.status == Unhealthy && checks[name] == Warning))
  {
    ReportedMore(checks, seen, Critical, name, status);
    ReportedMore(checks, seen, Warning, name, status);
    hide SomeReported;
  }

  lemma RoundEnds(checks: map<Name, Severity>, statuses: map<Name, CheckStatus>, seen: map<Name, CheckStatus>,
                  critical: bool, warning: bool)
    requires MidRound(checks, statuses, {}, seen, critical, warning) && checks.Keys == statuses.Keys
    ensures seen == statuses
    ensures critical <==> SomeReported(checks, statuses, Critical)
    ensures warning <==> SomeReported(checks, statuses, Warning)
  {
    assert seen == statuses;
  }

  /** Every check has one more outcome, except those still to do. */
  ghost predicate GrownBy(before: Logs, after: Logs, todo: set<Name>, outcomes: map<Name, bool>, now: int) {
    && after.Keys == before.Keys <= outcomes.Keys
    && forall x :: x in before ==>
      LogOk(before[x]) && after[x] == if x in todo then before[x] else Longer(before[x], outcomes[x], now)
  }

  function Before(first: Logs, history: seq<Logs>, i: nat): Logs
    requires i <= |history|
  {
    if i == 0 then first else history[i - 1]
  }

  /** Each log is the one before with the outcomes of its round. */
  ghost predicate Grows(first: Logs, history: seq<Logs>, outcomes: seq<map<Name, bool>>, times: seq<int>) {
    && |history| <= |outcomes| == |times|
    && forall i :: 0 <= i < |history| ==> GrownBy(Before(first, history, i), history[i], {}, outcomes[i], times[i])
  }

  lemma GrowsNot(first: Logs, outcomes: seq<map<Name, bool>>, times: seq<int>)
    requires |outcomes| == |times|
    ensures Grows(first, [], outcomes, times)
  {
  }

  lemma GrowsOn(first: Logs, history: seq<Logs>, outcomes: seq<map<Name, bool>>, times: seq<int>, before: Logs, after: Logs)
    requires Grows(first, history, outcomes, times) && |history| < |outcomes| && before == Before(first, history, |history|)
    requires GrownBy(before, after, {}, outcomes[|history|], times[|history|])
    ensures Grows(first, history + [after], outcomes, times)
  {
    hide GrownBy;
    var longer := history + [after];
    forall i | 0 <= i < |longer|
      ensures GrownBy(Before(first, longer, i), longer[i], {}, outcomes[i], times[i])
    {
      assert Before(first, longer, i) == Before(first, history, i);
    }
  }

  lemma RoundCovers(before: Logs, after: Logs, outcomes: map<Name, bool>, now: int)
    requires GrownBy(before, after, {}, outcomes, now)
    ensures after.Keys == before.Keys && forall name :: name in before ==> HasOutcome(after, name)
  {
    forall name | name in before ensures HasOutcome(after, name) {
      assert name in after && after[name] == Longer(before[name], outcomes[name], now);
    }
  }

  lemma GrowsAt(first: Logs, history: seq<Logs>, outcomes: seq<map<Name, bool>>, times: seq<int>, i: nat)
    requires Grows(first, history, outcomes, times) && i < |history|
    ensures |history| <= |outcomes| == |times| && GrownBy(Before(first, history, i), history[i], {}, outcomes[i], times[i])
  {
    hide GrownBy;
  }

  lemma {:induction false} LogsStay(first: Logs, history: seq<Logs>, outcomes: seq<map<Name, bool>>, times: seq<int>, i: nat)
    requires Grows(first, history, outcomes, times) && i < |history|
    ensures history[i].Keys == first.Keys && forall name :: name in first ==> HasOutcome(history[i], name)
  {
    hide Grows, GrownBy, HasOutcome;
    GrowsAt(first, history, outcomes, times, i);
    RoundCovers(Before(first, history, i), history[i], outcomes[i], times[i]);
    if i > 0 {
      LogsStay(first, history, outcomes, times, i - 1);
    }
  }

  /** In every round every registered check has an outcome. */
  lemma EveryRoundCovers(checks: map<Name, Severity>, first: Logs, history: seq<Logs>, outcomes: seq<map<Name, bool>>, times: seq<int>)
    requires Grows(first, history, outcomes, times) && checks.Keys == first.Keys
    ensures Covers(checks, history)
  {
    forall i, name | 0 <= i < |history| && name in checks ensures HasOutcome(history[i], name) {
      LogsStay(first, history, outcomes, times, i);
    }
  }

  lemma GrowOne(before: Logs, mid: Logs, after: Logs, todo: set<Name>, outcomes: map<Name, bool>, now: int, name: Name)
    requires GrownBy(before, mid, todo, outcomes, now) && name in todo && name in mid
    requires after == mid[name := Longer(mid[name], outcomes[name], now)]
    ensures GrownBy(before, after, todo - {name}, outcomes, now)
  {
  }
}

/** One watch session of `monitor_pod_events`: probe selection, the event
    loop over the pod watch stream, readiness polling, and the report. */
module Monitor {
  import opened PodEvents
  import opened Polling

  /** The two readiness checks the monitor can poll. */
  datatype ProbeKind = HttpCheck | RedisCheck

  /** Picks the readiness check from the configured application type. */
  function SelectProbe(appType: string): (k: ProbeKind)
    ensures k == HttpCheck <==> appType == "http"
    ensures k == RedisCheck <==> appType != "http"
  {
    if appType == "http" then HttpCheck else RedisCheck
  }

  /** A watch stream: the events it delivers, and whether it then raises
      instead of ending normally. */
  datatype Stream = Stream(events: seq<Event>, raises: bool)

  /** The session variables at the report, with `start_check_time`. */
  datatype Session = Session(cycle: Cycle, startCheckTime: Option<int>)

  /** The metrics block (in milliseconds) or the "incomplete" notice. */
  datatype Report = Metrics(timeToPodReady: int, timeToAppReady: int, totalTime: int) | Incomplete

  /** How a session ends: with a report, or with an exception that skips it. */
  datatype Outcome = Reported(report: Report) | Aborted

  /** The clock does not stop: from any reading, some later reading is at
      least `MaxWait` milliseconds later. */
  ghost predicate Advances(clock: nat -> int)
  {
    forall i: nat :: exists j: nat :: i < j && clock(j) >= Deadline(clock, i)
  }

  /** The time `MaxWait` milliseconds after reading `i`. */
  ghost function Deadline(clock: nat -> int, i: nat): int
  {
    clock(i) + MaxWait
  }

  /** The report printed after the event loop. `start_check_time` is only
      read when the application readiness time is set, and it is always
      assigned before that. */
  function MakeReport(s: Session): (r: Report)
    requires s.cycle.appReadyTime.Some? ==> s.startCheckTime.Some?
    ensures r.Metrics? <==>
      TruthyTime(s.cycle.startTime) && TruthyTime(s.cycle.podReadyTime) && TruthyTime(s.cycle.appReadyTime)
    ensures r.Metrics? ==>
      r.timeToPodReady == s.cycle.podReadyTime.value - s.cycle.startTime.value &&
      r.timeToAppReady == s.cycle.appReadyTime.value - s.startCheckTime.value &&
      r.totalTime == r.timeToPodReady + r.timeToAppReady + (s.startCheckTime.value - s.cycle.podReadyTime.value)
  {
    var c := s.cycle;
    if TruthyTime(c.startTime) && TruthyTime(c.podReadyTime) && TruthyTime(c.appReadyTime) then
      Metrics(c.podReadyTime.value - c.startTime.value,
              c.appReadyTime.value - s.startCheckTime.value,
              c.appReadyTime.value - c.startTime.value)
    else
      Incomplete
  }

  /** What a session does, given its stream, the application type, the
      clock and the answers of each readiness check: it starts from the
      cleared state and runs the event loop; if the loop breaks, the next
      reading is `start_check_time` and polling with the selected check runs
      from the reading after; the report follows unless the stream raised. */
  ghost predicate SessionSpec(stream: Stream, appType: string, clock: nat -> int, oracle: ProbeKind -> nat -> bool,
                              outcome: Outcome, s: Session, polls: nat)
  {
    var w := Watch(Cleared, stream.events, clock, 0);
    if w.broke then
      s.cycle == w.cycle.(appReadyTime := s.cycle.appReadyTime) &&
      s.startCheckTime == Some(clock(w.readings)) &&
      PolledTo(clock, oracle(SelectProbe(appType)), w.readings + 1, clock(w.readings), s.cycle.appReadyTime, polls) &&
      outcome == Reported(MakeReport(s))
    else
      s == Session(w.cycle, None) && polls == 0 &&
      outcome == (if stream.raises then Aborted else Reported(MakeReport(s)))
  }

  /** One iteration of the monitor's retry loop. `clock(k)` is the k-th clock
      reading of the session and `oracle(kind)(j)` the answer of the j-th call
      of readiness check `kind`. */
  method MonitorSession(stream: Stream, appType: string, clock: nat -> int, oracle: ProbeKind -> nat -> bool)
    returns (outcome: Outcome, s: Session, polls: nat)
    requires Advances(clock)
    ensures SessionSpec(stream, appType, clock, oracle, outcome, s, polls)
  {
    var check := SelectProbe(appType);
    var startTime: Option<int> := None;
    var podReadyTime: Option<int> := None;
    var appReadyTime: Option<int> := None;
    var oldPodName: Option<string> := None;
    var startCheckTime: Option<int> := None;
    var t: nat := 0;  // clock readings taken so far
    polls := 0;
    var events := stream.events;
    var broke := false;
    var i := 0;
    while i < |events|
      invariant 0 <= i <= |events|
      invariant !broke && appReadyTime.None? && startCheckTime.None? && polls == 0
      invariant Watch(Cleared, events, clock, 0) ==
                Watch(Cycle(startTime, podReadyTime, appReadyTime, oldPodName), events[i..], clock, t)
      decreases |events| - i
    {
      var e := events[i];
      ghost var c := Cycle(startTime, podReadyTime, appReadyTime, oldPodName);
      ghost var t0 := t;
      if e.eventType == Added && e.phase == Pending {
        if startTime.None? {
          startTime := Some(clock(t));
          t := t + 1;
          oldPodName := Some(e.podName);
        }
      }
      if oldPodName.Some? && oldPodName.value != "" && e.podName != oldPodName.value &&
         e.eventType == Added && e.phase == Pending {
        startTime := Some(clock(t));
        t := t + 1;
      }
      if e.eventType == Modified && e.phase == Running && startTime.Some? {
        if podReadyTime.None? {
          podReadyTime := Some(clock(t));
          t := t + 1;
        }
      }
      assert Cycle(startTime, podReadyTime, appReadyTime, oldPodName) == Handle(c, e, clock(t0));
      assert t == if Stamps(c, e) then t0 + 1 else t0;
      assert events[i..][0] == e && events[i..][1..] == events[i + 1..];
      if podReadyTime.Some? && podReadyTime.value != 0 && e.eventType == Modified && e.phase == Running {
        var sc := clock(t);
        startCheckTime := Some(sc);
        t := t + 1;
        ghost var j :| t - 1 < j && clock(j) >= Deadline(clock, t - 1);
        appReadyTime, polls := PollReadiness(clock, oracle(check), t, sc);
        broke := true;
        break;
      }
      i := i + 1;
    }
    s := Session(Cycle(startTime, podReadyTime, appReadyTime, oldPodName), startCheckTime);
    if broke || !stream.raises {
      outcome := Reported(MakeReport(s));
    } else {
      outcome := Aborted;
    }
  }

  /** With a positive non-decreasing clock the recorded times are ordered
      start <= pod ready <= polling start <= application ready, each set only
      when the previous one is; once polling has started, the application
      readiness time is set exactly when some call of the selected check
      answered true while its deadline check was inside the ten minutes. */
  lemma SessionOrdered(stream: Stream, appType: string, clock: nat -> int, oracle: ProbeKind -> nat -> bool,
                       outcome: Outcome, s: Session, polls: nat)
    requires NonDecreasing(clock) && Positive(clock)
    requires SessionSpec(stream, appType, clock, oracle, outcome, s, polls)
    ensures s.cycle.podReadyTime.Some? ==>
      s.cycle.startTime.Some? && s.startCheckTime.Some? &&
      0 < s.cycle.startTime.value <= s.cycle.podReadyTime.value <= s.startCheckTime.value
    ensures s.cycle.appReadyTime.Some? ==>
      s.cycle.podReadyTime.Some? && s.startCheckTime.Some? &&
      s.startCheckTime.value <= s.cycle.appReadyTime.value &&
      oracle(SelectProbe(appType))(polls)
    ensures s.startCheckTime.Some? <==> s.cycle.podReadyTime.Some?
    ensures s.startCheckTime.Some? ==>
      var first := Watch(Cleared, stream.events, clock, 0).readings + 1;
      (s.cycle.appReadyTime.Some? <==>
       exists j: nat :: oracle(SelectProbe(appType))(j) && clock(first + j) - s.startCheckTime.value < MaxWait)
  {
    var w := Watch(Cleared, stream.events, clock, 0);
    WatchOrdered(Cleared, stream.events, clock, 0);
    if w.broke {
      PolledReadyIff(clock, oracle(SelectProbe(appType)), w.readings + 1, clock(w.readings), s.cycle.appReadyTime, polls);
    }
    if w.broke && s.cycle.appReadyTime.Some? {
      assert clock(w.readings) <= clock(w.readings + 1 + polls + 1);
    }
  }

  /** The metrics block is printed exactly when polling found the
      application ready; then every duration is non-negative and the total
      is at least each part. An aborted session is one whose stream raised
      before the event loop broke. */
  lemma ReportSound(stream: Stream, appType: string, clock: nat -> int, oracle: ProbeKind -> nat -> bool,
                    outcome: Outcome, s: Session, polls: nat)
    requires NonDecreasing(clock) && Positive(clock)
    requires SessionSpec(stream, appType, clock, oracle, outcome, s, polls)
    ensures outcome == Aborted <==> !Watch(Cleared, stream.events, clock, 0).broke && stream.raises
    ensures outcome.Reported? ==> (outcome.report.Metrics? <==> s.cycle.appReadyTime.Some?)
    ensures outcome.Reported? && outcome.report.Metrics? ==>
      0 <= outcome.report.timeToPodReady <= outcome.report.totalTime &&
      0 <= outcome.report.timeToAppReady <= outcome.report.totalTime
  {
    SessionOrdered(stream, appType, clock, oracle, outcome, s, polls);
  }
}

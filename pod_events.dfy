/** The event-handling part of one watch session of the pod-event timing
    monitor: the four session variables, the rules that update them on each
    watch event, and the fold of those rules over the event stream up to the
    event that ends the session. */
module PodEvents {

  datatype Option<T> = None | Some(value: T)

  /** The `type` of a watch event delivered by the orchestrator. */
  datatype EventType = Added | Modified | Deleted | Bookmark | WatchError

  /** The `status.phase` of a pod. */
  datatype PodPhase = Pending | Running | Succeeded | Failed | Unknown

  /** The three fields of a watch event the monitor looks at. */
  datatype Event = Event(eventType: EventType, podName: string, phase: PodPhase)

  /** The session variables `start_time`, `pod_ready_time`, `app_ready_time`
      and `old_pod_name`; `None` is Python's `None`. Timestamps are
      milliseconds read from the clock. */
  datatype Cycle = Cycle(
    startTime: Option<int>,
    podReadyTime: Option<int>,
    appReadyTime: Option<int>,
    oldPodName: Option<string>)

  /** The state every session starts from. */
  const Cleared: Cycle := Cycle(None, None, None, None)

  /** A clock is the sequence of values returned by successive readings:
      `clock(k)` is the k-th reading of the session. */
  ghost predicate NonDecreasing(clock: nat -> int)
  {
    forall i: nat, j: nat :: i <= j ==> clock(i) <= clock(j)
  }

  /** Readings are milliseconds since the epoch, hence never 0. */
  ghost predicate Positive(clock: nat -> int)
  {
    forall i: nat :: clock(i) > 0
  }

  predicate IsAddedPending(e: Event)
  {
    e.eventType == Added && e.phase == Pending
  }

  predicate IsModifiedRunning(e: Event)
  {
    e.eventType == Modified && e.phase == Running
  }

  /** Python truthiness of an optional timestamp: `None` and `0.0` are false. */
  predicate TruthyTime(t: Option<int>)
  {
    t.Some? && t.value != 0
  }

  /** Python truthiness of an optional pod name: `None` and `""` are false. */
  predicate TruthyName(n: Option<string>)
  {
    n.Some? && n.value != ""
  }

  /** The branch that starts the measurement on the first ADDED/Pending event. */
  predicate StartsMeasurement(c: Cycle, e: Event)
  {
    IsAddedPending(e) && c.startTime.None?
  }

  /** The branch that treats an ADDED/Pending event for a pod other than
      `old_pod_name` as a recreation. */
  predicate IsRecreation(c: Cycle, e: Event)
  {
    TruthyName(c.oldPodName) && e.podName != c.oldPodName.value && IsAddedPending(e)
  }

  /** The branch that records the first MODIFIED/Running event after the start. */
  predicate MarksPodReady(c: Cycle, e: Event)
  {
    IsModifiedRunning(e) && c.startTime.Some? && c.podReadyTime.None?
  }

  /** Whether handling `e` in state `c` reads the clock (at most once). */
  predicate Stamps(c: Cycle, e: Event)
  {
    StartsMeasurement(c, e) || IsRecreation(c, e) || MarksPodReady(c, e)
  }

  /** Handles one event; `now` is the clock reading taken if `Stamps(c, e)`. */
  function Handle(c: Cycle, e: Event, now: int): (r: Cycle)
    // an event that reads no clock changes nothing
    ensures !Stamps(c, e) ==> r == c
    // the application readiness time is only set by the polling loop
    ensures r.appReadyTime == c.appReadyTime
    // the first ADDED/Pending event starts the measurement and names the pod
    ensures StartsMeasurement(c, e) ==> r.startTime == Some(now) && r.oldPodName == Some(e.podName)
    // ... and, the names now being equal, is not also taken for a recreation
    ensures StartsMeasurement(c, e) ==> !IsRecreation(r, e)
    // the start time, once set, is never cleared
    ensures c.startTime.Some? ==> r.startTime.Some?
    // once the measurement has started the pod name is never reassigned
    ensures c.startTime.Some? ==> r.oldPodName == c.oldPodName
    // only ADDED/Pending events touch the start time and the pod name
    ensures !IsAddedPending(e) ==> r.startTime == c.startTime && r.oldPodName == c.oldPodName
    // a later ADDED/Pending event restarts the clock exactly when it names
    // another pod than the first one
    ensures IsAddedPending(e) && c.startTime.Some? ==>
      r.startTime == (if IsRecreation(c, e) then Some(now) else c.startTime)
    // MODIFIED/Running before the start changes nothing
    ensures IsModifiedRunning(e) && c.startTime.None? ==> r == c
    // the pod-ready time is set at most once, and only by the first
    // MODIFIED/Running event after the start
    ensures c.podReadyTime.Some? ==> r.podReadyTime == c.podReadyTime
    ensures r.podReadyTime != c.podReadyTime ==> MarksPodReady(c, e) && r.podReadyTime == Some(now)
    ensures MarksPodReady(c, e) ==> r.podReadyTime == Some(now)
  {
    var c1 :=
      if IsAddedPending(e) && c.startTime.None?
      then c.(startTime := Some(now), oldPodName := Some(e.podName))
      else c;
    var c2 :=
      if TruthyName(c1.oldPodName) && e.podName != c1.oldPodName.value && IsAddedPending(e)
      then c1.(startTime := Some(now))
      else c1;
    if IsModifiedRunning(e) && c2.startTime.Some? && c2.podReadyTime.None?
    then c2.(podReadyTime := Some(now))
    else c2
  }

  /** The test that ends the event loop and enters readiness polling,
      evaluated after the event has been handled. */
  predicate Breaks(c: Cycle, e: Event)
  {
    TruthyTime(c.podReadyTime) && IsModifiedRunning(e)
  }

  /** Where the event loop stops: the state reached, the number of clock
      readings taken so far, and whether it stopped at the break (rather than
      at the end of the stream). */
  datatype Watched = Watched(cycle: Cycle, readings: nat, broke: bool)

  /** Consumes `events` from state `c`, with `t` clock readings already taken. */
  function Watch(c: Cycle, events: seq<Event>, clock: nat -> int, t: nat): (w: Watched)
    ensures t <= w.readings <= t + |events|
    ensures w.cycle.appReadyTime == c.appReadyTime
    decreases |events|
  {
    if events == [] then Watched(c, t, false)
    else
      var e := events[0];
      var c' := Handle(c, e, clock(t));
      var t' := if Stamps(c, e) then t + 1 else t;
      if Breaks(c', e) then Watched(c', t', true)
      else Watch(c', events[1..], clock, t')
  }

  /** The name of the first ADDED/Pending event, if there is one. */
  function FirstAddedPending(events: seq<Event>): (n: Option<string>)
    ensures n.None? <==> forall i :: 0 <= i < |events| ==> !IsAddedPending(events[i])
    ensures n.Some? ==>
      exists k :: 0 <= k < |events| && IsAddedPending(events[k]) && events[k].podName == n.value &&
        forall i :: 0 <= i < k ==> !IsAddedPending(events[i])
  {
    if events == [] then None
    else if IsAddedPending(events[0]) then Some(events[0].podName)
    else
      var n := FirstAddedPending(events[1..]);
      assert forall i :: 1 <= i < |events| ==> events[i] == events[1..][i - 1];
      n
  }

  /** The state of a session that is still waiting for its pod to run:
      nothing past the start has been recorded, the start time and the pod
      name are set together, and a recorded start time is a positive clock
      reading taken before reading number `t`. */
  ghost predicate Awaiting(c: Cycle, clock: nat -> int, t: nat)
  {
    c.appReadyTime.None? && c.podReadyTime.None? &&
    (c.startTime.Some? <==> c.oldPodName.Some?) &&
    (c.startTime.Some? ==> 0 < c.startTime.value <= clock(t))
  }

  /** With a positive non-decreasing clock the event loop either ends with
      the session still awaiting its pod, or breaks with the start and the
      pod-ready time both set, in that order, and no later than the next
      clock reading (which becomes the polling start). */
  lemma {:induction false} WatchOrdered(c: Cycle, events: seq<Event>, clock: nat -> int, t: nat)
    requires NonDecreasing(clock) && Positive(clock)
    requires Awaiting(c, clock, t)
    ensures var w := Watch(c, events, clock, t);
      if w.broke then
        w.cycle.appReadyTime.None? && w.cycle.oldPodName.Some? &&
        w.cycle.startTime.Some? && w.cycle.podReadyTime.Some? &&
        0 < w.cycle.startTime.value <= w.cycle.podReadyTime.value <= clock(w.readings)
      else
        Awaiting(w.cycle, clock, w.readings)
    decreases |events|
  {
    if events != [] {
      var e := events[0];
      var c' := Handle(c, e, clock(t));
      var t' := if Stamps(c, e) then t + 1 else t;
      assert clock(t) <= clock(t');
      assert clock(t) > 0;
      if !Breaks(c', e) {
        assert c'.podReadyTime.None?;
        assert Awaiting(c', clock, t');
        WatchOrdered(c', events[1..], clock, t');
      }
    }
  }

  /** `old_pod_name` is assigned once per session: it ends up as the name of
      the first ADDED/Pending pod, whatever recreations follow; and the
      measurement has started exactly when such an event was seen, and a
      started measurement stays started. */
  lemma {:induction false} WatchKeepsFirstPod(c: Cycle, events: seq<Event>, clock: nat -> int, t: nat)
    requires c.startTime.None? ==> c.oldPodName.None? && c.podReadyTime.None?
    ensures var w := Watch(c, events, clock, t);
      w.cycle.oldPodName == (if c.startTime.Some? then c.oldPodName else FirstAddedPending(events)) &&
      (c.startTime.Some? ==> w.cycle.startTime.Some?) &&
      (c.startTime.None? ==> (w.cycle.startTime.Some? <==> FirstAddedPending(events).Some?))
    decreases |events|
  {
    if events != [] {
      var e := events[0];
      var c' := Handle(c, e, clock(t));
      var t' := if Stamps(c, e) then t + 1 else t;
      if !Breaks(c', e) {
        WatchKeepsFirstPod(c', events[1..], clock, t');
      }
      assert events[1..] == [] ==> events == [e];
    }
  }

  /** Under a positive clock, from a state with no pod-ready time, handling
      an event ends the event loop exactly when it is the first
      MODIFIED/Running event after the start: the pod-ready time is
      recorded and the loop breaks in the same step. */
  lemma BreaksIffPodReady(c: Cycle, e: Event, now: int)
    requires now > 0 && c.podReadyTime.None?
    ensures Breaks(Handle(c, e, now), e) <==> MarksPodReady(c, e)
  {
  }

  /** Event `i` is a MODIFIED/Running event that finds the measurement
      started, either before the loop or by an earlier ADDED/Pending event. */
  ghost predicate ReadyAt(c: Cycle, events: seq<Event>, i: nat)
    requires i < |events|
  {
    IsModifiedRunning(events[i]) &&
    (c.startTime.Some? || exists k :: 0 <= k < i && IsAddedPending(events[k]))
  }

  /** Shifting a `ReadyAt` position past the first event. */
  lemma ReadyAtTail(c: Cycle, events: seq<Event>, clock: nat -> int, t: nat, i: nat)
    requires 0 < i < |events|
    ensures ReadyAt(c, events, i) <==> ReadyAt(Handle(c, events[0], clock(t)), events[1..], i - 1)
  {
  }

  /** Under a positive clock, from a state with no pod-ready time, the event
      loop breaks exactly when some MODIFIED/Running event finds the
      measurement started; MODIFIED/Running events before the start do not
      end it. */
  lemma {:induction false} WatchBreaksIff(c: Cycle, events: seq<Event>, clock: nat -> int, t: nat)
    requires Positive(clock) && c.podReadyTime.None?
    ensures Watch(c, events, clock, t).broke <==> exists i :: 0 <= i < |events| && ReadyAt(c, events, i)
    decreases |events|
  {
    if events != [] {
      var e := events[0];
      var c' := Handle(c, e, clock(t));
      var t' := if Stamps(c, e) then t + 1 else t;
      assert clock(t) > 0;
      BreaksIffPodReady(c, e, clock(t));
      assert ReadyAt(c, events, 0) <==> MarksPodReady(c, e);
      if !Breaks(c', e) {
        WatchBreaksIff(c', events[1..], clock, t');
        forall i | 0 < i < |events|
          ensures ReadyAt(c, events, i) <==> ReadyAt(c', events[1..], i - 1)
        {
          ReadyAtTail(c, events, clock, t, i);
        }
        if exists i :: 0 <= i < |events[1..]| && ReadyAt(c', events[1..], i) {
          var i :| 0 <= i < |events[1..]| && ReadyAt(c', events[1..], i);
          assert ReadyAt(c, events, i + 1);
        }
      }
    }
  }

  /** ... and it breaks at the first such event: its result is that of the
      events up to and including it, and that prefix breaks. */
  lemma {:induction false} WatchBreaksAtFirstReady(c: Cycle, events: seq<Event>, clock: nat -> int, t: nat, i: nat)
    requires Positive(clock) && c.podReadyTime.None?
    requires i < |events| && ReadyAt(c, events, i)
    requires forall j :: 0 <= j < i ==> !ReadyAt(c, events, j)
    ensures Watch(c, events, clock, t) == Watch(c, events[..i + 1], clock, t)
    ensures Watch(c, events, clock, t).broke
    decreases i
  {
    var e := events[0];
    var c' := Handle(c, e, clock(t));
    var t' := if Stamps(c, e) then t + 1 else t;
    assert clock(t) > 0;
    BreaksIffPodReady(c, e, clock(t));
    assert events[..i + 1][0] == e;
    if i > 0 {
      assert !ReadyAt(c, events, 0);
      assert !Breaks(c', e);
      ReadyAtTail(c, events, clock, t, i);
      forall j | 0 <= j < i - 1
        ensures !ReadyAt(c', events[1..], j)
      {
        ReadyAtTail(c, events, clock, t, j + 1);
      }
      WatchBreaksAtFirstReady(c', events[1..], clock, t', i - 1);
      assert events[..i + 1][1..] == events[1..][..i];
    }
  }

  /** A drain: pod p1 is added, then its replacement p2, which then runs.
      The start time is p2's arrival, `old_pod_name` stays p1, and the
      session breaks on p2's Running event. */
  lemma DrainScenario(clock: nat -> int, p1: string, p2: string)
    requires Positive(clock)
    requires p1 != "" && p1 != p2
    ensures var w := Watch(Cleared, [Event(Added, p1, Pending), Event(Added, p2, Pending), Event(Modified, p2, Running)], clock, 0);
      w.broke && w.readings == 3 &&
      w.cycle == Cycle(Some(clock(1)), Some(clock(2)), None, Some(p1))
  {
    var events := [Event(Added, p1, Pending), Event(Added, p2, Pending), Event(Modified, p2, Running)];
    var c1 := Cycle(Some(clock(0)), None, None, Some(p1));
    var c2 := Cycle(Some(clock(1)), None, None, Some(p1));
    assert Handle(Cleared, events[0], clock(0)) == c1;
    assert Handle(c1, events[1], clock(1)) == c2;
    assert clock(2) > 0;
    assert events[1..][1..] == [events[2]];
    assert Watch(c2, events[1..][1..], clock, 2) == Watched(Cycle(Some(clock(1)), Some(clock(2)), None, Some(p1)), 3, true);
  }
}

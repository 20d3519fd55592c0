# Pod-event timing monitor

A model of one watch session of `monitor_pod_events`, the tool that watches
pod lifecycle events in a namespace and measures how long a newly created
(or, during a node drain, recreated) pod takes to become Running, and then
how long the application inside it takes to answer a readiness probe.

A session clears four variables (`start_time`, `pod_ready_time`,
`app_ready_time`, `old_pod_name`) and consumes watch events:

- the first ADDED/Pending event starts the measurement and remembers the
  pod's name;
- a later ADDED/Pending event for a pod with another name is taken for a
  recreation and restarts the measurement;
- the first MODIFIED/Running event after the start records pod readiness,
  and the same event starts a readiness-polling loop, with a ten-minute
  deadline checked before each probe, and ends the event loop;
- the session then prints three durations, or an "incomplete" notice.

Files:

- `pod_events.dfy` (module `PodEvents`): events, the session variables
  (`Cycle`), the per-event rules (`Handle`), and the event loop up to its
  break (`Watch`), with the lemmas about them.
- `polling.dfy` (module `Polling`): the readiness-polling loop as an
  imperative method, specified by the predicate `PolledTo`.
- `monitor.dfy` (module `Monitor`): probe selection, the report, and the
  whole session as an imperative method (`MonitorSession`) with local
  variables, a `while` loop over the events and a `break`, proved against
  the predicate `SessionSpec`; the ordering and report lemmas follow from it.

The environment is abstracted:

- the clock is a function `clock: nat -> int`, where `clock(k)` is the k-th
  reading of the session in integer milliseconds; a reading is consumed
  exactly where the program reads the time. The ordering lemmas assume the
  clock is positive (epoch milliseconds) and non-decreasing. The session
  assumes only that the clock keeps moving (`Advances`), which is what
  makes the polling loop end;
- a readiness check is an oracle: `oracle(kind)(j)` is the answer of the
  j-th call of the HTTP or Redis check;
- the watch stream is a finite sequence of events, together with a flag
  saying whether the stream then raises instead of ending normally.

Python's truthiness tests are kept as written: `TruthyTime` is false for
`None` and for 0, and `TruthyName` is false for `None` and for `""`. With a
positive clock every recorded time is non-zero, so the lemmas can speak of
times being "set".

Where the design description and the code disagree, the model follows the
code:

- a recreation restarts `start_time` but does not update `old_pod_name`
  (config/samples/migration-example/measurement.py:90-93). Every later
  ADDED/Pending event is compared with the first pod's name, not with the
  most recent pod's (`WatchKeepsFirstPod`, `DrainScenario`);
- the MODIFIED/Running rule does not check which pod is running (line 96),
  so a Running event of the first pod also counts after a recreation;
- pod readiness and the start of polling happen on the same event (lines
  96-115), not on a later Running event. So the pod-ready time is set once
  per session and the loop ends right after;
- "Time to Application Ready" is measured from the start of polling
  (`start_check_time`), not from the pod-ready time. So the total is the sum
  of the two parts plus the gap between them (`MakeReport`).

## Model

| member | source | states |
|---|---|---|
| `PodEvents.Handle` | config/samples/migration-example/measurement.py:82-100 | An event that reads no clock changes nothing. The first ADDED/Pending event sets the start to now and the pod name to its pod, and it is not also taken for a recreation. Once started, the start is never cleared and the name never reassigned. Non-ADDED/Pending events touch neither. A later ADDED/Pending event restarts the clock exactly when its name differs from the remembered one (which must be non-empty). MODIFIED/Running before the start changes nothing. The pod-ready time is set at most once, only by the first MODIFIED/Running event after the start. |
| `PodEvents.Watch` | config/samples/migration-example/measurement.py:73-115 | The event loop takes at most one clock reading per event and never sets the application-ready time. When it breaks is stated by `WatchBreaksIff` and `WatchBreaksAtFirstReady`. |
| `PodEvents.WatchOrdered` | config/samples/migration-example/measurement.py:82-103 | With a positive non-decreasing clock the loop either runs out of events still awaiting the pod (nothing past the start recorded, start and name set together) or breaks with 0 < start <= pod ready <= the next clock reading. |
| `PodEvents.WatchKeepsFirstPod` | config/samples/migration-example/measurement.py:84-92 | `old_pod_name` ends up as the name of the first ADDED/Pending event of the session, whatever recreations follow. The measurement has started iff there was such an event, and once started it stays started. |
| `PodEvents.BreaksIffPodReady` | config/samples/migration-example/measurement.py:96-103 | With a positive clock and no pod-ready time yet, an event ends the event loop iff it is a MODIFIED/Running event that finds the measurement started. The pod-ready time is recorded in that same step. |
| `PodEvents.WatchBreaksIff` | config/samples/migration-example/measurement.py:82-115 | With a positive clock and no pod-ready time yet, the event loop breaks iff some MODIFIED/Running event comes after the start: the start was already set, or an earlier event was ADDED/Pending. MODIFIED/Running events before the start do not end the session. |
| `PodEvents.WatchBreaksAtFirstReady` | config/samples/migration-example/measurement.py:96-115 | The loop breaks at the first such MODIFIED/Running event: its result equals that of the events up to and including it, and it is a break. |
| `PodEvents.DrainScenario` | config/samples/migration-example/measurement.py:82-100 | Events ADDED/Pending p1, ADDED/Pending p2, MODIFIED/Running p2: the start is p2's arrival time, the name stays p1, the pod-ready time is the third reading, and the loop breaks. |
| `Polling.PollReadiness` | config/samples/migration-example/measurement.py:105-113 | The loop stops at the first check that answers true, inside the deadline: the readiness time is the reading taken right after that check. Otherwise it stops at the first deadline check with elapsed >= 600000 ms, with no readiness time. All earlier checks were inside the deadline and answered false. |
| `Polling.PolledToUnique` | config/samples/migration-example/measurement.py:108-113 | The polling outcome (readiness time and number of failed polls) is determined by the clock and the probe answers. |
| `Polling.PolledReadyIff` | config/samples/migration-example/measurement.py:108-110 | With a non-decreasing clock, polling finds the application ready iff some probe call answers true while its deadline check is still inside the ten minutes. |
| `Polling.NeverReadyTimesOut` | config/samples/migration-example/measurement.py:106-108 | If the probe never answers true, polling ends with no readiness time, at the first reading at or past ten minutes. |
| `Monitor.SelectProbe` | config/samples/migration-example/measurement.py:62 | The HTTP check is chosen iff the application type is exactly "http", the Redis check for every other value. |
| `Monitor.MakeReport` | config/samples/migration-example/measurement.py:119-126 | The metrics block is produced iff all three times are truthy, with pod ready - start, application ready - polling start, and a total equal to those two plus the gap between pod ready and polling start. Otherwise the notice is produced. |
| `Monitor.MonitorSession` | config/samples/migration-example/measurement.py:62-126 | The session starts from cleared variables and follows `Watch` over the events. If the loop breaks, the next reading is the polling start, polling with the selected check behaves as `PolledTo` specifies, and the report is produced. Otherwise there is no polling, and the report is produced unless the stream raised. |
| `Monitor.SessionOrdered` | config/samples/migration-example/measurement.py:85-110 | With a positive non-decreasing clock: 0 < start <= pod ready <= polling start <= application ready, each set only when the previous is. The polling start is set iff the pod-ready time is. The application-ready time is set only after the selected check answered true. Once polling has started, it is set iff some call of the selected check answered true while its deadline check was inside the ten minutes. |
| `Monitor.ReportSound` | config/samples/migration-example/measurement.py:119-130 | A session is aborted iff its stream raised before the loop broke. A report holds the metrics iff the application became ready. Then every duration is non-negative and the total is at least each part. |

## Left out

- The bodies of the HTTP and Redis readiness checks (lines 10-49): they
  are network calls. Each is an oracle that answers true or false and never
  raises.
- Kubernetes configuration, the API client and the watch transport (lines
  1-8, 65, 73, 117): the stream is a finite sequence of events with an
  optional exception at its end.
- The endless retry loop (line 63) and the module-level call with fixed
  addresses (lines 134-140): one session is modelled. Each session starts
  from cleared variables, and an exception skips its report.
- Floating-point time (`time.time() * 1000`): the clock gives integer
  milliseconds.
- Printed log lines, `strftime` and the two-decimal formatting of the
  metrics.
- The concrete exception types: an exception is only the end of a session
  without a report.

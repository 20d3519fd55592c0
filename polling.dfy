/** The bounded readiness-polling loop run once the tracked pod is Running:
    it re-reads the clock before every probe and stops at the first probe
    that answers true or once ten minutes have passed since polling began. */
module Polling {
  import opened PodEvents

  /** `max_wait_time`: ten minutes in milliseconds. */
  const MaxWait: int := 600000

  /** What a run of the polling loop did. The loop's first deadline check is
      clock reading `t0`; iteration `j` checks the deadline with reading
      `t0 + j` and then makes probe call `j`. `polls` iterations found the
      deadline open and the probe false; the next check then either found the
      deadline passed (`appReady` is `None`), or found it open and the probe
      true, in which case `appReady` is the reading taken right after. */
  ghost predicate PolledTo(clock: nat -> int, probe: nat -> bool, t0: nat, startCheck: int,
                           appReady: Option<int>, polls: nat)
  {
    (forall k: nat :: t0 <= k < t0 + polls ==> clock(k) - startCheck < MaxWait) &&
    (forall j: nat :: j < polls ==> !probe(j)) &&
    (appReady.Some? ==>
      clock(t0 + polls) - startCheck < MaxWait && probe(polls) && appReady.value == clock(t0 + polls + 1)) &&
    (appReady.None? ==> clock(t0 + polls) - startCheck >= MaxWait)
  }

  /** Polls `probe` until it answers true or the deadline passes. `t0` is the
      index of the next clock reading and `startCheck` the time polling
      began. The clock must reach the deadline at some reading, which is what
      makes the loop end. */
  method PollReadiness(clock: nat -> int, probe: nat -> bool, t0: nat, startCheck: int)
    returns (appReady: Option<int>, polls: nat)
    requires exists d: nat :: t0 <= d && clock(d) - startCheck >= MaxWait
    ensures PolledTo(clock, probe, t0, startCheck, appReady, polls)
  {
    ghost var deadline: nat :| t0 <= deadline && clock(deadline) - startCheck >= MaxWait;
    appReady := None;
    polls := 0;
    var t := t0;
    while appReady.None? && clock(t) - startCheck < MaxWait
      invariant t == t0 + polls <= deadline
      invariant appReady.None?
      invariant forall k: nat :: t0 <= k < t ==> clock(k) - startCheck < MaxWait
      invariant forall j: nat :: j < polls ==> !probe(j)
      decreases deadline - t
    {
      if probe(polls) {
        appReady := Some(clock(t + 1));
        break;
      }
      t := t + 1;
      polls := polls + 1;
    }
  }

  /** The polling outcome is determined by the clock and the probe: two runs
      from the same start agree on the readiness time and on the number of
      failed polls. */
  lemma PolledToUnique(clock: nat -> int, probe: nat -> bool, t0: nat, startCheck: int,
                        a1: Option<int>, n1: nat, a2: Option<int>, n2: nat)
    requires PolledTo(clock, probe, t0, startCheck, a1, n1)
    requires PolledTo(clock, probe, t0, startCheck, a2, n2)
    ensures a1 == a2 && n1 == n2
  {
  }

  /** With a non-decreasing clock, polling finds the application ready
      exactly when some probe call answers true while its deadline check
      is still inside the ten minutes. */
  lemma PolledReadyIff(clock: nat -> int, probe: nat -> bool, t0: nat, startCheck: int,
                       appReady: Option<int>, polls: nat)
    requires NonDecreasing(clock)
    requires PolledTo(clock, probe, t0, startCheck, appReady, polls)
    ensures appReady.Some? <==> exists j: nat :: probe(j) && clock(t0 + j) - startCheck < MaxWait
  {
  }

  /** When the probe never answers true, polling gives up with no readiness
      time, at the first reading at or past the deadline: every earlier
      reading was still inside the ten minutes. */
  lemma NeverReadyTimesOut(clock: nat -> int, probe: nat -> bool, t0: nat, startCheck: int,
                           appReady: Option<int>, polls: nat)
    requires forall j: nat :: !probe(j)
    requires PolledTo(clock, probe, t0, startCheck, appReady, polls)
    ensures appReady.None?
    ensures clock(t0 + polls) - startCheck >= MaxWait
    ensures forall k: nat :: t0 <= k < t0 + polls ==> clock(k) - startCheck < MaxWait
  {
  }
}

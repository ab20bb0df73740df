/**
  * The daemon's loop: waiting, waking, ticking and backing off. Wakes may arrive at any await, so
  * each method below is one uninterrupted stretch between two of them.
  */
module Daemon {
  import opened Prelude

  datatype Status = Synced | Idle | Offline | Failed

  /** How a sync attempt ends: with a status, or by throwing. */
  datatype Outcome = Finished(status: Status) | Threw

  const MAX_DOUBLINGS := 32

  function Max(a: int, b: int): int { if a < b then b else a }

  function Min(a: int, b: int): int { if a < b then a else b }

  function Pow2(n: nat): nat { if n == 0 then 1 else 2 * Pow2(n - 1) }

  /** The wait before retry number `attempt`: doubling from `baseMs`, never above `maxMs`. */
  function NextBackoffMs(attempt: int, baseMs: int, maxMs: int): int {
    Min(baseMs * Pow2(Min(Max(1, attempt) - 1, MAX_DOUBLINGS)), maxMs)
  }

  predicate ShouldBackoff(status: Status) {
    status.Failed? || status.Offline?
  }

  /** A crash of the runner counts as a failure too. */
  predicate Fails(outcome: Outcome) {
    outcome.Threw? || ShouldBackoff(outcome.status)
  }

  lemma {:induction false} Pow2Monotone(a: nat, b: nat)
    requires a <= b
    ensures Pow2(a) <= Pow2(b)
    decreases b - a
  {
    if a < b { Pow2Monotone(a, b - 1); }
  }

  /** The delay never shrinks while failures pile up, and stays within the ceiling. */
  lemma BackoffIsMonotoneAndCapped(a: int, b: int, baseMs: int, maxMs: int)
    requires a <= b && 0 <= baseMs
    ensures NextBackoffMs(a, baseMs, maxMs) <= NextBackoffMs(b, baseMs, maxMs) <= maxMs
    ensures NextBackoffMs(a, baseMs, maxMs) >= Min(baseMs, maxMs)
  {
    var m, n := Min(Max(1, a) - 1, MAX_DOUBLINGS), Min(Max(1, b) - 1, MAX_DOUBLINGS);
    Pow2Monotone(m, n);
    Pow2Monotone(0, m);
    ScaleMonotone(baseMs, Pow2(m), Pow2(n));
    ScaleMonotone(baseMs, 1, Pow2(m));
  }

  lemma ScaleMonotone(base: int, x: int, y: int)
    requires 0 <= base && x <= y
    ensures base * x <= base * y
  {
  }

  /** The first retry waits the base; each of 32 further failures doubles that until the ceiling takes over. */
  lemma BackoffDoubles(attempt: int, baseMs: int, maxMs: int)
    requires 1 <= attempt <= 32 && 0 <= baseMs
    ensures NextBackoffMs(1, baseMs, maxMs) == Min(baseMs, maxMs)
    ensures NextBackoffMs(attempt, baseMs, maxMs) < maxMs ==>
              NextBackoffMs(attempt + 1, baseMs, maxMs) == Min(2 * NextBackoffMs(attempt, baseMs, maxMs), maxMs)
    ensures forall more :: more >= 33 ==> NextBackoffMs(more, baseMs, maxMs) == NextBackoffMs(33, baseMs, maxMs)
  {
    assert Pow2(attempt) == 2 * Pow2(attempt - 1);
    assert baseMs * (2 * Pow2(attempt - 1)) == 2 * (baseMs * Pow2(attempt - 1));
  }

  /** Where the loop is suspended. `Woken`: a wake resolved the wait, the loop has not resumed yet. */
  datatype Phase = Waiting(target: int) | Woken | Syncing | Done

  datatype Attempt = Attempt(at: int, notBefore: int)

  class DaemonRuntime {
    const intervalMs: nat
    const pausedPollMs: nat
    const baseMs: nat
    const maxMs: nat
    var scheduleAt: int
    var notBefore: int
    var failures: nat
    var pendingWake: bool
    var stopped: bool
    var phase: Phase
    /** The latest time read. */
    var clock: int
    /** A wake was accepted and no tick has started since. */
    ghost var owed: bool
    /** Every sync attempt's start, with the backoff deadline in force. */
    ghost var attempts: seq<Attempt>
    /** Failed attempts since the last success. */
    ghost var streak: nat
    /** How many ticks have started. */
    ghost var ticks: nat

    /**
      * An owed wake is never lost and never late: the loop is about to resume, or a running sync will
      * look at it, or the wait under way ends as soon as the backoff deadline allows.
      */
    ghost predicate Valid()
      reads this
    {
      && (phase.Waiting? ==> phase.target == Max(scheduleAt, notBefore)) && (phase.Done? ==> stopped)
      && (owed && !stopped ==> phase.Woken? || (phase.Syncing? && pendingWake) ||
                               (phase.Waiting? && phase.target <= Max(clock, notBefore)))
      && Orderly()
    }

    /** Attempts kept their deadlines, and no deadline is further off than the longest backoff. */
    ghost predicate Orderly()
      reads this
    {
      Attempted() && 0 <= clock && notBefore <= clock + maxMs
    }

    ghost predicate Attempted()
      reads this
    {
      (forall a :: a in attempts ==> a.notBefore <= a.at) && failures == streak
    }

    constructor (now: nat, intervalMs: nat, pausedPollMs: nat, baseMs: nat, maxMs: nat)
      ensures Valid() && !owed && !stopped && attempts == [] && ticks == 0
      ensures clock == now && phase == Waiting(now)
    {
      this.intervalMs, this.pausedPollMs, this.baseMs, this.maxMs := intervalMs, pausedPollMs, baseMs, maxMs;
      scheduleAt, notBefore, failures, pendingWake, stopped := now, 0, 0, false, false;
      phase := Waiting(now);
      clock, owed, attempts, streak, ticks := now, false, [], 0, 0;
    }

    /** Resolves the wait if one is under way, else leaves a note for the end of the next tick. */
    method Wake()
      requires Valid()
      modifies this`phase, this`pendingWake, this`owed
      ensures Valid() && (!stopped ==> owed)
      ensures phase == if !stopped && old(phase).Waiting? then Woken else old(phase)
      ensures pendingWake == (old(pendingWake) || (!stopped && !old(phase).Waiting?))
      ensures stopped ==> owed == old(owed)
    {
      if stopped { return; }
      owed := true;
      if phase.Waiting? {
        phase := Woken;
        return;
      }
      pendingWake := true;
    }

    /** Aborts: a wait ends at once, a wake already resolved or a running sync is still seen through. */
    method Stop()
      requires Valid()
      modifies this`stopped, this`phase
      ensures Valid() && stopped && phase == if old(phase).Waiting? then Done else old(phase)
    {
      stopped := true;
      if phase.Waiting? { phase := Done; }
    }

    /** The top of the loop: stop, or wait for the schedule and the backoff deadline. */
    method Top(now: int)
      requires clock <= now && (owed && !stopped ==> Max(scheduleAt, notBefore) <= Max(now, notBefore))
      requires Attempted() && 0 <= now && notBefore <= now + maxMs
      modifies this`phase, this`clock
      ensures Valid() && clock == now
      ensures phase == if stopped then Done else Waiting(Max(scheduleAt, notBefore))
    {
      clock := now;
      phase := if stopped then Done else Waiting(Max(scheduleAt, notBefore));
    }

    /** After a tick: a wake that came meanwhile pulls the schedule forward. */
    method AfterTick(now: int)
      requires clock <= now && (owed && !stopped ==> pendingWake)
      requires Attempted() && 0 <= now && notBefore <= now + maxMs
      modifies this`phase, this`clock, this`pendingWake, this`scheduleAt
      ensures Valid() && clock == now && !pendingWake
      ensures scheduleAt == if old(pendingWake) then Min(old(scheduleAt), now - 1) else old(scheduleAt)
      ensures phase == if stopped then Done else Waiting(Max(scheduleAt, notBefore))
    {
      if pendingWake {
        pendingWake := false;
        scheduleAt := Min(scheduleAt, now - 1);
      }
      Top(now);
    }

    /** Starts a tick: paused daemons only poll the flag, others begin a sync attempt. */
    method BeginTick(now: int, paused: bool)
      requires clock <= now && notBefore <= now
      requires Orderly()
      modifies this`phase, this`clock, this`pendingWake, this`scheduleAt, this`owed, this`attempts, this`ticks
      ensures Valid() && clock == now && !owed && ticks == old(ticks) + 1
      ensures attempts == if paused then old(attempts) else old(attempts) + [Attempt(now, notBefore)]
      ensures !paused ==> phase.Syncing? && scheduleAt == old(scheduleAt) && pendingWake == old(pendingWake)
      ensures paused ==>
                scheduleAt == (if old(pendingWake) then Min(now + pausedPollMs, now - 1) else now + pausedPollMs)
      ensures paused ==> !pendingWake && phase == if stopped then Done else Waiting(Max(scheduleAt, notBefore))
    {
      owed, ticks := false, ticks + 1;
      if paused {
        scheduleAt := now + pausedPollMs;
        AfterTick(now);
        return;
      }
      clock := now;
      attempts := attempts + [Attempt(now, notBefore)];
      phase := Syncing;
    }

    /** The timer ends the wait, possibly early; a tick starts exactly when its time has come. */
    method TimerFires(now: int, paused: bool)
      requires Valid() && phase.Waiting? && clock <= now
      modifies this`phase, this`clock, this`pendingWake, this`scheduleAt, this`owed, this`attempts, this`ticks
      ensures Valid() && clock == now
      ensures var due := Max(old(scheduleAt), notBefore) <= now;
              && attempts == (if due && !paused then old(attempts) + [Attempt(now, notBefore)] else old(attempts))
              && ticks == (if due then old(ticks) + 1 else old(ticks)) && (due ==> !owed)
              && (!due ==> owed == old(owed) && scheduleAt == old(scheduleAt) && !phase.Syncing?)
    {
      if now < Max(scheduleAt, notBefore) {
        Top(now);
      } else {
        BeginTick(now, paused);
      }
    }

    /** The loop resumes after a wake: it ticks now, or as soon as the backoff deadline allows. */
    method Resume(now: int, paused: bool)
      requires Valid() && phase.Woken? && clock <= now
      modifies this`phase, this`clock, this`pendingWake, this`scheduleAt, this`owed, this`attempts, this`ticks
      ensures Valid() && clock == now
      ensures attempts ==
                  (if notBefore <= now && !paused then old(attempts) + [Attempt(now, notBefore)] else old(attempts))
      ensures ticks == (if notBefore <= now then old(ticks) + 1 else old(ticks)) && (notBefore <= now ==> !owed)
      ensures now < notBefore ==> owed == old(owed) && phase == if stopped then Done else Waiting(notBefore)
    {
      scheduleAt := now - 1;
      if now < Max(scheduleAt, notBefore) {
        Top(now);
      } else {
        BeginTick(now, paused);
      }
    }

    /** A sync attempt ends: a failure pushes the deadline out, a success clears it. */
    method FinishSync(now: int, outcome: Outcome)
      requires Valid() && phase.Syncing? && clock <= now
      modifies this`phase, this`clock, this`pendingWake, this`scheduleAt, this`notBefore, this`failures, this`streak
      ensures Valid() && clock == now && attempts == old(attempts)
      ensures var failed := outcome in {Threw, Finished(Offline), Finished(Failed)};
              && failures == (if failed then old(failures) + 1 else 0)
              && notBefore == (if failed then now + NextBackoffMs(failures, baseMs, maxMs) else 0)
      ensures scheduleAt == if old(pendingWake) then Min(now + intervalMs, now - 1) else now + intervalMs
      ensures !pendingWake && phase == if stopped then Done else Waiting(Max(scheduleAt, notBefore))
    {
      if Fails(outcome) {
        failures, streak := failures + 1, streak + 1;
        notBefore := now + NextBackoffMs(failures, baseMs, maxMs);
      } else {
        failures, streak := 0, 0;
        notBefore := 0;
      }
      scheduleAt := now + intervalMs;
      AfterTick(now);
    }

    /** The wake at `w` is answered, or still owed after at most the long move that ended a running sync. */
    ghost predicate Answered(events: seq<Event>, ticksAt: seq<nat>, w: nat, i: nat)
      requires w < i <= |events| && i <= |ticksAt|
      reads this
    {
      || ticks > ticksAt[w]
      || (owed && !stopped && LongSince(events, w, i, maxMs) <= if phase.Syncing? then 0 else 1)
    }

    /** One event. Without a halt a wake owed before it is answered or still owed. */
    method Happen(e: Event)
      requires Valid()
      modifies this
      ensures Valid() && old(attempts) <= attempts && old(ticks) <= ticks
      ensures !e.Halt? ==> stopped == old(stopped)
      ensures e.WakeUp? && !stopped ==> owed
      ensures old(owed) && !old(stopped) && !e.Halt? ==>
                || ticks > old(ticks)
                || (owed && !phase.Syncing? && (e.Move? && e.elapsed >= maxMs ==> old(phase).Syncing?))
                || (owed && phase.Syncing? && old(phase).Syncing? && e.WakeUp?)
    {
      if e.WakeUp? {
        Wake();
      } else if e.Halt? {
        Stop();
      } else {
        var now := clock + e.elapsed;
        if phase.Waiting? {
          TimerFires(now, e.paused);
        } else if phase.Woken? {
          Resume(now, e.paused);
        } else if phase.Syncing? {
          FinishSync(now, e.outcome);
        }
      }
    }

    /**
      * Any interleaving of wakes, stops, timers and sync results, at any non-decreasing times. Every
      * attempt in it began at or after the deadline then in force. After an accepted wake a tick
      * starts, unless the daemon is stopped, by the second move that takes as long as the longest
      * backoff: the first may only end a sync that was running.
      */
    method Play(events: seq<Event>) returns (ghost ticksAt: seq<nat>)
      requires Valid()
      modifies this
      ensures Valid() && old(attempts) <= attempts
      ensures forall a :: a in attempts ==> a.notBefore <= a.at
      ensures |ticksAt| == |events| && forall i :: 0 <= i < |events| ==> ticksAt[i] <= ticks
      ensures !old(stopped) && (forall e :: e in events ==> !e.Halt?) ==>
                forall w, i, j | && 0 <= w < i < j < |events| && events[w].WakeUp?
                                 && events[i].Move? && events[i].elapsed >= maxMs
                                 && events[j].Move? && events[j].elapsed >= maxMs :: ticks > ticksAt[w]
    {
      ticksAt := [];
      for i := 0 to |events|
        invariant Valid() && old(attempts) <= attempts && |ticksAt| == i
        invariant forall j :: 0 <= j < i ==> ticksAt[j] <= ticks
        invariant !old(stopped) && NoHalt(events[..i]) ==>
                    !stopped && forall w :: 0 <= w < i && events[w].WakeUp? ==> Answered(events, ticksAt, w, i)
      {
        ghost var count := ticks;
        NoHaltStep(events, i);
        Happen(events[i]);
        forall w | 0 <= w < i
          ensures LongSince(events, w, i + 1, maxMs) == LongSince(events, w, i, maxMs) + Long(events[i], maxMs)
        {
          LongStep(events, w, i, maxMs);
        }
        ticksAt := ticksAt + [count];
      }
      assert events[..|events|] == events;
      forall w, i, j | && 0 <= w < i < j < |events| && events[w].WakeUp?
                       && events[i].Move? && events[i].elapsed >= maxMs
                       && events[j].Move? && events[j].elapsed >= maxMs
        ensures LongSince(events, w, |events|, maxMs) >= 2
      {
        LongTwice(events, w, i, j, |events|, maxMs);
      }
    }
  }

  /** What happens next: a wake, a stop, or the loop moving on after some time. */
  datatype Event = WakeUp | Halt | Move(elapsed: nat, paused: bool, outcome: Outcome)

  predicate NoHalt(events: seq<Event>) {
    forall e :: e in events ==> !e.Halt?
  }

  /** A move that takes at least `ms`. */
  function Long(e: Event, ms: nat): nat {
    if e.Move? && e.elapsed >= ms then 1 else 0
  }

  function LongMoves(events: seq<Event>, ms: nat): nat {
    if events == [] then 0 else LongMoves(events[..|events| - 1], ms) + Long(events[|events| - 1], ms)
  }

  /** The long moves after event `w`, up to event `i`. */
  function LongSince(events: seq<Event>, w: nat, i: nat, ms: nat): nat
    requires w < i <= |events|
  {
    LongMoves(events[w + 1..i], ms)
  }

  lemma LongStep(events: seq<Event>, w: nat, i: nat, ms: nat)
    requires w < i < |events|
    ensures LongSince(events, w, i + 1, ms) == LongSince(events, w, i, ms) + Long(events[i], ms)
  {
    assert events[w + 1..i + 1][..i - w - 1] == events[w + 1..i];
  }

  /** Two long moves count as two. */
  lemma {:induction false} LongTwice(events: seq<Event>, w: nat, i: nat, j: nat, n: nat, ms: nat)
    requires w < i < j < n <= |events| && Long(events[i], ms) == Long(events[j], ms) == 1
    ensures LongSince(events, w, n, ms) >= 2
    decreases n
  {
    LongStep(events, w, n - 1, ms);
    if n - 1 == j { LongOnce(events, w, i, j, ms); } else { LongTwice(events, w, i, j, n - 1, ms); }
  }

  lemma {:induction false} LongOnce(events: seq<Event>, w: nat, i: nat, n: nat, ms: nat)
    requires w < i < n <= |events| && Long(events[i], ms) == 1
    ensures LongSince(events, w, n, ms) >= 1
    decreases n
  {
    LongStep(events, w, n - 1, ms);
    if n - 1 > i { LongOnce(events, w, i, n - 1, ms); }
  }

  lemma NoHaltStep(events: seq<Event>, i: nat)
    requires i < |events|
    ensures NoHalt(events[..i + 1]) <==> NoHalt(events[..i]) && !events[i].Halt?
  {
    assert events[..i + 1] == events[..i] + [events[i]];
  }
}

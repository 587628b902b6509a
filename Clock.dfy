/** The tick clock: emits CurrentTick once per interval and increments it afterwards unless paused.
    The endless loop is split into a Fire step (apply a pending unpause, emit the tick) and an
    Advance step (increment unless paused); the tick handler runs between the two and may pause or
    resume the clock. */
module Clock {
  import opened TickService

  /** Every field of the clock. pauseChanges counts PauseChanged notifications. */
  datatype ClockState = ClockState(currentTick: Tick, paused: bool, pausedAtTick: Tick, justUnpaused: bool, pauseChanges: nat)

  function Pause(s: ClockState): ClockState
  {
    if s.paused then s
    else s.(paused := true, pausedAtTick := s.currentTick, pauseChanges := s.pauseChanges + 1)
  }

  function Resume(s: ClockState): ClockState
  {
    if !s.paused then s
    else s.(justUnpaused := true, paused := false, pauseChanges := s.pauseChanges + 1)
  }

  /** The start of each loop iteration: a pending unpause jumps to the tick after the paused tick. */
  function FireStep(s: ClockState): ClockState
  {
    if s.justUnpaused then s.(justUnpaused := false, currentTick := AddTick(s.pausedAtTick, 1)) else s
  }

  /** The tick TickUpdated is raised with. */
  function Emitted(s: ClockState): Tick
  {
    FireStep(s).currentTick
  }

  /** The end of each loop iteration, after the interval has elapsed. */
  function AdvanceStep(s: ClockState): ClockState
  {
    if !s.paused then s.(currentTick := AddTick(s.currentTick, 1)) else s
  }

  function BeginStep(s: ClockState, startTick: Tick): ClockState
  {
    Resume(s.(currentTick := startTick))
  }

  /** The ticks emitted over `n` loop iterations in which the handler neither pauses nor resumes. */
  function Run(s: ClockState, n: nat): (r: seq<Tick>)
    ensures |r| == n
    decreases n
  {
    if n == 0 then [] else [Emitted(s)] + Run(AdvanceStep(FireStep(s)), n - 1)
  }

  lemma PauseIdempotent(s: ClockState)
    ensures Pause(Pause(s)) == Pause(s)
    ensures Pause(s).paused
  {
  }

  lemma ResumeIdempotent(s: ClockState)
    ensures Resume(Resume(s)) == Resume(s)
    ensures !Resume(s).paused
  {
  }

  /** PauseChanged is raised exactly when Pause or Resume changes the paused flag. */
  lemma PauseChangedOnlyOnChange(s: ClockState)
    ensures Pause(s).pauseChanges == s.pauseChanges + (if s.paused then 0 else 1)
    ensures Resume(s).pauseChanges == s.pauseChanges + (if s.paused then 1 else 0)
  {
  }

  /** Pausing records the current tick; resuming then firing continues at the tick after it. */
  lemma {:induction false} PauseResumeContinues(s: ClockState)
    requires !s.paused
    ensures Emitted(Resume(Pause(s))) == AddTick(s.currentTick, 1)
    ensures !FireStep(Resume(Pause(s))).justUnpaused && !FireStep(Resume(Pause(s))).paused
  {
  }

  /** However long the clock stayed paused, the first tick after resuming is the paused tick plus one. */
  lemma {:induction false} ResumeSnaps(s: ClockState, k: nat)
    requires s.paused
    ensures Emitted(Resume(AdvanceFires(s, k))) == AddTick(s.pausedAtTick, 1)
  {
    PausedStaysPut(s, k);
  }

  /** k loop iterations with no handler interference. */
  function AdvanceFires(s: ClockState, k: nat): ClockState
    decreases k
  {
    if k == 0 then s else AdvanceFires(AdvanceStep(FireStep(s)), k - 1)
  }

  lemma {:induction false} PausedStaysPut(s: ClockState, k: nat)
    requires s.paused
    ensures AdvanceFires(s, k).paused && AdvanceFires(s, k).pausedAtTick == s.pausedAtTick
    ensures k > 0 ==> AdvanceFires(s, k).currentTick == Emitted(s)
    decreases k
  {
    if k > 0 {
      PausedStaysPut(AdvanceStep(FireStep(s)), k - 1);
    }
  }

  /** While paused, every interval re-emits the same tick. */
  lemma {:induction false} PausedRepeatsTick(s: ClockState, n: nat)
    requires s.paused
    ensures forall k :: 0 <= k < n ==> Run(s, n)[k] == Emitted(s)
    decreases n
  {
    if n > 0 {
      var s' := AdvanceStep(FireStep(s));
      PausedRepeatsTick(s', n - 1);
      assert Emitted(s') == Emitted(s);
    }
  }

  /** While running, the k-th interval emits the first tick plus k (wrapping). */
  lemma {:induction false} RunningEmitsAt(s: ClockState, n: nat, k: nat)
    requires !s.paused && k < n
    ensures Run(s, n)[k] == AddTick(Emitted(s), k)
    decreases k
  {
    var s' := AdvanceStep(FireStep(s));
    var e := Emitted(s);
    assert Run(s, n) == [e] + Run(s', n - 1);
    if k > 0 {
      RunningEmitsAt(s', n - 1, k - 1);
      assert Emitted(s') == AddTick(e, 1);
      AddCompose(e, 1, k - 1);
    }
  }

  /** While running, consecutive intervals emit consecutive (wrapping) ticks. */
  lemma {:induction false} RunningCountsUp(s: ClockState, n: nat)
    requires !s.paused
    ensures forall k :: 0 <= k < n ==> Run(s, n)[k] == AddTick(Emitted(s), k)
  {
    forall k | 0 <= k < n
      ensures Run(s, n)[k] == AddTick(Emitted(s), k)
    {
      RunningEmitsAt(s, n, k);
    }
  }

  /** Begin on a running clock with no unpause pending emits StartTick first. */
  lemma {:induction false} BeginRunningStartsAtStartTick(s: ClockState, startTick: Tick)
    requires !s.paused && !s.justUnpaused
    ensures Emitted(BeginStep(s, startTick)) == startTick
  {
  }

  /** Begin on a paused clock resumes it, and the pending unpause then overrides StartTick: the
      first emitted tick is the paused tick plus one. The same happens on a running clock whose
      unpause is still pending (resumed since the last loop iteration). */
  lemma {:induction false} BeginPausedSkipsStartTick(s: ClockState, startTick: Tick)
    requires s.paused || s.justUnpaused
    ensures Emitted(BeginStep(s, startTick)) == AddTick(s.pausedAtTick, 1)
    ensures !BeginStep(s, startTick).paused
  {
  }

  /** The clock's resting shape: a paused clock sits on its paused tick, and an unpause is only
      pending on a running clock. */
  predicate Settled(s: ClockState)
  {
    (s.paused ==> s.currentTick == s.pausedAtTick) && (s.justUnpaused ==> !s.paused)
  }

  /** The constructed clock is settled and every operation keeps it so, except a pause while an
      unpause is still pending (resumed and paused again before the next loop iteration), which
      leaves the clock paused with the jump to the paused tick plus one still to come. The tick
      handler only ever pauses or resumes after a fire step, which clears the pending unpause. */
  lemma {:induction false} SettledIsInvariant(s: ClockState, startTick: Tick)
    requires Settled(s)
    ensures !s.justUnpaused ==> Settled(Pause(s))
    ensures s.justUnpaused && !s.paused ==> !Settled(Pause(s))
    ensures Settled(Resume(s)) && Settled(FireStep(s)) && !FireStep(s).justUnpaused && Settled(AdvanceStep(s))
    ensures Settled(BeginStep(s, startTick))
    ensures Settled(ClockState(0, false, 0, false, 0))
  {
  }

  class Clock {
    var currentTick: Tick
    var paused: bool
    var pausedAtTick: Tick
    var justUnpaused: bool
    var pauseChanges: nat

    function State(): ClockState
      reads this
    {
      ClockState(currentTick, paused, pausedAtTick, justUnpaused, pauseChanges)
    }

    constructor ()
      ensures State() == ClockState(0, false, 0, false, 0)
    {
      currentTick, paused, pausedAtTick, justUnpaused, pauseChanges := 0, false, 0, false, 0;
    }

    /** Restarts the clock at StartTick (the coroutine itself is not modelled). */
    method Begin(startTick: Tick)
      modifies this
      ensures State() == BeginStep(old(State()), startTick)
    {
      currentTick := startTick;
      ResumeIncrementing();
    }

    method PauseIncrementing()
      modifies this
      ensures State() == Pause(old(State()))
    {
      if paused {
        return;
      }
      paused := true;
      pausedAtTick := currentTick;
      pauseChanges := pauseChanges + 1;
    }

    method ResumeIncrementing()
      modifies this
      ensures State() == Resume(old(State()))
    {
      if !paused {
        return;
      }
      justUnpaused := true;
      paused := false;
      pauseChanges := pauseChanges + 1;
    }

    /** The first half of a loop iteration, returning the tick TickUpdated is raised with. */
    method Fire() returns (tick: Tick)
      modifies this
      ensures State() == FireStep(old(State()))
      ensures tick == Emitted(old(State())) && tick == currentTick
    {
      if justUnpaused {
        justUnpaused := false;
        currentTick := AddTick(pausedAtTick, 1);
      }
      tick := currentTick;
    }

    /** The second half of a loop iteration, after the wait. */
    method Advance()
      modifies this
      ensures State() == AdvanceStep(old(State()))
    {
      if !paused {
        IncrementCurrentTick();
      }
    }

    method IncrementCurrentTick()
      modifies this
      ensures State() == old(State()).(currentTick := AddTick(old(currentTick), 1))
    {
      currentTick := AddTick(currentTick, 1);
    }
  }
}

/** One player's input history: a frame per tick plus the window [StartInclusive, EndExclusive) of ticks that hold input. */
module InputBuffer {
  import opened TickService
  import opened InputMasks

  /** `t` is at or after `start` and before `end` under the tick order. */
  predicate InWindow(t: UShort, start: UShort, end: UShort)
  {
    IsTickAfter(t, start) && IsTickBefore(t, end)
  }

  /** What the StartInclusive setter asserts once the new start is stored. */
  predicate StartSetterAccepts(start: UShort, end: UShort)
  {
    IsBeforeOrEqual(start, end)
  }

  /** What the EndExclusive setter asserts once the new end is stored: the end is not within
      100 ticks of wrapping round to before the start, and the start is not after the end. */
  predicate EndSetterAccepts(start: UShort, end: UShort)
  {
    !IsTickBefore(AddTick(end, 100), start) && IsBeforeOrEqual(start, end)
  }

  /** The value of a buffer: every slot and both cursors. */
  datatype Window = Window(history: seq<bv16>, start: Tick, end: Tick)

  lemma {:induction false} EmptyWindowHoldsNothing(t: UShort, s: UShort)
    ensures !InWindow(t, s, s)
  {
  }

  /** The end cursor itself is never inside the window. */
  lemma {:induction false} EndIsOutsideWindow(s: UShort, e: UShort)
    ensures !InWindow(e, s, e)
  {
    BeforeIrreflexive(e);
  }

  /** For a well-ordered window, the start tick holds input exactly when the window is not empty. */
  lemma {:induction false} StartInWindowIffNonEmpty(s: UShort, e: UShort)
    requires IsBeforeOrEqual(s, e)
    ensures InWindow(s, s, e) <==> s != e
  {
    BeforeIrreflexive(s);
  }

  /** Initialise sets the start first, against the OLD end: a new start beyond the old end fails
      the start setter's assertion even when the new window itself would be well ordered. */
  lemma {:induction false} InitialiseOrderMatters()
    ensures EndSetterAccepts(2000, 3000)
    ensures !StartSetterAccepts(2000, 100)
  {
  }

  class InputBuffer {
    /** history[tick] is the input frame during that tick. */
    var history: array<bv16>
    var startInclusive: Tick
    var endExclusive: Tick

    ghost predicate Valid()
      reads this
    {
      history.Length == MaxTick && IsBeforeOrEqual(startInclusive, endExclusive)
    }

    function State(): (w: Window)
      reads this, history
      requires Valid()
      ensures |w.history| == MaxTick
    {
      Window(history[..], startInclusive, endExclusive)
    }

    constructor ()
      ensures Valid() && fresh(history)
      ensures State() == Window(seq(MaxTick, _ => 0), 0, 0)
    {
      history := new bv16[MaxTick](_ => 0);
      startInclusive, endExclusive := 0, 0;
    }

    /** The StartInclusive property setter. */
    method SetStartInclusive(value: Tick)
      requires Valid() && StartSetterAccepts(value, endExclusive)
      modifies this`startInclusive
      ensures Valid() && State() == old(State()).(start := value)
    {
      startInclusive := value;
    }

    /** The EndExclusive property setter. */
    method SetEndExclusive(value: Tick)
      requires Valid() && EndSetterAccepts(startInclusive, value)
      modifies this`endExclusive
      ensures Valid() && State() == old(State()).(end := value)
    {
      endExclusive := value;
    }

    method Initialise(start: Tick, end: Tick)
      requires Valid()
      requires StartSetterAccepts(start, endExclusive)
      requires EndSetterAccepts(start, end)
      modifies this`startInclusive, this`endExclusive
      ensures Valid() && State() == old(State()).(start := start, end := end)
    {
      SetStartInclusive(start);
      SetEndExclusive(end);
    }

    predicate HasInput(t: UShort)
      reads this
    {
      InWindow(t, startInclusive, endExclusive)
    }

    /** Changes slot `t` only; both cursors stay as they are. */
    method WriteInput(t: Tick, input: bv16)
      requires Valid()
      modifies history
      ensures Valid() && State() == old(State()).(history := old(history[..])[t := input])
    {
      history[t] := input;
    }

    function GetRawInput(t: Tick): (r: bv16)
      reads this, history
      requires Valid() && HasInput(t)
      ensures r == State().history[t]
    {
      history[t]
    }

    function GetInput(t: Tick, inputMask: bv16): (r: bool)
      reads this, history
      requires Valid() && HasInput(t)
      ensures r <==> Held(State().history[t], inputMask)
    {
      Held(history[t], inputMask)
    }

    /** Reads tick-1 first; tick is only read (and so only asserted present) when tick-1 does not hold the action. */
    function GetInputDown(t: Tick, inputMask: bv16): (r: bool)
      reads this, history
      requires Valid() && HasInput(SubtractTick(t, 1))
      requires !Held(history[SubtractTick(t, 1)], inputMask) ==> HasInput(t)
      ensures r <==> PressedBetween(history[SubtractTick(t, 1)], history[t], inputMask)
    {
      !GetInput(SubtractTick(t, 1), inputMask) && GetInput(t, inputMask)
    }

    /** Reads tick-1 first; tick is only read when tick-1 holds the action. */
    function GetInputUp(t: Tick, inputMask: bv16): (r: bool)
      reads this, history
      requires Valid() && HasInput(SubtractTick(t, 1))
      requires Held(history[SubtractTick(t, 1)], inputMask) ==> HasInput(t)
      ensures r <==> ReleasedBetween(history[SubtractTick(t, 1)], history[t], inputMask)
    {
      GetInput(SubtractTick(t, 1), inputMask) && !GetInput(t, inputMask)
    }

    function GetMoveInput(t: Tick): (r: int)
      reads this, history
      requires Valid() && HasInput(t)
      ensures -1 <= r <= 1
      ensures r == MoveAxis(history[t])
    {
      (if GetInput(t, MoveLeft) then -1 else 0) + (if GetInput(t, MoveRight) then 1 else 0)
    }
  }
}

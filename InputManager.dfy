/** The older input history: every slot starts as the Invalid sentinel, and a tick holds input when its slot is not Invalid. */
module InputManager {
  import opened TickService
  import opened InputMasks

  class InputManager {
    /** history[tick] is the input frame during that tick. */
    var history: array<bv16>

    ghost predicate Valid()
      reads this
    {
      history.Length == MaxTick
    }

    /** The field initialiser: a fresh, zeroed array (Awake then fills it). */
    constructor ()
      ensures Valid() && fresh(history)
      ensures forall t :: 0 <= t < MaxTick ==> history[t] == 0
    {
      history := new bv16[MaxTick](_ => 0);
    }

    /** Marks every slot as holding no input. */
    method Awake()
      requires Valid()
      modifies history
      ensures Valid()
      ensures forall t :: 0 <= t < MaxTick ==> history[t] == Invalid
      ensures forall t: Tick :: !HasInput(t)
    {
      var i := 0;
      while i < MaxTick
        invariant 0 <= i <= MaxTick
        invariant forall j :: 0 <= j < i ==> history[j] == Invalid
      {
        history[i] := Invalid;
        i := i + 1;
      }
    }

    predicate HasInput(t: Tick)
      reads this, history
      requires Valid()
    {
      !IsInvalid(history[t])
    }

    function GetInput(t: Tick, inputMask: bv16): (r: bool)
      reads this, history
      requires Valid() && HasInput(t)
      ensures r <==> Held(history[t], inputMask)
    {
      history[t] & inputMask != 0
    }

    /** Reads tick-1 (wrapping) first; tick is only read when tick-1 does not hold the action. */
    function GetInputDown(t: Tick, inputMask: bv16): (r: bool)
      reads this, history
      requires Valid() && HasInput(SubtractTick(t, 1))
      requires !Held(history[SubtractTick(t, 1)], inputMask) ==> HasInput(t)
      ensures r <==> PressedBetween(history[SubtractTick(t, 1)], history[t], inputMask)
    {
      !GetInput(SubtractTick(t, 1), inputMask) && GetInput(t, inputMask)
    }

    /** Reads tick-1 (wrapping) first; tick is only read when tick-1 holds the action. */
    function GetInputUp(t: Tick, inputMask: bv16): (r: bool)
      reads this, history
      requires Valid() && HasInput(SubtractTick(t, 1))
      requires Held(history[SubtractTick(t, 1)], inputMask) ==> HasInput(t)
      ensures r <==> ReleasedBetween(history[SubtractTick(t, 1)], history[t], inputMask)
    {
      GetInput(SubtractTick(t, 1), inputMask) && !GetInput(t, inputMask)
    }

    function GetMoveInput(t: Tick): (r: int)
      reads this, history
      requires Valid() && HasInput(t)
      ensures -1 <= r <= 1
      ensures r == MoveAxis(history[t])
    {
      (if GetInput(t, MoveLeft) then -1 else 0) + (if GetInput(t, MoveRight) then 1 else 0)
    }
  }
}

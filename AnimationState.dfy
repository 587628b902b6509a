/** The animation part of a rollback snapshot: three value-typed fields, copied one by one. */
module AnimationState {
  import opened TickService

  datatype AnimationValues = AnimationValues(motionTime: real, lastLandedAtTick: UShort, isHit: bool)

  const ResetValues: AnimationValues := AnimationValues(0.0, 0, false)

  class AnimationState {
    /** A float in the game; only ever copied or zeroed here. */
    var motionTime: real
    var lastLandedAtTick: UShort
    var isHit: bool

    function Values(): AnimationValues
      reads this
    {
      AnimationValues(motionTime, lastLandedAtTick, isHit)
    }

    constructor ()
      ensures Values() == ResetValues
    {
      motionTime, lastLandedAtTick, isHit := 0.0, 0, false;
    }

    method Reset()
      modifies this
      ensures Values() == ResetValues
    {
      motionTime := 0.0;
      lastLandedAtTick := 0;
      isHit := false;
    }

    /** Copies other's three fields; other is only read, so assigning a state to itself changes
        nothing, and a later change to other is not seen here. */
    method Assign(other: AnimationState)
      modifies this
      ensures Values() == old(other.Values())
      ensures other.Values() == old(other.Values())
    {
      motionTime := other.motionTime;
      lastLandedAtTick := other.lastLandedAtTick;
      isHit := other.isHit;
    }
  }

  /** Assign copies values, not a reference: after `a.Assign(b)`, resetting b leaves a with b's old values. */
  method AssignThenChangeSource(a: AnimationState, b: AnimationState)
    requires a != b
    modifies a, b
    ensures a.Values() == old(b.Values())
    ensures b.Values() == ResetValues
  {
    a.Assign(b);
    b.Reset();
  }

  /** Assigning a state to itself leaves it as it was. */
  method AssignSelf(a: AnimationState)
    modifies a
    ensures a.Values() == old(a.Values())
  {
    a.Assign(a);
  }

  /** Assigning the same source twice is the same as once. */
  method AssignTwice(a: AnimationState, b: AnimationState)
    modifies a
    ensures a.Values() == old(b.Values())
  {
    a.Assign(b);
    a.Assign(b);
  }
}

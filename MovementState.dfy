/** A player's movement snapshot. It is a value (a C# struct): copying it copies every field,
    including the two event fields whose subscribers the IsFacingLeft and IsKicking setters call. */
module MovementState {
  import opened Wrappers

  /** Stand-in for Vector2: the modelled code only copies and compares vectors. */
  datatype Vec2 = Vec2(x: real, y: real)

  const Zero: Vec2 := Vec2(0.0, 0.0)

  /** The handlers a MovementManager subscribes to the two events of its live state. */
  datatype Listener = OnIsFacingLeftChanged | OnIsKickingChanged

  /** Stand-in for the Collider2D reference: an identity, or null. */
  type ColliderId = nat

  datatype MovementState = MovementState(
    position: Vec2,
    rigidbodyPosition: Vec2,
    candidateVelocity: Vec2,
    candidatePosition: Vec2,
    isGrounded: bool,
    groundNormal: Vec2,
    groundCollider: Option<ColliderId>,
    isFacingLeft: bool,
    isKicking: bool,
    /** The subscribers of IsFacingLeftChanged, in subscription order. */
    isFacingLeftChanged: seq<Listener>,
    /** The subscribers of IsKickingChanged, in subscription order. */
    isKickingChanged: seq<Listener>)

  /** A struct's default value: every field zero, false or null, and no subscribers. */
  const Default: MovementState := MovementState(Zero, Zero, Zero, Zero, false, Zero, None, false, false, [], [])

  /** A state after a setter or an Assign/Reset, with the subscribers invoked, in order. */
  datatype Updated = Updated(state: MovementState, invoked: seq<Listener>)

  function SetIsFacingLeft(s: MovementState, value: bool): Updated
  {
    Updated(s.(isFacingLeft := value), s.isFacingLeftChanged)
  }

  function SetIsKicking(s: MovementState, value: bool): Updated
  {
    Updated(s.(isKicking := value), s.isKickingChanged)
  }

  /** Every field except the event fields equals its counterpart. */
  predicate SameValues(a: MovementState, b: MovementState)
  {
    a.position == b.position && a.rigidbodyPosition == b.rigidbodyPosition
    && a.candidateVelocity == b.candidateVelocity && a.candidatePosition == b.candidatePosition
    && a.isGrounded == b.isGrounded && a.groundNormal == b.groundNormal && a.groundCollider == b.groundCollider
    && a.isFacingLeft == b.isFacingLeft && a.isKicking == b.isKicking
  }

  predicate SameListeners(a: MovementState, b: MovementState)
  {
    a.isFacingLeftChanged == b.isFacingLeftChanged && a.isKickingChanged == b.isKickingChanged
  }

  /** Zeroes the plain fields, then sets the two properties through their setters. */
  function Reset(s: MovementState): Updated
  {
    var cleared := s.(position := Zero, rigidbodyPosition := Zero, candidateVelocity := Zero,
      candidatePosition := Zero, isGrounded := false, groundNormal := Zero, groundCollider := None);
    var f := SetIsFacingLeft(cleared, false);
    var k := SetIsKicking(f.state, false);
    Updated(k.state, f.invoked + k.invoked)
  }

  /** Copies the plain fields, then the two properties through their setters; the event fields are
      not copied, so this state keeps its own subscribers. */
  function Assign(s: MovementState, other: MovementState): Updated
  {
    var copied := s.(position := other.position, rigidbodyPosition := other.rigidbodyPosition,
      candidateVelocity := other.candidateVelocity, candidatePosition := other.candidatePosition,
      isGrounded := other.isGrounded, groundNormal := other.groundNormal, groundCollider := other.groundCollider);
    var f := SetIsFacingLeft(copied, other.isFacingLeft);
    var k := SetIsKicking(f.state, other.isKicking);
    Updated(k.state, f.invoked + k.invoked)
  }

  lemma SameValuesIsEquivalence(a: MovementState, b: MovementState, c: MovementState)
    ensures SameValues(a, a)
    ensures SameValues(a, b) ==> SameValues(b, a)
    ensures SameValues(a, b) && SameValues(b, c) ==> SameValues(a, c)
  {
  }

  /** Two states with the same values and the same subscribers are the same struct. */
  lemma {:induction false} ValuesAndListenersDetermineState(a: MovementState, b: MovementState)
    requires SameValues(a, b) && SameListeners(a, b)
    ensures a == b
  {
  }

  /** Reset zeroes every value, keeps the subscribers, and calls each subscriber of each event once,
      IsFacingLeftChanged first, whether or not the property changed. */
  lemma {:induction false} ResetMeaning(s: MovementState)
    ensures SameValues(Reset(s).state, Default)
    ensures SameListeners(Reset(s).state, s)
    ensures Reset(s).invoked == s.isFacingLeftChanged + s.isKickingChanged
  {
  }

  /** Assign copies every value, keeps this state's subscribers, and calls each of them once. */
  lemma {:induction false} AssignMeaning(s: MovementState, other: MovementState)
    ensures SameValues(Assign(s, other).state, other)
    ensures SameListeners(Assign(s, other).state, s)
    ensures Assign(s, other).invoked == s.isFacingLeftChanged + s.isKickingChanged
  {
  }

  lemma {:induction false} AssignIdempotent(s: MovementState, other: MovementState)
    ensures Assign(Assign(s, other).state, other).state == Assign(s, other).state
  {
    AssignMeaning(s, other);
    AssignMeaning(Assign(s, other).state, other);
    ValuesAndListenersDetermineState(Assign(Assign(s, other).state, other).state, Assign(s, other).state);
  }

  lemma {:induction false} AssignSelfIsNoOp(s: MovementState)
    ensures Assign(s, s).state == s
  {
    AssignMeaning(s, s);
    ValuesAndListenersDetermineState(Assign(s, s).state, s);
  }

  /** Saving into a slot, changing the live state in any way that keeps its subscribers, and
      assigning the slot back restores the live state exactly. */
  lemma {:induction false} RestoreAfterSave(live: MovementState, slot: MovementState, changed: MovementState)
    requires SameListeners(changed, live)
    ensures Assign(changed, Assign(slot, live).state).state == live
  {
    var saved := Assign(slot, live).state;
    AssignMeaning(slot, live);
    AssignMeaning(changed, saved);
    ValuesAndListenersDetermineState(Assign(changed, saved).state, live);
  }

  // ---------------------------------------------------------------------------
  // Comparing a re-simulated state with its record

  /** The struct Equals the determinism check calls: every field, the two event fields included. */
  predicate EqualsAsWritten(a: MovementState, b: MovementState)
  {
    a == b
  }

  /** A record is made by assigning the live state into a slot that starts as the default struct,
      so it never carries subscribers: compared with Equals, the live state (which has a subscriber)
      differs from its own record even when every value is identical. */
  lemma {:induction false} ReplayFailsAsWritten(live: MovementState)
    requires live.isFacingLeftChanged != []
    ensures SameValues(live, Assign(Default, live).state)
    ensures !EqualsAsWritten(live, Assign(Default, live).state)
  {
    AssignMeaning(Default, live);
  }

  /** Compared on values, an identical re-simulation matches its record, whatever the slot held. */
  lemma {:induction false} ReplayPassesOnValues(live: MovementState, slot: MovementState)
    ensures SameValues(live, Assign(slot, live).state)
  {
    AssignMeaning(slot, live);
  }
}

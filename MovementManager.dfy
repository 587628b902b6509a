/** The movement component's rollback and bookkeeping side: the live state and its rollback slot,
    the rigidbody's position, the two visible effects of the live state's events (the sprite's
    facing and the kick collider), and the per-tick record used to check that re-simulation is
    deterministic. The physics step itself (ground checks, velocity proposal, obstruction handling)
    is not modelled. */
module MovementManager {
  import opened TickService
  import opened MovementState
  import MS = MovementState
  import opened Wrappers

  /** What the two event handlers change: whether the sprite's x scale is negative (faces left),
      and whether the kick collider is active. */
  datatype View = View(scaleFacesLeft: bool, kickColliderActive: bool)

  /** The facing handler turns the sprite to the live state's facing, unless the velocity is zero,
      in which case the sprite keeps its direction. */
  function TurnSprite(s: MovementState, scaleFacesLeft: bool): bool
  {
    if s.candidateVelocity == Zero then scaleFacesLeft else s.isFacingLeft
  }

  /** One subscriber run against the live state `s`. */
  function Handle(l: Listener, s: MovementState, v: View): View
  {
    match l
    case OnIsFacingLeftChanged => v.(scaleFacesLeft := TurnSprite(s, v.scaleFacesLeft))
    case OnIsKickingChanged => v.(kickColliderActive := s.isKicking)
  }

  /** The subscribers of an event, run in subscription order. */
  function HandleAll(ls: seq<Listener>, s: MovementState, v: View): View
  {
    if ls == [] then v else Handle(ls[|ls| - 1], s, HandleAll(ls[..|ls| - 1], s, v))
  }

  /** A moving player turns to the side its horizontal velocity points to; a still one keeps its
      direction. */
  lemma {:induction false} FacingFollowsVelocity(s: MovementState, scaleFacesLeft: bool)
    ensures s.candidateVelocity.x < 0.0 ==> TurnSprite(s.(isFacingLeft := s.candidateVelocity.x < 0.0), scaleFacesLeft)
    ensures s.candidateVelocity.x > 0.0 ==> !TurnSprite(s.(isFacingLeft := s.candidateVelocity.x < 0.0), scaleFacesLeft)
    ensures s.candidateVelocity == Zero ==> TurnSprite(s, scaleFacesLeft) == scaleFacesLeft
  {
    if s.candidateVelocity.x != 0.0 {
      assert s.candidateVelocity != Zero;
    }
  }

  /** The kick collider follows the live state's kicking flag, whatever it was before. */
  lemma {:induction false} KickColliderFollowsKicking(s: MovementState, v: View)
    ensures HandleAll([OnIsKickingChanged], s, v) == v.(kickColliderActive := s.isKicking)
    ensures HandleAll([OnIsFacingLeftChanged], s, v) == v.(scaleFacesLeft := TurnSprite(s, v.scaleFacesLeft))
  {
    assert [OnIsKickingChanged][..0] == [];
    assert [OnIsFacingLeftChanged][..0] == [];
  }

  class MovementManager {
    /** m_State */
    var state: MovementState
    /** m_RollbackState */
    var rollbackState: MovementState
    /** The rigidbody's position, which only the physics step and the methods below move. */
    var bodyPosition: Vec2
    var scaleFacesLeft: bool
    var kickColliderActive: bool
    /** The state recorded at each tick's first simulation. */
    const debugStateHistory: array<MovementState>
    /** Whether each tick has been simulated. */
    const debugStateSimulated: array<bool>

    function CurrentView(): View
      reads this
    {
      View(scaleFacesLeft, kickColliderActive)
    }

    /** After Awake: the arrays span every tick, the live state's two events each have this
        manager's handler as their only subscriber, and no other state has a subscriber. */
    ghost predicate Valid()
      reads this, debugStateHistory
    {
      debugStateHistory.Length == MaxTick && debugStateSimulated.Length == MaxTick
      && state.isFacingLeftChanged == [Listener.OnIsFacingLeftChanged]
      && state.isKickingChanged == [Listener.OnIsKickingChanged]
      && SameListeners(rollbackState, Default)
      && forall t :: 0 <= t < debugStateHistory.Length ==> SameListeners(debugStateHistory[t], Default)
    }

    /** Invariant (*): the body is where the live state says it is. */
    predicate BodyInSync()
      reads this
    {
      bodyPosition == state.rigidbodyPosition
    }

    /** The field initialisers and Awake: default structs everywhere, then the two handlers
        subscribed to the live state's events. The sprite's and the collider's initial look come
        from the scene. */
    constructor (initialScaleFacesLeft: bool, initialKickColliderActive: bool)
      ensures Valid()
      ensures state == Default.(isFacingLeftChanged := [Listener.OnIsFacingLeftChanged], isKickingChanged := [Listener.OnIsKickingChanged])
      ensures rollbackState == Default && bodyPosition == Zero
      ensures CurrentView() == View(initialScaleFacesLeft, initialKickColliderActive)
      ensures forall t :: 0 <= t < MaxTick ==> !debugStateSimulated[t] && debugStateHistory[t] == Default
      ensures fresh(debugStateHistory) && fresh(debugStateSimulated)
    {
      var live := Default;
      live := live.(isFacingLeftChanged := live.isFacingLeftChanged + [Listener.OnIsFacingLeftChanged]);
      live := live.(isKickingChanged := live.isKickingChanged + [Listener.OnIsKickingChanged]);
      state := live;
      rollbackState := Default;
      bodyPosition := Zero;
      scaleFacesLeft, kickColliderActive := initialScaleFacesLeft, initialKickColliderActive;
      debugStateHistory := new MovementState[MaxTick](_ => Default);
      debugStateSimulated := new bool[MaxTick](_ => false);
    }

    method OnIsFacingLeftChanged()
      modifies this`scaleFacesLeft
      ensures scaleFacesLeft == TurnSprite(state, old(scaleFacesLeft))
    {
      if state.candidateVelocity == Zero {
        return;
      }
      scaleFacesLeft := state.isFacingLeft;
    }

    method OnIsKickingChanged()
      modifies this`kickColliderActive
      ensures kickColliderActive == state.isKicking
    {
      kickColliderActive := state.isKicking;
    }

    /** Raises an event: runs each of its subscribers, in order, against the live state. */
    method Invoke(ls: seq<Listener>)
      modifies this`scaleFacesLeft, this`kickColliderActive
      ensures CurrentView() == HandleAll(ls, state, old(CurrentView()))
    {
      var i := 0;
      while i < |ls|
        invariant 0 <= i <= |ls|
        invariant CurrentView() == HandleAll(ls[..i], state, old(CurrentView()))
      {
        match ls[i] {
          case OnIsFacingLeftChanged => OnIsFacingLeftChanged();
          case OnIsKickingChanged => OnIsKickingChanged();
        }
        assert ls[..i + 1][..i] == ls[..i];
        i := i + 1;
      }
      assert ls[..i] == ls;
    }

    /** `m_State.IsFacingLeft = value`. */
    method SetStateIsFacingLeft(value: bool)
      modifies this`state, this`scaleFacesLeft, this`kickColliderActive
      ensures state == old(state).(isFacingLeft := value)
      ensures CurrentView() == HandleAll(old(state).isFacingLeftChanged, state, old(CurrentView()))
    {
      var u := SetIsFacingLeft(state, value);
      state := u.state;
      Invoke(u.invoked);
    }

    /** `m_State.IsKicking = value`. */
    method SetStateIsKicking(value: bool)
      modifies this`state, this`scaleFacesLeft, this`kickColliderActive
      ensures state == old(state).(isKicking := value)
      ensures CurrentView() == HandleAll(old(state).isKickingChanged, state, old(CurrentView()))
    {
      var u := SetIsKicking(state, value);
      state := u.state;
      Invoke(u.invoked);
    }

    /** `m_State.Assign(other)`: the plain fields, then the two setters, each raising its event. */
    method AssignState(other: MovementState)
      requires Valid()
      modifies this`state, this`scaleFacesLeft, this`kickColliderActive
      ensures Valid()
      ensures state == Assign(old(state), other).state
      ensures CurrentView() == View(TurnSprite(other, old(scaleFacesLeft)), other.isKicking)
    {
      state := state.(position := other.position, rigidbodyPosition := other.rigidbodyPosition,
        candidateVelocity := other.candidateVelocity, candidatePosition := other.candidatePosition,
        isGrounded := other.isGrounded, groundNormal := other.groundNormal, groundCollider := other.groundCollider);
      KickColliderFollowsKicking(state, CurrentView());
      SetStateIsFacingLeft(other.isFacingLeft);
      KickColliderFollowsKicking(state, CurrentView());
      SetStateIsKicking(other.isKicking);
    }

    /** `m_State.Reset()`: the plain fields zeroed, then the two setters with false. */
    method ResetState()
      requires Valid()
      modifies this`state, this`scaleFacesLeft, this`kickColliderActive
      ensures Valid()
      ensures state == MS.Reset(old(state)).state
      ensures CurrentView() == View(old(scaleFacesLeft), false)
    {
      state := state.(position := Zero, rigidbodyPosition := Zero, candidateVelocity := Zero,
        candidatePosition := Zero, isGrounded := false, groundNormal := Zero, groundCollider := None);
      KickColliderFollowsKicking(state, CurrentView());
      SetStateIsFacingLeft(false);
      KickColliderFollowsKicking(state, CurrentView());
      SetStateIsKicking(false);
    }

    /** Resets the live state and the rollback slot. The live state's events fire with a zero
        velocity, so the sprite keeps its direction and the kick collider is switched off.
        The body is not moved, so invariant (*) holds afterwards only if it stood at the origin. */
    method Reset()
      requires Valid()
      modifies this`state, this`rollbackState, this`scaleFacesLeft, this`kickColliderActive
      ensures Valid()
      ensures state == MS.Reset(old(state)).state && rollbackState == MS.Reset(old(rollbackState)).state
      ensures SameValues(state, Default) && SameValues(rollbackState, Default)
      ensures CurrentView() == View(old(scaleFacesLeft), false)
      ensures bodyPosition == old(bodyPosition)
      ensures BodyInSync() <==> bodyPosition == Zero
    {
      ResetState();
      ResetMeaning(old(state));
      var u := MS.Reset(rollbackState);
      ResetMeaning(rollbackState);
      rollbackState := u.state;
      Invoke(u.invoked);
    }

    /** Copies the live state into the rollback slot; the slot has no subscribers, so nothing else
        changes. */
    method SaveRollbackState()
      requires Valid()
      modifies this`rollbackState
      ensures Valid()
      ensures rollbackState == Assign(old(rollbackState), state).state
      ensures SameValues(rollbackState, state)
      ensures state == old(state)
    {
      var u := Assign(rollbackState, state);
      AssignMeaning(rollbackState, state);
      rollbackState := u.state;
      // The slot's setters raise events that have no subscribers.
      assert u.invoked == [];
    }

    /** Copies the rollback slot back into the live state and puts the body where that state says,
        re-establishing invariant (*). */
    method Rollback()
      requires Valid()
      modifies this`state, this`bodyPosition, this`scaleFacesLeft, this`kickColliderActive
      ensures Valid()
      ensures state == Assign(old(state), rollbackState).state
      ensures SameValues(state, rollbackState) && SameListeners(state, old(state))
      ensures bodyPosition == state.rigidbodyPosition && BodyInSync()
      ensures CurrentView() == View(TurnSprite(rollbackState, old(scaleFacesLeft)), rollbackState.isKicking)
      ensures rollbackState == old(rollbackState)
    {
      AssignMeaning(state, rollbackState);
      AssignState(rollbackState);
      bodyPosition := state.rigidbodyPosition;
    }

    /** Moves the player, nullifying its velocity first; the facing setter then fires with a zero
        velocity, so the sprite does not turn even when `faceLeft` differs from the old facing. */
    method Teleport(position: Vec2, faceLeft: bool)
      requires Valid()
      modifies this`state, this`bodyPosition, this`scaleFacesLeft, this`kickColliderActive
      ensures Valid()
      ensures state == old(state).(candidateVelocity := Zero, isFacingLeft := faceLeft, rigidbodyPosition := position)
      ensures bodyPosition == position && BodyInSync()
      ensures CurrentView() == old(CurrentView())
    {
      state := state.(candidateVelocity := Zero);
      KickColliderFollowsKicking(state, CurrentView());
      SetStateIsFacingLeft(faceLeft);
      state := state.(rigidbodyPosition := position);
      bodyPosition := position;
    }

    /** Faces the direction of the candidate velocity's x component. */
    method UpdateIsFacingLeft()
      requires Valid()
      modifies this`state, this`scaleFacesLeft, this`kickColliderActive
      ensures Valid()
      ensures state == old(state).(isFacingLeft := old(state).candidateVelocity.x < 0.0)
      ensures CurrentView() == View(TurnSprite(state, old(scaleFacesLeft)), old(kickColliderActive))
    {
      KickColliderFollowsKicking(state.(isFacingLeft := state.candidateVelocity.x < 0.0), CurrentView());
      SetStateIsFacingLeft(state.candidateVelocity.x < 0.0);
    }

    /** After the physics step: takes the body's new position into the live state
        (re-establishing invariant (*)), then runs the determinism check for the tick. */
    method OnSimulated(tickJustSimulated: Tick)
      requires Valid()
      requires debugStateSimulated[tickJustSimulated] ==>
        SameValues(state.(rigidbodyPosition := bodyPosition), debugStateHistory[tickJustSimulated])
      modifies this`state, debugStateHistory, debugStateSimulated
      ensures Valid()
      ensures state == old(state).(rigidbodyPosition := bodyPosition) && BodyInSync()
      ensures debugStateSimulated[..] == old(debugStateSimulated[..])[tickJustSimulated := true]
      ensures old(debugStateSimulated[tickJustSimulated]) ==> debugStateHistory[..] == old(debugStateHistory[..])
      ensures !old(debugStateSimulated[tickJustSimulated]) ==>
        debugStateHistory[..] == old(debugStateHistory[..])[tickJustSimulated := Assign(old(debugStateHistory[tickJustSimulated]), state).state]
      ensures SameValues(debugStateHistory[tickJustSimulated], state)
    {
      state := state.(rigidbodyPosition := bodyPosition);
      AssertSimulatedStateEqualsPrior(tickJustSimulated);
    }

    /** On a tick's first simulation, records the live state; on a later one, requires the live
        state to match the record. The comparison is on values only (see Findings in the README:
        the struct's own Equals also compares the event fields, which never match). Ticks are
        assumed not to wrap around, and the simulated flag is never cleared. */
    method AssertSimulatedStateEqualsPrior(tick: Tick)
      requires Valid()
      requires debugStateSimulated[tick] ==> SameValues(state, debugStateHistory[tick])
      modifies debugStateHistory, debugStateSimulated
      ensures Valid()
      ensures debugStateSimulated[..] == old(debugStateSimulated[..])[tick := true]
      ensures old(debugStateSimulated[tick]) ==> debugStateHistory[..] == old(debugStateHistory[..])
      ensures !old(debugStateSimulated[tick]) ==>
        debugStateHistory[..] == old(debugStateHistory[..])[tick := Assign(old(debugStateHistory[tick]), state).state]
      ensures SameValues(debugStateHistory[tick], state)
    {
      if debugStateSimulated[tick] {
        SameValuesIsEquivalence(state, debugStateHistory[tick], state);
      } else {
        debugStateSimulated[tick] := true;
        var u := Assign(debugStateHistory[tick], state);
        AssignMeaning(debugStateHistory[tick], state);
        debugStateHistory[tick] := u.state;
        // The record has no subscribers, so its Assign raises nothing.
        assert u.invoked == [];
      }
    }
  }

  /** The check as written, with the struct's Equals, fails on every re-simulation: the live state
      has its two subscribers and no record ever has any. */
  lemma {:induction false} AsWrittenCheckFailsOnReplay(m: MovementManager, tick: Tick)
    requires m.Valid()
    ensures !EqualsAsWritten(m.state, m.debugStateHistory[tick])
  {
    assert m.state.isFacingLeftChanged != m.debugStateHistory[tick].isFacingLeftChanged;
  }
}

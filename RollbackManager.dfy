/** The tick of the saved game state, and saving and restoring both players' movement state.
    The players' SaveRollbackState and Rollback are taken to forward to their movement components;
    their DisposeInputs is not part of this model and is recorded as a request with its argument. */
module RollbackManager {
  import opened TickService
  import opened MovementState
  import opened MovementManager

  /** A request to drop a player's inputs for the ticks before `untilTickExclusive`. */
  datatype Disposal = DisposeSelfInputs(untilTickExclusive: Tick) | DisposePeerInputs(untilTickExclusive: Tick)

  /** How far behind the saved tick inputs are still kept. */
  const KeptInputTicks: int := 5

  /** The tick before the first tick of a match, so that nothing counts as saved yet. */
  function TickBeforeMatch(startTick: Tick): (r: Tick)
    ensures AddTick(r, 1) == startTick
    ensures startTick > 0 ==> r == startTick - 1
    ensures startTick == 0 ==> r == MaxTick - 1
  {
    SubtractThenAdd(startTick, 1);
    SubtractTick(startTick, 1)
  }

  /** The two disposal requests a rollback to `savedTick` makes, self first. */
  function DisposalsFor(savedTick: UShort): (r: seq<Disposal>)
    ensures |r| == 2 && r[0].DisposeSelfInputs? && r[1].DisposePeerInputs?
    ensures r[0].untilTickExclusive == r[1].untilTickExclusive
    ensures savedTick < MaxTick ==> AddTick(r[0].untilTickExclusive, KeptInputTicks) == savedTick
  {
    var until := SubtractTick(savedTick, KeptInputTicks);
    if savedTick < MaxTick then
      SubtractThenAdd(savedTick, KeptInputTicks);
      [DisposeSelfInputs(until), DisposePeerInputs(until)]
    else
      [DisposeSelfInputs(until), DisposePeerInputs(until)]
  }

  class RollbackManager {
    var savedTick: UShort
    /** The movement components of the self and the peer player. */
    const selfMovement: MovementManager
    const peerMovement: MovementManager
    var disposals: seq<Disposal>

    ghost predicate Valid()
      reads this, selfMovement, peerMovement, selfMovement.debugStateHistory, peerMovement.debugStateHistory
    {
      selfMovement != peerMovement && selfMovement.Valid() && peerMovement.Valid()
    }

    constructor (selfMovement: MovementManager, peerMovement: MovementManager)
      requires selfMovement != peerMovement && selfMovement.Valid() && peerMovement.Valid()
      ensures Valid() && savedTick == 0 && disposals == []
      ensures this.selfMovement == selfMovement && this.peerMovement == peerMovement
    {
      this.selfMovement, this.peerMovement := selfMovement, peerMovement;
      savedTick, disposals := 0, [];
    }

    method ResetForMatch(startTick: Tick)
      modifies this`savedTick
      ensures savedTick == TickBeforeMatch(startTick)
    {
      savedTick := SubtractTick(startTick, 1);
    }

    /** Records the tick and snapshots both players. */
    method SaveRollbackState(tick: UShort)
      requires Valid()
      modifies this`savedTick, selfMovement`rollbackState, peerMovement`rollbackState
      ensures Valid()
      ensures savedTick == tick
      ensures SameValues(selfMovement.rollbackState, selfMovement.state) && selfMovement.state == old(selfMovement.state)
      ensures SameValues(peerMovement.rollbackState, peerMovement.state) && peerMovement.state == old(peerMovement.state)
    {
      savedTick := tick;
      selfMovement.SaveRollbackState();
      peerMovement.SaveRollbackState();
    }

    /** Asks both players to drop the inputs more than KeptInputTicks before the saved tick, then
        restores both players' saved state, and returns the saved tick, which stays as it was. */
    method Rollback() returns (t: UShort)
      requires Valid()
      modifies this`disposals
      modifies selfMovement`state, selfMovement`bodyPosition, selfMovement`scaleFacesLeft, selfMovement`kickColliderActive
      modifies peerMovement`state, peerMovement`bodyPosition, peerMovement`scaleFacesLeft, peerMovement`kickColliderActive
      ensures Valid()
      ensures t == savedTick && savedTick == old(savedTick)
      ensures disposals == old(disposals) + DisposalsFor(savedTick)
      ensures selfMovement.state == Assign(old(selfMovement.state), selfMovement.rollbackState).state && selfMovement.BodyInSync()
      ensures peerMovement.state == Assign(old(peerMovement.state), peerMovement.rollbackState).state && peerMovement.BodyInSync()
      ensures selfMovement.CurrentView() == View(TurnSprite(selfMovement.rollbackState, old(selfMovement.scaleFacesLeft)), selfMovement.rollbackState.isKicking)
      ensures peerMovement.CurrentView() == View(TurnSprite(peerMovement.rollbackState, old(peerMovement.scaleFacesLeft)), peerMovement.rollbackState.isKicking)
      ensures selfMovement.rollbackState == old(selfMovement.rollbackState)
      ensures peerMovement.rollbackState == old(peerMovement.rollbackState)
    {
      disposals := disposals + [DisposeSelfInputs(SubtractTick(savedTick, KeptInputTicks))];
      disposals := disposals + [DisposePeerInputs(SubtractTick(savedTick, KeptInputTicks))];
      selfMovement.Rollback();
      peerMovement.Rollback();
      t := savedTick;
    }
  }

  /** Rolling back right after saving at `tick` returns `tick` and leaves both players exactly as
      they were when saved. */
  method SaveThenRollback(r: RollbackManager, tick: UShort) returns (t: UShort)
    requires r.Valid()
    modifies r, r.selfMovement, r.peerMovement
    ensures r.Valid()
    ensures t == tick
    ensures r.selfMovement.state == old(r.selfMovement.state)
    ensures r.peerMovement.state == old(r.peerMovement.state)
  {
    r.SaveRollbackState(tick);
    ghost var selfSaved := r.selfMovement.state;
    ghost var peerSaved := r.peerMovement.state;
    t := r.Rollback();
    AssignMeaning(selfSaved, r.selfMovement.rollbackState);
    ValuesAndListenersDetermineState(r.selfMovement.state, selfSaved);
    AssignMeaning(peerSaved, r.peerMovement.rollbackState);
    ValuesAndListenersDetermineState(r.peerMovement.state, peerSaved);
  }

  /** A second rollback returns the same tick as the first and restores the same state. */
  method RollbackTwice(r: RollbackManager) returns (t1: UShort, t2: UShort)
    requires r.Valid()
    modifies r, r.selfMovement, r.peerMovement
    ensures r.Valid()
    ensures t1 == t2 == old(r.savedTick)
    ensures SameValues(r.selfMovement.state, old(r.selfMovement.rollbackState))
    ensures SameValues(r.peerMovement.state, old(r.peerMovement.rollbackState))
  {
    t1 := r.Rollback();
    t2 := r.Rollback();
    AssignMeaning(old(r.selfMovement.state), r.selfMovement.rollbackState);
    AssignMeaning(old(r.peerMovement.state), r.peerMovement.rollbackState);
    AssignMeaning(Assign(old(r.selfMovement.state), r.selfMovement.rollbackState).state, r.selfMovement.rollbackState);
    AssignMeaning(Assign(old(r.peerMovement.state), r.peerMovement.rollbackState).state, r.peerMovement.rollbackState);
  }
}

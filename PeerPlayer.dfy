/** The peer player's prediction step: with no input yet for the tick being predicted, the peer is
    simulated with its most recently received frame. The movement simulation itself is not
    modelled; the model records the tick it is run with. */
module PeerPlayer {
  import opened TickService
  import opened InputBuffer
  import opened PeerInputManager

  /** The tick holding the most recently received frame: the one before the window's end. */
  function ExtrapolationTick(endExclusive: Tick): (r: Tick)
    ensures AddTick(r, 1) == endExclusive
    ensures IsTickBefore(r, endExclusive)
    ensures endExclusive > 0 ==> r == endExclusive - 1
  {
    SubtractThenAdd(endExclusive, 1);
    SuccessorIsAfter(SubtractTick(endExclusive, 1));
    SubtractTick(endExclusive, 1)
  }

  /** A received extrapolation tick is the last tick of the window: the tick after it is not. */
  lemma {:induction false} ExtrapolationTickIsLastReceived(start: UShort, endExclusive: Tick)
    requires InWindow(ExtrapolationTick(endExclusive), start, endExclusive)
    ensures !InWindow(AddTick(ExtrapolationTick(endExclusive), 1), start, endExclusive)
  {
    EndIsOutsideWindow(start, endExclusive);
  }

  /** An empty window has no frame to extrapolate from. */
  lemma {:induction false} EmptyWindowCannotExtrapolate(t: Tick)
    ensures !InWindow(ExtrapolationTick(t), t, t)
  {
    EmptyWindowHoldsNothing(ExtrapolationTick(t), t);
  }

  class PeerPlayer {
    const peerInput: PeerInputManager
    /** The ticks the movement simulation has been run with, oldest first. */
    var simulations: seq<UShort>

    constructor (peerInput: PeerInputManager)
      ensures this.peerInput == peerInput && simulations == []
    {
      this.peerInput := peerInput;
      simulations := [];
    }

    /** Simulates with the latest received frame whatever tick is being predicted (the method has
        no tick parameter). The frame before it must also be present, for edge detection. The
        input buffer is only read. */
    method SimulateWithExtrapolation()
      requires peerInput.buffer.HasInput(SubtractTick(ExtrapolationTick(peerInput.buffer.endExclusive), 1))
      requires peerInput.buffer.HasInput(ExtrapolationTick(peerInput.buffer.endExclusive))
      modifies this`simulations
      ensures simulations == old(simulations) + [ExtrapolationTick(peerInput.buffer.endExclusive)]
      ensures simulations[|simulations| - 1] == SubtractTick(peerInput.buffer.endExclusive, 1)
    {
      var tick := SubtractTick(peerInput.buffer.endExclusive, 1);
      simulations := simulations + [tick];
    }
  }
}

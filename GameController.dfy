/** The lockstep scheduling rule run on every clock tick, and the peer metadata handler.
    A tick simulates the players at `currentTick - InputDelayTicks` only once the peer's input for
    that tick has arrived; until then the clock is paused, so the same tick is handled again at the
    next interval. Players' Simulate is recorded with its tick: the movement step is not modelled,
    but its preconditions (input at the tick and the one before) are required. */
module GameController {
  import opened TickService
  import opened InputBuffer
  import opened Clock
  import opened SelfInputManager
  import opened PeerInputManager
  import opened MetadataManager

  /** What a tick handler does, in order, to the other components. */
  datatype Step =
    | SendUnackedInputs(currentTick: Tick)
    | PauseClock
    | ResumeClock
    | WriteSelfInput(currentTick: Tick)
    | SimulateSelf(simulationTick: Tick)
    | SimulatePeer(simulationTick: Tick)

  function SimulationTick(currentTick: Tick, inputDelayTicks: UShort): (r: Tick)
    ensures AddTick(r, inputDelayTicks) == currentTick
  {
    SubtractThenAdd(currentTick, inputDelayTicks);
    SubtractTick(currentTick, inputDelayTicks)
  }

  /** The steps of one tick, given whether the peer's input for the simulation tick is present. */
  function Schedule(currentTick: Tick, inputDelayTicks: UShort, peerHasInput: bool): seq<Step>
  {
    var simulationTick := SimulationTick(currentTick, inputDelayTicks);
    if !peerHasInput then [SendUnackedInputs(currentTick), PauseClock]
    else [SendUnackedInputs(currentTick), ResumeClock, WriteSelfInput(currentTick), SimulateSelf(simulationTick), SimulatePeer(simulationTick)]
  }

  predicate Simulates(steps: seq<Step>)
  {
    exists i :: 0 <= i < |steps| && (steps[i].SimulateSelf? || steps[i].SimulatePeer?)
  }

  /** Unacked inputs go out on every tick, stalled or not; a tick writes input or simulates exactly
      when the peer's input is there, and then writes before simulating, and simulates the self
      player before the peer, both at the simulation tick. */
  lemma {:induction false} ScheduleRule(currentTick: Tick, inputDelayTicks: UShort, peerHasInput: bool)
    ensures Schedule(currentTick, inputDelayTicks, peerHasInput)[0] == SendUnackedInputs(currentTick)
    ensures Simulates(Schedule(currentTick, inputDelayTicks, peerHasInput)) <==> peerHasInput
    ensures !peerHasInput ==> Schedule(currentTick, inputDelayTicks, peerHasInput)[1] == PauseClock
    ensures peerHasInput ==> var s := Schedule(currentTick, inputDelayTicks, peerHasInput);
      s[1] == ResumeClock && s[2] == WriteSelfInput(currentTick)
      && s[3] == SimulateSelf(SimulationTick(currentTick, inputDelayTicks))
      && s[4] == SimulatePeer(SimulationTick(currentTick, inputDelayTicks))
  {
    var s := Schedule(currentTick, inputDelayTicks, peerHasInput);
    if peerHasInput {
      assert s[3].SimulateSelf?;
    }
  }

  /** One iteration of the clock loop with this handler between the fire and the advance step. */
  function ClockAfterTick(s: ClockState, peerHasInput: bool): ClockState
  {
    var fired := FireStep(s);
    AdvanceStep(if peerHasInput then Resume(fired) else Pause(fired))
  }

  /** A stalled tick is handled again at the next interval, whatever the clock's state. */
  lemma {:induction false} StallReplaysTick(s: ClockState)
    ensures Emitted(ClockAfterTick(s, false)) == Emitted(s)
    ensures ClockAfterTick(s, false).paused
  {
  }

  /** On a settled clock, a tick that proceeds is followed by the next tick, also after a stall:
      the clock never skips a tick. */
  lemma {:induction false} ProceedAdvancesTick(s: ClockState)
    requires Settled(s)
    ensures Emitted(ClockAfterTick(s, true)) == AddTick(Emitted(s), 1)
    ensures !ClockAfterTick(s, true).paused
    ensures Settled(ClockAfterTick(s, true)) && Settled(ClockAfterTick(s, false))
  {
  }

  /** The peer's id given the local player's. */
  function PeerId(selfId: int): (r: int)
    requires selfId == 0 || selfId == 1
    ensures (r == 0 || r == 1) && r != selfId
    ensures 1 - r == selfId
  {
    1 - selfId
  }

  class GameController {
    const clock: Clock
    const selfInput: SelfInputManager
    const peerInput: PeerInputManager
    const selfMetadata: MetadataManager
    const peerMetadata: MetadataManager
    var peerPlayerMetadataReceived: bool
    /** Everything the tick handler has done, oldest first. */
    var trace: seq<Step>

    ghost predicate Valid()
      reads selfInput, selfInput.inputs, peerInput, peerInput.buffer
    {
      selfInput.Valid() && peerInput.Valid() && selfMetadata != peerMetadata
      && selfInput.inputs.history != peerInput.buffer.history
    }

    constructor (clock: Clock, selfInput: SelfInputManager, peerInput: PeerInputManager,
                 selfMetadata: MetadataManager, peerMetadata: MetadataManager)
      requires selfInput.Valid() && peerInput.Valid() && selfMetadata != peerMetadata
      requires selfInput.inputs.history != peerInput.buffer.history
      ensures Valid() && !peerPlayerMetadataReceived && trace == []
      ensures this.clock == clock && this.selfInput == selfInput && this.peerInput == peerInput
      ensures this.selfMetadata == selfMetadata && this.peerMetadata == peerMetadata
    {
      this.clock, this.selfInput, this.peerInput := clock, selfInput, peerInput;
      this.selfMetadata, this.peerMetadata := selfMetadata, peerMetadata;
      peerPlayerMetadataReceived := false;
      trace := [];
    }

    /** Whether the peer's input for the simulation tick of `currentTick` has arrived. */
    predicate PeerHasInputFor(currentTick: Tick, inputDelayTicks: UShort)
      reads peerInput, peerInput.buffer
    {
      peerInput.buffer.HasInput(SimulationTick(currentTick, inputDelayTicks))
    }

    /** The tick handler. When the peer's input for the simulation tick is there, the local input
        is written at `currentTick` and both players are simulated, which needs each player's
        input at the simulation tick and the tick before it (the local player's counting the
        frame just written). */
    method OnTickUpdated(currentTick: Tick, inputDelayTicks: UShort)
      requires Valid()
      requires var sim := SimulationTick(currentTick, inputDelayTicks);
        peerInput.buffer.HasInput(sim) ==>
          peerInput.buffer.HasInput(PreviousTick(sim))
          && (PreviousTick(sim) == currentTick || selfInput.inputs.HasInput(PreviousTick(sim)))
          && (sim == currentTick || selfInput.inputs.HasInput(sim))
      modifies clock, selfInput`sendUnackedCalls, selfInput`keysJustPressed, selfInput.inputs.history, this`trace
      ensures Valid()
      ensures trace == old(trace) + Schedule(currentTick, inputDelayTicks, old(PeerHasInputFor(currentTick, inputDelayTicks)))
      ensures clock.State() == if old(PeerHasInputFor(currentTick, inputDelayTicks)) then Resume(old(clock.State())) else Pause(old(clock.State()))
      ensures selfInput.sendUnackedCalls == old(selfInput.sendUnackedCalls) + [currentTick]
      ensures old(PeerHasInputFor(currentTick, inputDelayTicks)) ==>
        selfInput.inputs.history[..] == old(selfInput.inputs.history[..])[currentTick := old(selfInput.keysCurrentlyPressed | selfInput.keysJustPressed)]
        && selfInput.keysJustPressed == 0
      ensures !old(PeerHasInputFor(currentTick, inputDelayTicks)) ==>
        selfInput.inputs.history[..] == old(selfInput.inputs.history[..]) && selfInput.keysJustPressed == old(selfInput.keysJustPressed)
    {
      var simulationTick := SimulationTick(currentTick, inputDelayTicks);

      selfInput.SendUnackedInputs(currentTick);
      trace := trace + [SendUnackedInputs(currentTick)];

      if !PeerHasInputFor(currentTick, inputDelayTicks) {
        clock.PauseIncrementing();
        trace := trace + [PauseClock];
        return;
      }

      ProceedWithTick(currentTick, simulationTick);
    }

    /** The part of the tick handler after the peer's input for the simulation tick was found:
        resume the clock, write the local input at `currentTick`, simulate both players. */
    method ProceedWithTick(currentTick: Tick, simulationTick: Tick)
      requires Valid()
      requires peerInput.buffer.HasInput(PreviousTick(simulationTick)) && peerInput.buffer.HasInput(simulationTick)
      requires PreviousTick(simulationTick) == currentTick || selfInput.inputs.HasInput(PreviousTick(simulationTick))
      requires simulationTick == currentTick || selfInput.inputs.HasInput(simulationTick)
      modifies clock, selfInput`keysJustPressed, selfInput.inputs.history, this`trace
      ensures Valid()
      ensures trace == old(trace) + [ResumeClock, WriteSelfInput(currentTick), Step.SimulateSelf(simulationTick), Step.SimulatePeer(simulationTick)]
      ensures clock.State() == Resume(old(clock.State()))
      ensures selfInput.inputs.history[..] == old(selfInput.inputs.history[..])[currentTick := old(selfInput.keysCurrentlyPressed | selfInput.keysJustPressed)]
      ensures selfInput.keysJustPressed == 0
    {
      clock.ResumeIncrementing();
      trace := trace + [ResumeClock];

      selfInput.WriteInput(currentTick);
      trace := trace + [WriteSelfInput(currentTick)];

      SimulateSelf(simulationTick);
      SimulatePeer(simulationTick);
    }

    /** The self player's Simulate: asserts its input at the tick and the tick before
        (PreviousTick is SubtractTick(tick, 1), by PreviousTickIsSubtract). */
    method SimulateSelf(tick: Tick)
      requires selfInput.inputs.Valid()
      requires selfInput.inputs.HasInput(PreviousTick(tick)) && selfInput.inputs.HasInput(tick)
      modifies this`trace
      ensures trace == old(trace) + [Step.SimulateSelf(tick)]
    {
      trace := trace + [Step.SimulateSelf(tick)];
    }

    /** The peer player's Simulate: asserts its input at the tick and the tick before. */
    method SimulatePeer(tick: Tick)
      requires peerInput.buffer.HasInput(PreviousTick(tick)) && peerInput.buffer.HasInput(tick)
      modifies this`trace
      ensures trace == old(trace) + [Step.SimulatePeer(tick)]
    {
      trace := trace + [Step.SimulatePeer(tick)];
    }

    /** Initialises the peer player with the other id and the received name (its metadata, then
        its input window, which is left collapsed and so empty), then records that the metadata
        has arrived. */
    method HandlePlayerMetadataMsg(name: string, startTick: UShort, inputDelayTicks: UShort)
      requires Valid()
      requires selfMetadata.id == 0 || selfMetadata.id == 1
      requires StartSetterAccepts(TickBeforeFirstSimulationTick(startTick, inputDelayTicks), peerInput.buffer.endExclusive)
      modifies peerMetadata, peerInput.buffer`startInclusive, peerInput.buffer`endExclusive, this`peerPlayerMetadataReceived
      ensures Valid()
      ensures selfMetadata.id == old(selfMetadata.id) && peerMetadata.id == PeerId(selfMetadata.id)
      ensures peerMetadata.name == name && peerMetadata.lives == MaxLives
      ensures peerMetadata.metadataUpdated == old(peerMetadata.metadataUpdated) + 2
      ensures peerInput.buffer.startInclusive == peerInput.buffer.endExclusive == TickBeforeFirstSimulationTick(startTick, inputDelayTicks)
      ensures peerPlayerMetadataReceived
    {
      peerMetadata.Initialise(1 - selfMetadata.id, name);
      peerInput.Initialise(startTick, inputDelayTicks);
      peerPlayerMetadataReceived := true;
    }
  }
}

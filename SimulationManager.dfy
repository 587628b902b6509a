/** Tick bookkeeping around one physics step: which tick was simulated last, and last officially
    (with confirmed inputs) or unofficially (predicted). The physics step itself is not modelled;
    the model records that it happened and that the Simulated notification follows it. */
module SimulationManager {
  import opened TickService

  /** What a call hands to the outside world, in order. */
  datatype SimEvent = PhysicsStep | Simulated(tick: UShort)

  datatype SimTicks = SimTicks(latest: UShort, latestOfficial: UShort, latestUnofficial: UShort)

  /** One simulation call. */
  datatype SimCall = SimCall(isSimulatingOfficially: bool, tick: UShort)

  function Step(s: SimTicks, c: SimCall): SimTicks
  {
    if c.isSimulatingOfficially then SimTicks(c.tick, c.tick, s.latestUnofficial)
    else SimTicks(c.tick, s.latestOfficial, c.tick)
  }

  /** The ticks after a sequence of calls, oldest first. */
  function Steps(s: SimTicks, cs: seq<SimCall>): SimTicks
  {
    if cs == [] then s else Step(Steps(s, cs[..|cs| - 1]), cs[|cs| - 1])
  }

  /** The tick of the last call whose kind is `official`, or `dflt` if there is none. */
  function LastOfKind(cs: seq<SimCall>, official: bool, dflt: UShort): (r: UShort)
    ensures r == dflt || exists i :: 0 <= i < |cs| && cs[i].isSimulatingOfficially == official && cs[i].tick == r
  {
    if cs == [] then dflt
    else if cs[|cs| - 1].isSimulatingOfficially == official then cs[|cs| - 1].tick
    else
      var r := LastOfKind(cs[..|cs| - 1], official, dflt);
      assert forall i :: 0 <= i < |cs| - 1 ==> cs[..|cs| - 1][i] == cs[i];
      r
  }

  /** Every call updates the latest tick and exactly the one tick of its kind. */
  lemma {:induction false} StepUpdatesItsKindOnly(s: SimTicks, c: SimCall)
    ensures Step(s, c).latest == c.tick
    ensures Step(s, c).latestOfficial == if c.isSimulatingOfficially then c.tick else s.latestOfficial
    ensures Step(s, c).latestUnofficial == if c.isSimulatingOfficially then s.latestUnofficial else c.tick
  {
  }

  /** After any sequence of calls, the latest official tick is the tick of the last official call
      and the latest unofficial tick that of the last unofficial call; the latest tick is that of
      the last call. */
  lemma {:induction false} LastCallOfEachKindWins(s: SimTicks, cs: seq<SimCall>)
    ensures Steps(s, cs).latestOfficial == LastOfKind(cs, true, s.latestOfficial)
    ensures Steps(s, cs).latestUnofficial == LastOfKind(cs, false, s.latestUnofficial)
    ensures cs != [] ==> Steps(s, cs).latest == cs[|cs| - 1].tick
    ensures cs == [] ==> Steps(s, cs).latest == s.latest
  {
    if cs != [] {
      LastCallOfEachKindWins(s, cs[..|cs| - 1]);
    }
  }

  /** The events of a sequence of calls: each call's physics step, then its notification. */
  function EventsOf(cs: seq<SimCall>): (r: seq<SimEvent>)
    ensures |r| == 2 * |cs|
  {
    if cs == [] then [] else EventsOf(cs[..|cs| - 1]) + [PhysicsStep, Simulated(cs[|cs| - 1].tick)]
  }

  /** Physics steps and notifications alternate, one each per call, and the i-th notification
      carries the i-th call's tick. */
  lemma {:induction false} EventsAlternate(cs: seq<SimCall>)
    ensures forall i :: 0 <= i < |cs| ==> EventsOf(cs)[2 * i] == PhysicsStep && EventsOf(cs)[2 * i + 1] == Simulated(cs[i].tick)
  {
    if cs != [] {
      var init := cs[..|cs| - 1];
      EventsAlternate(init);
      forall i | 0 <= i < |cs|
        ensures EventsOf(cs)[2 * i] == PhysicsStep && EventsOf(cs)[2 * i + 1] == Simulated(cs[i].tick)
      {
        if i < |cs| - 1 {
          assert cs[i] == init[i];
          assert EventsOf(cs)[2 * i] == EventsOf(init)[2 * i];
          assert EventsOf(cs)[2 * i + 1] == EventsOf(init)[2 * i + 1];
        }
      }
    }
  }

  class SimulationManager {
    var latestSimulationTick: UShort
    var latestOfficialSimulationTick: UShort
    var latestUnofficialSimulationTick: UShort
    var events: seq<SimEvent>

    function Ticks(): SimTicks
      reads this
    {
      SimTicks(latestSimulationTick, latestOfficialSimulationTick, latestUnofficialSimulationTick)
    }

    constructor ()
      ensures Ticks() == SimTicks(0, 0, 0) && events == []
    {
      latestSimulationTick, latestOfficialSimulationTick, latestUnofficialSimulationTick := 0, 0, 0;
      events := [];
    }

    method Simulate(isSimulatingOfficially: bool, tick: UShort)
      modifies this
      ensures Ticks() == Step(old(Ticks()), SimCall(isSimulatingOfficially, tick))
      ensures events == old(events) + [PhysicsStep, Simulated(tick)]
    {
      latestSimulationTick := tick;
      if isSimulatingOfficially {
        latestOfficialSimulationTick := tick;
      } else {
        latestUnofficialSimulationTick := tick;
      }
      events := events + [PhysicsStep];
      events := events + [Simulated(tick)];
    }
  }
}

/** The remote player's input: messages from the peer are merged into an InputBuffer, first writer
    wins, and every message is acknowledged with the end of its range. */
module PeerInputManager {
  import opened TickService
  import opened InputBuffer
  import InputMsg

  // ---------------------------------------------------------------------------
  // Initialise

  /** The tick before the first simulated tick: StartTick minus the input delay, minus one. Both
      cursors start here, so the window starts out empty. */
  function TickBeforeFirstSimulationTick(startTick: UShort, inputDelayTicks: UShort): (r: Tick)
    ensures AddTick(r, 1) == SubtractTick(startTick, inputDelayTicks)
  {
    SubtractThenAdd(SubtractTick(startTick, inputDelayTicks), 1);
    SubtractTick(SubtractTick(startTick, inputDelayTicks), 1)
  }

  /** A window that starts and ends at the same tick always passes the EndExclusive setter's
      checks: a tick 100 ahead, wrapped or not, is never before it. */
  lemma {:induction false} CollapsedWindowIsAccepted(t: Tick)
    ensures EndSetterAccepts(t, t)
    ensures forall u: UShort :: !InWindow(u, t, t)
  {
    BeforeIrreflexive(t);
    forall u: UShort ensures !InWindow(u, t, t) {
      EmptyWindowHoldsNothing(u, t);
    }
  }

  // ---------------------------------------------------------------------------
  // The merge

  /** The tick the i-th frame of a message starting at `startTick` is written to: the start
      itself, then one wrapping step per frame. */
  function MsgTick(startTick: UShort, i: nat): (r: UShort)
    ensures i > 0 || startTick < MaxTick ==> r == AddTick(startTick, i)
  {
    if i == 0 then startTick else AddTick(startTick, i)
  }

  lemma {:induction false} MsgTickStep(startTick: UShort, i: nat)
    ensures MsgTick(startTick, i + 1) == AddTick(MsgTick(startTick, i), 1)
  {
    if i > 0 {
      AddCompose(startTick, i, 1);
    }
  }

  /** Distinct frames of a message no longer than MaxTick go to distinct ticks. */
  lemma {:induction false} MsgTickInjective(startTick: UShort, i: nat, j: nat)
    requires i < j < MaxTick
    ensures MsgTick(startTick, i) != MsgTick(startTick, j)
  {
    if startTick < MaxTick || i > 0 {
      AddInjective(startTick, i, j);
    }
  }

  /** Only the first frame's tick is the message's StartTick unreduced, so it is the only one that
      can miss the MaxTick-long history; it is indexed only when it is not already present. */
  predicate FirstSlotFits(start: Tick, end: Tick, startTick: UShort, inputs: seq<bv16>)
  {
    |inputs| > 0 && !InWindow(startTick, start, end) ==> startTick < MaxTick
  }

  /** The history after the first `n` frames of a message have been merged: a frame is written at
      its tick unless that tick is already in the window [start, end). */
  function Merge(h: seq<bv16>, start: Tick, end: Tick, startTick: UShort, inputs: seq<bv16>, n: nat): (r: seq<bv16>)
    requires |h| == MaxTick && n <= |inputs| && FirstSlotFits(start, end, startTick, inputs)
    ensures |r| == MaxTick
  {
    if n == 0 then h
    else
      var prior := Merge(h, start, end, startTick, inputs, n - 1);
      var t := MsgTick(startTick, n - 1);
      if InWindow(t, start, end) then prior else prior[t := inputs[n - 1]]
  }

  /** Frames already in the window keep their value: the merge never overwrites them. */
  lemma {:induction false} MergeKeepsPresent(h: seq<bv16>, start: Tick, end: Tick, startTick: UShort, inputs: seq<bv16>, n: nat, t: Tick)
    requires |h| == MaxTick && n <= |inputs| && FirstSlotFits(start, end, startTick, inputs)
    requires InWindow(t, start, end)
    ensures Merge(h, start, end, startTick, inputs, n)[t] == h[t]
  {
    if n > 0 {
      MergeKeepsPresent(h, start, end, startTick, inputs, n - 1, t);
    }
  }

  /** A tick no merged frame goes to is untouched. */
  lemma {:induction false} MergeLeavesOthers(h: seq<bv16>, start: Tick, end: Tick, startTick: UShort, inputs: seq<bv16>, n: nat, t: Tick)
    requires |h| == MaxTick && n <= |inputs| && FirstSlotFits(start, end, startTick, inputs)
    requires forall i :: 0 <= i < n ==> MsgTick(startTick, i) != t
    ensures Merge(h, start, end, startTick, inputs, n)[t] == h[t]
  {
    if n > 0 {
      MergeLeavesOthers(h, start, end, startTick, inputs, n - 1, t);
    }
  }

  /** Frame i lands at its tick when that tick was not already present (for a message no longer
      than MaxTick; a longer one wraps round and its later frames overwrite earlier ones). */
  lemma {:induction false} MergeLands(h: seq<bv16>, start: Tick, end: Tick, startTick: UShort, inputs: seq<bv16>, n: nat, i: nat)
    requires |h| == MaxTick && n <= |inputs| && FirstSlotFits(start, end, startTick, inputs)
    requires i < n <= MaxTick && !InWindow(MsgTick(startTick, i), start, end)
    ensures MsgTick(startTick, i) < MaxTick
    ensures Merge(h, start, end, startTick, inputs, n)[MsgTick(startTick, i)] == inputs[i]
  {
    if i < n - 1 {
      MergeLands(h, start, end, startTick, inputs, n - 1, i);
      MsgTickInjective(startTick, i, n - 1);
    }
  }

  // ---------------------------------------------------------------------------
  // Receiving a message

  /** The message extends the range received so far. */
  predicate Accepted(w: Window, startTick: UShort, numTicks: UShort)
  {
    IsAfter(InputMsg.EndTickExclusiveOf(startTick, numTicks), w.end)
  }

  predicate CanReceive(w: Window, startTick: UShort, numTicks: UShort, inputs: seq<bv16>)
  {
    |w.history| == MaxTick && (Accepted(w, startTick, numTicks) ==> FirstSlotFits(w.start, w.end, startTick, inputs))
  }

  /** The buffer after an input message: merged, with its end moved to the message's end, when the
      message extends it; unchanged otherwise. */
  function Receive(w: Window, startTick: UShort, numTicks: UShort, inputs: seq<bv16>): (r: Window)
    requires CanReceive(w, startTick, numTicks, inputs)
    ensures |r.history| == MaxTick && r.start == w.start
  {
    if Accepted(w, startTick, numTicks) then
      Window(Merge(w.history, w.start, w.end, startTick, inputs, |inputs|), w.start, InputMsg.EndTickExclusiveOf(startTick, numTicks))
    else w
  }

  /** A message whose end is not after the buffer's end changes nothing. */
  lemma {:induction false} StaleMessageIgnored(w: Window, startTick: UShort, numTicks: UShort, inputs: seq<bv16>)
    requires CanReceive(w, startTick, numTicks, inputs)
    requires !IsAfter(InputMsg.EndTickExclusiveOf(startTick, numTicks), w.end)
    ensures Receive(w, startTick, numTicks, inputs) == w
  {
  }

  /** What an accepted message does: the end becomes the message's end, present frames stay, each
      frame (of a message no longer than MaxTick) lands at its tick unless that tick was present,
      and every other tick is untouched. */
  lemma {:induction false} AcceptedMessageMerged(w: Window, startTick: UShort, numTicks: UShort, inputs: seq<bv16>)
    requires CanReceive(w, startTick, numTicks, inputs)
    requires IsAfter(InputMsg.EndTickExclusiveOf(startTick, numTicks), w.end)
    requires |inputs| <= MaxTick
    ensures Receive(w, startTick, numTicks, inputs).end == InputMsg.EndTickExclusiveOf(startTick, numTicks)
    ensures forall t: Tick :: InWindow(t, w.start, w.end) ==> Receive(w, startTick, numTicks, inputs).history[t] == w.history[t]
    ensures forall i :: 0 <= i < |inputs| && !InWindow(MsgTick(startTick, i), w.start, w.end) ==>
      MsgTick(startTick, i) < MaxTick && Receive(w, startTick, numTicks, inputs).history[MsgTick(startTick, i)] == inputs[i]
    ensures forall t: Tick :: (forall i :: 0 <= i < |inputs| ==> MsgTick(startTick, i) != t) ==>
      Receive(w, startTick, numTicks, inputs).history[t] == w.history[t]
  {
    var r := Receive(w, startTick, numTicks, inputs);
    forall t: Tick | InWindow(t, w.start, w.end)
      ensures r.history[t] == w.history[t]
    {
      MergeKeepsPresent(w.history, w.start, w.end, startTick, inputs, |inputs|, t);
    }
    forall i | 0 <= i < |inputs| && !InWindow(MsgTick(startTick, i), w.start, w.end)
      ensures MsgTick(startTick, i) < MaxTick && r.history[MsgTick(startTick, i)] == inputs[i]
    {
      MergeLands(w.history, w.start, w.end, startTick, inputs, |inputs|, i);
    }
    forall t: Tick | forall i :: 0 <= i < |inputs| ==> MsgTick(startTick, i) != t
      ensures r.history[t] == w.history[t]
    {
      MergeLeavesOthers(w.history, w.start, w.end, startTick, inputs, |inputs|, t);
    }
  }

  /** The end cursor moves only forward: it stays, or the old end is before the new one. */
  lemma {:induction false} EndOnlyGrows(w: Window, startTick: UShort, numTicks: UShort, inputs: seq<bv16>)
    requires CanReceive(w, startTick, numTicks, inputs)
    ensures var r := Receive(w, startTick, numTicks, inputs);
      r.end == w.end || IsTickBefore(w.end, r.end)
  {
  }

  /** Receiving the same message twice leaves the buffer as receiving it once: the first copy moves
      the end to the message's end, so the second is stale. */
  lemma {:induction false} ReceiveIdempotent(w: Window, startTick: UShort, numTicks: UShort, inputs: seq<bv16>)
    requires CanReceive(w, startTick, numTicks, inputs)
    ensures CanReceive(Receive(w, startTick, numTicks, inputs), startTick, numTicks, inputs)
    ensures Receive(Receive(w, startTick, numTicks, inputs), startTick, numTicks, inputs) == Receive(w, startTick, numTicks, inputs)
  {
    var r := Receive(w, startTick, numTicks, inputs);
    if Accepted(w, startTick, numTicks) {
      BeforeIrreflexive(r.end);
    }
  }

  // ---------------------------------------------------------------------------
  // The component

  class PeerInputManager {
    var buffer: InputBuffer
    /** The acks handed to the connection, oldest first (each carries the tick it acknowledges up to). */
    var acksSent: seq<UShort>

    ghost predicate Valid()
      reads this, buffer
    {
      buffer.Valid()
    }

    constructor ()
      ensures Valid() && fresh(buffer) && fresh(buffer.history)
      ensures buffer.State() == Window(seq(MaxTick, _ => 0), 0, 0)
      ensures acksSent == []
    {
      buffer := new InputBuffer();
      acksSent := [];
    }

    /** Collapses the window onto the tick before the first simulated tick, so that it holds no
        input (CollapsedWindowIsAccepted). The start is set first, against the old end, so the
        start setter's check applies to it. */
    method Initialise(startTick: UShort, inputDelayTicks: UShort)
      requires Valid()
      requires StartSetterAccepts(TickBeforeFirstSimulationTick(startTick, inputDelayTicks), buffer.endExclusive)
      modifies buffer`startInclusive, buffer`endExclusive
      ensures Valid()
      ensures buffer.startInclusive == TickBeforeFirstSimulationTick(startTick, inputDelayTicks)
      ensures buffer.endExclusive == buffer.startInclusive
    {
      var t := TickBeforeFirstSimulationTick(startTick, inputDelayTicks);
      CollapsedWindowIsAccepted(t);
      buffer.Initialise(t, t);
    }

    /** Merges an input message when it extends the received range, then acknowledges its end
        either way. */
    method HandleInputMsg(msg: InputMsg.InputMsg) returns (ack: UShort)
      requires Valid()
      requires CanReceive(buffer.State(), msg.startTick, msg.numTicks, msg.inputs)
      requires IsAfter(msg.EndTickExclusive(), buffer.endExclusive) ==> EndSetterAccepts(buffer.startInclusive, msg.EndTickExclusive())
      modifies buffer.history, buffer`endExclusive, this`acksSent
      ensures Valid()
      ensures buffer.State() == Receive(old(buffer.State()), msg.startTick, msg.numTicks, msg.inputs)
      ensures ack == msg.EndTickExclusive()
      ensures acksSent == old(acksSent) + [ack]
    {
      var endTickExclusive := msg.EndTickExclusive();
      if IsAfter(endTickExclusive, buffer.endExclusive) {
        ghost var h0 := buffer.history[..];
        var tick := msg.startTick;
        var i := 0;
        while i < |msg.inputs|
          modifies buffer.history
          invariant 0 <= i <= |msg.inputs|
          invariant tick == MsgTick(msg.startTick, i)
          invariant buffer.Valid()
          invariant buffer.history[..] == Merge(h0, buffer.startInclusive, buffer.endExclusive, msg.startTick, msg.inputs, i)
        {
          if !buffer.HasInput(tick) {
            buffer.WriteInput(tick, msg.inputs[i]);
          }
          MsgTickStep(msg.startTick, i);
          tick := AddTick(tick, 1);
          i := i + 1;
        }
        buffer.SetEndExclusive(endTickExclusive);
      }
      ack := endTickExclusive;
      SendInputAck(ack);
    }

    /** Hands an ack for everything before `receivedUntilTickExclusive` to the connection. */
    method SendInputAck(receivedUntilTickExclusive: UShort)
      modifies this`acksSent
      ensures acksSent == old(acksSent) + [receivedUntilTickExclusive]
    {
      acksSent := acksSent + [receivedUntilTickExclusive];
    }
  }
}

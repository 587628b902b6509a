/** The local player's input: key state folded into two bitmasks, one frame written per tick, and the latest-ack cursor. */
module SelfInputManager {
  import opened TickService
  import opened InputMasks
  import opened Wrappers
  import InputManager

  datatype KeyCode = A | D | Space | LeftShift

  /** The Binds dictionary: the key bound to a mask, or None when the mask has no entry. */
  function Binding(inputMask: bv16): Option<KeyCode>
  {
    if inputMask == MoveLeft then Some(A)
    else if inputMask == MoveRight then Some(D)
    else if inputMask == Dive then Some(Space)
    else if inputMask == Kick then Some(LeftShift)
    else None
  }

  /** Every action mask has a key binding (what AssertInputsBound checks). */
  lemma InputsBound()
    ensures forall i :: 0 <= i < Count ==> Binding(MaskAt(i)).Some?
  {
  }

  /** Whether the key bound to `inputMask` is in `held`. */
  predicate KeyHeld(held: set<KeyCode>, inputMask: bv16)
  {
    Binding(inputMask).Some? && Binding(inputMask).value in held
  }

  /** The mask of every action whose key is held: the value Update leaves in the currently-pressed mask. */
  function PressedKeysMask(held: set<KeyCode>): bv16
  {
    (if A in held then MoveLeft else 0) | (if D in held then MoveRight else 0) |
    (if Space in held then Dive else 0) | (if LeftShift in held then Kick else 0)
  }

  /** A mask's bit is set exactly when its key is held, and no other bit is set. */
  lemma {:induction false} PressedKeysMaskMeaning(held: set<KeyCode>)
    ensures IsActionFrame(PressedKeysMask(held))
    ensures forall i :: 0 <= i < Count ==> (Held(PressedKeysMask(held), MaskAt(i)) <==> KeyHeld(held, MaskAt(i)))
  {
    // Every combination of the four keys.
    if A in held {
      if D in held { if Space in held { if LeftShift in held { } else { } } else { if LeftShift in held { } else { } } }
      else { if Space in held { if LeftShift in held { } else { } } else { if LeftShift in held { } else { } } }
    } else {
      if D in held { if Space in held { if LeftShift in held { } else { } } else { if LeftShift in held { } else { } } }
      else { if Space in held { if LeftShift in held { } else { } } else { if LeftShift in held { } else { } } }
    }
  }

  /** Mask `k` (bound to `key`) after the Update loop has polled the first `n` masks. */
  predicate MaskPolled(cur: bv16, just: bv16, just0: bv16, held: set<KeyCode>, n: nat, k: nat, m: bv16, key: KeyCode)
  {
    if k < n then (Held(cur, m) <==> key in held) && (Held(just, m) <==> Held(just0, m) || key in held)
    else Held(just, m) == Held(just0, m)
  }

  /** The state of the Update loop after polling the first `n` masks. */
  predicate Polled(cur: bv16, just: bv16, just0: bv16, held: set<KeyCode>, n: nat)
  {
    IsActionFrame(cur) && IsActionFrame(just) &&
    MaskPolled(cur, just, just0, held, n, 0, MoveLeft, A) && MaskPolled(cur, just, just0, held, n, 1, MoveRight, D) &&
    MaskPolled(cur, just, just0, held, n, 2, Dive, Space) && MaskPolled(cur, just, just0, held, n, 3, Kick, LeftShift)
  }

  /** The loop body when mask `i`'s key is held: both masks gain the bit. */
  lemma {:induction false} PollHeld(cur: bv16, just: bv16, just0: bv16, held: set<KeyCode>, i: nat)
    requires i < Count && KeyHeld(held, MaskAt(i))
    requires Polled(cur, just, just0, held, i)
    ensures Polled(cur | MaskAt(i), just | MaskAt(i), just0, held, i + 1)
  {
    var m := MaskAt(i);
    MaskFacts(i, i);
    if i != 0 { MaskFacts(i, 0); SetKeepsOthers(cur, m, MoveLeft); SetKeepsOthers(just, m, MoveLeft); }
    if i != 1 { MaskFacts(i, 1); SetKeepsOthers(cur, m, MoveRight); SetKeepsOthers(just, m, MoveRight); }
    if i != 2 { MaskFacts(i, 2); SetKeepsOthers(cur, m, Dive); SetKeepsOthers(just, m, Dive); }
    if i != 3 { MaskFacts(i, 3); SetKeepsOthers(cur, m, Kick); SetKeepsOthers(just, m, Kick); }
    SetHolds(cur, m);
    SetHolds(just, m);
    ActionFramesClosedUnderOr(cur, m);
    ActionFramesClosedUnderOr(just, m);
  }

  /** The loop body when mask `i`'s key is not held: only the currently-pressed mask loses the bit. */
  lemma {:induction false} PollReleased(cur: bv16, just: bv16, just0: bv16, held: set<KeyCode>, i: nat)
    requires i < Count && !KeyHeld(held, MaskAt(i))
    requires Polled(cur, just, just0, held, i)
    ensures Polled(cur & !MaskAt(i), just, just0, held, i + 1)
  {
    var m := MaskAt(i);
    if i != 0 { MaskFacts(i, 0); ClearKeepsOthers(cur, m, MoveLeft); }
    if i != 1 { MaskFacts(i, 1); ClearKeepsOthers(cur, m, MoveRight); }
    if i != 2 { MaskFacts(i, 2); ClearKeepsOthers(cur, m, Dive); }
    if i != 3 { MaskFacts(i, 3); ClearKeepsOthers(cur, m, Kick); }
    ClearDrops(cur, m);
    ClearStaysAction(cur, m);
  }

  /** Once every mask is polled, the currently-pressed mask is PressedKeysMask and the just-pressed
      mask has gained exactly its bits. */
  lemma {:induction false} PolledMasks(cur: bv16, just: bv16, just0: bv16, held: set<KeyCode>)
    requires IsActionFrame(just0) && Polled(cur, just, just0, held, Count)
    ensures cur == PressedKeysMask(held)
    ensures just == just0 | PressedKeysMask(held)
  {
    var k := PressedKeysMask(held);
    PressedKeysMaskMeaning(held);
    ActionFrameDeterminedByHeld(cur, k);
    forall j | 0 <= j < Count
      ensures Held(just0 | k, MaskAt(j)) <==> Held(just0, MaskAt(j)) || KeyHeld(held, MaskAt(j))
    {
      OrHeld(just0, k, MaskAt(j));
    }
    ActionFramesClosedUnderOr(just0, k);
    ActionFrameDeterminedByHeld(just, just0 | k);
  }

  /** A key pressed during one Update and released before the next still reaches the frame
      that WriteInput stores: `current | just` after the two polls holds its mask. */
  lemma {:induction false} QuickPressIsWritten(just0: bv16, first: set<KeyCode>, second: set<KeyCode>, i: nat)
    requires i < Count && KeyHeld(first, MaskAt(i))
    ensures Held(PressedKeysMask(second) | ((just0 | PressedKeysMask(first)) | PressedKeysMask(second)), MaskAt(i))
  {
    var m := MaskAt(i);
    PressedKeysMaskMeaning(first);
    OrHeld(just0, PressedKeysMask(first), m);
    OrHeld(just0 | PressedKeysMask(first), PressedKeysMask(second), m);
    OrHeld(PressedKeysMask(second), (just0 | PressedKeysMask(first)) | PressedKeysMask(second), m);
  }

  /** Update only adds bits to the just-pressed mask. */
  lemma {:induction false} JustPressedOnlyGrows(just0: bv16, held: set<KeyCode>, m: bv16)
    requires Held(just0, m)
    ensures Held(just0 | PressedKeysMask(held), m)
  {
    OrHeld(just0, PressedKeysMask(held), m);
  }

  /** The ack cursor moves to `acked` when that is not before it, and otherwise stays. */
  function AdvanceAck(latest: UShort, acked: UShort): (r: UShort)
    ensures r == acked || r == latest
    ensures !IsTickBefore(r, latest)
  {
    BeforeIrreflexive(latest);
    if IsTickAfter(acked, latest) then acked else latest
  }

  /** The cursor after a run of acks, in arrival order. */
  function AdvanceAckAll(latest: UShort, acks: seq<UShort>): UShort
    decreases |acks|
  {
    if acks == [] then latest else AdvanceAckAll(AdvanceAck(latest, acks[0]), acks[1..])
  }

  /** Away from the wrap region the cursor ends at the largest tick seen, whatever order the acks come in. */
  lemma {:induction false} AckCursorIsMaximum(latest: UShort, acks: seq<UShort>)
    requires !IsTickLarge(latest)
    requires forall i :: 0 <= i < |acks| ==> !IsTickLarge(acks[i])
    ensures AdvanceAckAll(latest, acks) >= latest
    ensures forall i :: 0 <= i < |acks| ==> AdvanceAckAll(latest, acks) >= acks[i]
    ensures AdvanceAckAll(latest, acks) == latest || AdvanceAckAll(latest, acks) in acks
    decreases |acks|
  {
    if acks != [] {
      var next := AdvanceAck(latest, acks[0]);
      NumericBelowWrapRegion(acks[0], latest);
      assert next >= latest && next >= acks[0];
      AckCursorIsMaximum(next, acks[1..]);
      forall i | 0 <= i < |acks|
        ensures AdvanceAckAll(latest, acks) >= acks[i]
      {
        if i > 0 {
          assert acks[i] == acks[1..][i - 1];
        }
      }
    }
  }

  class SelfInputManager {
    /** The history this manager writes (the InputManager it extends). */
    var inputs: InputManager.InputManager
    var keysJustPressed: bv16
    var keysCurrentlyPressed: bv16
    var latestAckReceived: UShort
    /** The ticks SendUnackedInputs was called with; its body is a TODO and sends nothing. */
    var sendUnackedCalls: seq<UShort>

    ghost predicate Valid()
      reads this, inputs
    {
      inputs.Valid() && IsActionFrame(keysJustPressed) && IsActionFrame(keysCurrentlyPressed)
    }

    constructor ()
      ensures Valid() && fresh(inputs) && fresh(inputs.history)
      ensures keysJustPressed == 0 && keysCurrentlyPressed == 0 && latestAckReceived == 0
      ensures sendUnackedCalls == []
    {
      inputs := new InputManager.InputManager();
      keysJustPressed, keysCurrentlyPressed, latestAckReceived := 0, 0, 0;
      sendUnackedCalls := [];
    }

    /** The base Awake (every slot Invalid), then the check that every mask is bound. */
    method Awake()
      requires Valid()
      modifies inputs.history
      ensures Valid()
      ensures forall t: Tick :: !inputs.HasInput(t)
    {
      inputs.Awake();
      InputsBound();
    }

    /** One frame of key polling: a held key sets its mask in both masks, a released key clears it
        from the currently-pressed mask only, so a press between two ticks is not lost. The loop
        works on local copies of the two fields and stores them at the end; nothing reads the
        fields in between. */
    method Update(held: set<KeyCode>)
      requires Valid()
      modifies this`keysCurrentlyPressed, this`keysJustPressed
      ensures Valid()
      ensures keysCurrentlyPressed == PressedKeysMask(held)
      ensures keysJustPressed == old(keysJustPressed) | PressedKeysMask(held)
    {
      InputsBound();
      var current, just := keysCurrentlyPressed, keysJustPressed;
      for i := 0 to Count
        modifies {}
        invariant Polled(current, just, keysJustPressed, held, i)
      {
        var inputMask := MaskAt(i);
        if Binding(inputMask).value in held {
          PollHeld(current, just, keysJustPressed, held, i);
          current := current | inputMask;
          just := just | inputMask;
        } else {
          PollReleased(current, just, keysJustPressed, held, i);
          current := current & !inputMask;
        }
      }
      PolledMasks(current, just, keysJustPressed, held);
      keysCurrentlyPressed, keysJustPressed := current, just;
    }

    /** Stores the held and just-pressed actions at `currentTick`, then forgets the just-pressed ones. */
    method WriteInput(currentTick: Tick)
      requires Valid()
      modifies inputs.history, this`keysJustPressed
      ensures Valid()
      ensures inputs.history[..] == old(inputs.history[..])[currentTick := old(keysCurrentlyPressed | keysJustPressed)]
      ensures keysJustPressed == 0
      ensures inputs.HasInput(currentTick)
    {
      ActionFramesClosedUnderOr(keysCurrentlyPressed, keysJustPressed);
      inputs.history[currentTick] := keysCurrentlyPressed | keysJustPressed;
      keysJustPressed := 0;
    }

    method SendUnackedInputs(currentTick: UShort)
      modifies this`sendUnackedCalls
      ensures sendUnackedCalls == old(sendUnackedCalls) + [currentTick]
    {
      sendUnackedCalls := sendUnackedCalls + [currentTick];
    }

    method HandleInputAckMsg(latestTickReceived: UShort)
      modifies this`latestAckReceived
      ensures latestAckReceived == AdvanceAck(old(latestAckReceived), latestTickReceived)
      ensures !IsTickBefore(latestAckReceived, old(latestAckReceived))
    {
      if IsTickAfter(latestTickReceived, latestAckReceived) {
        latestAckReceived := latestTickReceived;
      }
    }
  }
}

/** The per-tick input frame: a 16-bit mask of held actions, with all ones meaning "no input". */
module InputMasks {

  const MoveLeft: bv16 := 0x0001
  const MoveRight: bv16 := 0x0002
  const Dive: bv16 := 0x0004
  const Kick: bv16 := 0x0008
  const Invalid: bv16 := 0xFFFF

  const AllMasks: seq<bv16> := [MoveLeft, MoveRight, Dive, Kick]
  const Count: nat := 4

  /** The i-th action mask, in AllMasks order. */
  function MaskAt(i: int): bv16
  {
    if i == 0 then MoveLeft else if i == 1 then MoveRight else if i == 2 then Dive else Kick
  }

  /** The bits any action mask can set. */
  const ActionBits: bv16 := MoveLeft | MoveRight | Dive | Kick

  predicate IsInvalid(inputMask: bv16)
  {
    inputMask == Invalid
  }

  /** A frame that only action bits can make. */
  predicate IsActionFrame(frame: bv16)
  {
    frame & !ActionBits == 0
  }

  /** Whether the action `inputMask` is held in `frame` (the body of GetInput). */
  predicate Held(frame: bv16, inputMask: bv16)
  {
    frame & inputMask != 0
  }

  /** The action is held now and was not held on the previous tick. */
  predicate PressedBetween(previous: bv16, current: bv16, inputMask: bv16)
  {
    !Held(previous, inputMask) && Held(current, inputMask)
  }

  /** The action was held on the previous tick and is not held now. */
  predicate ReleasedBetween(previous: bv16, current: bv16, inputMask: bv16)
  {
    Held(previous, inputMask) && !Held(current, inputMask)
  }

  /** The horizontal axis: -1 for MoveLeft, +1 for MoveRight, their sum when both are held. */
  function MoveAxis(frame: bv16): (r: int)
    ensures -1 <= r <= 1
    ensures r == 0 <==> Held(frame, MoveLeft) == Held(frame, MoveRight)
    ensures r == -1 <==> Held(frame, MoveLeft) && !Held(frame, MoveRight)
    ensures r == 1 <==> !Held(frame, MoveLeft) && Held(frame, MoveRight)
  {
    var left := if Held(frame, MoveLeft) then -1 else 0;
    var right := if Held(frame, MoveRight) then 1 else 0;
    left + right
  }

  /** The OR of a sequence of masks. */
  function OrOf(masks: seq<bv16>): bv16
  {
    if masks == [] then 0 else masks[0] | OrOf(masks[1..])
  }

  lemma MasksAreDistinctBits()
    ensures forall i :: 0 <= i < |AllMasks| ==> AllMasks[i] != 0 && AllMasks[i] & (AllMasks[i] - 1) == 0
    ensures forall i, j :: 0 <= i < j < |AllMasks| ==> AllMasks[i] & AllMasks[j] == 0
    ensures |AllMasks| == Count
  {
  }

  /** MaskAt walks AllMasks in order. */
  lemma MaskAtIsAllMasks()
    ensures forall i :: 0 <= i < |AllMasks| ==> MaskAt(i) == AllMasks[i]
  {
  }

  lemma IsInvalidExactly(inputMask: bv16)
    ensures IsInvalid(inputMask) <==> inputMask == 0xFFFF
  {
  }

  /** An action frame is never the Invalid sentinel, so an authored frame is never read as absent. */
  lemma ActionFrameIsValid(frame: bv16)
    requires IsActionFrame(frame)
    ensures !IsInvalid(frame)
  {
  }

  lemma ActionFramesClosedUnderOr(a: bv16, b: bv16)
    requires IsActionFrame(a) && IsActionFrame(b)
    ensures IsActionFrame(a | b)
  {
  }

  /** Any OR of the four action masks is an action frame, so it is never Invalid. */
  lemma {:induction false} OrOfActionMasks(masks: seq<bv16>)
    requires forall i :: 0 <= i < |masks| ==> masks[i] in AllMasks
    ensures IsActionFrame(OrOf(masks))
    ensures !IsInvalid(OrOf(masks))
  {
    if masks != [] {
      OrOfActionMasks(masks[1..]);
      assert IsActionFrame(masks[0]);
      ActionFramesClosedUnderOr(masks[0], OrOf(masks[1..]));
    }
  }

  /** GetInputDown and GetInputUp are never both true for the same tick and mask. */
  lemma PressAndReleaseExclusive(previous: bv16, current: bv16, inputMask: bv16)
    ensures !(PressedBetween(previous, current, inputMask) && ReleasedBetween(previous, current, inputMask))
  {
  }

  // ---------------------------------------------------------------------------
  // One bit at a time

  lemma MaskFacts(i: int, j: int)
    requires 0 <= i < Count && 0 <= j < Count
    ensures MaskAt(i) != 0 && IsActionFrame(MaskAt(i))
    ensures i != j ==> MaskAt(i) & MaskAt(j) == 0
  {
    if i == 0 {} else if i == 1 {} else if i == 2 {} else {}
  }

  /** Setting one mask leaves a disjoint mask as it was. */
  lemma SetKeepsOthers(frame: bv16, m: bv16, n: bv16)
    requires m & n == 0
    ensures Held(frame | m, n) == Held(frame, n)
  {
  }

  /** Clearing one mask leaves a disjoint mask as it was. */
  lemma ClearKeepsOthers(frame: bv16, m: bv16, n: bv16)
    requires m & n == 0
    ensures Held(frame & !m, n) == Held(frame, n)
  {
  }

  lemma SetHolds(frame: bv16, m: bv16)
    requires m != 0
    ensures Held(frame | m, m)
  {
  }

  lemma ClearDrops(frame: bv16, m: bv16)
    ensures !Held(frame & !m, m)
  {
  }

  lemma ClearStaysAction(frame: bv16, m: bv16)
    requires IsActionFrame(frame)
    ensures IsActionFrame(frame & !m)
  {
  }

  lemma OrZero(a: bv16, b: bv16)
    ensures a | b == 0 <==> a == 0 && b == 0
  {
  }

  lemma AndDistributes(x: bv16, y: bv16, m: bv16)
    ensures (x | y) & m == (x & m) | (y & m)
  {
  }

  /** An action is held in an OR of frames exactly when it is held in one of them. */
  lemma {:induction false} OrHeld(x: bv16, y: bv16, m: bv16)
    ensures Held(x | y, m) <==> Held(x, m) || Held(y, m)
  {
    AndDistributes(x, y, m);
    OrZero(x & m, y & m);
  }

  /** An action frame is determined by which of the four actions it holds. */
  lemma ActionFrameDeterminedByHeld(x: bv16, y: bv16)
    requires IsActionFrame(x) && IsActionFrame(y)
    requires forall i :: 0 <= i < Count ==> (Held(x, MaskAt(i)) <==> Held(y, MaskAt(i)))
    ensures x == y
  {
    assert Held(x, MaskAt(0)) == Held(y, MaskAt(0));
    assert Held(x, MaskAt(1)) == Held(y, MaskAt(1));
    assert Held(x, MaskAt(2)) == Held(y, MaskAt(2));
    assert Held(x, MaskAt(3)) == Held(y, MaskAt(3));
  }
}

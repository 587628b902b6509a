# Rollback netcode core, modelled in Dafny

This project models the netcode core of a two-player rollback fighting game written in C# for Unity.
It is a Dafny 4.11 model with proofs. It covers these parts:

- **Tick arithmetic.** Ticks wrap modulo `MaxTick` (65530). The heuristic tick order treats a
  "large" tick as before a "small" one, because the small one has wrapped around. The model
  proves what this order does guarantee: it is irreflexive and asymmetric, it is numeric away
  from the wrap region, and the successor of a tick is after it. It also proves what the order
  does not guarantee: three ticks form a cycle, so the order is not transitive.
- **Input frames and histories.** An input frame is a 16-bit mask of actions, and all ones means
  "no input". There are two history variants. The older `InputManager` marks a tick as present
  by any value other than the all-ones sentinel. `InputBuffer` keeps a window
  `[StartInclusive, EndExclusive)` whose setters assert that the window is well ordered. Both
  offer edge detection against the previous tick and a horizontal axis in {-1, 0, 1}.
- **The input exchange.**
  - The local player folds key state into a held mask and a just-pressed mask, and writes one
    frame per tick. Its ack cursor moves only forward.
  - The remote player merges every `InputMsg` range. The first frame written to a tick wins. The
    window's end moves only when a message extends it, and every message is acknowledged with
    the end of its range.
  - `InputMsg` has a wire form.
- **The tick clock.** It emits the current tick once per interval and increments it unless it is
  paused. Resuming jumps to the tick after the one it paused at.
- **The lockstep rule run on every tick.**
  - If the peer's input for `currentTick - InputDelayTicks` is missing, the clock stalls.
  - Otherwise the clock resumes, the local input is written, and both players are simulated.
- **Ping bookkeeping.** One ping of our own is in flight at a time. The last five round-trip
  samples are kept, and their mean is the RTT estimate.
- **Rollback snapshots.**
  - Movement and animation state have field-by-field `Assign` and `Reset`.
  - The movement component has save, rollback and teleport. Rollback, Teleport and OnSimulated
    each leave the body standing where the state says. Reset zeroes the state's position but
    leaves the body where it is, so afterwards the two agree only for a body at the origin.
  - The per-tick determinism check is modelled.
  - The rollback manager keeps the saved tick.
  - The simulation manager keeps the official and unofficial ticks.
  - The peer is extrapolated from its most recent frame.
- **Lives and hits.** Attacker-side kick damage is suppressed while the local player is being
  predicted. The older victim-side rule agrees with it.

Each C# file of the core is one Dafny module of the same name:

- Pure code, such as tick arithmetic, masks, the wire form and the scheduling rule, becomes
  functions and lemmas.
- Components that update fields become classes whose methods state their new state, usually
  against a specification function on the old state. Lemmas about that function then carry the
  promises the source makes.
- Per-tick histories are `array`s of length `MaxTick`.
- Lists and event logs are `seq` fields.
- What a component hands to the outside world is logged on it. The ping manager keeps its
  outgoing messages in a `seq` field, the simulation manager its physics steps and notifications,
  and the rollback manager its disposal requests. The clock counts its PauseChanged
  notifications.

Wall-clock times, the keyboard, the prediction flag, `StartTick` and `InputDelayTicks` are
parameters.

The modelled files come from two eras of the same design, "Lockstep" and "Rollback". Several
files call tick helpers that `TickService.cs` does not define. The model takes the following
readings:

- `Add` and `Subtract` are `AddTick` and `SubtractTick`.
- `IsBefore` is `IsTickBefore`.
- `IsAfterOrEqual` is the shown `IsTickAfter`, which is "not before". So a tick is after itself.
- `IsBeforeOrEqual(a, b)` is `IsTickBefore(a, b) || a == b`. This is an assumption.
- `IsAfter(a, b)` is `IsTickBefore(b, a)`. This is an assumption.
- `InputMsg.EndTickExclusive` is `AddTick(StartTick, NumTicks)`. This is an assumption.

## Model

| member | source | states |
|---|---|---|
| MathExtensions.CRem | Assets/Scripts/Common/MathExtensions.cs:11 | C#'s `%`: the remainder has the sign of `x`, its size is below `|m|`, and it differs from `x` by a multiple of `m` |
| MathExtensions.Mod | Assets/Scripts/Common/MathExtensions.cs:9-12 | for a positive modulus, `(x % m + m) % m` with C#'s remainder is the Euclidean residue of `x` and lies in `[0, m)` |
| MathExtensions.ModInRange | Assets/Scripts/Common/MathExtensions.cs:9-12 | `0 <= Mod(x, m) < m` for every `x` when `m > 0` |
| MathExtensions.ModCongruent | Assets/Scripts/Common/MathExtensions.cs:11 | `Mod(x, m)` is congruent to `x` modulo `m` |
| MathExtensions.ModIdentity | Assets/Scripts/Common/MathExtensions.cs:11 | `Mod` leaves a value already in `[0, m)` unchanged |
| MathExtensions.ModIdempotent | Assets/Scripts/Common/MathExtensions.cs:11 | applying `Mod` twice is the same as once |
| TickService.TicksInSeconds | Assets/Scripts/Services/TickService.cs:45-54 | the result is `60 * seconds` whenever that is at most `MaxTick`; a product beyond a ushort is truncated by the cast |
| TickService.ThresholdsFromSeconds | Assets/Scripts/Services/TickService.cs:12-13 | the small threshold is thirty seconds of ticks (1800) and the large one is `MaxTick` minus that (63730); neither computation overflows or logs the error |
| TickService.IsTickLarge | Assets/Scripts/Services/TickService.cs:56-59 | a tick in the last thirty seconds before the wrap (above 63730); no tick is both large and small, by NoTickIsLargeAndSmall |
| TickService.IsTickSmall | Assets/Scripts/Services/TickService.cs:61-64 | a tick in the first thirty seconds after the wrap (below 1800) |
| TickService.IsTickBefore | Assets/Scripts/Services/TickService.cs:25-38 | the wrap-aware order: a large tick precedes a small one, never the reverse, and otherwise the order is numeric; the lemmas below say what it guarantees and that it is not transitive |
| TickService.IsTickAfter | Assets/Scripts/Services/TickService.cs:40-43 | "not before", so a tick is after itself, by BeforeIrreflexive |
| TickService.IsBeforeOrEqual | Assets/Scripts/Gameplay/Player/Input/InputBuffer.cs:105-108 | the assumed reading of the helper the window assertion calls: before, or the same tick |
| TickService.IsAfter | Assets/Scripts/Gameplay/Player/Input/PeerInputManager.cs:46 | the assumed reading of the helper the message filter calls: the converse of IsTickBefore, strict by AfterImpliesAfterOrEqual |
| TickService.AddTick | Assets/Scripts/Services/TickService.cs:15-18 | the result is always a tick below `MaxTick`, so it never overflows a ushort, and it is `tick + x` when that is already in range |
| TickService.AddTickIsMod | Assets/Scripts/Services/TickService.cs:15-18 | `AddTick(tick, x)` is exactly `MathExtensions.Mod(tick + x, MaxTick)`, the C# formula |
| TickService.SubtractTick | Assets/Scripts/Services/TickService.cs:20-23 | the result is `tick - x` reduced modulo `MaxTick` |
| TickService.AddThenSubtract | Assets/Scripts/Services/TickService.cs:15-23 | `SubtractTick(AddTick(t, x), x) == t` for every tick `t` and every `x` |
| TickService.SubtractThenAdd | Assets/Scripts/Services/TickService.cs:15-23 | `AddTick(SubtractTick(t, x), x) == t` for every tick `t` and every `x` |
| TickService.PreviousTick | Assets/Scripts/Services/TickService.cs:20-23 | `Subtract(t, 1)` written without the modulus: 0 wraps to `MaxTick - 1`; PreviousTickIsSubtract proves it equal |
| TickService.PreviousTickIsSubtract | Assets/Scripts/Services/TickService.cs:20-23 | the tick before `t` (0 wraps to `MaxTick - 1`) is `SubtractTick(t, 1)`, and adding one returns to `t` |
| TickService.AddCompose | Assets/Scripts/Services/TickService.cs:15-18 | adding `a` then `b` equals adding `a + b` |
| TickService.AddInjective | Assets/Scripts/Services/TickService.cs:15-18 | the first `MaxTick` ticks counted from any tick are pairwise distinct |
| TickService.AddMovesTick | Assets/Scripts/Services/TickService.cs:15-18 | moving a tick by `0 < k < MaxTick` changes it |
| TickService.NoTickIsLargeAndSmall | Assets/Scripts/Services/TickService.cs:56-64 | because 1800 < 63730, no tick is both large and small |
| TickService.BeforeIrreflexive | Assets/Scripts/Services/TickService.cs:25-43 | no tick is before itself, so `IsTickAfter(t, t)` holds |
| TickService.BeforeAsymmetric | Assets/Scripts/Services/TickService.cs:25-38 | if `a` is before `b` then `b` is not before `a` |
| TickService.AfterImpliesAfterOrEqual | Assets/Scripts/Services/TickService.cs:40-43 | the strict `IsAfter` implies `IsTickAfter` and inequality |
| TickService.WrapIsBefore | Assets/Scripts/Services/TickService.cs:25-38 | `MaxTick - 1` is before `0`, and `0` is not before `MaxTick - 1` |
| TickService.NumericBelowWrapRegion | Assets/Scripts/Services/TickService.cs:25-38 | when neither tick is large, the order is `<` |
| TickService.NumericAboveWrapRegion | Assets/Scripts/Services/TickService.cs:25-38 | when neither tick is small, the order is `<` |
| TickService.SuccessorIsAfter | Assets/Scripts/Services/TickService.cs:15-38 | every tick is before its successor, across the wrap too |
| TickService.BeforeHasCycle | Assets/Scripts/Services/TickService.cs:25-38 | 64000 is before 0, 0 is before 30000 and 30000 is before 64000, so the order is not transitive |
| InputMasks.MasksAreDistinctBits | Assets/Scripts/Common/InputMasks.cs:9-16 | the four action masks are distinct single bits, and `AllMasks` has `Count` = 4 entries |
| InputMasks.IsInvalid | Assets/Scripts/Common/InputMasks.cs:18-21 | a frame is the no-input sentinel; that is exactly 0xFFFF, by IsInvalidExactly |
| InputMasks.MaskAtIsAllMasks | Assets/Scripts/Common/InputMasks.cs:15 | the i-th mask that the model's loops use is `AllMasks[i]` |
| InputMasks.IsInvalidExactly | Assets/Scripts/Common/InputMasks.cs:13-21 | `IsInvalid(m)` holds if and only if `m == 0xFFFF` |
| InputMasks.ActionFrameIsValid | Assets/Scripts/Common/InputMasks.cs:9-13 | a frame made only of action bits is never the Invalid sentinel |
| InputMasks.ActionFramesClosedUnderOr | Assets/Scripts/Common/InputMasks.cs:9-12 | the OR of two action frames is an action frame |
| InputMasks.OrOfActionMasks | Assets/Scripts/Common/InputMasks.cs:9-15 | any OR of the four action masks is an action frame and so never Invalid |
| InputMasks.PressedBetween | Assets/Scripts/Gameplay/Player/Input/InputBuffer.cs:75-79 | a press: not held on the previous tick, held now; PressAndReleaseExclusive relates it to a release |
| InputMasks.ReleasedBetween | Assets/Scripts/Gameplay/Player/Input/InputBuffer.cs:82-86 | a release: held on the previous tick, not held now |
| InputMasks.MoveAxis | Assets/Scripts/Gameplay/Player/Input/InputManager.cs:64-79 | the axis is in {-1, 0, 1}: 0 exactly when both or neither of left and right are held, -1 for left alone, +1 for right alone |
| InputMasks.PressAndReleaseExclusive | Assets/Scripts/Gameplay/Player/Input/InputBuffer.cs:75-86 | a press and a release are never both detected for the same tick and mask |
| InputManager.InputManager.constructor | Assets/Scripts/Gameplay/Player/Input/InputManager.cs:22 | the history is a fresh array of `MaxTick` zero frames |
| InputManager.InputManager.Awake | Assets/Scripts/Gameplay/Player/Input/InputManager.cs:24-30 | after the loop, every one of the `MaxTick` slots is Invalid, so no tick holds input |
| InputManager.InputManager.HasInput | Assets/Scripts/Gameplay/Player/Input/InputManager.cs:37-40 | a tick holds input when its slot is not the sentinel; after Awake no tick does |
| InputManager.InputManager.GetInput | Assets/Scripts/Gameplay/Player/Input/InputManager.cs:44-48 | requires input at the tick (the source asserts it); the result says whether the mask is held in that tick's frame |
| InputManager.InputManager.GetInputDown | Assets/Scripts/Gameplay/Player/Input/InputManager.cs:51-55 | not held at the wrapped previous tick and held now; the current tick is read (and asserted present) only when the first test passes |
| InputManager.InputManager.GetInputUp | Assets/Scripts/Gameplay/Player/Input/InputManager.cs:58-62 | held at the wrapped previous tick and not held now, with the same short-circuit |
| InputManager.InputManager.GetMoveInput | Assets/Scripts/Gameplay/Player/Input/InputManager.cs:64-79 | the axis of the tick's frame, in {-1, 0, 1} |
| InputBuffer.EmptyWindowHoldsNothing | Assets/Scripts/Gameplay/Player/Input/InputBuffer.cs:50-53 | a window whose start equals its end holds no tick |
| InputBuffer.EndIsOutsideWindow | Assets/Scripts/Gameplay/Player/Input/InputBuffer.cs:50-53 | the end cursor itself never holds input |
| InputBuffer.StartInWindowIffNonEmpty | Assets/Scripts/Gameplay/Player/Input/InputBuffer.cs:50-53 | in a well-ordered window, the start tick holds input if and only if start differs from end |
| InputBuffer.InitialiseOrderMatters | Assets/Scripts/Gameplay/Player/Input/InputBuffer.cs:44-48 | `Initialise` sets the start first, against the old end: the window [2000, 3000) would pass the end setter, yet its start fails the start setter while the old end is 100 |
| InputBuffer.InputBuffer.constructor | Assets/Scripts/Gameplay/Player/Input/InputBuffer.cs:40-42 | a fresh `MaxTick`-slot history of zeros and both cursors at 0 |
| InputBuffer.InputBuffer.SetStartInclusive | Assets/Scripts/Gameplay/Player/Input/InputBuffer.cs:13-22 | requires the new start to be before or equal to the end (the setter's assertion); only the start changes |
| InputBuffer.InputBuffer.SetEndExclusive | Assets/Scripts/Gameplay/Player/Input/InputBuffer.cs:24-37 | requires that end + 100 is not before the start and that the start is before or equal to the new end; only the end changes |
| InputBuffer.InputBuffer.Initialise | Assets/Scripts/Gameplay/Player/Input/InputBuffer.cs:44-48 | requires both setters' assertions in order (the start against the old end); only the two cursors change |
| InputBuffer.InputBuffer.WriteInput | Assets/Scripts/Gameplay/Player/Input/InputBuffer.cs:55-58 | slot `t` (a tick below `MaxTick`) becomes the input; every other slot and both cursors stay as they were |
| InputBuffer.InputBuffer.HasInput | Assets/Scripts/Gameplay/Player/Input/InputBuffer.cs:50-53 | a tick holds input when it lies in the wrapping window from the start to the end; EmptyWindowHoldsNothing, EndIsOutsideWindow and StartInWindowIffNonEmpty state what that means |
| InputBuffer.InputBuffer.GetRawInput | Assets/Scripts/Gameplay/Player/Input/InputBuffer.cs:60-64 | requires the tick to be in the window (asserted); returns its stored frame |
| InputBuffer.InputBuffer.GetInput | Assets/Scripts/Gameplay/Player/Input/InputBuffer.cs:68-72 | requires the tick to be in the window (asserted); the result says whether the mask is held in the stored frame |
| InputBuffer.InputBuffer.GetInputDown | Assets/Scripts/Gameplay/Player/Input/InputBuffer.cs:75-79 | a press between the wrapped previous tick and this one; the previous tick must be in the window, and this one too when it is read |
| InputBuffer.InputBuffer.GetInputUp | Assets/Scripts/Gameplay/Player/Input/InputBuffer.cs:82-86 | a release between the wrapped previous tick and this one, with the same presence requirements |
| InputBuffer.InputBuffer.GetMoveInput | Assets/Scripts/Gameplay/Player/Input/InputBuffer.cs:88-103 | the axis of the stored frame, in {-1, 0, 1} |
| SelfInputManager.InputsBound | Assets/Scripts/Gameplay/Player/Input/SelfInputManager.cs:113-119 | every one of the four masks has a key binding |
| SelfInputManager.PressedKeysMaskMeaning | Assets/Scripts/Gameplay/Player/Input/SelfInputManager.cs:58-63 | the mask of held keys has an action's bit exactly when that action's bound key is held, and no other bit |
| SelfInputManager.PollHeld | Assets/Scripts/Gameplay/Player/Input/SelfInputManager.cs:81-86 | a held key sets its bit in both masks and leaves the other masks' bits alone |
| SelfInputManager.PollReleased | Assets/Scripts/Gameplay/Player/Input/SelfInputManager.cs:87-91 | a released key clears its bit in the currently-pressed mask only |
| SelfInputManager.PolledMasks | Assets/Scripts/Gameplay/Player/Input/SelfInputManager.cs:79-92 | after all four masks are polled, the held mask is exactly the held keys' mask, and the just-pressed mask has gained exactly those bits |
| SelfInputManager.QuickPressIsWritten | Assets/Scripts/Gameplay/Player/Input/SelfInputManager.cs:77-99 | a key held during one poll and released before the next still appears in the frame written at the tick |
| SelfInputManager.JustPressedOnlyGrows | Assets/Scripts/Gameplay/Player/Input/SelfInputManager.cs:84-85 | a poll never clears a just-pressed bit |
| SelfInputManager.AdvanceAck | Assets/Scripts/Gameplay/Player/Input/SelfInputManager.cs:139-142 | the cursor becomes the acked tick or stays, and never ends before its old value |
| SelfInputManager.AckCursorIsMaximum | Assets/Scripts/Gameplay/Player/Input/SelfInputManager.cs:139-142 | away from the wrap region, after any run of acks in any order, the cursor is the largest tick seen |
| SelfInputManager.SelfInputManager.constructor | Assets/Scripts/Gameplay/Player/Input/SelfInputManager.cs:53-55 | both masks and the cursor start at 0, over a fresh history |
| SelfInputManager.SelfInputManager.Awake | Assets/Scripts/Gameplay/Player/Input/SelfInputManager.cs:65-69 | the base `Awake` leaves no tick with input, and every mask is bound |
| SelfInputManager.SelfInputManager.Update | Assets/Scripts/Gameplay/Player/Input/SelfInputManager.cs:77-93 | the held mask becomes the mask of held keys, and the just-pressed mask gains those bits and loses none |
| SelfInputManager.SelfInputManager.WriteInput | Assets/Scripts/Gameplay/Player/Input/SelfInputManager.cs:95-99 | slot `currentTick` becomes `held | justPressed` and no other slot changes; just-pressed becomes 0; the tick then holds input, because the frame is never Invalid |
| SelfInputManager.SelfInputManager.SendUnackedInputs | Assets/Scripts/Gameplay/Player/Input/SelfInputManager.cs:101-111 | the call is recorded with its tick and nothing else changes (the body is a TODO) |
| SelfInputManager.SelfInputManager.HandleInputAckMsg | Assets/Scripts/Gameplay/Player/Input/SelfInputManager.cs:132-144 | the cursor moves to the acked tick exactly when that is not before it, and so it never moves back |
| PeerInputManager.TickBeforeFirstSimulationTick | Assets/Scripts/Gameplay/Player/Input/PeerInputManager.cs:21 | the tick after it is `StartTick - InputDelayTicks`, the first simulated tick |
| PeerInputManager.CollapsedWindowIsAccepted | Assets/Scripts/Gameplay/Player/Input/PeerInputManager.cs:21-26 | a window with start equal to end always passes the end setter's checks and holds no tick |
| PeerInputManager.MsgTick | Assets/Scripts/Gameplay/Player/Input/PeerInputManager.cs:48-58 | frame `i` of a message goes to `AddTick(StartTick, i)` (for `i = 0`, to the unreduced `StartTick`) |
| PeerInputManager.MsgTickStep | Assets/Scripts/Gameplay/Player/Input/PeerInputManager.cs:58 | each frame's tick is one wrapping step after the previous frame's |
| PeerInputManager.MsgTickInjective | Assets/Scripts/Gameplay/Player/Input/PeerInputManager.cs:48-59 | distinct frames of a message no longer than `MaxTick` go to distinct ticks |
| PeerInputManager.Merge | Assets/Scripts/Gameplay/Player/Input/PeerInputManager.cs:50-59 | the history after the first `n` frames of the loop: each frame written at its tick unless that tick is already present; MergeKeepsPresent, MergeLeavesOthers and MergeLands state its effect |
| PeerInputManager.MergeKeepsPresent | Assets/Scripts/Gameplay/Player/Input/PeerInputManager.cs:52-56 | a tick already in the window keeps its frame: the merge never overwrites it |
| PeerInputManager.MergeLeavesOthers | Assets/Scripts/Gameplay/Player/Input/PeerInputManager.cs:48-59 | a tick that no frame goes to is untouched |
| PeerInputManager.MergeLands | Assets/Scripts/Gameplay/Player/Input/PeerInputManager.cs:48-59 | frame `i` lands at its tick when that tick was not present |
| PeerInputManager.Receive | Assets/Scripts/Gameplay/Player/Input/PeerInputManager.cs:46-61 | receiving a message never changes the window's start |
| PeerInputManager.StaleMessageIgnored | Assets/Scripts/Gameplay/Player/Input/PeerInputManager.cs:46 | a message whose end is not after the buffer's end leaves every slot and both cursors unchanged |
| PeerInputManager.AcceptedMessageMerged | Assets/Scripts/Gameplay/Player/Input/PeerInputManager.cs:46-61 | after an accepted message: the end is the message's end; present frames stay; each frame lands at its tick unless that tick was present; every other tick is untouched |
| PeerInputManager.EndOnlyGrows | Assets/Scripts/Gameplay/Player/Input/PeerInputManager.cs:46-61 | the end cursor either stays or moves to a tick after it |
| PeerInputManager.ReceiveIdempotent | Assets/Scripts/Gameplay/Player/Input/PeerInputManager.cs:46-61 | receiving the same message twice gives the same buffer as receiving it once |
| PeerInputManager.PeerInputManager.constructor | Assets/Scripts/Gameplay/Player/Input/InputBuffer.cs:40-42 | a fresh buffer of `MaxTick` zero frames with both cursors at 0, and no ack sent |
| PeerInputManager.PeerInputManager.Initialise | Assets/Scripts/Gameplay/Player/Input/PeerInputManager.cs:17-27 | both cursors become `StartTick - InputDelayTicks - 1`, so the window is empty; the start is checked against the old end |
| PeerInputManager.PeerInputManager.HandleInputMsg | Assets/Scripts/Gameplay/Player/Input/PeerInputManager.cs:40-66 | the loop that skips present ticks leaves the buffer equal to `Receive` of the old buffer; the ack is the message's exclusive end, whether or not the message was merged |
| PeerInputManager.PeerInputManager.SendInputAck | Assets/Scripts/Gameplay/Player/Input/PeerInputManager.cs:68-74 | one ack carrying the given tick is handed to the connection |
| InputMsg.Encode | Assets/Scripts/Messages/InputMsg.cs:44-49 | a message is three fields on the wire |
| InputMsg.Decode | Assets/Scripts/Messages/InputMsg.cs:37-42 | reading succeeds exactly when the wire starts with two ushorts and a ushort array |
| InputMsg.DecodeEncode | Assets/Scripts/Messages/InputMsg.cs:37-49 | reading what was written returns the same start tick, tick count and frames |
| InputMsg.DecodeIgnoresRest | Assets/Scripts/Messages/InputMsg.cs:37-42 | reading consumes only the message's own three fields |
| InputMsg.EndTickExclusiveOf | Assets/Scripts/Gameplay/Player/Input/PeerInputManager.cs:46 | the exclusive end is `StartTick + NumTicks` when that does not wrap |
| InputMsg.EndTickOf | Assets/Scripts/Messages/InputMsg.cs:15 | the last tick is `StartTick + NumTicks - 1` when that does not wrap, and always the tick before the exclusive end |
| InputMsg.OneTickEndsAtStart | Assets/Scripts/Messages/InputMsg.cs:15 | a one-tick message ends at its start tick |
| InputMsg.InputMsg.Empty | Assets/Scripts/Messages/InputMsg.cs:18 | the parameterless constructor that reading starts from |
| InputMsg.InputMsg.constructor | Assets/Scripts/Messages/InputMsg.cs:20-27 | requires at least one tick (asserted); stores the three fields, with no check that the frame count matches |
| InputMsg.InputMsg.EndTick | Assets/Scripts/Messages/InputMsg.cs:15 | the inclusive last tick: `StartTick + NumTicks - 1` when that does not wrap, and one wrapping step before the exclusive end |
| InputMsg.InputMsg.EndTickExclusive | Assets/Scripts/Gameplay/Player/Input/PeerInputManager.cs:46 | the tick one past the range: `StartTick + NumTicks` when that does not wrap |
| InputMsg.InputMsg.Serialize | Assets/Scripts/Messages/InputMsg.cs:44-49 | writes StartTick, NumTicks and Inputs in that order, and the result reads back as the same fields |
| InputMsg.InputMsg.Deserialize | Assets/Scripts/Messages/InputMsg.cs:37-42 | reads the fields in the same order; success exactly when the wire has the right shape; on failure the fields read before the bad one are already stored |
| InputMsg.RoundTrip | Assets/Scripts/Messages/InputMsg.cs:37-49 | a message read from another's serialisation carries the same three fields |
| Clock.Pause | Assets/Scripts/Gameplay/Clock.cs:55-65 | the clock's fields after PauseIncrementing; PauseIdempotent and PauseChangedOnlyOnChange state its effect |
| Clock.Resume | Assets/Scripts/Gameplay/Clock.cs:68-78 | the clock's fields after ResumeIncrementing; ResumeIdempotent and PauseResumeContinues state its effect |
| Clock.FireStep | Assets/Scripts/Gameplay/Clock.cs:89-93 | the start of a loop iteration, where a pending unpause jumps to the paused tick plus one; ResumeSnaps states its effect |
| Clock.AdvanceStep | Assets/Scripts/Gameplay/Clock.cs:98-106 | the end of a loop iteration, an increment unless paused; PausedStaysPut and RunningCountsUp state its effect |
| Clock.BeginStep | Assets/Scripts/Gameplay/Clock.cs:42-53 | the clock's fields after Begin; BeginRunningStartsAtStartTick and BeginPausedSkipsStartTick state its effect |
| Clock.Run | Assets/Scripts/Gameplay/Clock.cs:85-107 | the ticks emitted over `n` iterations of the loop with no pause or resume in between, one per iteration; RunningEmitsAt, PausedRepeatsTick and ResumeSnaps state what they are |
| Clock.PauseIdempotent | Assets/Scripts/Gameplay/Clock.cs:55-65 | pausing twice is pausing once, and the clock is then paused |
| Clock.ResumeIdempotent | Assets/Scripts/Gameplay/Clock.cs:68-78 | resuming twice is resuming once, and the clock is then running |
| Clock.PauseChangedOnlyOnChange | Assets/Scripts/Gameplay/Clock.cs:55-78 | PauseChanged is raised exactly when pausing or resuming changes the flag |
| Clock.PauseResumeContinues | Assets/Scripts/Gameplay/Clock.cs:55-93 | pausing records the tick, and resuming then firing continues at the tick after it |
| Clock.ResumeSnaps | Assets/Scripts/Gameplay/Clock.cs:67-93 | however many intervals the clock stayed paused, the first tick after resuming is the paused tick plus one |
| Clock.PausedStaysPut | Assets/Scripts/Gameplay/Clock.cs:98-105 | a paused clock stays paused at its tick over any number of intervals |
| Clock.PausedRepeatsTick | Assets/Scripts/Gameplay/Clock.cs:87-106 | while paused, every interval emits the same tick |
| Clock.RunningEmitsAt | Assets/Scripts/Gameplay/Clock.cs:87-112 | while running, interval `k` emits the first tick plus `k`, wrapping |
| Clock.RunningCountsUp | Assets/Scripts/Gameplay/Clock.cs:87-112 | while running, consecutive intervals emit consecutive wrapping ticks |
| Clock.BeginRunningStartsAtStartTick | Assets/Scripts/Gameplay/Clock.cs:42-53 | `Begin` on a running clock with no pending unpause emits StartTick first |
| Clock.BeginPausedSkipsStartTick | Assets/Scripts/Gameplay/Clock.cs:42-53 | `Begin` on a paused clock (or one with an unpause pending) emits the paused tick plus one first, not StartTick |
| Clock.SettledIsInvariant | Assets/Scripts/Gameplay/Clock.cs:42-112 | a paused clock sits on its paused tick and only a running clock has a pending unpause; every step keeps this except a pause while an unpause is pending |
| Clock.Clock.constructor | Assets/Scripts/Gameplay/Clock.cs:22-26 | the fields' defaults: tick 0, running, nothing pending |
| Clock.Clock.Begin | Assets/Scripts/Gameplay/Clock.cs:42-53 | sets the tick to StartTick, then resumes |
| Clock.Clock.PauseIncrementing | Assets/Scripts/Gameplay/Clock.cs:55-65 | a paused clock is unchanged; otherwise it becomes paused at the current tick and raises PauseChanged |
| Clock.Clock.ResumeIncrementing | Assets/Scripts/Gameplay/Clock.cs:68-78 | a running clock is unchanged; otherwise it becomes running with an unpause pending and raises PauseChanged |
| Clock.Clock.Fire | Assets/Scripts/Gameplay/Clock.cs:89-96 | applies a pending unpause (the tick becomes the paused tick plus one), then returns the tick to emit |
| Clock.Clock.Advance | Assets/Scripts/Gameplay/Clock.cs:98-106 | after the wait, increments the tick exactly when the clock is not paused |
| Clock.Clock.IncrementCurrentTick | Assets/Scripts/Gameplay/Clock.cs:109-112 | the tick moves one wrapping step and stays below `MaxTick` |
| NetSynchronisationManager.AddSample | Assets/Scripts/Gameplay/NetSynchronisationManager.cs:98-102 | the sample list after one more sample is kept; AddSampleKeepsRecent and AddSampleBounded state its effect |
| NetSynchronisationManager.Recent | Assets/Scripts/Gameplay/NetSynchronisationManager.cs:98-102 | the reference list: the last `min(n, 5)` samples of a history, in order |
| NetSynchronisationManager.AddSampleKeepsRecent | Assets/Scripts/Gameplay/NetSynchronisationManager.cs:98-102 | appending a sample and dropping the oldest beyond five keeps exactly the five most recent samples in arrival order |
| NetSynchronisationManager.AddSampleBounded | Assets/Scripts/Gameplay/NetSynchronisationManager.cs:98-102 | the list never holds more than five samples, and its last entry is the newest |
| NetSynchronisationManager.MeanWithinSamples | Assets/Scripts/Gameplay/NetSynchronisationManager.cs:54-57 | the mean lies within any bounds of the samples |
| NetSynchronisationManager.NetSynchronisationManager.constructor | Assets/Scripts/Gameplay/NetSynchronisationManager.cs:18-27 | no samples, nothing sent, all fields zero |
| NetSynchronisationManager.NetSynchronisationManager.EstimateRTT | Assets/Scripts/Gameplay/NetSynchronisationManager.cs:54-57 | requires at least one sample (an empty average throws); a steady RTT is estimated exactly |
| NetSynchronisationManager.NetSynchronisationManager.OnConnectionSetupComplete | Assets/Scripts/Gameplay/NetSynchronisationManager.cs:35-43 | requires that no ping of ours was sent yet (acks of the peer's pings may already be queued); appends the first ping, so exactly one ping of ours is in flight |
| NetSynchronisationManager.PingHandledBeforeSetup | Assets/Scripts/Gameplay/NetSynchronisationManager.cs:29-85 | a peer ping handled before our own setup completes is acked, and the first ping still leaves exactly one of ours in flight |
| NetSynchronisationManager.NetSynchronisationManager.HandlePingMsg | Assets/Scripts/Gameplay/NetSynchronisationManager.cs:74-85 | records the peer's tick and receipt time and sends an ack carrying that tick, and no ping |
| NetSynchronisationManager.NetSynchronisationManager.HandlePingAckMsg | Assets/Scripts/Gameplay/NetSynchronisationManager.cs:87-107 | requires the ack to echo the latest ping's tick (asserted); the sample is now minus the send time; the list keeps the latest five samples; one new ping is sent, so one ping stays in flight |
| NetSynchronisationManager.NetSynchronisationManager.SendPing | Assets/Scripts/Gameplay/NetSynchronisationManager.cs:109-115 | records the send time and the clock's current tick, and sends one ping carrying that tick |
| NetSynchronisationManager.NetSynchronisationManager.SendPingAck | Assets/Scripts/Gameplay/NetSynchronisationManager.cs:117-120 | sends one ack carrying the received tick |
| MovementState.SetIsFacingLeft | Assets/Scripts/Gameplay/Player/Movement/MovementState.cs:28-36 | the property setter: the new value, and the facing event's subscribers as the ones invoked |
| MovementState.SetIsKicking | Assets/Scripts/Gameplay/Player/Movement/MovementState.cs:38-46 | the property setter: the new value, and the kicking event's subscribers as the ones invoked |
| MovementState.Reset | Assets/Scripts/Gameplay/Player/Movement/MovementState.cs:54-67 | the struct after Reset and the subscribers it invokes; ResetMeaning states its effect |
| MovementState.Assign | Assets/Scripts/Gameplay/Player/Movement/MovementState.cs:71-84 | the struct after Assign and the subscribers it invokes; AssignMeaning, AssignIdempotent and RestoreAfterSave state its effect |
| MovementState.ResetMeaning | Assets/Scripts/Gameplay/Player/Movement/MovementState.cs:54-67 | `Reset` zeroes every field, keeps the subscribers, and raises each event once (facing first), changed or not |
| MovementState.AssignMeaning | Assets/Scripts/Gameplay/Player/Movement/MovementState.cs:71-84 | after `Assign(other)` every field equals other's, this state keeps its own subscribers, and each event is raised once; `other` is a value, so it is not changed |
| MovementState.AssignIdempotent | Assets/Scripts/Gameplay/Player/Movement/MovementState.cs:71-84 | assigning the same source twice is assigning it once |
| MovementState.AssignSelfIsNoOp | Assets/Scripts/Gameplay/Player/Movement/MovementState.cs:71-84 | assigning a state to itself leaves it as it was |
| MovementState.RestoreAfterSave | Assets/Scripts/Gameplay/Player/Movement/MovementState.cs:69-84 | saving into a slot, then any change that keeps the subscribers, then assigning the slot back restores the state exactly |
| MovementState.ReplayFailsAsWritten | Assets/Scripts/Gameplay/Player/Movement/MovementManager.cs:400-407 | a record made by `Assign` into a default struct has the live state's values, but the struct's `Equals` still finds them different |
| MovementState.ReplayPassesOnValues | Assets/Scripts/Gameplay/Player/Movement/MovementManager.cs:400-407 | compared on values, an identical replay matches its record |
| MovementManager.FacingFollowsVelocity | Assets/Scripts/Gameplay/Player/Movement/MovementManager.cs:365-386 | a player moving left turns left, one moving right turns right, and a still one keeps its direction |
| MovementManager.KickColliderFollowsKicking | Assets/Scripts/Gameplay/Player/Movement/MovementManager.cs:370-391 | the kicking handler sets the collider to the kicking flag; the facing handler only turns the sprite |
| MovementManager.MovementManager.constructor | Assets/Scripts/Gameplay/Player/Movement/MovementManager.cs:64-85 | default structs everywhere, then the two handlers subscribed to the live state's events; the records and the rollback slot have no subscribers |
| MovementManager.MovementManager.OnIsFacingLeftChanged | Assets/Scripts/Gameplay/Player/Movement/MovementManager.cs:370-386 | turns the sprite to the state's facing, except at zero velocity |
| MovementManager.MovementManager.OnIsKickingChanged | Assets/Scripts/Gameplay/Player/Movement/MovementManager.cs:388-391 | the kick collider is active exactly when the state is kicking |
| MovementManager.MovementManager.Invoke | Assets/Scripts/Gameplay/Player/Movement/MovementState.cs:31-45 | runs an event's subscribers, in order, against the live state |
| MovementManager.MovementManager.SetStateIsFacingLeft | Assets/Scripts/Gameplay/Player/Movement/MovementState.cs:28-36 | stores the flag, then raises IsFacingLeftChanged |
| MovementManager.MovementManager.SetStateIsKicking | Assets/Scripts/Gameplay/Player/Movement/MovementState.cs:38-46 | stores the flag, then raises IsKickingChanged |
| MovementManager.MovementManager.AssignState | Assets/Scripts/Gameplay/Player/Movement/MovementState.cs:71-84 | the live state's `Assign`: its new value, and the sprite and collider after both events |
| MovementManager.MovementManager.ResetState | Assets/Scripts/Gameplay/Player/Movement/MovementState.cs:54-67 | the live state's `Reset`: the sprite keeps its direction (velocity zero) and the collider is off |
| MovementManager.MovementManager.Reset | Assets/Scripts/Gameplay/Player/Movement/MovementManager.cs:92-96 | both the live state and the rollback slot are reset to zero values; the body does not move |
| MovementManager.MovementManager.SaveRollbackState | Assets/Scripts/Gameplay/Player/Movement/MovementManager.cs:131-134 | the slot becomes a field-wise copy of the live state, and the live state is unchanged |
| MovementManager.MovementManager.Rollback | Assets/Scripts/Gameplay/Player/Movement/MovementManager.cs:136-142 | the live state becomes a copy of the slot, keeps its subscribers, and the body is put where it says, so invariant (*) holds |
| MovementManager.MovementManager.Teleport | Assets/Scripts/Gameplay/Player/Movement/MovementManager.cs:145-153 | velocity becomes zero, facing becomes the argument, and state and body both stand at the position; the sprite does not turn |
| MovementManager.MovementManager.UpdateIsFacingLeft | Assets/Scripts/Gameplay/Player/Movement/MovementManager.cs:365-368 | the facing becomes whether the velocity points left |
| MovementManager.MovementManager.OnSimulated | Assets/Scripts/Gameplay/Player/Movement/MovementManager.cs:155-164 | the state takes the body's position, so invariant (*) holds; on the tick's first simulation its record becomes a copy of the state, on a later one every record stays as it was; the other ticks' records are untouched |
| MovementManager.MovementManager.AssertSimulatedStateEqualsPrior | Assets/Scripts/Gameplay/Player/Movement/MovementManager.cs:397-410 | the first simulation of a tick records the state and sets the tick's flag; a later one requires value equality with the record and changes nothing; flags are never cleared |
| MovementManager.AsWrittenCheckFailsOnReplay | Assets/Scripts/Gameplay/Player/Movement/MovementManager.cs:400-403 | with the struct's `Equals`, the live state never equals any record, so the source's assertion fails on every replay |
| AnimationState.AnimationState.constructor | Assets/Scripts/Gameplay/Player/Animation/AnimationState.cs:19-21 | the fields' defaults are the reset values |
| AnimationState.AnimationState.Reset | Assets/Scripts/Gameplay/Player/Animation/AnimationState.cs:23-28 | MotionTime 0, LastLandedAtTick 0, IsHit false |
| AnimationState.AnimationState.Assign | Assets/Scripts/Gameplay/Player/Animation/AnimationState.cs:30-35 | all three fields become other's old values, and other is unchanged |
| AnimationState.AssignThenChangeSource | Assets/Scripts/Gameplay/Player/Animation/AnimationState.cs:30-35 | after `a.Assign(b)`, resetting `b` leaves `a` with `b`'s old values: a copy, not a reference |
| AnimationState.AssignSelf | Assets/Scripts/Gameplay/Player/Animation/AnimationState.cs:30-35 | self-assignment changes nothing |
| AnimationState.AssignTwice | Assets/Scripts/Gameplay/Player/Animation/AnimationState.cs:30-35 | assigning the same source twice is assigning it once |
| RollbackManager.TickBeforeMatch | Assets/Scripts/Gameplay/RollbackManager.cs:27-30 | the tick before StartTick, wrapping 0 to `MaxTick - 1` |
| RollbackManager.DisposalsFor | Assets/Scripts/Gameplay/RollbackManager.cs:47-48 | two requests, self then peer, with the same limit, five ticks before the saved tick |
| RollbackManager.RollbackManager.constructor | Assets/Scripts/Gameplay/RollbackManager.cs:17-25 | the two distinct movement components are given, the saved tick is 0 and no disposal has been requested |
| RollbackManager.RollbackManager.ResetForMatch | Assets/Scripts/Gameplay/RollbackManager.cs:27-30 | the saved tick becomes the tick before StartTick |
| RollbackManager.RollbackManager.SaveRollbackState | Assets/Scripts/Gameplay/RollbackManager.cs:33-39 | records the tick and makes each player's slot a copy of its live state |
| RollbackManager.RollbackManager.Rollback | Assets/Scripts/Gameplay/RollbackManager.cs:43-54 | requests both disposals before restoring; restores both players from their slots, with each sprite turned by the facing handler and each kick collider following the restored kicking flag; returns the saved tick, which is unchanged |
| RollbackManager.SaveThenRollback | Assets/Scripts/Gameplay/RollbackManager.cs:33-54 | rolling back right after saving at `t` returns `t` and leaves both players exactly as saved |
| RollbackManager.RollbackTwice | Assets/Scripts/Gameplay/RollbackManager.cs:43-54 | repeated rollbacks return the same tick and restore the same values |
| SimulationManager.Step | Assets/Scripts/Gameplay/SimulationManager.cs:41-50 | the three tick fields after one call; StepUpdatesItsKindOnly states its effect |
| SimulationManager.Steps | Assets/Scripts/Gameplay/SimulationManager.cs:39-55 | the tick fields after a run of calls, oldest first; LastCallOfEachKindWins equates them with the reference LastOfKind |
| SimulationManager.StepUpdatesItsKindOnly | Assets/Scripts/Gameplay/SimulationManager.cs:39-50 | every call sets the latest tick, and only the tick of its own kind (official or unofficial) |
| SimulationManager.LastCallOfEachKindWins | Assets/Scripts/Gameplay/SimulationManager.cs:39-50 | after any run of calls, each kind's tick is that of the last call of that kind, and the latest tick is that of the last call |
| SimulationManager.EventsAlternate | Assets/Scripts/Gameplay/SimulationManager.cs:52-54 | one physics step per call, each followed by the Simulated notification with that call's tick |
| SimulationManager.SimulationManager.constructor | Assets/Scripts/Gameplay/SimulationManager.cs:24-26 | all three ticks start at 0, and nothing has been simulated or notified |
| SimulationManager.SimulationManager.Simulate | Assets/Scripts/Gameplay/SimulationManager.cs:39-55 | the ticks after one step, then exactly one physics step and one notification carrying the tick |
| PeerPlayer.ExtrapolationTick | Assets/Scripts/Gameplay/Player/Manager/PeerPlayer.cs:31 | the tick before the window's end, which the end follows |
| PeerPlayer.ExtrapolationTickIsLastReceived | Assets/Scripts/Gameplay/Player/Manager/PeerPlayer.cs:30-31 | when that tick is received, it is the last one: the tick after it is not |
| PeerPlayer.EmptyWindowCannotExtrapolate | Assets/Scripts/Gameplay/Player/Manager/PeerPlayer.cs:34-35 | an empty window never meets the extrapolation's assertions |
| PeerPlayer.PeerPlayer.constructor | Assets/Scripts/Gameplay/Player/Manager/PeerPlayer.cs:20-26 | the player has its own peer input manager, found in Awake, and has simulated nothing |
| PeerPlayer.PeerPlayer.SimulateWithExtrapolation | Assets/Scripts/Gameplay/Player/Manager/PeerPlayer.cs:28-38 | requires input at the extrapolation tick and the one before (asserted); simulates with that tick, whatever is being predicted, and only reads the buffer |
| GameController.SimulationTick | Assets/Scripts/Gameplay/GameController.cs:87 | the simulation tick plus InputDelayTicks is the current tick |
| GameController.Schedule | Assets/Scripts/Gameplay/GameController.cs:85-103 | the steps of one tick handler run, given whether the peer's input for the simulation tick is there; ScheduleRule states what they are |
| GameController.ScheduleRule | Assets/Scripts/Gameplay/GameController.cs:85-103 | unacked inputs are sent on every tick; something is simulated exactly when the peer's input is there; then the clock resumes, input is written, and self then peer are simulated at the simulation tick; otherwise the clock pauses |
| GameController.StallReplaysTick | Assets/Scripts/Gameplay/GameController.cs:91-95 | a stalled tick is handled again at the next interval |
| GameController.ProceedAdvancesTick | Assets/Scripts/Gameplay/GameController.cs:97 | on a settled clock, a tick that proceeds is followed by the next tick, so no tick is skipped |
| GameController.PeerId | Assets/Scripts/Gameplay/GameController.cs:121 | the peer's id is the other one of 0 and 1 |
| GameController.GameController.constructor | Assets/Scripts/Gameplay/GameController.cs:17-38 | the components are given and asserted present (by the types here), two distinct metadata managers and two distinct input histories; no peer metadata yet and an empty trace |
| GameController.GameController.OnTickUpdated | Assets/Scripts/Gameplay/GameController.cs:85-103 | the steps taken are `Schedule` for whether the peer's input was there; the clock is paused or resumed accordingly; local input is written exactly when proceeding |
| GameController.GameController.ProceedWithTick | Assets/Scripts/Gameplay/GameController.cs:97-102 | resume, write, simulate self, simulate peer, in that order |
| GameController.GameController.SimulateSelf | Assets/Scripts/Gameplay/Player/Manager/Player.cs:58-65 | requires the local player's input at the tick and the one before (asserted) |
| GameController.GameController.SimulatePeer | Assets/Scripts/Gameplay/Player/Manager/Player.cs:58-65 | requires the peer's input at the tick and the one before (asserted) |
| GameController.GameController.HandlePlayerMetadataMsg | Assets/Scripts/Gameplay/GameController.cs:116-124 | the peer gets the other id, the received name and full lives, and raises MetadataUpdated twice; its input window is collapsed and empty, and the flag is set |
| MetadataManager.LivesAfter | Assets/Scripts/Gameplay/Player/MetadataManager.cs:42-46 | no lives are left exactly after the fifth hit, and lives go negative exactly after more than five, because nothing stops the count at zero |
| MetadataManager.ResetThenHits | Assets/Scripts/Gameplay/Player/MetadataManager.cs:36-46 | a reset followed by `k` lost lives leaves `LivesAfter(k)`, with one notification each |
| MetadataManager.MetadataManager.constructor | Assets/Scripts/Gameplay/Player/MetadataManager.cs:19-21 | id 0, name "placeholder", five lives |
| MetadataManager.MetadataManager.Initialise | Assets/Scripts/Gameplay/Player/MetadataManager.cs:25-34 | requires id 0 or 1 (asserted); sets id and name, five lives, and raises MetadataUpdated twice |
| MetadataManager.MetadataManager.ResetLives | Assets/Scripts/Gameplay/Player/MetadataManager.cs:36-40 | five lives, one notification |
| MetadataManager.MetadataManager.LoseLife | Assets/Scripts/Gameplay/Player/MetadataManager.cs:42-46 | exactly one life fewer, with no lower bound, and one notification |
| KickHitbox.KickDamages | Assets/Scripts/Gameplay/Player/KickHitbox/KickHitbox.cs:57-74 | a hit counts exactly when the touched collider is a player other than the owner |
| KickHitbox.TwoPlayersDamageEachOther | Assets/Scripts/Gameplay/Player/KickHitbox/KickHitbox.cs:68-73 | of players 0 and 1, each damages the other and never itself |
| KickHitbox.KickHitbox.constructor | Assets/Scripts/Gameplay/Player/KickHitbox/KickHitbox.cs:50-55 | the hitbox has its owner's metadata |
| KickHitbox.KickHitbox.OnTriggerEnter2D | Assets/Scripts/Gameplay/Player/KickHitbox/KickHitbox.cs:57-74 | a touched other player loses exactly one life and raises MetadataUpdated once; its id and name never change; a non-player or the owner is unchanged; the owner's lives never change |
| SelfKickHitbox.SelfKickDamages | Assets/Scripts/Gameplay/Player/KickHitbox/SelfKickHitbox.cs:25-33 | no hit counts while predicting; otherwise the base rule decides |
| SelfKickHitbox.SelfKickHitbox.constructor | Assets/Scripts/Gameplay/Player/KickHitbox/SelfKickHitbox.cs:19-23 | a fresh base hitbox with the owner's metadata |
| SelfKickHitbox.SelfKickHitbox.OnTriggerEnter2D | Assets/Scripts/Gameplay/Player/KickHitbox/SelfKickHitbox.cs:25-33 | while predicting the touched player is unchanged; otherwise it behaves as the base hitbox: one life and one notification from another player, id and name kept |
| CollisionManager.CollisionDamages | Assets/Scripts/Gameplay/Player/CollisionManager.cs:41-61 | a trigger counts exactly when it carries a player reference whose owner is another player |
| CollisionManager.AttackerAndVictimRulesAgree | Assets/Scripts/Gameplay/Player/CollisionManager.cs:41-61 | the victim-side rule takes a life exactly when the attacker-side rule of KickHitbox.cs does |
| CollisionManager.CollisionManager.constructor | Assets/Scripts/Gameplay/Player/CollisionManager.cs:34-39 | the player's own metadata, found in Awake |
| CollisionManager.CollisionManager.OnTriggerEnter2D | Assets/Scripts/Gameplay/Player/CollisionManager.cs:41-61 | requires a player reference to have its owner (asserted); this player loses exactly one life and raises MetadataUpdated once when hit by another player, and is unchanged otherwise |

## Left out

- Physics. The movement step (`GroundCheck`, `ProposeVelocity`, `AdjustVelocityForObstructions`, `Dive`, `Kick`, `Physics2D.Simulate`) is float geometry and Unity ray casts. `Player.Simulate` and `SimulationManager.Simulate` record that the step happened, with its tick, and keep its preconditions.
- Floats. `Vector2` components, `MotionTime`, RTT samples and timestamps are only copied, compared, subtracted or averaged here. Vectors and `MotionTime` are `real`s. Timestamps and RTT samples are integer milliseconds, so float rounding is not modelled.
- The facing handler tests `sqrMagnitude == 0`, which is read as "the velocity is the zero vector". The sprite's x scale is modelled as the bool "faces left".
- Unity plumbing: singletons and `Destroy`, `GetComponent`, coroutines and `Clock.Stop`, and the `PreGame` coroutine with its `WaitUntil`. Message callbacks and the infinite clock loop are single-threaded calls. The loop is split into `Fire` and `Advance`, and the tick handler runs between them.
- The network. DarkRift messages, send modes and `ConnectionManager` are left out. Outgoing messages and acks are appended to a log. The one-field messages (ping, ping ack, input ack, player metadata) are passed as their field.
- `EstimatePeerCurrentTick` and the catch-up controller are not modelled. The first uses wall-clock float timestamps and an external time service; the second is only a TODO.
- `SendUnackedInputs`: its body is a TODO, so the model records only the call and its tick.
- `DisposeInputs`: its body is not part of this model. RollbackManager records each request and its argument. The players' `SaveRollbackState` and `Rollback` are taken to forward to their movement components; the animation state is not part of the players' snapshot here.
- `SelfPredictionManager` is not part of this model. Whether a prediction is running is a parameter of `SelfKickHitbox.OnTriggerEnter2D`.
- Null references are excluded by the types, where the source asserts non-null (the hitbox's metadata, the kick collider, the rollback manager's controller). A collider without a metadata component is `None`.
- Snapshot mismatches between the files are resolved as follows:
  - `Player.Initialise` passes a connection manager in GameController.cs but takes none in Player.cs.
  - `PeerInputManager` uses an `InputBuffer` while its base class holds an array.
  - `Player.HasInput` forwards to the input component.
  - The model follows each file's own code.
- `StartTick` and `InputDelayTicks` are parameters: a tick and a ushort. `InputDelayTicks` is an `int` in the settings (default 6); negative delays are not modelled.
- `MovementState` is a C# struct, so it is modelled as a value. Its `Reset` and `Assign` are functions returning the new value and the list of subscribers they invoke. The in-place update of `m_State`, `m_RollbackState` and the records happens in MovementManager's methods.
- Events are modelled as follows:
  - MovementState's events are sequences of subscribers.
  - MetadataManager's and the clock's notifications are counters.
  - The simulation manager's notification is an entry in its event log.
- `InputManager.HasInput` takes a tick below `MaxTick`. In the C#, a ushort at `MaxTick` or above indexes past the end of the array and throws.
- PeerInputManager.MergeLands: proved only for messages of at most `MaxTick` frames. A longer message wraps round, so its later frames overwrite earlier ones.
- PeerInputManager.AcceptedMessageMerged: proved for messages of at most `MaxTick` frames, for the same reason as MergeLands. For longer messages only the end cursor, the untouched ticks and the frames already present are described, by Receive, EndOnlyGrows and MergeKeepsPresent.
- The first frame of a message is written at the message's own `StartTick`, unreduced. A `StartTick` of `MaxTick` or more would index past the history and throw in the C#. `PeerInputManager.FirstSlotFits` rules this out for a first frame that is not already present.
- `(int)tick + x` in `AddTick` is unbounded here. A C# `int` overflow for `x` near `int.MaxValue` is not modelled.
- Clock.SettledIsInvariant: it does not hold for a pause issued while an unpause is still pending. The lemma states that case separately. The tick handler only pauses or resumes after a fire step, which clears the pending unpause.
- PeerInputManager.PeerInputManager.Initialise: the contract states that both cursors are at the collapsed tick. That the window is then empty is stated by CollapsedWindowIsAccepted rather than in the method's own contract.
- NetSynchronisationManager.NetSynchronisationManager.EstimateRTT: the contract states only the steady-RTT case. That the estimate lies between the smallest and the largest sample is MeanWithinSamples.

- The determinism check in `MovementManager` (`AssertSimulatedStateEqualsPrior` and the history it keeps) is compiled only into development and editor builds. In a release build, OnSimulated only copies the body's position. The model always records and checks.
- Unity's `Assert.IsTrue` logs a failure and goes on, and it is stripped from release builds. The model makes every such assertion a `requires` of the member, so it proves that the assertions hold on every path it models. It does not model what the game does after a failed assertion.

## Findings

| source | as written | input that shows it | evidently intended | confidence | as-written member | corrected member |
|---|---|---|---|---|---|---|
| Assets/Scripts/Gameplay/Player/Movement/MovementManager.cs:400-402 | The determinism check compares the live state with its record using the struct's `Equals`. That compares every field, including the backing fields of the two events. The live state has MovementManager's two handlers subscribed (lines 81-82). The record is made with `Assign` into a default struct (line 407), and `Assign` copies no subscribers. | Any tick simulated twice with identical values, for example a rollback that re-simulates a tick unchanged. The record's values equal the live state's, but its event fields are null, so `Equals` is false and the assertion fails. | The check should compare the state's values (position, velocity, grounding, facing, kicking) and ignore the subscribers. | not executed | MovementState.ReplayFailsAsWritten, MovementManager.AsWrittenCheckFailsOnReplay | MovementState.ReplayPassesOnValues, MovementManager.MovementManager.AssertSimulatedStateEqualsPrior |

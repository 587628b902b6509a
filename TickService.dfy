/** Wrapping tick arithmetic and the wraparound-aware tick order. */
module TickService {
  import opened MathExtensions

  const Tickrate: int := 60
  /** A little below the largest ushort so that incrementing a tick never overflows. */
  const MaxTick: int := 65530

  /** A C# `ushort`. */
  type UShort = x: int | 0 <= x < 0x1_0000

  /** A tick: a ushort that has been reduced modulo MaxTick, so it can index a per-tick array. */
  type Tick = t: int | 0 <= t < MaxTick

  /** Thirty seconds of ticks; ThresholdsFromSeconds derives both values from TicksInSeconds. */
  const SmallTickThreshold: int := 1800
  /** MaxTick minus thirty seconds of ticks, with the `(ushort)` cast of the C# written out. */
  const LargeTickThreshold: int := 63730

  /** The number of ticks in `seconds`, truncated to a ushort as the C# cast does
      (the C# only logs an error when the product exceeds MaxTick). */
  function TicksInSeconds(seconds: UShort): (r: UShort)
    ensures Tickrate * seconds <= MaxTick ==> r == Tickrate * seconds
    ensures Tickrate * seconds >= 0x1_0000 ==> r < Tickrate * seconds
  {
    (Tickrate * seconds) % 0x1_0000
  }

  /** The error that TicksInSeconds logs. */
  predicate TicksInSecondsOverflows(seconds: UShort)
  {
    Tickrate * seconds > MaxTick
  }

  /** The two thresholds are thirty seconds of ticks above zero and below MaxTick, as the C#
      computes them (neither computation overflows or logs the error). */
  lemma ThresholdsFromSeconds()
    ensures SmallTickThreshold == TicksInSeconds(30) && !TicksInSecondsOverflows(30)
    ensures LargeTickThreshold == (MaxTick - TicksInSeconds(30)) % 0x1_0000
  {
  }

  /** `tick + x` reduced into [0, MaxTick). The result is always a valid tick, so it never
      overflows a ushort. The C# computes it with MathExtensions.Mod; AddTickIsMod shows that
      this Euclidean residue is the same value. */
  function AddTick(tick: UShort, x: int): (r: Tick)
    ensures 0 <= tick + x < MaxTick ==> r == tick + x
  {
    (tick + x) % MaxTick
  }

  lemma {:induction false} AddTickIsMod(tick: UShort, x: int)
    ensures AddTick(tick, x) == Mod(tick + x, MaxTick)
  {
  }

  function SubtractTick(tick: UShort, x: int): (r: Tick)
    ensures r == (tick - x) % MaxTick
  {
    AddTick(tick, -x)
  }

  predicate IsTickLarge(tick: UShort)
  {
    tick > LargeTickThreshold
  }

  predicate IsTickSmall(tick: UShort)
  {
    tick < SmallTickThreshold
  }

  /** A large tick is before a small one (the small one has wrapped around),
      a small tick is not before a large one, and otherwise ticks compare numerically. */
  predicate IsTickBefore(tick1: UShort, tick2: UShort)
  {
    if IsTickLarge(tick1) && IsTickSmall(tick2) then true
    else if IsTickSmall(tick1) && IsTickLarge(tick2) then false
    else tick1 < tick2
  }

  /** As written this is "not before", so a tick is after itself. Later files call it `IsAfterOrEqual`. */
  predicate IsTickAfter(tick1: UShort, tick2: UShort)
  {
    !IsTickBefore(tick1, tick2)
  }

  /** Not defined by TickService.cs; taken to be "before or the same tick". */
  predicate IsBeforeOrEqual(tick1: UShort, tick2: UShort)
  {
    IsTickBefore(tick1, tick2) || tick1 == tick2
  }

  /** Not defined by TickService.cs; taken to be the converse of IsTickBefore. */
  predicate IsAfter(tick1: UShort, tick2: UShort)
  {
    IsTickBefore(tick2, tick1)
  }

  // ---------------------------------------------------------------------------
  // Arithmetic

  lemma {:induction false} AddThenSubtract(t: Tick, x: int)
    ensures SubtractTick(AddTick(t, x), x) == t
  {
    var a := t + x;
    var q := a / MaxTick;
    assert AddTick(t, x) == a - MaxTick * q;
    assert AddTick(t, x) - x == t - MaxTick * q;
    ModShift(t, MaxTick, q);
    ModIdentity(t, MaxTick);
  }

  lemma {:induction false} SubtractThenAdd(t: Tick, x: int)
    ensures AddTick(SubtractTick(t, x), x) == t
  {
    AddThenSubtract(t, -x);
  }

  /** The tick before `t`, wrapping from 0 to MaxTick - 1, written without the modulus. */
  function PreviousTick(t: Tick): Tick
  {
    if t == 0 then MaxTick - 1 else t - 1
  }

  lemma {:induction false} PreviousTickIsSubtract(t: Tick)
    ensures PreviousTick(t) == SubtractTick(t, 1)
    ensures AddTick(PreviousTick(t), 1) == t
  {
  }

  lemma {:induction false} AddCompose(t: UShort, a: int, b: int)
    ensures AddTick(AddTick(t, a), b) == AddTick(t, a + b)
  {
    var q := (t + a) / MaxTick;
    assert AddTick(t, a) == t + a - MaxTick * q;
    assert AddTick(t, a) + b == t + a + b - MaxTick * q;
    ModShift(t + a + b, MaxTick, q);
  }

  /** The first MaxTick ticks from any tick are pairwise distinct. */
  lemma {:induction false} AddInjective(t: UShort, i: int, j: int)
    requires 0 <= i < j < MaxTick
    ensures AddTick(t, i) != AddTick(t, j)
  {
    AddCompose(t, i, j - i);
    AddMovesTick(AddTick(t, i), j - i);
  }

  /** Moving a tick by less than a full horizon changes it. */
  lemma {:induction false} AddMovesTick(u: Tick, k: int)
    requires 0 < k < MaxTick
    ensures AddTick(u, k) != u
  {
    if u + k < MaxTick {
      assert AddTick(u, k) == u + k;
    } else {
      ModUnique(u + k, MaxTick, 1, u + k - MaxTick);
    }
  }

  // ---------------------------------------------------------------------------
  // Order

  lemma NoTickIsLargeAndSmall(t: UShort)
    ensures !(IsTickLarge(t) && IsTickSmall(t))
  {
  }

  lemma {:induction false} BeforeIrreflexive(t: UShort)
    ensures !IsTickBefore(t, t)
    ensures IsTickAfter(t, t)
  {
    NoTickIsLargeAndSmall(t);
  }

  lemma {:induction false} BeforeAsymmetric(a: UShort, b: UShort)
    requires IsTickBefore(a, b)
    ensures !IsTickBefore(b, a)
    ensures !IsAfter(a, b)
  {
    NoTickIsLargeAndSmall(a);
    NoTickIsLargeAndSmall(b);
  }

  /** IsAfter is the strict form of IsTickAfter. */
  lemma AfterImpliesAfterOrEqual(a: UShort, b: UShort)
    requires IsAfter(a, b)
    ensures IsTickAfter(a, b) && a != b
  {
    BeforeAsymmetric(b, a);
  }

  lemma {:induction false} WrapIsBefore()
    ensures IsTickBefore(MaxTick - 1, 0)
    ensures !IsTickBefore(0, MaxTick - 1)
  {
  }

  /** While no tick is in the large (about-to-wrap) region, the order is `<`. */
  lemma {:induction false} NumericBelowWrapRegion(a: UShort, b: UShort)
    requires !IsTickLarge(a) && !IsTickLarge(b)
    ensures IsTickBefore(a, b) <==> a < b
  {
  }

  /** While no tick is in the small (just-wrapped) region, the order is `<`. */
  lemma {:induction false} NumericAboveWrapRegion(a: UShort, b: UShort)
    requires !IsTickSmall(a) && !IsTickSmall(b)
    ensures IsTickBefore(a, b) <==> a < b
  {
  }

  /** The next tick is always after the current one, across the wrap too. */
  lemma {:induction false} SuccessorIsAfter(t: Tick)
    ensures IsTickBefore(t, AddTick(t, 1))
  {
    if t == MaxTick - 1 {
      assert AddTick(t, 1) == 0;
    } else {
      assert AddTick(t, 1) == t + 1;
    }
  }

  /** The order is not transitive over the whole horizon: three ticks form a cycle. */
  lemma {:induction false} BeforeHasCycle()
    ensures IsTickBefore(64000, 0)
    ensures IsTickBefore(0, 30000)
    ensures IsTickBefore(30000, 64000)
  {
  }
}

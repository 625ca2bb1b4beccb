/** When an SVID is rotated. The two random draws are parameters, within the ranges they are drawn from. */
module Rotation {
  import opened Types

  const MINUTE := 60 * SECOND
  const GRACE_PERIOD_THRESHOLD := 12 * 60 * MINUTE

  datatype Decision = Rotate | Keep | Panic

  /** Go's integer division by a positive number, which truncates toward zero. */
  function Div(a: int, b: int): int
    requires b > 0
  {
    if a >= 0 then a / b else -(-a / b)
  }

  function HalfLife(lifetime: int): int {
    Div(lifetime, 2)
  }

  function JitterHalfLifeDelta(halfLife: int): int {
    Div(halfLife, 10)
  }

  /** Drawing from an empty range panics. */
  function RotateByHalf(ttl: int, lifetime: int, draw: int): Decision {
    var half := HalfLife(lifetime);
    var delta := JitterHalfLifeDelta(half);
    if delta * 2 <= 0 then Panic
    else if ttl <= draw + (half - delta) then Rotate
    else Keep
  }

  predicate FallsBack(lifetime: int, target: int) {
    lifetime - target <= GRACE_PERIOD_THRESHOLD
  }

  predicate RotateByTarget(ttl: int, lifetime: int, target: int, draw: int) {
    target != 0 && !FallsBack(lifetime, target) && ttl <= draw + target
  }

  function ShouldRotateX509(now: int, begin: int, expiry: int, target: int, halfDraw: int, targetDraw: int): Decision {
    var ttl, lifetime := expiry - now, expiry - begin;
    if ttl <= 0 then Rotate
    else if RotateByTarget(ttl, lifetime, target, targetDraw) then Rotate
    else RotateByHalf(ttl, lifetime, halfDraw)
  }

  function ShouldRotateJWT(now: int, begin: int, expiry: int, halfDraw: int): Decision {
    if expiry - now <= 0 then Rotate else RotateByHalf(expiry - now, expiry - begin, halfDraw)
  }

  /** A draw for the half-life can be anything in its range; when the range is empty, nothing is drawn. */
  predicate HalfDraw(lifetime: int, draw: int) {
    var range := JitterHalfLifeDelta(HalfLife(lifetime)) * 2;
    0 <= draw < (if range <= 0 then 1 else range)
  }

  predicate TargetDraw(draw: int) {
    0 <= draw < 10 * MINUTE
  }

  /** Whatever is drawn, the decision is d. */
  ghost predicate Always(now: int, begin: int, expiry: int, target: int, d: Decision) {
    forall h, t :: HalfDraw(expiry - begin, h) && TargetDraw(t) ==>
        ShouldRotateX509(now, begin, expiry, target, h, t) == d
  }

  /** The target is set and leaves more than twelve hours of the lifetime. */
  predicate TargetApplies(lifetime: int, target: int) {
    target != 0 && lifetime - target > 43_200_000_000_000
  }

  /** The range of the draw is positive exactly for lifetimes of at least 20 ns. */
  lemma RangeIsPositive(lifetime: int)
    ensures JitterHalfLifeDelta(HalfLife(lifetime)) > 0 <==> lifetime >= 20
  {
  }

  /** Rotation is certain if and only if the time left is at most the half-life less a tenth of it, or at most the
      target when it applies. */
  lemma RotationIsCertain(now: int, begin: int, expiry: int, target: int)
    requires expiry - begin >= 20
    ensures var ttl, lifetime, half := expiry - now, expiry - begin, (expiry - begin) / 2;
            Always(now, begin, expiry, target, Rotate) <==>
                ttl <= half - half / 10 || (TargetApplies(lifetime, target) && ttl <= target)
  {
    RangeIsPositive(expiry - begin);
    assert ShouldRotateX509(now, begin, expiry, target, 0, 0) == Rotate ||
        !Always(now, begin, expiry, target, Rotate) by {
      assert HalfDraw(expiry - begin, 0) && TargetDraw(0);
    }
  }

  /** It is impossible if and only if the time left is at least the half-life and a tenth of it and, when the target
      applies, at least ten minutes more than the target. */
  lemma RotationIsImpossible(now: int, begin: int, expiry: int, target: int)
    requires expiry - begin >= 20
    ensures var ttl, lifetime, half := expiry - now, expiry - begin, (expiry - begin) / 2;
            Always(now, begin, expiry, target, Keep) <==>
              ttl >= half + half / 10 && (TargetApplies(lifetime, target) ==> ttl >= target + 600_000_000_000)
  {
    var lifetime := expiry - begin;
    RangeIsPositive(lifetime);
    var h, t := JitterHalfLifeDelta(HalfLife(lifetime)) * 2 - 1, 10 * MINUTE - 1;
    assert ShouldRotateX509(now, begin, expiry, target, h, t) == Keep || !Always(now, begin, expiry, target, Keep) by {
      assert HalfDraw(lifetime, h) && TargetDraw(t);
    }
  }

  /** A shorter lifetime makes the draw panic, unless the decision has been made before it. */
  lemma ShortLifetimePanics(now: int, begin: int, expiry: int, target: int, h: int, t: int)
    requires TargetDraw(t)
    ensures ShouldRotateX509(now, begin, expiry, target, h, t) == Panic <==>
      expiry - begin < 20 && now < expiry && !RotateByTarget(expiry - now, expiry - begin, target, t)
    ensures ShouldRotateJWT(now, begin, expiry, h) == Panic <==> expiry - begin < 20 && now < expiry
  {
    RangeIsPositive(expiry - begin);
  }

  /** With the same draws, what is to be rotated stays so; and it is to be rotated before it expires. */
  lemma RotatesInTime(now: int, later: int, begin: int, expiry: int, target: int, h: int, t: int)
    requires expiry - begin >= 20 && HalfDraw(expiry - begin, h) && TargetDraw(t) && now <= later
    ensures ShouldRotateX509(now, begin, expiry, target, h, t) == Rotate ==>
            ShouldRotateX509(later, begin, expiry, target, h, t) == Rotate
    ensures ShouldRotateJWT(now, begin, expiry, h) == Rotate ==> ShouldRotateJWT(later, begin, expiry, h) == Rotate
    ensures ShouldRotateX509(expiry - 9, begin, expiry, target, h, t) ==
            ShouldRotateJWT(expiry - 9, begin, expiry, h) == Rotate
  {
    RangeIsPositive(expiry - begin);
  }

  /** The availability target brings rotation forward and never puts it off. */
  lemma TargetOnlyBringsForward(now: int, begin: int, expiry: int, target: int, h: int, t: int)
    requires expiry - begin >= 20 && HalfDraw(expiry - begin, h) && TargetDraw(t)
    ensures ShouldRotateJWT(now, begin, expiry, h) == Rotate ==>
            ShouldRotateX509(now, begin, expiry, target, h, t) == Rotate
    ensures ShouldRotateX509(now, begin, expiry, target, h, t) != ShouldRotateJWT(now, begin, expiry, h) ==>
              TargetApplies(expiry - begin, target) && now < expiry <= now + target + t
  {
  }
}

/**
 * `CircularCarousel` of src/pages/Journey.jsx: fifteen district photos on a
 * ring. The ring angle (`rotAngle`, in degrees) and the active index move
 * together: an auto-rotate interval, the previous/next buttons and clicks on
 * a node turn the ring so that the active photo sits at the top.
 *
 * Every angle the source produces is a multiple of 24 degrees, so angles are
 * integers here and JavaScript's number arithmetic on them is exact.
 */
module Carousel {

  /** `KABUPATEN_DATA.length` */
  const ItemCount: int := 15

  /** `360 / totalItems` */
  const StepDeg: int := 24

  /** JavaScript's `%` on integers: the remainder truncated toward zero, with the sign of `a`. */
  function JsRem(a: int, b: int): (r: int)
    requires b > 0
    ensures -b < r < b
    ensures a >= 0 ==> r == a % b
  {
    if a >= 0 then a % b else -((-a) % b)
  }

  /** `diff > 180 ? diff - 360 : diff` */
  function Wrap(diff: int): int
  {
    if diff > 180 then diff - 360 else diff
  }

  /** The turn `rotateTo` makes from `current` to `target`. */
  function ShortestDelta(current: int, target: int): (delta: int)
    ensures -180 < delta <= 180
  {
    var diff := JsRem(JsRem(target - current, 360) + 360, 360);
    Wrap(diff)
  }

  /** The carousel's state: the active index, the ring angle and whether auto-rotate is on. */
  datatype CarouselState = CarouselState(activeIdx: int, angle: int, autoRotate: bool)

  /** The initial state: first photo, angle 0, auto-rotate on. */
  const Initial: CarouselState := CarouselState(0, 0, true)

  /** The active index is a valid photo and the ring shows it at the top. */
  predicate Aligned(s: CarouselState)
  {
    0 <= s.activeIdx < ItemCount && (s.angle + s.activeIdx * StepDeg) % 360 == 0
  }

  /** `rotateTo(idx)` */
  function AfterRotateTo(s: CarouselState, idx: int): CarouselState
  {
    s.(activeIdx := idx, angle := s.angle + ShortestDelta(s.angle, -idx * StepDeg))
  }

  /** The previous button. */
  function AfterPrev(s: CarouselState): CarouselState
  {
    AfterRotateTo(s, JsRem(s.activeIdx - 1 + ItemCount, ItemCount))
  }

  /** The next button. */
  function AfterNext(s: CarouselState): CarouselState
  {
    AfterRotateTo(s, JsRem(s.activeIdx + 1, ItemCount))
  }

  /** One callback of the auto-rotate interval. */
  function AfterTick(s: CarouselState): CarouselState
  {
    s.(activeIdx := JsRem(s.activeIdx + 1, ItemCount), angle := s.angle - StepDeg)
  }

  /** A click on node `i`: rotate to it and switch auto-rotate off. */
  function AfterSelect(s: CarouselState, i: int): CarouselState
  {
    AfterRotateTo(s, i).(autoRotate := false)
  }

  /** The auto-rotate toggle button. */
  function AfterToggle(s: CarouselState): CarouselState
  {
    s.(autoRotate := !s.autoRotate)
  }

  // ---------------------------------------------------------------------------
  // The shortest turn

  /** The double remainder `((x % 360) + 360) % 360` is the mathematical remainder of `x`. */
  lemma DoubleRemIsMod(x: int)
    ensures JsRem(JsRem(x, 360) + 360, 360) == x % 360
  {
    if x < 0 {
      var q := (-x) / 360;
      assert -x == 360 * q + (-x) % 360;
      assert JsRem(x, 360) + 360 == x + 360 * (q + 1);
    }
  }

  /** Adding a multiple of 360 does not change a remainder modulo 360. */
  lemma ModAddFullTurns(c: int, k: int)
    ensures (c + 360 * k) % 360 == c % 360
  {
  }

  /** The turn depends only on the difference of the two angles modulo 360. */
  lemma ShortestDeltaOfDiff(current: int, target: int)
    ensures ShortestDelta(current, target) == Wrap((target - current) % 360)
  {
    DoubleRemIsMod(target - current);
  }

  /** The turn is the plain difference of the two angles plus some number of full turns. */
  lemma ShortestDeltaTurns(current: int, target: int) returns (k: int)
    ensures ShortestDelta(current, target) == target - current + 360 * k
  {
    ShortestDeltaOfDiff(current, target);
    var x := target - current;
    assert x == 360 * (x / 360) + x % 360;
    k := if x % 360 > 180 then -(x / 360) - 1 else -(x / 360);
  }

  /** After the turn the ring points exactly at the target angle, up to full turns. */
  lemma ShortestDeltaLands(current: int, target: int)
    ensures (current + ShortestDelta(current, target)) % 360 == target % 360
  {
    var k := ShortestDeltaTurns(current, target);
    ModAddFullTurns(target, k);
  }

  /** No other turn that lands on the target is shorter. */
  lemma ShortestDeltaMinimal(current: int, target: int, d: int)
    requires (current + d) % 360 == target % 360
    ensures Abs(ShortestDelta(current, target)) <= Abs(d)
  {
    ShortestDeltaLands(current, target);
    var delta := ShortestDelta(current, target);
    var a, b := current + d, current + delta;
    assert a == 360 * (a / 360) + a % 360;
    assert b == 360 * (b / 360) + b % 360;
    var k := a / 360 - b / 360;
    assert d == delta + 360 * k;
    if k > 0 {
      assert d >= delta + 360;
    } else if k < 0 {
      assert d <= delta - 360;
    }
  }

  function Abs(x: int): int { if x < 0 then -x else x }

  // ---------------------------------------------------------------------------
  // The ring stays aligned

  /** `rotateTo` always ends aligned on the requested photo, turning at most seven steps. */
  lemma RotateToAligned(s: CarouselState, idx: int)
    requires Aligned(s)
    requires 0 <= idx < ItemCount
    ensures Aligned(AfterRotateTo(s, idx))
    ensures AfterRotateTo(s, idx).activeIdx == idx
    ensures var turn := AfterRotateTo(s, idx).angle - s.angle; turn % StepDeg == 0 && Abs(turn) <= 7 * StepDeg
  {
    var k := ShortestDeltaTurns(s.angle, -idx * StepDeg);
    var y := s.angle + s.activeIdx * StepDeg;
    var p := y / 360;
    assert y == 360 * p;
    var d := ShortestDelta(s.angle, -idx * StepDeg);
    assert s.angle + d + idx * StepDeg == 360 * k;
    ModAddFullTurns(0, k);
    WholeStepsBound(d, s.activeIdx - idx + 15 * (k - p));
  }

  /** A turn of whole steps within (-180, 180] is at most seven steps. */
  lemma WholeStepsBound(d: int, j: int)
    requires d == StepDeg * j
    requires -180 < d <= 180
    ensures d % StepDeg == 0 && Abs(d) <= 7 * StepDeg
  {
  }

  /** From an aligned state, the next button turns the ring back by exactly one step. */
  lemma NextTurnsOneStep(s: CarouselState)
    requires Aligned(s)
    ensures AfterNext(s) == s.(activeIdx := (s.activeIdx + 1) % ItemCount, angle := s.angle - StepDeg)
  {
    var t := (s.activeIdx + 1) % ItemCount;
    ShortestDeltaOfDiff(s.angle, -t * StepDeg);
    var y := s.angle + s.activeIdx * StepDeg;
    var q := y / 360;
    assert y == 360 * q;
    if s.activeIdx < ItemCount - 1 {
      assert -t * StepDeg - s.angle == -24 + 360 * (-q);
      ModAddFullTurns(-24, -q);
    } else {
      assert -t * StepDeg - s.angle == -24 + 360 * (1 - q);
      ModAddFullTurns(-24, 1 - q);
    }
  }

  /** From an aligned state, the previous button turns the ring forward by exactly one step. */
  lemma PrevTurnsOneStep(s: CarouselState)
    requires Aligned(s)
    ensures AfterPrev(s) == s.(activeIdx := (s.activeIdx - 1 + ItemCount) % ItemCount, angle := s.angle + StepDeg)
  {
    var t := (s.activeIdx - 1 + ItemCount) % ItemCount;
    ShortestDeltaOfDiff(s.angle, -t * StepDeg);
    var y := s.angle + s.activeIdx * StepDeg;
    var q := y / 360;
    assert y == 360 * q;
    if s.activeIdx > 0 {
      assert -t * StepDeg - s.angle == 24 + 360 * (-q);
      ModAddFullTurns(24, -q);
    } else {
      assert -t * StepDeg - s.angle == 24 + 360 * (-1 - q);
      ModAddFullTurns(24, -1 - q);
    }
  }

  /** The previous button undoes the next button. */
  lemma PrevUndoesNext(s: CarouselState)
    requires Aligned(s)
    ensures Aligned(AfterNext(s)) && AfterPrev(AfterNext(s)) == s
  {
    var n := AfterNext(s);
    NextTurnsOneStep(s);
    RotateToAligned(s, (s.activeIdx + 1) % ItemCount);
    PrevTurnsOneStep(n);
    assert (n.activeIdx - 1 + ItemCount) % ItemCount == s.activeIdx by {
      if s.activeIdx < ItemCount - 1 {
        assert n.activeIdx == s.activeIdx + 1;
      } else {
        assert n.activeIdx == 0;
      }
    }
  }

  /** The next button undoes the previous button. */
  lemma NextUndoesPrev(s: CarouselState)
    requires Aligned(s)
    ensures Aligned(AfterPrev(s)) && AfterNext(AfterPrev(s)) == s
  {
    var p := AfterPrev(s);
    PrevTurnsOneStep(s);
    RotateToAligned(s, (s.activeIdx - 1 + ItemCount) % ItemCount);
    NextTurnsOneStep(p);
    assert (p.activeIdx + 1) % ItemCount == s.activeIdx by {
      if s.activeIdx > 0 {
        assert p.activeIdx == s.activeIdx - 1;
      } else {
        assert p.activeIdx == ItemCount - 1;
      }
    }
  }

  /** An auto-rotate tick moves the ring exactly as the next button does, and keeps it aligned. */
  lemma TickIsNext(s: CarouselState)
    requires Aligned(s)
    ensures AfterTick(s) == AfterNext(s)
    ensures Aligned(AfterTick(s))
  {
    NextTurnsOneStep(s);
    RotateToAligned(s, (s.activeIdx + 1) % ItemCount);
  }

  /** Every state reachable from the initial one by the carousel's events is aligned. */
  lemma EventsKeepAligned(s: CarouselState, i: int)
    requires Aligned(s)
    requires 0 <= i < ItemCount
    ensures Aligned(AfterPrev(s)) && Aligned(AfterNext(s)) && Aligned(AfterTick(s))
    ensures Aligned(AfterSelect(s, i)) && !AfterSelect(s, i).autoRotate
    ensures Aligned(AfterToggle(s))
  {
    PrevUndoesNext(s);
    NextUndoesPrev(s);
    TickIsNext(s);
    RotateToAligned(s, i);
  }

  /** The carousel component, with the fields its methods update in place. */
  class CircularCarousel {
    var activeIdx: int
    var angle: int
    var autoRotate: bool

    function State(): CarouselState
      reads this
    {
      CarouselState(activeIdx, angle, autoRotate)
    }

    ghost predicate Valid()
      reads this
    {
      Aligned(State())
    }

    constructor ()
      ensures Valid() && State() == Initial
    {
      activeIdx, angle, autoRotate := 0, 0, true;
    }

    /** `rotateTo(idx)` */
    method RotateTo(idx: int)
      requires Valid() && 0 <= idx < ItemCount
      modifies this
      ensures Valid() && State() == AfterRotateTo(old(State()), idx)
    {
      RotateToAligned(State(), idx);
      var currentDeg := angle;
      var targetDeg := -idx * StepDeg;
      var diff := JsRem(JsRem(targetDeg - currentDeg, 360) + 360, 360);
      var delta := if diff > 180 then diff - 360 else diff;
      angle := currentDeg + delta;
      activeIdx := idx;
    }

    /** `prev` */
    method Prev()
      requires Valid()
      modifies this
      ensures Valid() && State() == AfterPrev(old(State()))
    {
      var next := JsRem(activeIdx - 1 + ItemCount, ItemCount);
      RotateTo(next);
    }

    /** `next` */
    method Next()
      requires Valid()
      modifies this
      ensures Valid() && State() == AfterNext(old(State()))
    {
      var next := JsRem(activeIdx + 1, ItemCount);
      RotateTo(next);
    }

    /** The auto-rotate interval's callback; the interval exists only while auto-rotate is on. */
    method Tick()
      requires Valid() && autoRotate
      modifies this
      ensures Valid() && State() == AfterTick(old(State()))
    {
      TickIsNext(State());
      angle := angle - 360 / ItemCount;
      activeIdx := JsRem(activeIdx + 1, ItemCount);
    }

    /** A click on node `i`. */
    method Select(i: int)
      requires Valid() && 0 <= i < ItemCount
      modifies this
      ensures Valid() && State() == AfterSelect(old(State()), i)
    {
      RotateTo(i);
      autoRotate := false;
    }

    /** The auto-rotate toggle button. */
    method ToggleAuto()
      requires Valid()
      modifies this
      ensures Valid() && State() == AfterToggle(old(State()))
    {
      autoRotate := !autoRotate;
    }
  }
}

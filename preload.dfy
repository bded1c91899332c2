/**
 * The image-preload counter of the `Journey` page (src/pages/Journey.jsx):
 * every image that finishes, loaded or failed, bumps a counter `n`; the
 * loader shows `Math.round(n / imgs.length * 100)` per cent and, once all
 * images are done, schedules `ready` after 400 ms (the delay itself is not
 * modelled; scheduling it is).
 */
module Preload {
  import opened Wrappers

  /** `imgs.length` */
  const ImageCount: nat := 8

  /** `Math.round((n / imgs.length) * 100)`, on exact rationals. */
  function Percent(n: int, total: int): int
    requires total > 0
  {
    Round((n as real / total as real) * 100.0)
  }

  /** `a * c <= b * c` for a non-negative factor `c`. */
  lemma MulMonotone(a: real, b: real, c: real)
    requires a <= b && 0.0 <= c
    ensures a * c <= b * c
  {
    assert b * c - a * c == (b - a) * c;
  }

  /** The fraction of images done lies between 0 and 1. */
  lemma FractionRange(n: int, total: int)
    requires 0 <= n <= total && total > 0
    ensures 0.0 <= n as real / total as real <= 1.0
  {
    var f := n as real / total as real;
    assert f * (total as real) == n as real;
    if f > 1.0 {
      MulMonotone(1.0, f, total as real);
    }
    if f < 0.0 {
      MulMonotone(f, 0.0, total as real);
    }
  }

  /** The percentage stays within 0..100 and is 100 when every image is done. */
  lemma PercentRange(n: int, total: int)
    requires 0 <= n <= total && total > 0
    ensures 0 <= Percent(n, total) <= 100
    ensures n == total ==> Percent(n, total) == 100
  {
    FractionRange(n, total);
    if n == total {
      assert n as real / total as real == 1.0;
    }
  }

  /** More finished images never show a smaller percentage. */
  lemma PercentMonotone(n1: int, n2: int, total: int)
    requires total > 0 && n1 <= n2
    ensures Percent(n1, total) <= Percent(n2, total)
  {
    var f1, f2 := n1 as real / total as real, n2 as real / total as real;
    assert f1 * (total as real) == n1 as real;
    assert f2 * (total as real) == n2 as real;
    if f1 > f2 {
      MulMonotone(f2, f1, total as real);
    }
  }

  /**
   * With fewer than 200 images the loader shows 100 only when every image is
   * done, so the bar and the `ready` schedule agree.
   */
  lemma PercentFullOnlyAtEnd(n: int, total: int)
    requires 0 <= n < total < 200
    ensures Percent(n, total) < 100
  {
    var t := total as real;
    var f := n as real / t;
    assert f * t == n as real;
    var g := 1.0 - 1.0 / t;
    assert g * t == t - 1.0;
    if f > g {
      MulMonotone(g, f, t);
    }
    assert (1.0 / t) * t == 1.0;
    if 1.0 / t <= 0.005 {
      MulMonotone(1.0 / t, 0.005, t);
    }
  }

  /** The bound is tight: with 200 images, 199 of them already round to 100 per cent. */
  lemma PercentFullEarly()
    ensures Percent(199, 200) == 100
  {
  }

  /** For the page's eight images the loader shows 100 exactly when all eight are done. */
  lemma EightImages(n: int)
    requires 0 <= n <= ImageCount
    ensures Percent(n, ImageCount) == 100 <==> n == ImageCount
  {
    if n < ImageCount {
      PercentFullOnlyAtEnd(n, ImageCount);
    } else {
      PercentRange(n, ImageCount);
    }
  }

  /** The preloader's state: the counter `n`, the `progress` state and whether `ready` is scheduled. */
  class Preloader {
    const imageCount: nat
    var settled: nat
    var progress: int
    var readyScheduled: bool

    ghost predicate Valid()
      reads this
    {
      && settled <= imageCount
      && (settled == 0 ==> progress == 0)
      && (settled > 0 ==> progress == Percent(settled, imageCount))
      && (readyScheduled <==> 0 < imageCount == settled)
    }

    /** Mounting the page: nothing finished, progress 0, not ready. */
    constructor (imageCount: nat)
      ensures Valid()
      ensures this.imageCount == imageCount && settled == 0 && progress == 0 && !readyScheduled
    {
      this.imageCount := imageCount;
      settled := 0;
      progress := 0;
      readyScheduled := false;
    }

    /** One `onload`/`onerror` callback. */
    method OnSettled()
      requires Valid() && settled < imageCount
      modifies this
      ensures Valid()
      ensures settled == old(settled) + 1
      ensures progress == Percent(settled, imageCount) && 0 <= progress <= 100
      ensures readyScheduled <==> settled == imageCount
    {
      settled := settled + 1;
      progress := Percent(settled, imageCount);
      PercentRange(settled, imageCount);
      if settled == imageCount {
        readyScheduled := true;
      }
    }

    /** Every image finishing, in whatever order: the bar ends at 100 with `ready` scheduled. */
    method SettleAll()
      requires Valid() && settled == 0 && imageCount > 0
      modifies this
      ensures Valid()
      ensures settled == imageCount && progress == 100 && readyScheduled
    {
      while settled < imageCount
        invariant Valid()
        decreases imageCount - settled
      {
        OnSettled();
      }
      PercentRange(settled, imageCount);
    }
  }
}

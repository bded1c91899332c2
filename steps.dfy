/**
 * The scroll-step rules of src/pages/Findings.jsx: the "skala" map section
 * turns its scroll progress into one of five steps, the infographic section
 * turns its progress into a slide index, and the step controller turns the
 * step into a scene (camera, markers, region cards, district overlay).
 */
module Steps {
  import opened Wrappers
  import opened Geo
  import opened Districts

  // ---------------------------------------------------------------------------
  // The skala step

  /** `totalSkalaSteps`: intro, markers, Aceh, Sumatera Utara, Sumatera Barat. */
  const SkalaStepCount: int := 5

  /**
   * `Math.min(totalSkalaSteps - 1, Math.floor(self.progress * totalSkalaSteps))`.
   * The source clamps only from above; the scroll trigger reports progress
   * in [0, 1], so there is nothing to clamp from below.
   */
  function SkalaStep(progress: real): (step: int)
    ensures step <= SkalaStepCount - 1
    ensures 0.0 <= progress ==> 0 <= step
  {
    var raw := (progress * SkalaStepCount as real).Floor;
    if raw < SkalaStepCount - 1 then raw else SkalaStepCount - 1
  }

  /**
   * Step `k` covers progress in [k/5, (k+1)/5); the last step also takes
   * progress 1. Below 1 the step is the plain floor.
   */
  lemma SkalaStepBuckets(progress: real, k: int)
    requires 0.0 <= progress <= 1.0
    requires 0 <= k < SkalaStepCount
    ensures SkalaStep(progress) == k <==>
      (k as real) / 5.0 <= progress && (progress < (k + 1) as real / 5.0 || k == SkalaStepCount - 1)
    ensures progress < 1.0 ==> SkalaStep(progress) == (progress * 5.0).Floor
    ensures progress == 1.0 ==> SkalaStep(progress) == SkalaStepCount - 1
  {
  }

  /** Scrolling further never moves the step back. */
  lemma SkalaStepMonotone(p1: real, p2: real)
    requires p1 <= p2
    ensures SkalaStep(p1) <= SkalaStep(p2)
  {
  }

  /**
   * A progress change of at most one fifth moves the step by at most one,
   * so a continuous sweep visits the steps in order without skipping one.
   */
  lemma SkalaStepNoSkip(p1: real, p2: real)
    requires p1 <= p2 <= p1 + 0.2
    ensures SkalaStep(p1) <= SkalaStep(p2) <= SkalaStep(p1) + 1
  {
    SkalaStepMonotone(p1, p2);
    var a, b := (p1 * 5.0).Floor, (p2 * 5.0).Floor;
    assert (b as real) <= p2 * 5.0 <= p1 * 5.0 + 1.0 < (a as real) + 2.0;
  }

  /** Every step is reached: step `k` is shown at progress k/5. */
  lemma SkalaStepReached(k: int)
    requires 0 <= k < SkalaStepCount
    ensures 0.0 <= (k as real) / 5.0 <= 1.0
    ensures SkalaStep((k as real) / 5.0) == k
  {
    SkalaStepBuckets((k as real) / 5.0, k);
  }

  // ---------------------------------------------------------------------------
  // The infographic slide index

  /**
   * `Math.min(totalSlides - 1, Math.round(self.progress * (totalSlides - 1)))`;
   * the source installs the trigger only when there is at least one slide.
   */
  function SlideIndex(progress: real, totalSlides: int): (idx: int)
    requires totalSlides > 0
    ensures idx <= totalSlides - 1
    ensures 0.0 <= progress ==> 0 <= idx
  {
    var raw := Round(progress * (totalSlides - 1) as real);
    MulNonNegative(progress, (totalSlides - 1) as real);
    if raw < totalSlides - 1 then raw else totalSlides - 1
  }

  lemma MulNonNegative(a: real, b: real)
    requires 0.0 <= b
    ensures 0.0 <= a ==> 0.0 <= a * b
  {
  }

  /**
   * The first slide shows at progress 0, the last at progress 1, and in
   * between the index is the slide nearest to the progress along the row.
   */
  lemma SlideIndexNearest(progress: real, totalSlides: int)
    requires 0.0 <= progress <= 1.0
    requires totalSlides > 0
    ensures SlideIndex(0.0, totalSlides) == 0
    ensures SlideIndex(1.0, totalSlides) == totalSlides - 1
    ensures var d := SlideIndex(progress, totalSlides) as real - progress * (totalSlides - 1) as real;
      -0.5 < d <= 0.5
  {
    var n := (totalSlides - 1) as real;
    assert progress * n <= n by {
      MulNonNegative(1.0 - progress, n);
      assert n - progress * n == (1.0 - progress) * n;
    }
  }

  lemma SlideIndexMonotone(p1: real, p2: real, totalSlides: int)
    requires p1 <= p2
    requires totalSlides > 0
    ensures SlideIndex(p1, totalSlides) <= SlideIndex(p2, totalSlides)
  {
    var n := (totalSlides - 1) as real;
    assert p1 * n <= p2 * n by {
      assert p2 * n == p1 * n + (p2 - p1) * n;
    }
  }

  /**
   * The React state of the Findings page that the two scroll triggers write.
   * Each `onUpdate` passes the updater `prev !== step ? step : prev`, so an
   * unchanged value does not re-render.
   */
  class FindingsView {
    var skalaStep: int
    var activeDisaster: int

    constructor ()
      ensures skalaStep == 0 && activeDisaster == 0
    {
      skalaStep := 0;
      activeDisaster := 0;
    }

    method OnSkalaUpdate(progress: real) returns (rerender: bool)
      modifies this`skalaStep
      ensures skalaStep == SkalaStep(progress)
      ensures rerender <==> old(skalaStep) != skalaStep
    {
      var step := SkalaStep(progress);
      var next := if skalaStep != step then step else skalaStep;
      rerender := next != skalaStep;
      skalaStep := next;
    }

    method OnImpactUpdate(progress: real, totalSlides: int) returns (rerender: bool)
      requires totalSlides > 0
      modifies this`activeDisaster
      ensures activeDisaster == SlideIndex(progress, totalSlides)
      ensures rerender <==> old(activeDisaster) != activeDisaster
    {
      var idx := SlideIndex(progress, totalSlides);
      var next := if activeDisaster != idx then idx else activeDisaster;
      rerender := next != activeDisaster;
      activeDisaster := next;
    }
  }

  // ---------------------------------------------------------------------------
  // The step controller

  datatype Region = Region(name: string, lng: real, lat: real)

  /** `regionsData`: the three provinces with the map point their card is tied to. */
  const Regions: seq<Region> := [
    Region("Aceh", 95.2, 4.7),
    Region("Sumatera Utara", 100.0, 1.5),
    Region("Sumatera Barat", 101.0, 0.5)
  ]

  datatype Camera = Camera(lng: real, lat: real, zoom: real)

  /** The camera of steps 0 and 1. */
  const Overview: Camera := Camera(98.5, 2.0, 7.0)

  /** `skalaStep >= 2 ? skalaStep - 2 : -1` */
  function ActiveRegion(step: int): int
  {
    if step >= 2 then step - 2 else -1
  }

  /** `activeRegion >= 0 ? regionsData[activeRegion] : null`; past the end the array reads `undefined`. */
  function RegionAt(step: int): Option<Region>
  {
    var k := ActiveRegion(step);
    if 0 <= k < |Regions| then Some(Regions[k]) else None
  }

  /** What the controller does for a step. */
  datatype Scene =
    | Intro                    // step 0: boundaries, no markers, intro text
    | AllMarkers               // step 1: every region's marker, the marker overlay
    | RegionDetail(index: nat) // steps 2 to 4: one region's marker, card and photo
    | NoScene                  // no branch of the controller applies

  function SceneFor(step: int): Scene
  {
    if step == 0 then Intro
    else if step == 1 then AllMarkers
    else if step >= 2 && RegionAt(step).Some? then RegionDetail(ActiveRegion(step))
    else NoScene
  }

  /** The `flyTo` target of a scene. */
  function SceneCamera(s: Scene): Option<Camera>
  {
    match s
    case Intro => Some(Overview)
    case AllMarkers => Some(Overview)
    case RegionDetail(k) =>
      if k < |Regions| then Some(Camera(Regions[k].lng, Regions[k].lat, 8.5)) else None
    case NoScene => None
  }

  /** Whether the marker of the region named `markerRegion` is shown; `None` leaves it as it was. */
  function MarkerShown(s: Scene, markerRegion: string): Option<bool>
  {
    match s
    case Intro => Some(false)
    case AllMarkers => Some(true)
    case RegionDetail(k) => if k < |Regions| then Some(markerRegion == Regions[k].name) else None
    case NoScene => None
  }

  /**
   * Every step the skala trigger can produce has a scene: steps 0 and 1 keep
   * the overview camera, steps 2 to 4 fly to `regionsData[step - 2]`, a
   * valid index, and `activeRegion` is -1 exactly for steps 0 and 1.
   */
  lemma StepScenes(progress: real)
    requires 0.0 <= progress <= 1.0
    ensures var step := SkalaStep(progress);
      && SceneFor(step) != NoScene
      && (ActiveRegion(step) == -1 <==> step < 2)
      && (step >= 2 ==> 0 <= ActiveRegion(step) < |Regions|
                        && SceneFor(step) == RegionDetail(step - 2)
                        && SceneCamera(SceneFor(step)) == Some(Camera(Regions[step - 2].lng, Regions[step - 2].lat, 8.5)))
      && (step < 2 ==> SceneCamera(SceneFor(step)) == Some(Overview))
  {
  }

  /** In a region step exactly the active region's marker is shown; in step 1 all are, in step 0 none. */
  lemma OneMarkerPerRegionStep(step: int, j: int)
    requires 0 <= step < SkalaStepCount
    requires 0 <= j < |Regions|
    ensures step == 0 ==> MarkerShown(SceneFor(step), Regions[j].name) == Some(false)
    ensures step == 1 ==> MarkerShown(SceneFor(step), Regions[j].name) == Some(true)
    ensures step >= 2 ==> MarkerShown(SceneFor(step), Regions[j].name) == Some(j == step - 2)
  {
    if step >= 2 && j != step - 2 {
      assert Regions[j].name != Regions[step - 2].name by {
        assert |Regions[0].name| != |Regions[1].name|;
        assert |Regions[0].name| != |Regions[2].name|;
        assert Regions[1].name[9] != Regions[2].name[9];
      }
    }
  }

  // ---------------------------------------------------------------------------
  // The district overlay of a region step

  /** `districtsData.features.filter((d) => d.properties.province === name)` */
  function FilterProvince(ds: seq<Feature>, name: string): seq<Feature>
  {
    if ds == [] then []
    else (if Prop(ds[0], "province") == Some(name) then [ds[0]] else []) + FilterProvince(ds[1..], name)
  }

  lemma {:induction false} FilterProvinceMembers(ds: seq<Feature>, name: string)
    ensures forall g :: g in FilterProvince(ds, name) <==> g in ds && Prop(g, "province") == Some(name)
  {
    if ds != [] {
      FilterProvinceMembers(ds[1..], name);
      assert ds == [ds[0]] + ds[1..];
    }
  }

  lemma {:induction false} FilterProvinceNone(ds: seq<Feature>, name: string)
    requires forall g :: g in ds ==> Prop(g, "province") != Some(name)
    ensures FilterProvince(ds, name) == []
  {
    if ds != [] {
      assert ds[0] in ds;
      FilterProvinceNone(ds[1..], name);
    }
  }

  /**
   * As written (src/pages/Findings.jsx:2278-2280) the overlay compares the
   * loaded `province`, which is upper case, with the region's display name.
   */
  function RegionDistrictsAsWritten(districts: seq<Feature>, region: Region): seq<Feature>
  {
    FilterProvince(districts, region.name)
  }

  /** As written, no region step ever finds a district to draw, whatever the GeoJSON holds. */
  lemma RegionDistrictsAsWrittenEmpty(fs: seq<Feature>, k: int)
    requires 0 <= k < |Regions|
    ensures RegionDistrictsAsWritten(LoadedDistricts(fs), Regions[k]) == []
  {
    var ds := LoadedDistricts(fs);
    LoadedDistrictsProvince(fs);
    RegionNameNotProvince(k);
    FilterProvinceNone(ds, Regions[k].name);
  }

  /** A region's display name is none of the provinces: its second letter is lower case, theirs upper case. */
  lemma RegionNameNotProvince(k: int)
    requires 0 <= k < |Regions|
    ensures Regions[k].name !in TargetProvinces
  {
    assert 'a' <= Regions[k].name[1] <= 'z';
    forall j | 0 <= j < |TargetProvinces|
      ensures TargetProvinces[j] != Regions[k].name
    {
      assert TargetProvinces[j][1] <= 'Z';
    }
  }

  function UpperChar(c: char): char
  {
    if 'a' <= c <= 'z' then (c as int - 32) as char else c
  }

  /** `String.prototype.toUpperCase` restricted to ASCII letters. */
  function AsciiUpper(s: string): (u: string)
    ensures |u| == |s|
    ensures forall i :: 0 <= i < |s| ==> u[i] == UpperChar(s[i])
  {
    if s == [] then [] else [UpperChar(s[0])] + AsciiUpper(s[1..])
  }

  /** The corrected key: the region's name in upper case, the way the GeoJSON writes `nmprov`. */
  function ProvinceKey(region: Region): string
  {
    AsciiUpper(region.name)
  }

  /** The corrected overlay: districts whose province matches the upper-cased region name. */
  function RegionDistricts(districts: seq<Feature>, region: Region): seq<Feature>
  {
    FilterProvince(districts, ProvinceKey(region))
  }

  /** The corrected key of each region is the `nmprov` of its province. */
  lemma ProvinceKeyMatches(k: int)
    requires 0 <= k < |Regions|
    ensures ProvinceKey(Regions[k]) == TargetProvinces[k]
  {
    var name, key := Regions[k].name, TargetProvinces[k];
    forall i | 0 <= i < |name|
      ensures UpperChar(name[i]) == key[i]
    {
    }
  }

  /**
   * Corrected, a region step draws exactly the loaded districts of its own
   * province, and every district of that province in the GeoJSON is among them.
   */
  lemma RegionDistrictsShowRegion(fs: seq<Feature>, k: int)
    requires 0 <= k < |Regions|
    ensures forall g :: g in RegionDistricts(LoadedDistricts(fs), Regions[k]) <==>
      g in LoadedDistricts(fs) && Prop(g, "province") == Some(TargetProvinces[k])
    ensures forall f :: f in fs && Prop(f, "nmprov") == Some(TargetProvinces[k]) ==>
      Project(f) in RegionDistricts(LoadedDistricts(fs), Regions[k])
  {
    ProvinceKeyMatches(k);
    LoadedDistrictsProvince(fs);
    FilterProvinceMembers(LoadedDistricts(fs), TargetProvinces[k]);
  }
}

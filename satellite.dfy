/**
 * Chapter detection of src/pages/Satellite.jsx: on every scroll the page
 * takes the first of its three sections whose box is on screen, makes it
 * the active chapter, flies the map to that chapter's camera and shows the
 * ground-truth points only on the last chapter. The survey-area layer is
 * painted by chapter.
 */
module Chapters {
  import opened Wrappers

  datatype Chapter = Cover | Problem | GroundTruth

  /** `sections`: the order in which the handler examines the chapters. */
  const Sections: seq<Chapter> := [Cover, Problem, GroundTruth]

  /** The options handed to `flyTo`; `duration` is absent when the map's default applies. */
  datatype Camera = Camera(lng: real, lat: real, zoom: real, pitch: real, bearing: real, duration: Option<int>)

  /** The `chapters` table. */
  function ChapterCamera(c: Chapter): Camera
  {
    match c
    case Cover => Camera(98.6, 2.5, 7.0, 45.0, -15.0, None)
    case Problem => Camera(99.5, 0.5, 5.5, 0.0, 0.0, Some(2000))
    case GroundTruth => Camera(98.6, 3.0, 7.0, 30.0, 0.0, Some(2500))
  }

  /** `getBoundingClientRect()` of a section: the top and bottom edge in viewport pixels. */
  datatype Rect = Rect(top: real, bottom: real)

  /** The visibility rule: the top is above 60% of the viewport height and the bottom below its top edge. */
  predicate InView(r: Rect, innerHeight: real)
  {
    r.top < innerHeight * 0.6 && r.bottom > 0.0
  }

  /**
   * A section is a candidate when its element exists (`dom` holds the boxes
   * of the elements present) and its box is in view.
   */
  predicate Candidate(dom: map<Chapter, Rect>, innerHeight: real, c: Chapter)
  {
    c in dom && InView(dom[c], innerHeight)
  }

  /** The first candidate of `sections`, if any. */
  function FirstInView(dom: map<Chapter, Rect>, innerHeight: real, sections: seq<Chapter>): Option<Chapter>
  {
    if sections == [] then None
    else if Candidate(dom, innerHeight, sections[0]) then Some(sections[0])
    else FirstInView(dom, innerHeight, sections[1..])
  }

  /** The survey-area paint: `fill-opacity` and outline `line-width`. */
  datatype Paint = Paint(fillOpacity: real, lineWidth: real)

  /** The paint for a chapter. */
  function ChapterPaint(c: Chapter): Paint
  {
    Paint(if c == Problem then 0.6 else 0.15, if c == Problem then 3.0 else 2.0)
  }

  /** The paint effect: applied only when the map is mounted and the survey layer exists. */
  function PaintUpdate(c: Chapter, mapReady: bool, layerExists: bool): Option<Paint>
  {
    if mapReady && layerExists then Some(ChapterPaint(c)) else None
  }

  // ---------------------------------------------------------------------------
  // Properties

  /**
   * The selected section is the earliest candidate: it is a candidate, no
   * section before it is, and there is none exactly when no section is a
   * candidate.
   */
  lemma {:induction false} FirstInViewIsFirst(dom: map<Chapter, Rect>, innerHeight: real, sections: seq<Chapter>)
    ensures var r := FirstInView(dom, innerHeight, sections);
            && (r.None? <==> forall c :: c in sections ==> !Candidate(dom, innerHeight, c))
            && (r.Some? ==> exists k :: 0 <= k < |sections| && sections[k] == r.value
                              && Candidate(dom, innerHeight, r.value)
                              && forall j :: 0 <= j < k ==> !Candidate(dom, innerHeight, sections[j]))
  {
    if sections != [] {
      var r := FirstInView(dom, innerHeight, sections);
      var tail := sections[1..];
      FirstInViewIsFirst(dom, innerHeight, tail);
      assert forall c :: c in sections <==> c == sections[0] || c in tail;
      if !Candidate(dom, innerHeight, sections[0]) && r.Some? {
        var k :| 0 <= k < |tail| && tail[k] == r.value
                 && Candidate(dom, innerHeight, r.value)
                 && forall j :: 0 <= j < k ==> !Candidate(dom, innerHeight, tail[j]);
        assert sections[k + 1] == r.value;
        assert forall j :: 0 <= j < k + 1 ==> !Candidate(dom, innerHeight, sections[j]) by {
          forall j | 0 <= j < k + 1
            ensures !Candidate(dom, innerHeight, sections[j])
          {
            if j > 0 {
              assert sections[j] == tail[j - 1];
            }
          }
        }
      }
    }
  }

  /** Sections after the first candidate are not examined: their boxes do not matter. */
  lemma {:induction false} LaterSectionsIgnored(dom: map<Chapter, Rect>, innerHeight: real, sections: seq<Chapter>, k: int, c: Chapter, r: Rect)
    requires 0 <= k < |sections| && Candidate(dom, innerHeight, sections[k])
    requires forall j :: 0 <= j <= k ==> sections[j] != c
    ensures FirstInView(dom[c := r], innerHeight, sections) == FirstInView(dom, innerHeight, sections)
    ensures FirstInView(dom - {c}, innerHeight, sections) == FirstInView(dom, innerHeight, sections)
  {
    if k > 0 {
      LaterSectionsIgnored(dom, innerHeight, sections[1..], k - 1, c, r);
    }
  }

  /** Only the problem chapter is emphasised, and the emphasis is stronger on both paint values. */
  lemma PaintEmphasis(c: Chapter)
    ensures ChapterPaint(c) == ChapterPaint(Problem) <==> c == Problem
    ensures c != Problem ==>
      (ChapterPaint(c).fillOpacity < ChapterPaint(Problem).fillOpacity && ChapterPaint(c).lineWidth < ChapterPaint(Problem).lineWidth)
  {
  }

  /**
   * Nothing is painted before the map is mounted or while the survey layer is
   * missing; once both exist, the layer shows the strong emphasis exactly on
   * the problem chapter.
   */
  lemma PaintUpdateGuarded(c: Chapter, mapReady: bool, layerExists: bool)
    ensures PaintUpdate(c, mapReady, layerExists).None? <==> !mapReady || !layerExists
    ensures mapReady && layerExists ==>
      && PaintUpdate(c, mapReady, layerExists).value.fillOpacity in {0.15, 0.6}
      && (PaintUpdate(c, mapReady, layerExists).value.fillOpacity == 0.6 <==> c == Problem)
      && (PaintUpdate(c, mapReady, layerExists).value.lineWidth == 3.0 <==> c == Problem)
  {
  }

  /** The chapter view: `activeChapter` and `showPoints`. */
  class ChapterView {
    var activeChapter: Chapter
    var showPoints: bool

    /** The points are shown exactly on the ground-truth chapter. */
    ghost predicate Valid()
      reads this
    {
      showPoints <==> activeChapter == GroundTruth
    }

    /** The initial state: the cover chapter, points hidden. */
    constructor ()
      ensures Valid() && activeChapter == Cover && !showPoints
    {
      activeChapter := Cover;
      showPoints := false;
    }

    /**
     * `handleScroll`. `dom` holds the boxes of the section elements present,
     * `mapReady` whether `mapRef.current` is set; the result is the camera
     * handed to `flyTo`, if any.
     */
    method HandleScroll(dom: map<Chapter, Rect>, innerHeight: real, mapReady: bool) returns (flight: Option<Camera>)
      requires Valid()
      modifies this
      ensures Valid()
      ensures var sel := FirstInView(dom, innerHeight, Sections);
              if sel.Some? && sel.value != old(activeChapter) then
                && activeChapter == sel.value
                && (showPoints <==> sel.value == GroundTruth)
                && flight == (if mapReady then Some(ChapterCamera(sel.value)) else None)
              else
                && activeChapter == old(activeChapter) && showPoints == old(showPoints)
                && flight == None
    {
      flight := None;
      var i := 0;
      while i < |Sections|
        invariant 0 <= i <= |Sections|
        invariant FirstInView(dom, innerHeight, Sections) == FirstInView(dom, innerHeight, Sections[i..])
        invariant activeChapter == old(activeChapter) && showPoints == old(showPoints) && flight == None
        decreases |Sections| - i
      {
        var section := Sections[i];
        assert Sections[i..] == [section] + Sections[i + 1..];
        if section in dom {
          var bounds := dom[section];
          if bounds.top < innerHeight * 0.6 && bounds.bottom > 0.0 {
            if activeChapter != section {
              activeChapter := section;
              if mapReady {
                flight := Some(ChapterCamera(section));
              }
              if section == GroundTruth {
                showPoints := true;
              } else {
                showPoints := false;
              }
            }
            return;
          }
        }
        i := i + 1;
      }
    }
  }
}

/**
 * Active-section selection: the debounced part of the scroll handler that
 * decides which navigation entry is highlighted.
 *
 * Each of the four sections, in document order, is scored by how many pixel
 * rows of it lie inside the band between the bottom of the navigation bar
 * (plus a margin) and the bottom of the window. A section replaces the current
 * choice only when its score is strictly greater. Once at least one section
 * element exists, two overrides follow: near the top of the page `Hero` wins,
 * and near the bottom `Contact` wins, the latter being checked last.
 */
module Sections {

  datatype Section = Hero | Skills | Projects | Contact

  /** The sections in document order; the first one is the default choice. */
  const Order: seq<Section> := [Hero, Skills, Projects, Contact]

  const NavHeight: int := 64
  /** Top of the band in which visibility is measured. */
  const NavOffset: int := NavHeight + 50
  /** Offsets strictly below this force `Hero`. */
  const TopThreshold: int := 100
  /** Distance from the document end within which `Contact` is forced. */
  const BottomThreshold: int := 100

  /** The vertical extent of a section's bounding box, relative to the viewport top. */
  datatype Rect = Rect(top: int, bottom: int)

  /** The sections whose element exists in the document, with their boxes;
      a section that is not a key has no element. */
  type Layout = map<Section, Rect>

  function Position(s: Section): (k: nat)
    ensures k < |Order| && Order[k] == s
  {
    match s
    case Hero => 0
    case Skills => 1
    case Projects => 2
    case Contact => 3
  }

  function MinInt(a: int, b: int): int { if a <= b then a else b }
  function MaxInt(a: int, b: int): int { if a >= b then a else b }

  /** Visible height of a box inside the band [NavOffset, windowHeight). */
  function Overlap(r: Rect, windowHeight: int): (h: int)
    ensures h >= 0
    ensures h <= MaxInt(0, windowHeight - NavOffset)
    ensures h <= MaxInt(0, r.bottom - r.top)
    ensures h > 0 <==> r.top < windowHeight && NavOffset < r.bottom && r.top < r.bottom && NavOffset < windowHeight
  {
    var visibleTop := MaxInt(r.top, NavOffset);
    var visibleBottom := MinInt(r.bottom, windowHeight);
    MaxInt(0, visibleBottom - visibleTop)
  }

  /** An independent pixel-by-pixel count: the rows y with
      from <= y < windowHeight that the box covers. */
  function CoveredRows(r: Rect, from: int, windowHeight: int): nat
    decreases windowHeight - from
  {
    if from >= windowHeight then 0
    else (if r.top <= from < r.bottom then 1 else 0) + CoveredRows(r, from + 1, windowHeight)
  }

  lemma {:induction false} CoveredRowsFrom(r: Rect, from: int, windowHeight: int)
    ensures CoveredRows(r, from, windowHeight)
            == MaxInt(0, MinInt(r.bottom, windowHeight) - MaxInt(r.top, from))
    decreases windowHeight - from
  {
    if from < windowHeight {
      CoveredRowsFrom(r, from + 1, windowHeight);
    }
  }

  /** The score of a section is the number of its pixel rows inside the band. */
  lemma OverlapCountsCoveredRows(r: Rect, windowHeight: int)
    ensures Overlap(r, windowHeight) == CoveredRows(r, NavOffset, windowHeight)
  {
    CoveredRowsFrom(r, NavOffset, windowHeight);
  }

  /** The score of a section, zero when its element is missing. */
  function Area(layout: Layout, s: Section, windowHeight: int): (a: int)
    ensures a >= 0
    ensures s !in layout ==> a == 0
  {
    if s in layout then Overlap(layout[s], windowHeight) else 0
  }

  /** State of the scan after some sections: the current choice and its score. */
  datatype Choice = Choice(current: Section, maxArea: int)

  /** The scan over the first `n` sections, without the two overrides. */
  function Scan(layout: Layout, windowHeight: int, n: nat): Choice
    requires n <= |Order|
  {
    if n == 0 then Choice(Order[0], 0)
    else
      var prev := Scan(layout, windowHeight, n - 1);
      var s := Order[n - 1];
      if s in layout && Overlap(layout[s], windowHeight) > prev.maxArea then
        Choice(s, Overlap(layout[s], windowHeight))
      else
        prev
  }

  /** The section chosen by overlap alone. */
  function OverlapWinner(layout: Layout, windowHeight: int): Section
  {
    Scan(layout, windowHeight, |Order|).current
  }

  /** An independent description of the winner: a section of maximal score
      such that every earlier section scores strictly less. */
  ghost predicate IsEarliestMaximum(layout: Layout, windowHeight: int, w: Section)
  {
    && (forall s: Section :: Area(layout, s, windowHeight) <= Area(layout, w, windowHeight))
    && (forall j :: 0 <= j < Position(w) ==> Area(layout, Order[j], windowHeight) < Area(layout, w, windowHeight))
  }

  lemma {:induction false} ScanPrefix(layout: Layout, windowHeight: int, n: nat)
    requires 1 <= n <= |Order|
    ensures var c := Scan(layout, windowHeight, n);
      && Position(c.current) < n
      && c.maxArea == Area(layout, c.current, windowHeight)
      && (forall j :: 0 <= j < n ==> Area(layout, Order[j], windowHeight) <= c.maxArea)
      && (forall j :: 0 <= j < Position(c.current) ==> Area(layout, Order[j], windowHeight) < c.maxArea)
  {
    if n > 1 {
      ScanPrefix(layout, windowHeight, n - 1);
    }
  }

  /** The overlap winner is the earliest section of maximal score; in
      particular ties go to the earlier section and all-zero scores give `Hero`. */
  lemma OverlapWinnerIsEarliestMaximum(layout: Layout, windowHeight: int)
    ensures IsEarliestMaximum(layout, windowHeight, OverlapWinner(layout, windowHeight))
  {
    ScanPrefix(layout, windowHeight, |Order|);
    var c := Scan(layout, windowHeight, |Order|);
    forall s: Section
      ensures Area(layout, s, windowHeight) <= Area(layout, c.current, windowHeight)
    {
      assert Order[Position(s)] == s;
    }
  }

  /** At most one section is the earliest maximum. */
  lemma EarliestMaximumIsUnique(layout: Layout, windowHeight: int, v: Section, w: Section)
    requires IsEarliestMaximum(layout, windowHeight, v)
    requires IsEarliestMaximum(layout, windowHeight, w)
    ensures v == w
  {
    var pv, pw := Position(v), Position(w);
    assert Area(layout, Order[pv], windowHeight) == Area(layout, v, windowHeight);
    assert Area(layout, Order[pw], windowHeight) == Area(layout, w, windowHeight);
  }

  /** When every section scores zero (or is missing), `Hero` is chosen. */
  lemma AllZeroGivesHero(layout: Layout, windowHeight: int)
    requires forall s: Section :: Area(layout, s, windowHeight) == 0
    ensures OverlapWinner(layout, windowHeight) == Hero
  {
    OverlapWinnerIsEarliestMaximum(layout, windowHeight);
    var w := OverlapWinner(layout, windowHeight);
    assert 0 < Position(w) ==> Area(layout, Order[0], windowHeight) < Area(layout, w, windowHeight);
  }

  /** The near-bottom condition, on the two-reading document height. */
  predicate NearBottom(scrollY: int, windowHeight: int, bottomHeight: int)
  {
    scrollY + windowHeight > bottomHeight - BottomThreshold
  }

  /** The two overrides, applied in the source's order: top first, bottom last. */
  function Override(c: Section, scrollY: int, windowHeight: int, bottomHeight: int): Section
  {
    var afterTop := if scrollY < TopThreshold then Hero else c;
    if NearBottom(scrollY, windowHeight, bottomHeight) then Contact else afterTop
  }

  /** The active section the debounced handler settles on. The overrides run
      only for a section whose element exists, so with no element at all the
      default `Hero` stands. */
  function ActiveSection(layout: Layout, scrollY: int, windowHeight: int, bottomHeight: int): Section
  {
    var winner := OverlapWinner(layout, windowHeight);
    if layout.Keys == {} then winner else Override(winner, scrollY, windowHeight, bottomHeight)
  }

  /** The complete case analysis of the active section. */
  lemma ActiveSectionCases(layout: Layout, scrollY: int, windowHeight: int, bottomHeight: int)
    ensures var a := ActiveSection(layout, scrollY, windowHeight, bottomHeight);
      && (layout.Keys == {} ==> a == Hero)
      && (layout.Keys != {} && NearBottom(scrollY, windowHeight, bottomHeight) ==> a == Contact)
      && (layout.Keys != {} && !NearBottom(scrollY, windowHeight, bottomHeight) && scrollY < TopThreshold ==> a == Hero)
      && (!NearBottom(scrollY, windowHeight, bottomHeight) && scrollY >= TopThreshold ==> IsEarliestMaximum(layout, windowHeight, a))
  {
    OverlapWinnerIsEarliestMaximum(layout, windowHeight);
    if layout.Keys == {} {
      AllZeroGivesHero(layout, windowHeight);
    }
  }

  /** The bottom override beats the top override: on a page short enough that
      the top of the document is already near its bottom, `Contact` wins even
      at offset zero. */
  lemma BottomOverrideBeatsTop(layout: Layout, windowHeight: int, bottomHeight: int)
    requires layout.Keys != {}
    requires NearBottom(0, windowHeight, bottomHeight)
    ensures ActiveSection(layout, 0, windowHeight, bottomHeight) == Contact
  {
  }

  /** The debounced section check as the source runs it: a pass over the four
      sections that keeps the strictly largest score, with both overrides
      applied after every section whose element exists. */
  method SelectActiveSection(layout: Layout, scrollY: int, windowHeight: int, bottomHeight: int)
    returns (active: Section)
    ensures active == ActiveSection(layout, scrollY, windowHeight, bottomHeight)
  {
    var currentSection := Order[0];
    var maxVisibleArea := 0;
    ghost var found := false;
    for i := 0 to |Order|
      invariant maxVisibleArea == Scan(layout, windowHeight, i).maxArea
      invariant found ==> currentSection == Override(Scan(layout, windowHeight, i).current, scrollY, windowHeight, bottomHeight)
      invariant !found ==> currentSection == Scan(layout, windowHeight, i).current
      invariant found <==> exists j :: 0 <= j < i && Order[j] in layout
    {
      var section := Order[i];
      if section in layout {
        var visibleHeight := Overlap(layout[section], windowHeight);
        if visibleHeight > maxVisibleArea {
          maxVisibleArea := visibleHeight;
          currentSection := section;
        }
        if scrollY < TopThreshold {
          currentSection := Hero;
        }
        if scrollY + windowHeight > bottomHeight - BottomThreshold {
          currentSection := Contact;
        }
        found := true;
      }
    }
    assert forall s :: s in layout.Keys ==> Order[Position(s)] in layout;
    active := currentSection;
  }
}

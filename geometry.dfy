/**
 * Scroll geometry of the portfolio page: how the component reads the current
 * vertical offset, how it measures the document, and the scroll-progress
 * percentage shown by the progress bar.
 *
 * Pixel values are integers; the percentage is an exact `real`, which stands
 * in for the JavaScript double the browser computes.
 */
module Geometry {

  function Min(a: real, b: real): real { if a <= b then a else b }
  function Max(a: real, b: real): real { if a >= b then a else b }
  function MaxInt(a: int, b: int): int { if a >= b then a else b }

  /** `window.pageYOffset || documentElement.scrollTop || body.scrollTop || 0`:
      the first of the three readings that is not zero, else zero. */
  function ReadScrollY(pageYOffset: int, rootScrollTop: int, bodyScrollTop: int): (y: int)
    ensures y == 0 <==> pageYOffset == 0 && rootScrollTop == 0 && bodyScrollTop == 0
    ensures pageYOffset != 0 ==> y == pageYOffset
    ensures pageYOffset == 0 && rootScrollTop != 0 ==> y == rootScrollTop
    ensures y in {pageYOffset, rootScrollTop, bodyScrollTop}
  {
    if pageYOffset != 0 then pageYOffset
    else if rootScrollTop != 0 then rootScrollTop
    else bodyScrollTop
  }

  /** The five height readings the scroll handler takes of the document. */
  datatype HeightMeasures = HeightMeasures(
    bodyScrollHeight: int,
    bodyOffsetHeight: int,
    rootClientHeight: int,
    rootScrollHeight: int,
    rootOffsetHeight: int)

  /** The document height used for progress: the greatest of the five readings. */
  function DocumentHeight(m: HeightMeasures): (h: int)
    ensures h >= m.bodyScrollHeight && h >= m.bodyOffsetHeight && h >= m.rootClientHeight
    ensures h >= m.rootScrollHeight && h >= m.rootOffsetHeight
    ensures h in {m.bodyScrollHeight, m.bodyOffsetHeight, m.rootClientHeight,
                  m.rootScrollHeight, m.rootOffsetHeight}
  {
    MaxInt(MaxInt(MaxInt(MaxInt(m.bodyScrollHeight, m.bodyOffsetHeight),
                         m.rootClientHeight), m.rootScrollHeight), m.rootOffsetHeight)
  }

  /** The document height used by the near-bottom check of the active-section
      selection: only the two scroll heights take part. */
  function BottomCheckHeight(m: HeightMeasures): (h: int)
    ensures h >= m.bodyScrollHeight && h >= m.rootScrollHeight
    ensures h == m.bodyScrollHeight || h == m.rootScrollHeight
  {
    MaxInt(m.bodyScrollHeight, m.rootScrollHeight)
  }

  /** The two-reading height never exceeds the five-reading height, so the
      near-bottom check can fire while progress is still below 100. */
  lemma BottomCheckHeightAtMostDocumentHeight(m: HeightMeasures)
    ensures BottomCheckHeight(m) <= DocumentHeight(m)
  {
  }

  /** Scroll progress in percent: zero unless both the scrollable distance and
      the offset are positive, otherwise offset / scrollable * 100 clamped to
      [0, 100]. */
  function Progress(scrollY: int, documentHeight: int, windowHeight: int): (p: real)
    ensures 0.0 <= p <= 100.0
    ensures documentHeight - windowHeight <= 0 || scrollY <= 0 ==> p == 0.0
  {
    var scrollableHeight := documentHeight - windowHeight;
    if scrollableHeight > 0 && scrollY > 0 then
      Min(Max(scrollY as real / scrollableHeight as real * 100.0, 0.0), 100.0)
    else
      0.0
  }

  /** Inside the scrollable range the clamp does nothing: progress is exactly
      the traversed fraction of the scrollable distance. */
  lemma ProgressExact(scrollY: int, documentHeight: int, windowHeight: int)
    requires 0 <= scrollY <= documentHeight - windowHeight && 0 < documentHeight - windowHeight
    ensures Progress(scrollY, documentHeight, windowHeight)
            == scrollY as real / (documentHeight - windowHeight) as real * 100.0
  {
  }

  /** At or past the end of the scrollable range the bar is full. */
  lemma ProgressFull(scrollY: int, documentHeight: int, windowHeight: int)
    requires 0 < documentHeight - windowHeight <= scrollY
    ensures Progress(scrollY, documentHeight, windowHeight) == 100.0
  {
    var s := (documentHeight - windowHeight) as real;
    var y := scrollY as real;
    assert y / s >= 1.0 by {
      assert y / s * s == y;
    }
  }

  /** Any positive offset on a scrollable page shows a non-empty bar. */
  lemma ProgressPositive(scrollY: int, documentHeight: int, windowHeight: int)
    requires 0 < scrollY && 0 < documentHeight - windowHeight
    ensures Progress(scrollY, documentHeight, windowHeight) > 0.0
  {
  }

  /** For a fixed document, progress never decreases as the offset grows. */
  lemma ProgressMonotone(y1: int, y2: int, documentHeight: int, windowHeight: int)
    requires y1 <= y2
    ensures Progress(y1, documentHeight, windowHeight) <= Progress(y2, documentHeight, windowHeight)
  {
    var s := documentHeight - windowHeight;
    if s > 0 && y1 > 0 {
      var sr := s as real;
      assert y1 as real / sr <= y2 as real / sr by {
        assert (y2 as real - y1 as real) / sr >= 0.0;
        assert y2 as real / sr - y1 as real / sr == (y2 as real - y1 as real) / sr;
      }
    }
  }
}

/**
 * The target corners of `warp_to_template` in venv/omr.py, and how they
 * relate to the fiducial squares the template generator draws. The
 * perspective transform itself is not part of this model.
 */
module Rectifier {

  import opened Options
  import opened Fiducials
  import opened TemplateLayout

  /** The default `out_size=(1200,1700)`. */
  const OutWidth := 1200
  const OutHeight := 1700

  /**
   * `dst_pts` as written: the points 60 pixels in from each corner of the
   * output page, in the order top-left, top-right, bottom-right,
   * bottom-left that `find_fiducials` returns.
   */
  function WarpTargets(outW: int, outH: int): (t: seq<Point>)
    ensures |t| == 4
    ensures outW > 120 && outH > 120 ==> CornerOrdered(t)
  {
    [ Point(60.0, 60.0), Point((outW - 60) as real, 60.0),
      Point((outW - 60) as real, (outH - 60) as real), Point(60.0, (outH - 60) as real) ]
  }

  /**
   * The bounding box `(x, y, ww, hh)` that `cv2.boundingRect` reports for
   * a square filled from `(x1, y1)` to `(x2, y2)`: OpenCV fills both end
   * pixels, so each side covers `x2 - x1 + 1` pixels.
   */
  function BoxOf(r: Rect): Box
  {
    Box(r.x1, r.y1, r.x2 - r.x1 + 1, r.y2 - r.y1 + 1)
  }

  /** The bounding boxes of the four squares of a blank template, in drawing order. */
  function TemplateBoxes(c: PageConfig): (boxes: seq<Box>)
    ensures |boxes| == 4
  {
    var rs := FiducialRects(c);
    [BoxOf(rs[0]), BoxOf(rs[1]), BoxOf(rs[2]), BoxOf(rs[3])]
  }

  /**
   * The centres of the template's filled squares, each `CORNER_SIZE + 1`
   * pixels on a side, in the order top-left, top-right, bottom-right,
   * bottom-left: where the rectified image has to put the detected
   * fiducials for it to line up with the template.
   */
  function CentredWarpTargets(c: PageConfig): (t: seq<Point>)
    ensures |t| == 4
    ensures c.w > 2 * c.margin + c.cornerSize && c.h > 2 * c.margin + c.cornerSize ==> CornerOrdered(t)
  {
    var m, half := c.margin as real, (c.cornerSize + 1) as real / 2.0;
    var left, top := m + half, m + half;
    var right, bottom := (c.w - c.margin - c.cornerSize) as real + half, (c.h - c.margin - c.cornerSize) as real + half;
    [Point(left, top), Point(right, top), Point(right, bottom), Point(left, bottom)]
  }

  /**
   * Each square of the template passes the area filter: its 101 x 101
   * bounding box, and even the 100 x 100 square between the drawn corner
   * coordinates, exceed `0.002 * 1200 * 1700 = 4080`.
   */
  lemma FiducialSquaresPassFilter()
    ensures MinArea(OutWidth, OutHeight) == 4080.0
    ensures forall b :: b in TemplateBoxes(VenvGenerator) ==> b.Area() == 10201 && Qualifies(b, OutWidth, OutHeight)
    ensures Qualifies(Box(60, 60, 100, 100), OutWidth, OutHeight)
  {
  }

  /**
   * A page on which the four corner squares stay apart from one another
   * and each square's bounding box passes the area filter.
   */
  predicate SquaresFitPage(c: PageConfig)
  {
    && 0 <= c.margin && 0 <= c.cornerSize
    && c.w > 2 * c.margin + c.cornerSize && c.h > 2 * c.margin + c.cornerSize
    && Qualifies(Box(c.margin, c.margin, c.cornerSize + 1, c.cornerSize + 1), c.w, c.h)
  }

  lemma GeneratorsFitPage()
    ensures SquaresFitPage(VenvGenerator) && SquaresFitPage(RootGenerator)
  {
  }

  /** All four squares qualify, and with equal areas the stable sort keeps their order. */
  lemma TemplateSquaresKept(c: PageConfig)
    requires SquaresFitPage(c)
    ensures Qualifying(TemplateBoxes(c), c.w, c.h) == TemplateBoxes(c)
    ensures LargestFour(TemplateBoxes(c)) == TemplateBoxes(c)
  {
    var boxes := TemplateBoxes(c);
    var side := c.cornerSize + 1;
    assert forall i :: 0 <= i < 4 ==> boxes[i].ww == side && boxes[i].hh == side;
    assert forall i :: 0 <= i < 4 ==> boxes[i].Area() == side * side;
    assert forall i :: 0 <= i < 4 ==> Qualifies(boxes[i], c.w, c.h);
    EqualSquaresKept(boxes, c.w, c.h);
  }

  /** In drawing order the squares' centres are the targets top-left, top-right, bottom-left, bottom-right. */
  lemma TemplateCentres(c: PageConfig)
    ensures var t := CentredWarpTargets(c);
      Centres(TemplateBoxes(c)) == [t[0], t[1], t[3], t[2]]
  {
  }

  /**
   * With the centred targets, the points `find_fiducials` returns for a
   * blank template are exactly the targets, on any page the squares fit,
   * so the warp of an undistorted sheet maps each fiducial onto itself.
   */
  lemma CentredTargetsFixTemplate(c: PageConfig)
    requires SquaresFitPage(c)
    ensures FindFiducials(TemplateBoxes(c), c.w, c.h) == Some(CentredWarpTargets(c))
  {
    var t := CentredWarpTargets(c);
    TemplateSquaresKept(c);
    TemplateCentres(c);
    UprightCorners(t[0], t[1], t[3], t[2]);
  }

  /** The two generators' blank templates: their squares are found at the half-pixel centres. */
  lemma TemplateFiducialsFound()
    ensures FindFiducials(TemplateBoxes(VenvGenerator), OutWidth, OutHeight)
      == Some([Point(110.5, 110.5), Point(1090.5, 110.5), Point(1090.5, 1590.5), Point(110.5, 1590.5)])
    ensures FindFiducials(TemplateBoxes(RootGenerator), OutWidth, OutHeight)
      == FindFiducials(TemplateBoxes(VenvGenerator), OutWidth, OutHeight)
  {
    GeneratorsFitPage();
    CentredTargetsFixTemplate(VenvGenerator);
    CentredTargetsValue();
  }

  /** `dst_pts` as written are the outer corners of the template's four squares. */
  lemma WarpTargetsAreOuterCorners()
    ensures var rs := FiducialRects(VenvGenerator);
      WarpTargets(OutWidth, OutHeight) == [ Point(rs[0].x1 as real, rs[0].y1 as real), Point(rs[1].x2 as real, rs[1].y1 as real),
                                            Point(rs[3].x2 as real, rs[3].y2 as real), Point(rs[2].x1 as real, rs[2].y2 as real) ]
  {
  }

  lemma CentredTargetsValue()
    ensures CentredWarpTargets(RootGenerator) == CentredWarpTargets(VenvGenerator)
    ensures CentredWarpTargets(VenvGenerator)
      == [Point(110.5, 110.5), Point(1090.5, 110.5), Point(1090.5, 1590.5), Point(110.5, 1590.5)]
  {
  }

  /**
   * As written, each target lies outward of the centre of the square at
   * that corner: 50.5 pixels on the left and top sides, 49.5 on the right
   * and bottom sides, along both axes.
   */
  lemma WarpTargetsOffCentre()
    ensures var found := CentredWarpTargets(VenvGenerator);
      var t := WarpTargets(OutWidth, OutHeight);
      && found != t
      && forall i :: 0 <= i < 4 ==>
        && (found[i].x - t[i].x == 50.5 || t[i].x - found[i].x == 49.5)
        && (found[i].y - t[i].y == 50.5 || t[i].y - found[i].y == 49.5)
  {
    CentredTargetsValue();
    var found := CentredWarpTargets(VenvGenerator);
    var t := WarpTargets(OutWidth, OutHeight);
    assert t == [Point(60.0, 60.0), Point(1140.0, 60.0), Point(1140.0, 1640.0), Point(60.0, 1640.0)];
    assert found == [Point(110.5, 110.5), Point(1090.5, 110.5), Point(1090.5, 1590.5), Point(110.5, 1590.5)];
    assert found[0] != t[0];
  }

  /**
   * So the targets are not the points `find_fiducials` returns for the
   * blank template: warping the blank template maps the square centre
   * (110.5, 110.5) to (60, 60).
   */
  lemma WarpTargetsMissFiducialCentres()
    ensures FindFiducials(TemplateBoxes(VenvGenerator), OutWidth, OutHeight).Some?
    ensures FindFiducials(TemplateBoxes(VenvGenerator), OutWidth, OutHeight).value != WarpTargets(OutWidth, OutHeight)
  {
    TemplateFiducialsFound();
    WarpTargetsOffCentre();
  }

}

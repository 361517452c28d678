/**
 * The bubble-sheet template of venv/template_generator.py and its copy
 * template_generator.py: the page constants, the four corner fiducial
 * squares, the 5 x 20 x 4 grid of bubble centres, their normalisation to
 * page fractions, the random answer key and the choice of which bubble to
 * fill for each question.
 */
module TemplateLayout {

  import opened PyNum
  import opened Labels

  /** The module-level constants `W, H, MARGIN, TOP_MARGIN, BOTTOM_MARGIN, CORNER_SIZE`. */
  datatype PageConfig = PageConfig(w: int, h: int, margin: int, topMargin: int, bottomMargin: int, cornerSize: int)
  {
    predicate Valid() { w > 0 && h > 0 }
  }

  /** The constants of venv/template_generator.py. */
  const VenvGenerator := PageConfig(1200, 1700, 60, 120, 120, 100)

  /** The constants of the top-level template_generator.py. */
  const RootGenerator := PageConfig(1200, 1700, 60, 120, 120, 100)

  /** Subject columns, questions per column, and the option spacing. */
  const Columns := 5
  const Rows := 20
  const OptionDx := 40
  const OptionOffsets: seq<real> := [-1.5, -0.5, 0.5, 1.5]

  /** The offsets above in pixels, once multiplied by `OptionDx`. */
  const OffsetPixels: seq<int> := [-60, -20, 20, 60]

  /** A bubble centre `[cx, cy]` in template pixels. */
  datatype Pixel = Pixel(x: int, y: int)

  /** A bubble centre as fractions `[cx / W, cy / H]` of the page. */
  datatype Normalized = Normalized(x: real, y: real)

  function BlockWidth(c: PageConfig): real
  {
    (c.w - 2 * c.margin) as real / 5.0
  }

  function RowHeight(c: PageConfig): real
  {
    (c.h - c.topMargin - c.bottomMargin) as real / 20.0
  }

  function XCenter(c: PageConfig, col: int): int
  {
    Int(c.margin as real + BlockWidth(c) * col as real + BlockWidth(c) / 2.0)
  }

  function YCenter(c: PageConfig, row: int): int
  {
    Int(c.topMargin as real + row as real * RowHeight(c) + RowHeight(c) / 2.0)
  }

  /** The four option centres of the question in column `col`, row `row`. */
  function QuestionCentres(c: PageConfig, col: int, row: int): (centres: seq<Pixel>)
    ensures |centres| == |OptionOffsets|
  {
    var xc := XCenter(c, col);
    var yc := YCenter(c, row);
    seq(|OptionOffsets|, k requires 0 <= k < |OptionOffsets| =>
      Pixel(Int(xc as real + OptionOffsets[k] * OptionDx as real), Int(yc as real)))
  }

  /**
   * `generate_bubble_layout`: the column loop is outside the row loop, so
   * question `q` sits in column `q / 20`, row `q % 20`.
   */
  function GenerateBubbleLayout(c: PageConfig): (coords: seq<seq<Pixel>>)
    ensures |coords| == Columns * Rows
    ensures forall q :: 0 <= q < |coords| ==> |coords[q]| == |OptionOffsets|
  {
    seq(Columns * Rows, q requires 0 <= q < Columns * Rows => QuestionCentres(c, q / Rows, q % Rows))
  }

  lemma XCenterValue(col: nat)
    ensures XCenter(VenvGenerator, col) == 168 + 216 * col
  {
    assert BlockWidth(VenvGenerator) == 216.0;
    assert 60.0 + 216.0 * col as real + 216.0 / 2.0 == (168 + 216 * col) as real;
    IntOfWhole(168 + 216 * col);
  }

  lemma YCenterValue(row: nat)
    ensures YCenter(VenvGenerator, row) == 156 + 73 * row
  {
    assert RowHeight(VenvGenerator) == 73.0;
    assert 120.0 + row as real * 73.0 + 73.0 / 2.0 == (156 + 73 * row) as real + 0.5;
    IntOfHalf(156 + 73 * row);
  }

  /** The centre of option `k` of question `q` in closed form. */
  function ClosedFormCentre(q: nat, k: nat): Pixel
    requires k < |OffsetPixels|
  {
    Pixel(168 + 216 * (q / Rows) + OffsetPixels[k], 156 + 73 * (q % Rows))
  }

  /**
   * With the generator's constants, question `q` has its centres at
   * `x_center = 168 + 216 * col` shifted by -60, -20, +20, +60 and at
   * `y_center = 156 + 73 * row`.
   */
  lemma LayoutClosedForm()
    ensures var coords := GenerateBubbleLayout(VenvGenerator);
      forall q, k :: 0 <= q < |coords| && 0 <= k < |coords[q]| ==> coords[q][k] == ClosedFormCentre(q, k)
  {
    var coords := GenerateBubbleLayout(VenvGenerator);
    forall q: int, k: int | 0 <= q < |coords| && 0 <= k < |coords[q]|
      ensures coords[q][k] == ClosedFormCentre(q, k)
    {
      var col, row := q / Rows, q % Rows;
      XCenterValue(col);
      YCenterValue(row);
      var xc := 168 + 216 * col;
      assert xc as real + OptionOffsets[k] * OptionDx as real == (xc + OffsetPixels[k]) as real;
      IntOfWhole(xc + OffsetPixels[k]);
      IntOfWhole(156 + 73 * row);
    }
  }

  /**
   * Within a question all centres share one y, and x grows by 40 from one
   * option to the next.
   */
  lemma OptionsInOneRow()
    ensures var coords := GenerateBubbleLayout(VenvGenerator);
      forall q, k :: 0 <= q < |coords| && 0 < k < |coords[q]| ==>
        coords[q][k].y == coords[q][0].y && coords[q][k].x == coords[q][k - 1].x + OptionDx
  {
    LayoutClosedForm();
  }

  /**
   * The layout is column-major: every centre of questions `20 s` to
   * `20 s + 19` lies in the `s`-th of the five column blocks between the
   * side margins, the block `score_results` counts as subject `s`.
   */
  lemma SubjectBlocksAreColumns()
    ensures var coords := GenerateBubbleLayout(VenvGenerator);
      forall q, k :: 0 <= q < |coords| && 0 <= k < |coords[q]| ==>
        var s := q / Rows;
        60 + 216 * s < coords[q][k].x < 60 + 216 * (s + 1)
  {
    LayoutClosedForm();
  }

  /**
   * Every centre lies inside the page with at least 108 pixels to the
   * sides and 156 above and below.
   */
  lemma CentresInsidePage()
    ensures var coords := GenerateBubbleLayout(VenvGenerator);
      forall q, k :: 0 <= q < |coords| && 0 <= k < |coords[q]| ==>
        && 108 <= coords[q][k].x <= VenvGenerator.w - 108
        && 156 <= coords[q][k].y <= VenvGenerator.h - 157
  {
    LayoutClosedForm();
  }

  /** The two generator files use the same constants, hence the same sheet. */
  lemma GeneratorsAgree()
    ensures RootGenerator == VenvGenerator
    ensures GenerateBubbleLayout(RootGenerator) == GenerateBubbleLayout(VenvGenerator)
    ensures FiducialRects(RootGenerator) == FiducialRects(VenvGenerator)
  {
  }

  /** `a / d` for a positive `d`: scaling back by `d` recovers `a`. */
  lemma FractionOf(a: int, d: int)
    requires d > 0
    ensures (a as real / d as real) * d as real == a as real
    ensures 0 <= a <= d ==> 0.0 <= a as real / d as real <= 1.0
  {
    var f := a as real / d as real;
    assert f * d as real == a as real;
  }

  /** One centre as `[cx / W, cy / H]`. */
  function NormalizePixel(c: PageConfig, p: Pixel): (n: Normalized)
    requires c.Valid()
    ensures n.x * c.w as real == p.x as real && n.y * c.h as real == p.y as real
    ensures 0 <= p.x <= c.w ==> 0.0 <= n.x <= 1.0
    ensures 0 <= p.y <= c.h ==> 0.0 <= n.y <= 1.0
  {
    FractionOf(p.x, c.w);
    FractionOf(p.y, c.h);
    Normalized(p.x as real / c.w as real, p.y as real / c.h as real)
  }

  /** `normalize_coords`: divide each centre by the page width and height. */
  function NormalizeCoords(c: PageConfig, coords: seq<seq<Pixel>>): (norm: seq<seq<Normalized>>)
    requires c.Valid()
    ensures |norm| == |coords|
    ensures forall q :: 0 <= q < |coords| ==> |norm[q]| == |coords[q]|
    ensures forall q, k :: 0 <= q < |coords| && 0 <= k < |coords[q]| ==>
      && norm[q][k].x * c.w as real == coords[q][k].x as real
      && norm[q][k].y * c.h as real == coords[q][k].y as real
    ensures forall q, k :: 0 <= q < |coords| && 0 <= k < |coords[q]| && 0 <= coords[q][k].x <= c.w ==>
      0.0 <= norm[q][k].x <= 1.0
    ensures forall q, k :: 0 <= q < |coords| && 0 <= k < |coords[q]| && 0 <= coords[q][k].y <= c.h ==>
      0.0 <= norm[q][k].y <= 1.0
  {
    seq(|coords|, q requires 0 <= q < |coords| =>
      seq(|coords[q]|, k requires 0 <= k < |coords[q]| => NormalizePixel(c, coords[q][k])))
  }

  lemma PixelRoundTrip(c: PageConfig, p: Pixel)
    requires c.Valid()
    ensures var n := NormalizePixel(c, p);
      Int(n.x * c.w as real) == p.x && Int(n.y * c.h as real) == p.y
  {
    IntOfWhole(p.x);
    IntOfWhole(p.y);
  }

  /**
   * The detector turns a normalised centre back into pixels with
   * `int(nx * w), int(ny * h)`; on a page of the template's size this gives
   * back exactly the centre the generator drew.
   */
  lemma NormalizedPixelRoundTrip(c: PageConfig, coords: seq<seq<Pixel>>, q: nat, k: nat)
    requires c.Valid()
    requires q < |coords| && k < |coords[q]|
    ensures var n := NormalizeCoords(c, coords)[q][k];
      Int(n.x * c.w as real) == coords[q][k].x && Int(n.y * c.h as real) == coords[q][k].y
  {
    assert NormalizeCoords(c, coords)[q][k] == NormalizePixel(c, coords[q][k]);
    PixelRoundTrip(c, coords[q][k]);
  }

  /** `random_answer_key(n)`: `n` labels, each drawn from A to D. */
  method RandomAnswerKey(n: nat) returns (key: seq<string>)
    ensures |key| == n
    ensures forall i :: 0 <= i < |key| ==> key[i] in Letters
  {
    key := [];
    while |key| < n
      invariant |key| <= n
      invariant forall i :: 0 <= i < |key| ==> key[i] in Letters
    {
      assert Letters[0] in Letters;
      var choice :| choice in Letters;
      key := key + [choice];
    }
  }

  /**
   * The key covers every question and names, for each, an option the
   * question has; otherwise `fill_answers` raises.
   */
  predicate KeyFits(coords: seq<seq<Pixel>>, key: seq<string>)
  {
    && |key| >= |coords|
    && forall q :: 0 <= q < |coords| ==>
      LetterIndex(key[q]).Some? && LetterIndex(key[q]).value < |coords[q]|
  }

  /** The centre `fill_answers` blackens for each question. */
  function FillTargets(coords: seq<seq<Pixel>>, key: seq<string>): (targets: seq<Pixel>)
    requires KeyFits(coords, key)
    ensures |targets| == |coords|
    ensures forall q, k :: 0 <= q < |coords| && 0 <= k < |coords[q]| && k < |Letters| && Letters[k] == key[q] ==>
      targets[q] == coords[q][k]
  {
    seq(|coords|, q requires 0 <= q < |coords| => coords[q][LetterIndex(key[q]).value])
  }

  /** A corner square drawn filled from `(x1, y1)` to `(x2, y2)`. */
  datatype Rect = Rect(x1: int, y1: int, x2: int, y2: int)

  /** The four squares of `create_blank_template`, in drawing order TL, TR, BL, BR. */
  function FiducialRects(c: PageConfig): seq<Rect>
  {
    var m, s := c.margin, c.cornerSize;
    [ Rect(m, m, m + s, m + s),
      Rect(c.w - m - s, m, c.w - m, m + s),
      Rect(m, c.h - m - s, m + s, c.h - m),
      Rect(c.w - m - s, c.h - m - s, c.w - m, c.h - m) ]
  }

  /**
   * Each square's corner coordinates lie `CORNER_SIZE` apart, `MARGIN` in from two page
   * edges, and its corner coordinates have the midpoint (110, 110),
   * (1090, 110), (110, 1590) or (1090, 1590).
   */
  lemma FiducialSquareGeometry()
    ensures var rs := FiducialRects(VenvGenerator);
      && |rs| == 4
      && (forall i :: 0 <= i < 4 ==> rs[i].x2 - rs[i].x1 == VenvGenerator.cornerSize == rs[i].y2 - rs[i].y1)
      && (forall i :: 0 <= i < 4 ==> (rs[i].x1 == VenvGenerator.margin || rs[i].x2 == VenvGenerator.w - VenvGenerator.margin))
      && (forall i :: 0 <= i < 4 ==> (rs[i].y1 == VenvGenerator.margin || rs[i].y2 == VenvGenerator.h - VenvGenerator.margin))
      && [(rs[0].x1 + rs[0].x2) / 2, (rs[1].x1 + rs[1].x2) / 2, (rs[2].x1 + rs[2].x2) / 2, (rs[3].x1 + rs[3].x2) / 2]
         == [110, 1090, 110, 1090]
      && [(rs[0].y1 + rs[0].y2) / 2, (rs[1].y1 + rs[1].y2) / 2, (rs[2].y1 + rs[2].y2) / 2, (rs[3].y1 + rs[3].y2) / 2]
         == [110, 110, 1590, 1590]
  {
  }

}

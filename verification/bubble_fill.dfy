/**
 * The fill measurement of `detect_selections` in venv/omr.py: map a
 * normalised centre to pixels, clip a square window of half-width
 * `opt_radius + 6` around it to the image, and count the ink pixels of the
 * window that lie inside a circle of radius `int(opt_radius * 0.9)` centred
 * at `(ww // 2, hh // 2)` of the clipped window.
 */
module BubbleFill {

  import opened PyNum
  import opened TemplateLayout

  /** The binarised image, `th[y][x] > 0`: true on ink. */
  type Grid = seq<seq<bool>>

  /** `h` rows of `w` pixels each. */
  ghost predicate IsGrid(g: Grid, w: nat, h: nat)
  {
    |g| == h && forall y :: 0 <= y < |g| ==> |g[y]| == w
  }

  /** The region `th[y1:y2, x1:x2]` once sliced: its top-left pixel and size. */
  datatype Window = Window(x1: nat, y1: nat, ww: nat, hh: nat)

  ghost predicate Fits(g: Grid, win: Window)
  {
    && win.y1 + win.hh <= |g|
    && forall y :: win.y1 <= y < win.y1 + win.hh ==> win.x1 + win.ww <= |g[y]|
  }

  function Max(a: int, b: int): int { if a < b then b else a }

  function Min(a: int, b: int): int { if a < b then a else b }

  /**
   * `[max(0, cx-r), min(w, cx+r))` by `[max(0, cy-r), min(h, cy+r))`,
   * sliced the way numpy slices (a negative stop counts from the end).
   * Away from the border it is the full `2r` by `2r` square around the
   * centre.
   */
  function SampleWindow(cx: int, cy: int, r: int, w: nat, h: nat): (win: Window)
    ensures win.x1 + win.ww <= w && win.y1 + win.hh <= h
    ensures 0 <= r <= cx && cx + r <= w ==> win.x1 == cx - r && win.ww == 2 * r
    ensures 0 <= r <= cy && cy + r <= h ==> win.y1 == cy - r && win.hh == 2 * r
  {
    var x1, y1 := Max(0, cx - r), Max(0, cy - r);
    var x2, y2 := Min(w, cx + r), Min(h, cy + r);
    Window(SliceBound(x1, w), SliceBound(y1, h), SliceLength(x1, x2, w), SliceLength(y1, y2, h))
  }

  /** `int(opt_radius * 0.9)`. */
  function MaskRadius(optRadius: int): int
  {
    Int(optRadius as real * 0.9)
  }

  /** Window-relative pixel `(X, Y)` is inside the sampling circle. */
  predicate InCircle(win: Window, m: int, X: int, Y: int)
  {
    (X - win.ww / 2) * (X - win.ww / 2) + (Y - win.hh / 2) * (Y - win.hh / 2) <= m * m
  }

  /** Absolute pixel `(x, y)` is in the window and inside its circle. */
  predicate Sampled(win: Window, m: int, x: int, y: int)
  {
    && win.x1 <= x < win.x1 + win.ww
    && win.y1 <= y < win.y1 + win.hh
    && InCircle(win, m, x - win.x1, y - win.y1)
  }

  /** Ink pixels inside the circle among the first `n` pixels of window row `Y`. */
  function RowDark(g: Grid, win: Window, m: int, Y: nat, n: nat): nat
    requires Fits(g, win) && Y < win.hh && n <= win.ww
  {
    if n == 0 then 0
    else RowDark(g, win, m, Y, n - 1) + (if InCircle(win, m, n - 1, Y) && g[win.y1 + Y][win.x1 + n - 1] then 1 else 0)
  }

  /** Ink pixels inside the circle among the first `k` rows of the window. */
  function WindowDark(g: Grid, win: Window, m: int, k: nat): nat
    requires Fits(g, win) && k <= win.hh
  {
    if k == 0 then 0 else WindowDark(g, win, m, k - 1) + RowDark(g, win, m, k - 1, win.ww)
  }

  /** Circle pixels among the first `n` pixels of window row `Y`. */
  function RowMask(win: Window, m: int, Y: nat, n: nat): nat
  {
    if n == 0 then 0 else RowMask(win, m, Y, n - 1) + (if InCircle(win, m, n - 1, Y) then 1 else 0)
  }

  function WindowMask(win: Window, m: int, k: nat): nat
  {
    if k == 0 then 0 else WindowMask(win, m, k - 1) + RowMask(win, m, k - 1, win.ww)
  }

  /** `np.sum(roi[circle_mask] > 0)`. */
  function DarkCount(g: Grid, win: Window, m: int): nat
    requires Fits(g, win)
  {
    WindowDark(g, win, m, win.hh)
  }

  /** The number of pixels of the clipped window that the circle covers. */
  function MaskCount(win: Window, m: int): nat
  {
    WindowMask(win, m, win.hh)
  }

  lemma {:induction false} RowDarkAtMostMask(g: Grid, win: Window, m: int, Y: nat, n: nat)
    requires Fits(g, win) && Y < win.hh && n <= win.ww
    ensures RowDark(g, win, m, Y, n) <= RowMask(win, m, Y, n)
  {
    if n > 0 {
      RowDarkAtMostMask(g, win, m, Y, n - 1);
    }
  }

  lemma {:induction false} WindowDarkAtMostMask(g: Grid, win: Window, m: int, k: nat)
    requires Fits(g, win) && k <= win.hh
    ensures WindowDark(g, win, m, k) <= WindowMask(win, m, k)
  {
    if k > 0 {
      WindowDarkAtMostMask(g, win, m, k - 1);
      RowDarkAtMostMask(g, win, m, k - 1, win.ww);
    }
  }

  /** The dark count never exceeds the number of circle pixels in the window. */
  lemma DarkAtMostMask(g: Grid, win: Window, m: int)
    requires Fits(g, win)
    ensures DarkCount(g, win, m) <= MaskCount(win, m)
  {
    WindowDarkAtMostMask(g, win, m, win.hh);
  }

  /** Every sampled ink pixel of `g1` is ink in `g2` too. */
  ghost predicate InkWithin(g1: Grid, g2: Grid, win: Window, m: int)
    requires Fits(g1, win) && Fits(g2, win)
  {
    forall x, y :: Sampled(win, m, x, y) && g1[y][x] ==> g2[y][x]
  }

  lemma {:induction false} RowDarkMonotone(g1: Grid, g2: Grid, win: Window, m: int, Y: nat, n: nat)
    requires Fits(g1, win) && Fits(g2, win) && Y < win.hh && n <= win.ww
    requires InkWithin(g1, g2, win, m)
    ensures RowDark(g1, win, m, Y, n) <= RowDark(g2, win, m, Y, n)
  {
    if n > 0 {
      RowDarkMonotone(g1, g2, win, m, Y, n - 1);
      if InCircle(win, m, n - 1, Y) && g1[win.y1 + Y][win.x1 + n - 1] {
        assert Sampled(win, m, win.x1 + n - 1, win.y1 + Y);
      }
    }
  }

  lemma {:induction false} WindowDarkMonotone(g1: Grid, g2: Grid, win: Window, m: int, k: nat)
    requires Fits(g1, win) && Fits(g2, win) && k <= win.hh
    requires InkWithin(g1, g2, win, m)
    ensures WindowDark(g1, win, m, k) <= WindowDark(g2, win, m, k)
  {
    if k > 0 {
      WindowDarkMonotone(g1, g2, win, m, k - 1);
      RowDarkMonotone(g1, g2, win, m, k - 1, win.ww);
    }
  }

  /**
   * Adding ink never lowers the count, and ink outside the circle or the
   * window does not count at all: images that agree on the sampled pixels
   * give the same count.
   */
  lemma DarkMonotone(g1: Grid, g2: Grid, win: Window, m: int)
    requires Fits(g1, win) && Fits(g2, win)
    requires InkWithin(g1, g2, win, m)
    ensures DarkCount(g1, win, m) <= DarkCount(g2, win, m)
    ensures InkWithin(g2, g1, win, m) ==> DarkCount(g1, win, m) == DarkCount(g2, win, m)
  {
    WindowDarkMonotone(g1, g2, win, m, win.hh);
    if InkWithin(g2, g1, win, m) {
      WindowDarkMonotone(g2, g1, win, m, win.hh);
    }
  }

  /** Every sampled pixel is ink. */
  ghost predicate FullyInked(g: Grid, win: Window, m: int)
    requires Fits(g, win)
  {
    forall x, y :: Sampled(win, m, x, y) ==> g[y][x]
  }

  lemma {:induction false} FullRow(g: Grid, win: Window, m: int, Y: nat, n: nat)
    requires Fits(g, win) && Y < win.hh && n <= win.ww
    requires FullyInked(g, win, m)
    ensures RowDark(g, win, m, Y, n) == RowMask(win, m, Y, n)
  {
    if n > 0 {
      FullRow(g, win, m, Y, n - 1);
      if InCircle(win, m, n - 1, Y) {
        assert Sampled(win, m, win.x1 + n - 1, win.y1 + Y);
      }
    }
  }

  lemma {:induction false} FullRows(g: Grid, win: Window, m: int, k: nat)
    requires Fits(g, win) && k <= win.hh
    requires FullyInked(g, win, m)
    ensures WindowDark(g, win, m, k) == WindowMask(win, m, k)
  {
    if k > 0 {
      FullRows(g, win, m, k - 1);
      FullRow(g, win, m, k - 1, win.ww);
    }
  }

  /** A bubble inked over the whole circle counts every circle pixel. */
  lemma FullBubbleCountsMask(g: Grid, win: Window, m: int)
    requires Fits(g, win)
    requires FullyInked(g, win, m)
    ensures DarkCount(g, win, m) == MaskCount(win, m)
  {
    FullRows(g, win, m, win.hh);
  }

  /**
   * `dark / (mask_area + 1e-9)` with `mask_area = pi * mask_r ** 2`; `pi`
   * stands for the float value of pi.
   */
  function FillRatio(dark: nat, m: int, pi: real): real
    requires pi > 0.0
  {
    dark as real / (pi * (m * m) as real + 0.000000001)
  }

  lemma FillRatioMonotone(d1: nat, d2: nat, m: int, pi: real)
    requires pi > 0.0 && d1 <= d2
    ensures 0.0 <= FillRatio(d1, m, pi) <= FillRatio(d2, m, pi)
  {
    var den := pi * (m * m) as real + 0.000000001;
    assert den > 0.0 by {
      assert (m * m) as real >= 0.0;
      assert pi * (m * m) as real >= 0.0;
    }
    assert FillRatio(d2, m, pi) - FillRatio(d1, m, pi) == (d2 - d1) as real / den;
  }

  /** The window sampled for the option at normalised centre `n`. */
  function OptionWindow(w: nat, h: nat, n: Normalized, optRadius: int): (win: Window)
    ensures win.x1 + win.ww <= w && win.y1 + win.hh <= h
  {
    SampleWindow(Int(n.x * w as real), Int(n.y * h as real), optRadius + 6, w, h)
  }

  lemma GridFits(g: Grid, w: nat, h: nat, win: Window)
    requires IsGrid(g, w, h) && win.x1 + win.ww <= w && win.y1 + win.hh <= h
    ensures Fits(g, win)
  {
  }

  /** The fill ratio of one option of a `w` by `h` image. */
  function SampleOption(g: Grid, w: nat, h: nat, n: Normalized, optRadius: int, pi: real): (ratio: real)
    requires IsGrid(g, w, h) && pi > 0.0
    ensures 0.0 <= ratio
    ensures ratio <= FillRatio(MaskCount(OptionWindow(w, h, n, optRadius), MaskRadius(optRadius)), MaskRadius(optRadius), pi)
  {
    var win := OptionWindow(w, h, n, optRadius);
    var m := MaskRadius(optRadius);
    GridFits(g, w, h, win);
    DarkAtMostMask(g, win, m);
    FillRatioMonotone(DarkCount(g, win, m), MaskCount(win, m), m, pi);
    FillRatio(DarkCount(g, win, m), m, pi)
  }

  /** `g2` has ink wherever `g1` has. */
  ghost predicate MoreInk(g1: Grid, g2: Grid, w: nat, h: nat)
    requires IsGrid(g1, w, h) && IsGrid(g2, w, h)
  {
    forall x, y :: 0 <= y < h && 0 <= x < w && g1[y][x] ==> g2[y][x]
  }

  /** Filling more of a bubble never lowers its fill ratio. */
  lemma SampleMonotone(g1: Grid, g2: Grid, w: nat, h: nat, n: Normalized, optRadius: int, pi: real)
    requires IsGrid(g1, w, h) && IsGrid(g2, w, h) && pi > 0.0
    requires MoreInk(g1, g2, w, h)
    ensures SampleOption(g1, w, h, n, optRadius, pi) <= SampleOption(g2, w, h, n, optRadius, pi)
  {
    var win := OptionWindow(w, h, n, optRadius);
    var m := MaskRadius(optRadius);
    GridFits(g1, w, h, win);
    GridFits(g2, w, h, win);
    DarkMonotone(g1, g2, win, m);
    FillRatioMonotone(DarkCount(g1, win, m), DarkCount(g2, win, m), m, pi);
  }

}

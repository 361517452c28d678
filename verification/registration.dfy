/**
 * How the generated template and the detector fit together: the
 * normalised layout read back on a page of the template's size samples
 * each bubble in a full, unclipped window centred on it, the generated
 * answer key fits the layout, and the layout feeds the detector and the
 * scorer.
 */
module Registration {

  import opened PyNum
  import opened Labels
  import opened TemplateLayout
  import opened BubbleFill
  import opened Selection
  import opened Rectifier

  /** `int(18 * 0.9)` is 16, and the window reaches 24 pixels from the centre. */
  lemma DefaultMaskRadius()
    ensures MaskRadius(DefaultOptRadius) == 16
    ensures DefaultOptRadius + 6 == 24
  {
    assert DefaultOptRadius as real * 0.9 == 16.2;
  }

  /**
   * Every bubble of the generated layout, normalised and read back on a
   * 1200 x 1700 image with the default radius, is sampled in the full
   * 48 x 48 window around its own centre, so the sampling circle sits
   * exactly on the bubble.
   */
  lemma LayoutWindowsUnclipped()
    ensures var coords := GenerateBubbleLayout(VenvGenerator);
      var norm := NormalizeCoords(VenvGenerator, coords);
      forall q, k :: 0 <= q < |coords| && 0 <= k < |coords[q]| ==>
        var win := OptionWindow(OutWidth, OutHeight, norm[q][k], DefaultOptRadius);
        && win.x1 == coords[q][k].x - 24 && win.y1 == coords[q][k].y - 24
        && win.ww == 48 && win.hh == 48
        && win.x1 + win.ww / 2 == coords[q][k].x
        && win.y1 + win.hh / 2 == coords[q][k].y
  {
    var coords := GenerateBubbleLayout(VenvGenerator);
    var norm := NormalizeCoords(VenvGenerator, coords);
    CentresInsidePage();
    forall q, k | 0 <= q < |coords| && 0 <= k < |coords[q]|
      ensures var win := OptionWindow(OutWidth, OutHeight, norm[q][k], DefaultOptRadius);
        win.x1 == coords[q][k].x - 24 && win.y1 == coords[q][k].y - 24 && win.ww == 48 && win.hh == 48
    {
      BubbleWindow(coords[q][k], norm[q][k]);
    }
  }

  /** One centre at least 24 pixels inside a 1200 x 1700 page, read back from its normalised form. */
  lemma BubbleWindow(p: Pixel, n: Normalized)
    requires n.x * OutWidth as real == p.x as real && n.y * OutHeight as real == p.y as real
    requires 24 <= p.x <= OutWidth - 24 && 24 <= p.y <= OutHeight - 24
    ensures var win := OptionWindow(OutWidth, OutHeight, n, DefaultOptRadius);
      win.x1 == p.x - 24 && win.y1 == p.y - 24 && win.ww == 48 && win.hh == 48
  {
    IntOfWhole(p.x);
    IntOfWhole(p.y);
  }

  /** The normalised template has four options per question, as detection needs. */
  lemma TemplateOptionCounts()
    ensures OptionCountsFit(NormalizeCoords(VenvGenerator, GenerateBubbleLayout(VenvGenerator)))
  {
  }

  /**
   * A key of 100 letters, such as `random_answer_key(len(coords))` gives,
   * fits the layout, and `fill_answers` blackens for question `q` the
   * closed-form centre of the key's option.
   */
  lemma GeneratedKeyFitsLayout(key: seq<string>)
    requires |key| == Columns * Rows
    requires forall i :: 0 <= i < |key| ==> key[i] in Letters
    ensures KeyFits(GenerateBubbleLayout(VenvGenerator), key)
    ensures var targets := FillTargets(GenerateBubbleLayout(VenvGenerator), key);
      forall q :: 0 <= q < |key| ==> targets[q] == ClosedFormCentre(q, LetterIndex(key[q]).value)
  {
    LayoutClosedForm();
    var coords := GenerateBubbleLayout(VenvGenerator);
    assert KeyFits(coords, key);
    var targets := FillTargets(coords, key);
    forall q | 0 <= q < |key|
      ensures targets[q] == ClosedFormCentre(q, LetterIndex(key[q]).value)
    {
      var k := LetterIndex(key[q]).value;
      assert Letters[k] == key[q];
      assert targets[q] == coords[q][k];
    }
  }

}

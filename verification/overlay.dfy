/**
 * The colour decision of `create_overlay` in venv/omr.py: grey for a
 * bubble that was not selected, green for the selected bubble of a
 * correctly answered question and red for the selected bubble otherwise.
 */
module Overlay {

  import opened Options
  import opened Labels
  import opened Selection
  import opened Scoring

  /** An OpenCV colour, blue-green-red. */
  datatype Bgr = Bgr(b: int, g: int, r: int)

  const Neutral := Bgr(180, 180, 180)
  const Green := Bgr(0, 200, 0)
  const Red := Bgr(0, 0, 255)

  /**
   * The colour of option `idx` of a question whose detection selected
   * `sel` and whose key entry is `expected`. The label must be one the
   * letter dictionary knows, as it is for every detection.
   */
  function BubbleColor(sel: Option<string>, expected: string, idx: nat): (c: Bgr)
    requires sel.Some? ==> sel.value in Letters
    ensures c == Neutral || c == Green || c == Red
    ensures c != Neutral <==> sel.Some? && LetterIndex(sel.value) == Some(idx)
    ensures c == Green <==> sel.Some? && LetterIndex(sel.value) == Some(idx) && sel.value == expected
  {
    var correct := sel == Some(expected);
    if sel.Some? && idx == LetterIndex(sel.value).value then
      (if correct then Green else Red)
    else Neutral
  }

  /**
   * The overlay agrees with the score: at most one bubble per question is
   * coloured, a green bubble marks a question the score counts as correct,
   * and a correct question shows its key option in green.
   */
  lemma OverlayMatchesScore(detected: seq<Detection>, key: seq<string>, q: nat)
    requires |detected| >= |key| >= Subjects * PerSubject
    requires q < |key|
    requires detected[q].selected.Some? ==> detected[q].selected.value in Letters
    ensures var sel := detected[q].selected;
      && (forall i, j :: BubbleColor(sel, key[q], i) != Neutral && BubbleColor(sel, key[q], j) != Neutral ==> i == j)
      && (forall i :: BubbleColor(sel, key[q], i) == Green ==> ScoreResults(detected, key).correctMask[q])
      && (ScoreResults(detected, key).correctMask[q] ==>
            LetterIndex(key[q]).Some? && BubbleColor(sel, key[q], LetterIndex(key[q]).value) == Green)
  {
  }

}

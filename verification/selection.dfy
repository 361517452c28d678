/**
 * The per-question decision of `detect_selections` in venv/omr.py: take the
 * first option with the largest fill ratio and select it when that ratio
 * reaches the threshold (inclusive); otherwise the question is unanswered.
 */
module Selection {

  import opened Options
  import opened Labels
  import opened TemplateLayout
  import opened BubbleFill

  /** The defaults `opt_radius=18` and `threshold=0.35`. */
  const DefaultOptRadius := 18
  const DefaultThreshold: real := 0.35

  /** `np.argmax`: the first index holding the largest value. */
  function ArgMax(s: seq<real>): (k: nat)
    requires |s| > 0
    ensures k < |s|
    ensures forall j :: 0 <= j < |s| ==> s[j] <= s[k]
    ensures forall j :: 0 <= j < k ==> s[j] < s[k]
  {
    if |s| == 1 then 0
    else
      var k := ArgMax(s[..|s| - 1]);
      if s[|s| - 1] > s[k] then |s| - 1 else k
  }

  /** One entry of the result: the ratios, the label or `None`, and `max_val`. */
  datatype Detection = Detection(choices: seq<real>, selected: Option<string>, maxVal: real)

  function Decide(choices: seq<real>, threshold: real): (d: Detection)
    requires 1 <= |choices| <= |Letters|
    ensures d.choices == choices
    ensures d.maxVal in choices
    ensures forall j :: 0 <= j < |choices| ==> choices[j] <= d.maxVal
    ensures d.selected.Some? <==> threshold <= d.maxVal
    ensures d.selected.Some? ==>
      && LetterIndex(d.selected.value).Some?
      && var k := LetterIndex(d.selected.value).value;
      && k < |choices| && choices[k] == d.maxVal
      && forall j :: 0 <= j < k ==> choices[j] < d.maxVal
  {
    var k := ArgMax(choices);
    var sel := if choices[k] >= threshold then Some(Letters[k]) else None;
    LetterIndexOfLetter(k);
    Detection(choices, sel, choices[k])
  }

  /** Lowering the threshold never turns a selection into "unanswered". */
  lemma ThresholdMonotone(choices: seq<real>, low: real, high: real)
    requires 1 <= |choices| <= |Letters| && low <= high
    ensures Decide(choices, high).selected.Some? ==> Decide(choices, low).selected == Decide(choices, high).selected
  {
  }

  /** Exactly option `k` reaches the threshold. */
  predicate UniquelyMarked(choices: seq<real>, k: nat, threshold: real)
  {
    && k < |choices|
    && threshold <= choices[k]
    && forall j :: 0 <= j < |choices| && j != k ==> choices[j] < threshold
  }

  /** A question with exactly one option at or above the threshold selects it. */
  lemma UniqueMarkSelected(choices: seq<real>, k: nat, threshold: real)
    requires 1 <= |choices| <= |Letters|
    requires UniquelyMarked(choices, k, threshold)
    ensures Decide(choices, threshold).selected == Some(Letters[k])
  {
    var d := Decide(choices, threshold);
    assert d.selected.Some?;
    var i := LetterIndex(d.selected.value).value;
    assert i == k;
  }

  /** Every question of the template has one to four options. */
  predicate OptionCountsFit(normCoords: seq<seq<Normalized>>)
  {
    forall q :: 0 <= q < |normCoords| ==> 1 <= |normCoords[q]| <= |Letters|
  }

  /** The fill ratios of one question, in option order. */
  function QuestionRatios(g: Grid, w: nat, h: nat, centres: seq<Normalized>, optRadius: int, pi: real): (choices: seq<real>)
    requires IsGrid(g, w, h) && pi > 0.0
    ensures |choices| == |centres|
    ensures forall k :: 0 <= k < |centres| ==> choices[k] == SampleOption(g, w, h, centres[k], optRadius, pi)
  {
    seq(|centres|, k requires 0 <= k < |centres| => SampleOption(g, w, h, centres[k], optRadius, pi))
  }

  /**
   * `detect_selections` on the binarised `w` by `h` image: one detection
   * per question, in question order, each with one ratio per option.
   */
  function DetectSelections(g: Grid, w: nat, h: nat, normCoords: seq<seq<Normalized>>, optRadius: int, threshold: real, pi: real)
    : (r: seq<Detection>)
    requires IsGrid(g, w, h) && pi > 0.0
    requires OptionCountsFit(normCoords)
    ensures |r| == |normCoords|
    ensures forall q :: 0 <= q < |r| ==>
      && |r[q].choices| == |normCoords[q]|
      && (forall k :: 0 <= k < |normCoords[q]| ==> r[q].choices[k] == SampleOption(g, w, h, normCoords[q][k], optRadius, pi))
      && (r[q].selected.Some? <==> threshold <= r[q].maxVal)
      && (r[q].selected.Some? ==> r[q].selected.value in Letters)
    ensures forall q :: 0 <= q < |r| ==> 1 <= |r[q].choices| <= |Letters| && r[q] == Decide(r[q].choices, threshold)
  {
    seq(|normCoords|, q requires 0 <= q < |normCoords| =>
      Decide(QuestionRatios(g, w, h, normCoords[q], optRadius, pi), threshold))
  }

}

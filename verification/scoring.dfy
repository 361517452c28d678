/**
 * `score_results` in venv/omr.py: per-question selected label and
 * correctness, five 20-question subject subtotals and their sum.
 */
module Scoring {

  import opened Options
  import opened Labels
  import opened Selection

  const Subjects := 5
  const PerSubject := 20

  datatype ScoreReport = ScoreReport(selected: seq<string>, correctMask: seq<bool>, perSubject: seq<nat>, total: nat)

  function CountTrue(s: seq<bool>): (n: nat)
    ensures n <= |s|
  {
    if |s| == 0 then 0 else CountTrue(s[..|s| - 1]) + (if s[|s| - 1] then 1 else 0)
  }

  function Sum(s: seq<nat>): nat
  {
    if |s| == 0 then 0 else Sum(s[..|s| - 1]) + s[|s| - 1]
  }

  lemma {:induction false} CountTrueAppend(a: seq<bool>, b: seq<bool>)
    ensures CountTrue(a + b) == CountTrue(a) + CountTrue(b)
  {
    if |b| > 0 {
      assert (a + b)[..|a + b| - 1] == a + b[..|b| - 1];
      CountTrueAppend(a, b[..|b| - 1]);
    } else {
      assert a + b == a;
    }
  }

  lemma {:induction false} CountTrueAll(s: seq<bool>)
    requires forall i :: 0 <= i < |s| ==> s[i]
    ensures CountTrue(s) == |s|
  {
    if |s| > 0 {
      CountTrueAll(s[..|s| - 1]);
    }
  }

  /** The scores of the first `k` subjects, subject `s` being questions `[20 s, 20 s + 20)`. */
  function SubjectScores(mask: seq<bool>, k: nat): (scores: seq<nat>)
    requires k <= Subjects && |mask| >= Subjects * PerSubject
    ensures |scores| == k
  {
    seq(k, s requires 0 <= s < k => CountTrue(mask[s * PerSubject .. s * PerSubject + PerSubject]))
  }

  lemma {:induction false} SubjectScoresSum(mask: seq<bool>, k: nat)
    requires k <= Subjects && |mask| >= Subjects * PerSubject
    ensures Sum(SubjectScores(mask, k)) == CountTrue(mask[..k * PerSubject])
  {
    if k > 0 {
      var scores := SubjectScores(mask, k);
      assert scores[..k - 1] == SubjectScores(mask, k - 1);
      SubjectScoresSum(mask, k - 1);
      var lo := (k - 1) * PerSubject;
      assert mask[..k * PerSubject] == mask[..lo] + mask[lo .. lo + PerSubject];
      CountTrueAppend(mask[..lo], mask[lo .. lo + PerSubject]);
    }
  }

  /** `sel if sel is not None else ""`. */
  function SelectedText(sel: Option<string>): string
  {
    if sel.Some? then sel.value else ""
  }

  /**
   * `score_results(detected, answer_key)`. It reads `detected[i]` for every
   * key entry and the correctness of questions 0 to 99, so it needs at
   * least as many detections as key entries and at least 100 entries.
   */
  function ScoreResults(detected: seq<Detection>, key: seq<string>): (r: ScoreReport)
    requires |detected| >= |key| >= Subjects * PerSubject
    ensures |r.selected| == |key| && |r.correctMask| == |key|
    ensures forall i :: 0 <= i < |key| && detected[i].selected.Some? ==> r.selected[i] == detected[i].selected.value
    ensures forall i :: 0 <= i < |key| && detected[i].selected.None? ==> r.selected[i] == ""
    ensures forall i :: 0 <= i < |key| ==> (r.correctMask[i] <==> detected[i].selected == Some(key[i]))
    ensures forall i :: 0 <= i < |key| && detected[i].selected.None? ==> !r.correctMask[i]
    ensures |r.perSubject| == Subjects
    ensures forall s :: 0 <= s < Subjects ==>
      && r.perSubject[s] == CountTrue(r.correctMask[s * PerSubject .. s * PerSubject + PerSubject])
      && r.perSubject[s] <= PerSubject
    ensures r.total == Sum(r.perSubject)
    ensures r.total == CountTrue(r.correctMask[..Subjects * PerSubject])
    ensures r.total <= Subjects * PerSubject
    ensures |key| == Subjects * PerSubject ==> r.total == CountTrue(r.correctMask)
  {
    var n := |key|;
    var selected := seq(n, i requires 0 <= i < n => SelectedText(detected[i].selected));
    var mask := seq(n, i requires 0 <= i < n => detected[i].selected == Some(key[i]));
    var perSubject := SubjectScores(mask, Subjects);
    SubjectScoresSum(mask, Subjects);
    assert n == Subjects * PerSubject ==> mask[..n] == mask;
    ScoreReport(selected, mask, perSubject, Sum(perSubject))
  }

  /** Key entries and detections past question 100 change nothing in the scores. */
  lemma OnlyFirstHundredCount(detected: seq<Detection>, key: seq<string>)
    requires |detected| >= |key| >= Subjects * PerSubject
    ensures var n := Subjects * PerSubject;
      var all := ScoreResults(detected, key);
      var first := ScoreResults(detected[..n], key[..n]);
      all.perSubject == first.perSubject && all.total == first.total
  {
    var n := Subjects * PerSubject;
    var all := ScoreResults(detected, key);
    var first := ScoreResults(detected[..n], key[..n]);
    var head := all.correctMask[..n];
    forall i | 0 <= i < n
      ensures head[i] == first.correctMask[i]
    {
      assert detected[..n][i] == detected[i] && key[..n][i] == key[i];
    }
    assert head == first.correctMask;
    forall s | 0 <= s < Subjects
      ensures all.perSubject[s] == first.perSubject[s]
    {
      var lo := s * PerSubject;
      assert all.correctMask[lo .. lo + PerSubject] == head[lo .. lo + PerSubject];
    }
    assert all.correctMask[..n] == head;
  }

  /**
   * A sheet whose every question has exactly the key's option at or above
   * the threshold scores 20 in every subject and 100 in total.
   */
  lemma PerfectSheetScoresFull(detected: seq<Detection>, key: seq<string>, threshold: real)
    requires |detected| == |key| == Subjects * PerSubject
    requires forall i :: 0 <= i < |key| ==>
      && key[i] in Letters
      && 1 <= |detected[i].choices| <= |Letters|
      && UniquelyMarked(detected[i].choices, LetterIndex(key[i]).value, threshold)
      && detected[i] == Decide(detected[i].choices, threshold)
    ensures forall s :: 0 <= s < Subjects ==> ScoreResults(detected, key).perSubject[s] == PerSubject
    ensures ScoreResults(detected, key).total == Subjects * PerSubject
  {
    var r := ScoreResults(detected, key);
    forall i | 0 <= i < |key|
      ensures r.correctMask[i]
    {
      var k := LetterIndex(key[i]).value;
      UniqueMarkSelected(detected[i].choices, k, threshold);
    }
    forall s | 0 <= s < Subjects
      ensures r.perSubject[s] == PerSubject
    {
      CountTrueAll(r.correctMask[s * PerSubject .. s * PerSubject + PerSubject]);
    }
    CountTrueAll(r.correctMask);
  }

}

/**
 * Option labels. The source writes them as the one-letter strings "A" to
 * "D": it turns an option index into a label with the list
 * `['A','B','C','D']` and a label back into an index with the dictionary
 * `{'A':0,'B':1,'C':2,'D':3}`, which raises for any other string.
 */
module Labels {

  import opened Options

  /** The label of option `k` is `Letters[k]`. */
  const Letters: seq<string> := ["A", "B", "C", "D"]

  /** The dictionary lookup; `None` where the source raises `KeyError`. */
  function LetterIndex(s: string): (r: Option<nat>)
    ensures r.Some? <==> s in Letters
    ensures r.Some? ==> r.value < |Letters| && Letters[r.value] == s
  {
    if s == "A" then Some(0)
    else if s == "B" then Some(1)
    else if s == "C" then Some(2)
    else if s == "D" then Some(3)
    else None
  }

  /** The list and the dictionary are inverse to each other. */
  lemma LetterIndexOfLetter(k: nat)
    requires k < |Letters|
    ensures LetterIndex(Letters[k]) == Some(k)
  {
  }

}

/** Suggestions for unknown options. */
module Suggest {
  import opened EditDistance

  datatype Suggestion = NoSuggestion | Best(name: string)

  /** Length in UTF-16 code units, which is what the threshold goes by. */
  function Utf16Length(s: string): nat {
    if s == "" then 0 else (if s[0] as int >= 0x1_0000 then 2 else 1) + Utf16Length(s[1..])
  }

  function Threshold(length: nat): nat {
    if length <= 4 then 1 else if length <= 8 then 2 else 3
  }

  /** Candidate `k` is closest to `input`, and no earlier one is as close. */
  ghost predicate EarliestClosest(input: string, candidates: seq<string>, k: nat) {
    && k < |candidates|
    && forall j :: 0 <= j < |candidates| ==>
        Distance(input, candidates[k]) <= Distance(input, candidates[j])
        && (j < k ==> Distance(input, candidates[k]) < Distance(input, candidates[j]))
  }

  method SuggestName(input: string, candidates: seq<string>) returns (suggestion: Suggestion, ghost k: nat)
    ensures suggestion.NoSuggestion? <==>
      forall j :: 0 <= j < |candidates| ==> Distance(input, candidates[j]) > Threshold(Utf16Length(input))
    ensures suggestion.Best? ==>
      EarliestClosest(input, candidates, k) && suggestion.name == candidates[k]
  {
    var maxDist := Threshold(Utf16Length(input));
    var best := NoSuggestion;
    var bestDist := 0;
    k := 0;
    for i := 0 to |candidates|
      invariant best.NoSuggestion? <==> i == 0
      invariant best.Best? ==>
        EarliestClosest(input, candidates[..i], k) && best.name == candidates[k]
        && bestDist == Distance(input, best.name)
    {
      var dist := Levenshtein(input, candidates[i]);
      if best.NoSuggestion? || dist < bestDist {
        best, bestDist, k := Best(candidates[i]), dist, i;
      }
    }
    assert candidates[..|candidates|] == candidates;
    return if best.Best? && bestDist <= maxDist then best else NoSuggestion, k;
  }

}

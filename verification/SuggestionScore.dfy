/** What a suggestion's score means: how few single edits turn one name into the other. */
module SuggestionScore {
  import opened Text
  import opened EditDistance
  import opened EditScripts
  import opened EditMetric
  import opened ReadSuggestions

  /** `n` single edits turn one text into the other, and no fewer do. */
  ghost predicate LeastEdits(left: Text, right: Text, n: nat) {
    Edits(left, right, n) && forall fewer: nat :: fewer < n ==> !Edits(left, right, fewer)
  }

  /**
   Equal names score one. Names of which one is shorter than three characters, or longer than twice the other, score
   nothing. Any others score what is left of one when the least edits are taken off, in parts of the longer name.
   */
  lemma ScoreIs(left: Text, right: Text) returns (n: nat)
    ensures LeastEdits(left, right, n)
    ensures var longer := if |left| < |right| then |right| else |left|;
            var shorter := if |left| < |right| then |left| else |right|;
            Score(left, right) == if left == right then 1.0
                                  else if shorter < 3 || longer > 2 * shorter then 0.0
                                  else 1.0 - n as real / longer as real
  {
    n := Distance(left, right, |left|, |right|);
    hide Distance, Edits;
    DistanceIsLeast(left, right, n);
    forall fewer: nat | fewer < n ensures !Edits(left, right, fewer) {
      DistanceIsLeast(left, right, fewer);
    }
    if |left| >= 3 && |right| >= 3 { CellsArePositive(left, right); }
  }

  lemma CellsArePositive(left: Text, right: Text)
    requires |left| >= 3 && |right| >= 3
    ensures |left| * |right| > 0
  {
  }
}

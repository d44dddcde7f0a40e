/**
 * Block-found detection on the miner's console output: the reader loop
 * lower-cases each raw line and raises a notification when it contains one
 * of three fixed phrases.
 */
module Events {
  import opened Text

  /** The phrases that announce a found block, in lower case. */
  const BlockPhrases: seq<string> := ["block found", "worker found a block", "accepted solo block"]

  /** The reader loop's test on a raw line. */
  predicate IsBlockFound(line: string) {
    var low := Lower(line);
    Contains(low, BlockPhrases[0]) || Contains(low, BlockPhrases[1]) || Contains(low, BlockPhrases[2])
  }

  /** A line announces a block exactly when one of the phrases occurs in its lower-case form. */
  lemma BlockFoundIff(line: string)
    ensures IsBlockFound(line) <==> exists w, i | w in BlockPhrases :: OccursAt(Lower(line), w, i)
  {
    var low := Lower(line);
    ContainsIff(low, BlockPhrases[0]);
    ContainsIff(low, BlockPhrases[1]);
    ContainsIff(low, BlockPhrases[2]);
    if IsBlockFound(line) {
      var k :| 0 <= k < 3 && Contains(low, BlockPhrases[k]);
      var i :| OccursAt(low, BlockPhrases[k], i);
      assert BlockPhrases[k] in BlockPhrases && OccursAt(Lower(line), BlockPhrases[k], i);
      assert exists w, j | w in BlockPhrases :: OccursAt(Lower(line), w, j);
    } else {
      forall w, i | w in BlockPhrases
        ensures !OccursAt(low, w, i)
      {
        assert w == BlockPhrases[0] || w == BlockPhrases[1] || w == BlockPhrases[2];
      }
    }
  }

  /** The test ignores case: upper-case letters of the line read as their lower-case forms. */
  lemma BlockFoundIgnoresCase(line: string, other: string)
    requires |line| == |other|
    requires forall k | 0 <= k < |line| :: LowerChar(line[k]) == LowerChar(other[k])
    ensures IsBlockFound(line) <==> IsBlockFound(other)
  {
    assert Lower(line) == Lower(other);
  }
}

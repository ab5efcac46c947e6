/** `StringExtentions.Split`: split on a string separator and drop empty
    entries, i.e. `s.Split(new string[] { sep }, RemoveEmptyEntries)` on .NET
    Core. There, the empty input gives no entries, and an empty separator
    matches nowhere, so a non-empty input comes back whole. */
module StringExtentions {
  import opened Strings
  import opened NetSplit

  function Split(toSplit: string, splitOn: string): (r: seq<string>)
    ensures forall k | 0 <= k < |r| :: r[k] != ""
    ensures toSplit == "" ==> r == []
    ensures toSplit != "" && !Contains(toSplit, splitOn) ==> r == [toSplit]
    ensures toSplit != "" && splitOn == "" ==> r == [toSplit]
    ensures |splitOn| > 0 ==> forall k | 0 <= k < |r| :: !Contains(r[k], splitOn)
  {
    if toSplit == "" then []
    else if |splitOn| == 0 then [toSplit]
    else
      var pieces := SplitKeepingEmpty(toSplit, splitOn);
      SplitKeepingEmptySingle(toSplit, splitOn);
      SplitKeepingEmptyPiecesAreFree(toSplit, splitOn);
      assert forall x | x in pieces :: !Contains(x, splitOn);
      RemoveEmptyEntriesSingle(toSplit);
      RemoveEmptyEntries(pieces)
  }

  /** Gluing the entries back together gives the input with every
      left-to-right, non-overlapping separator occurrence deleted. */
  lemma SplitConcat(toSplit: string, splitOn: string)
    ensures Concat(Split(toSplit, splitOn)) == DeleteOccurrences(toSplit, splitOn)
  {
    if toSplit != "" && |splitOn| > 0 {
      ConcatRemoveEmptyEntries(SplitKeepingEmpty(toSplit, splitOn));
      ConcatSplitKeepingEmpty(toSplit, splitOn);
    }
  }

  /** Every non-empty piece between separators appears among the entries, so
      removing empty entries loses no text. */
  lemma SplitKeepsNonEmptyPieces(toSplit: string, splitOn: string)
    requires |splitOn| > 0
    ensures forall x | x in SplitKeepingEmpty(toSplit, splitOn) && x != "" :: x in Split(toSplit, splitOn)
  {
  }
}

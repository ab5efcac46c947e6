/** The .NET Core `string.Split` behaviour the bot relies on: ordinal,
    left-to-right, non-overlapping separator matching. `Split(string)` keeps
    empty pieces; `StringSplitOptions.RemoveEmptyEntries` drops them. */
module NetSplit {
  import opened Wrappers
  import opened Strings

  /** `s.Split(sep)` with `StringSplitOptions.None` for a non-empty `sep`:
      the pieces between successive leftmost occurrences, empty ones kept. */
  function SplitKeepingEmpty(s: string, sep: string): (r: seq<string>)
    requires |sep| > 0
    decreases |s|
    ensures |r| >= 1
  {
    match IndexOf(s, sep)
    case None => [s]
    case Some(i) => [s[..i]] + SplitKeepingEmpty(s[i + |sep|..], sep)
  }

  /** `r` can be obtained from `parts` by deleting elements, keeping the
      order of the rest. */
  predicate SubsequenceOf<T(==)>(r: seq<T>, parts: seq<T>)
    decreases |parts|
  {
    if |r| == 0 then true
    else if |parts| == 0 then false
    else if r[0] == parts[0] then SubsequenceOf(r[1..], parts[1..])
    else SubsequenceOf(r, parts[1..])
  }

  /** The `RemoveEmptyEntries` filter: the non-empty pieces, in order. Every
      non-empty piece is kept as often as it occurs, and nothing else is. */
  function RemoveEmptyEntries(parts: seq<string>): (r: seq<string>)
    ensures forall k | 0 <= k < |r| :: r[k] != ""
    ensures SubsequenceOf(r, parts)
    ensures forall x :: x in r <==> x in parts && x != ""
    ensures forall x | x != "" :: multiset(r)[x] == multiset(parts)[x]
  {
    if |parts| == 0 then []
    else
      var rest := RemoveEmptyEntries(parts[1..]);
      assert parts == [parts[0]] + parts[1..];
      if parts[0] == "" then rest
      else [parts[0]] + rest
  }

  lemma RemoveEmptyEntriesSingle(x: string)
    requires x != ""
    ensures RemoveEmptyEntries([x]) == [x]
  {
    assert [x][1..] == [];
  }

  /** `s` with every leftmost, non-overlapping occurrence of `sep` deleted,
      found by the character-by-character scan the framework performs. */
  function DeleteOccurrences(s: string, sep: string): string
    decreases |s|
  {
    if |sep| == 0 || |s| == 0 then s
    else if sep <= s then DeleteOccurrences(s[|sep|..], sep)
    else [s[0]] + DeleteOccurrences(s[1..], sep)
  }

  /** The prefix before the first occurrence holds no occurrence. */
  lemma PrefixBeforeFirstIsFree(s: string, sep: string, i: int)
    requires |sep| > 0 && FirstOccursAt(s, sep, i)
    ensures !Contains(s[..i], sep)
  {
    forall j | 0 <= j <= i && OccursAt(s[..i], sep, j)
      ensures false
    {
      assert s[..i][j..j + |sep|] == s[j..j + |sep|];
      assert OccursAt(s, sep, j);
    }
  }

  lemma JoinCons(head: string, tail: seq<string>, sep: string)
    requires |tail| >= 1
    ensures Join([head] + tail, sep) == head + sep + Join(tail, sep)
  {
    assert ([head] + tail)[1..] == tail;
  }

  /** Joining the kept pieces with the separator gives back the input. */
  lemma {:induction false} JoinSplitKeepingEmpty(s: string, sep: string)
    requires |sep| > 0
    decreases |s|
    ensures Join(SplitKeepingEmpty(s, sep), sep) == s
  {
    var r := IndexOf(s, sep);
    if r.Some? {
      var i := r.value;
      var rest := s[i + |sep|..];
      JoinSplitKeepingEmpty(rest, sep);
      OccurrenceSplits(s, sep, i);
      JoinCons(s[..i], SplitKeepingEmpty(rest, sep), sep);
    }
  }

  /** No kept piece contains the separator. */
  lemma {:induction false} SplitKeepingEmptyPiecesAreFree(s: string, sep: string)
    requires |sep| > 0
    decreases |s|
    ensures forall k | 0 <= k < |SplitKeepingEmpty(s, sep)| :: !Contains(SplitKeepingEmpty(s, sep)[k], sep)
  {
    match IndexOf(s, sep)
    case None =>
    case Some(i) =>
      PrefixBeforeFirstIsFree(s, sep, i);
      SplitKeepingEmptyPiecesAreFree(s[i + |sep|..], sep);
  }

  /** Splitting yields a single piece exactly when the separator is absent,
      and that piece is the whole input. */
  lemma SplitKeepingEmptySingle(s: string, sep: string)
    requires |sep| > 0
    ensures |SplitKeepingEmpty(s, sep)| == 1 <==> !Contains(s, sep)
    ensures !Contains(s, sep) ==> SplitKeepingEmpty(s, sep) == [s]
  {
  }

  /** `p` is the text at the start of `t` running up to the first occurrence
      of `sep` in `t`, or all of `t` when `sep` does not occur. */
  predicate UpToFirst(t: string, sep: string, p: string)
  {
    p <= t && (FirstOccursAt(t, sep, |p|) || (p == t && !Contains(t, sep)))
  }

  /** `p` is the text between the first occurrence of `sep` in `s` and the
      next occurrence, or the end of `s`. */
  ghost predicate SegmentAfterFirst(s: string, sep: string, p: string)
  {
    exists i :: FirstOccursAt(s, sep, i) && UpToFirst(s[i + |sep|..], sep, p)
  }

  /** Element [1] of the split is the segment after the first separator. */
  lemma SecondPiece(s: string, sep: string)
    requires |sep| > 0 && Contains(s, sep)
    ensures |SplitKeepingEmpty(s, sep)| >= 2
    ensures SegmentAfterFirst(s, sep, SplitKeepingEmpty(s, sep)[1])
    ensures !Contains(SplitKeepingEmpty(s, sep)[1], sep)
  {
    var i := IndexOf(s, sep).value;
    var t := s[i + |sep|..];
    SplitKeepingEmptyPiecesAreFree(s, sep);
    match IndexOf(t, sep)
    case None =>
      assert SplitKeepingEmpty(s, sep)[1] == t;
      assert FirstOccursAt(s, sep, i) && UpToFirst(t, sep, t);
    case Some(j) =>
      assert SplitKeepingEmpty(s, sep)[1] == t[..j];
      assert FirstOccursAt(s, sep, i) && UpToFirst(t, sep, t[..j]);
  }

  lemma ConcatCons(x: string, xs: seq<string>)
    ensures Concat([x] + xs) == x + Concat(xs)
  {
    assert ([x] + xs)[1..] == xs;
  }

  /** The filter drops only empty strings, so it does not change the
      concatenation. */
  lemma {:induction false} ConcatRemoveEmptyEntries(parts: seq<string>)
    ensures Concat(RemoveEmptyEntries(parts)) == Concat(parts)
  {
    if |parts| > 0 {
      var tail := RemoveEmptyEntries(parts[1..]);
      ConcatRemoveEmptyEntries(parts[1..]);
      if parts[0] != "" {
        ConcatCons(parts[0], tail);
      }
    }
  }

  /** With no occurrence, nothing is deleted. */
  lemma {:induction false} DeleteOccurrencesAbsent(s: string, sep: string)
    requires |sep| > 0 && !Contains(s, sep)
    decreases |s|
    ensures DeleteOccurrences(s, sep) == s
  {
    if |s| > 0 {
      assert !OccursAt(s, sep, 0);
      OccursAtTail(s, sep);
      assert !Contains(s[1..], sep) by {
        forall j | 0 <= j <= |s[1..]| ensures !OccursAt(s[1..], sep, j) {
          assert !OccursAt(s, sep, j + 1);
        }
      }
      DeleteOccurrencesAbsent(s[1..], sep);
    }
  }

  /** Where `sep` does not start, the scan copies one character. */
  lemma DeleteOccurrencesStep(s: string, sep: string)
    requires |sep| > 0 && |s| > 0 && !OccursAt(s, sep, 0)
    ensures DeleteOccurrences(s, sep) == [s[0]] + DeleteOccurrences(s[1..], sep)
  {
    PrefixOccurs(s, sep);
  }

  /** A leftmost occurrence past the start is a leftmost occurrence of the
      tail, one place earlier. */
  lemma FirstOccursAtTail(s: string, sep: string, i: int)
    requires i > 0 && FirstOccursAt(s, sep, i)
    ensures FirstOccursAt(s[1..], sep, i - 1)
  {
    OccursAtTail(s, sep);
    forall j | 0 <= j < i - 1 ensures !OccursAt(s[1..], sep, j) {
      assert !OccursAt(s, sep, j + 1);
    }
  }

  lemma TailSlices(s: string, i: int, n: nat)
    requires 0 < i && i + n <= |s|
    ensures s[1..][i - 1 + n..] == s[i + n..]
    ensures [s[0]] + s[1..][..i - 1] == s[..i]
  {
  }

  /** The scan copies everything before the first occurrence, skips the
      occurrence, and carries on after it. */
  lemma {:induction false} DeleteOccurrencesAtFirst(s: string, sep: string, i: nat)
    requires |sep| > 0 && FirstOccursAt(s, sep, i)
    decreases i
    ensures DeleteOccurrences(s, sep) == s[..i] + DeleteOccurrences(s[i + |sep|..], sep)
  {
    if i == 0 {
      PrefixOccurs(s, sep);
    } else {
      DeleteOccurrencesStep(s, sep);
      FirstOccursAtTail(s, sep, i);
      DeleteOccurrencesAtFirst(s[1..], sep, i - 1);
      TailSlices(s, i, |sep|);
    }
  }

  /** Concatenating the kept pieces is the input with every separator
      occurrence deleted. */
  lemma {:induction false} ConcatSplitKeepingEmpty(s: string, sep: string)
    requires |sep| > 0
    decreases |s|
    ensures Concat(SplitKeepingEmpty(s, sep)) == DeleteOccurrences(s, sep)
  {
    match IndexOf(s, sep)
    case None =>
      DeleteOccurrencesAbsent(s, sep);
    case Some(i) =>
      ConcatSplitKeepingEmpty(s[i + |sep|..], sep);
      DeleteOccurrencesAtFirst(s, sep, i);
      assert ([s[..i]] + SplitKeepingEmpty(s[i + |sep|..], sep))[1..] == SplitKeepingEmpty(s[i + |sep|..], sep);
  }
}

/** Ordinal substring search and sequence-of-strings helpers shared by the
    split functions, the output relay and the launch-argument model. */
module Strings {
  import opened Wrappers

  /** `sep` occurs in `s` starting at index `i`. */
  predicate OccursAt(s: string, sep: string, i: int)
  {
    0 <= i && i + |sep| <= |s| && s[i..i + |sep|] == sep
  }

  /** `sep` occurs somewhere in `s` (ordinal comparison, as .NET's `Split`
      and `Contains` do). */
  predicate Contains(s: string, sep: string)
  {
    exists i | 0 <= i <= |s| :: OccursAt(s, sep, i)
  }

  /** `i` is the leftmost occurrence of `sep` in `s`. */
  predicate FirstOccursAt(s: string, sep: string, i: int)
  {
    OccursAt(s, sep, i) && forall j | 0 <= j < i :: !OccursAt(s, sep, j)
  }

  /** An occurrence cuts `s` into the text before it, `sep`, and the text
      after it. */
  lemma OccurrenceSplits(s: string, sep: string, i: int)
    requires OccursAt(s, sep, i)
    ensures s == s[..i] + sep + s[i + |sep|..]
  {
    assert s == s[..i] + s[i..i + |sep|] + s[i + |sep|..];
  }

  /** `s` starts with `sep` exactly when `sep` occurs at index 0. */
  lemma PrefixOccurs(s: string, sep: string)
    ensures (sep <= s) == OccursAt(s, sep, 0)
  {
    if sep <= s {
      assert s[0..|sep|] == sep;
    }
    if OccursAt(s, sep, 0) {
      assert s[..|sep|] == sep;
    }
  }

  /** An occurrence at `j + 1` in `s` is an occurrence at `j` in `s[1..]`. */
  lemma OccursAtTail(s: string, sep: string)
    requires |s| > 0
    ensures forall j | 0 <= j :: OccursAt(s, sep, j + 1) <==> OccursAt(s[1..], sep, j)
  {
    forall j | 0 <= j
      ensures OccursAt(s, sep, j + 1) <==> OccursAt(s[1..], sep, j)
    {
      if j + 1 + |sep| <= |s| {
        assert s[1..][j..j + |sep|] == s[j + 1..j + 1 + |sep|];
      }
    }
  }

  /** Leftmost occurrence of `sep` in `s`, scanning left to right. */
  function IndexOf(s: string, sep: string): (r: Option<nat>)
    decreases |s|
    ensures r.Some? ==> FirstOccursAt(s, sep, r.value)
    ensures r.None? <==> !Contains(s, sep)
  {
    if |s| < |sep| then None
    else if sep <= s then
      assert s[0..|sep|] == sep;
      Some(0)
    else
      OccursAtTail(s, sep);
      assert !OccursAt(s, sep, 0);
      match IndexOf(s[1..], sep)
      case None =>
        assert forall j | 1 <= j <= |s| :: !OccursAt(s, sep, j) by {
          forall j | 1 <= j <= |s| ensures !OccursAt(s, sep, j) {
            assert !OccursAt(s[1..], sep, j - 1);
          }
        }
        None
      case Some(j) =>
        assert forall k | 1 <= k < j + 1 :: !OccursAt(s, sep, k) by {
          forall k | 1 <= k < j + 1 ensures !OccursAt(s, sep, k) {
            assert !OccursAt(s[1..], sep, k - 1);
          }
        }
        Some(j + 1)
  }

  /** Every element of `parts`, in order, with `sep` between neighbours
      (.NET's `string.Join`). */
  function Join(parts: seq<string>, sep: string): string
  {
    if |parts| == 0 then ""
    else if |parts| == 1 then parts[0]
    else parts[0] + sep + Join(parts[1..], sep)
  }

  /** Every element of `parts`, in order, with nothing between them. */
  function Concat(parts: seq<string>): string
  {
    if |parts| == 0 then "" else parts[0] + Concat(parts[1..])
  }
}

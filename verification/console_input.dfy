/** `Program.UserListenerAsync`: each line read from the operator console is
    written to the Factorio server's standard input unless it is null or
    empty. A null line (end of input) is `None`. */
module ConsoleInput {
  import opened Wrappers

  /** `string.IsNullOrEmpty`. */
  predicate IsNullOrEmpty(line: Option<string>)
  {
    line.None? || |line.value| == 0
  }

  /** The line written to the server's stdin for one console line, if any. */
  function ForwardLine(line: Option<string>): (w: Option<string>)
    ensures w.Some? <==> !IsNullOrEmpty(line)
    ensures w.Some? ==> w == line
  {
    if IsNullOrEmpty(line) then None else line
  }

  /** A line made only of spaces and tabs is not empty, so it is forwarded
      unchanged. */
  lemma WhitespaceLineForwarded(line: string)
    requires |line| > 0
    requires forall k | 0 <= k < |line| :: line[k] == ' ' || line[k] == '\t'
    ensures ForwardLine(Some(line)) == Some(line)
  {
  }

  /** The lines written for a whole console session, in order (reference
      definition, peeling off the last line read). */
  function Written(lines: seq<Option<string>>): seq<string>
  {
    if |lines| == 0 then []
    else
      var last := lines[|lines| - 1];
      Written(lines[..|lines| - 1]) + (if IsNullOrEmpty(last) then [] else [last.value])
  }

  /** Every line written is one that was read, non-empty, and no more lines
      are written than were read; conversely every non-empty line read is
      written. */
  lemma {:induction false} WrittenLinesAreInputs(lines: seq<Option<string>>)
    ensures |Written(lines)| <= |lines|
    ensures forall k | 0 <= k < |Written(lines)| :: Written(lines)[k] != ""
    ensures forall k | 0 <= k < |Written(lines)| :: Some(Written(lines)[k]) in lines
    ensures forall k | 0 <= k < |lines| && !IsNullOrEmpty(lines[k]) :: lines[k].value in Written(lines)
  {
    if |lines| > 0 {
      var init := lines[..|lines| - 1];
      WrittenLinesAreInputs(init);
      assert forall x | x in init :: x in lines;
      forall k | 0 <= k < |lines| - 1 && !IsNullOrEmpty(lines[k])
        ensures lines[k].value in Written(lines)
      {
        assert init[k] == lines[k];
      }
    }
  }

  /** The self-recursive listener as a loop over the lines read: each line is
      passed through `ForwardLine` and appended to stdin in order. */
  method Listen(lines: seq<Option<string>>) returns (stdin: seq<string>)
    ensures stdin == Written(lines)
    ensures forall k | 0 <= k < |stdin| :: stdin[k] != ""
  {
    stdin := [];
    var i := 0;
    while i < |lines|
      invariant 0 <= i <= |lines|
      invariant stdin == Written(lines[..i])
      invariant forall k | 0 <= k < |stdin| :: stdin[k] != ""
    {
      match ForwardLine(lines[i]) {
        case Some(w) => stdin := stdin + [w];
        case None =>
      }
      assert lines[..i + 1][..i] == lines[..i];
      i := i + 1;
    }
    assert lines[..i] == lines;
  }
}

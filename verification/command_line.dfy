/** How a Windows program splits its command-line string into arguments
    (the Microsoft C runtime convention): blanks outside double quotes
    separate arguments, and each double quote toggles quoting and is dropped.
    The backslash-before-quote and doubled-quote rules are not modelled; the
    strings reasoned about below never put a backslash or a quote before a
    quote. */
module CommandLine {

  predicate IsBlank(c: char)
  {
    c == ' ' || c == '\t'
  }

  predicate NoQuote(s: string)
  {
    forall k | 0 <= k < |s| :: s[k] != '"'
  }

  predicate NoBlank(s: string)
  {
    forall k | 0 <= k < |s| :: !IsBlank(s[k])
  }

  /** Scanning state: inside quotes or not, the argument built so far, and
      whether an argument has been started (a lone `""` starts an empty one). */
  function Scan(s: string, inQuote: bool, current: string, started: bool): seq<string>
    decreases |s|
  {
    if |s| == 0 then (if started then [current] else [])
    else if s[0] == '"' then Scan(s[1..], !inQuote, current, true)
    else if IsBlank(s[0]) && !inQuote then
      (if started then [current] else []) + Scan(s[1..], false, "", false)
    else Scan(s[1..], inQuote, current + [s[0]], true)
  }

  /** The argument vector a command-line string is split into. */
  function Argv(s: string): seq<string>
  {
    Scan(s, false, "", false)
  }

  /** Text with no quote, and no blank unless quoted, joins the argument being
      built. */
  lemma {:induction false} ScanPlain(w: string, rest: string, inQuote: bool, current: string, started: bool)
    requires NoQuote(w) && (inQuote || NoBlank(w))
    decreases |w|
    ensures Scan(w + rest, inQuote, current, started) == Scan(rest, inQuote, current + w, started || |w| > 0)
  {
    if |w| > 0 {
      assert (w + rest)[0] == w[0];
      assert (w + rest)[1..] == w[1..] + rest;
      ScanPlain(w[1..], rest, inQuote, current + [w[0]], true);
      assert current + [w[0]] + w[1..] == current + w;
    } else {
      assert w + rest == rest;
      assert current + w == current;
    }
  }

  /** An unquoted word followed by a blank is one argument. */
  lemma Word(w: string, rest: string)
    requires |w| > 0 && NoQuote(w) && NoBlank(w)
    ensures Scan(w + " " + rest, false, "", false) == [w] + Scan(rest, false, "", false)
  {
    ScanPlain(w, " " + rest, false, "", false);
    assert w + " " + rest == w + (" " + rest);
    assert "" + w == w;
    var t := " " + rest;
    assert t[0] == ' ' && t[1..] == rest;
    assert Scan(t, false, w, true) == [w] + Scan(rest, false, "", false);
  }

  /** A double-quoted text without quotes, followed by a blank or the end, is
      one argument, blanks included. */
  lemma QuotedWord(w: string, rest: string)
    requires NoQuote(w)
    requires rest == "" || IsBlank(rest[0])
    ensures Scan("\"" + w + "\"" + rest, false, "", false)
         == [w] + (if rest == "" then [] else Scan(rest[1..], false, "", false))
  {
    var s := "\"" + w + "\"" + rest;
    var t := "\"" + rest;
    assert s[0] == '"' && s[1..] == w + t;
    assert Scan(s, false, "", false) == Scan(w + t, true, "", true);
    ScanPlain(w, t, true, "", true);
    assert "" + w == w;
    assert t[0] == '"' && t[1..] == rest;
    assert Scan(t, true, w, true) == Scan(rest, false, w, true);
  }

  /** Outside quotes, a text without quotes yields arguments without blanks. */
  lemma {:induction false} UnquotedArgsHaveNoBlank(s: string, current: string, started: bool)
    requires NoQuote(s) && NoBlank(current)
    decreases |s|
    ensures forall k | 0 <= k < |Scan(s, false, current, started)| :: NoBlank(Scan(s, false, current, started)[k])
  {
    if |s| > 0 {
      if IsBlank(s[0]) {
        UnquotedArgsHaveNoBlank(s[1..], "", false);
      } else {
        UnquotedArgsHaveNoBlank(s[1..], current + [s[0]], true);
      }
    }
  }
}

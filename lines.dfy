/**
 * Turning a pattern hit's character offset inside a node's text into a file
 * line number: the node's 1-based start line plus the newlines before the hit.
 */
module LineNumbers {

  /** `s.count("\n")`. */
  function CountNewlines(s: string): nat {
    if s == [] then 0 else CountNewlines(s[..|s| - 1]) + (if s[|s| - 1] == '\n' then 1 else 0)
  }

  lemma {:induction false} CountNewlinesAppend(a: string, b: string)
    ensures CountNewlines(a + b) == CountNewlines(a) + CountNewlines(b)
    decreases |b|
  {
    if b == [] {
      assert a + b == a;
    } else {
      assert (a + b)[..|a + b| - 1] == a + b[..|b| - 1];
      CountNewlinesAppend(a, b[..|b| - 1]);
    }
  }

  function Min(a: nat, b: nat): nat {
    if a <= b then a else b
  }

  /** `text[:offset].count("\n")`; Python's slice stops at the end of the text. */
  function NewlinesBefore(text: string, offset: nat): nat {
    CountNewlines(text[..Min(offset, |text|)])
  }

  /** `start_line + text[:offset].count("\n")`. */
  function MatchLine(startLine: int, text: string, offset: nat): int {
    startLine + NewlinesBefore(text, offset)
  }

  /** Counting newlines in a longer prefix never gives fewer. */
  lemma NewlinesBeforeMonotone(text: string, o1: nat, o2: nat)
    requires o1 <= o2
    ensures NewlinesBefore(text, o1) <= NewlinesBefore(text, o2)
  {
    var a := text[..Min(o1, |text|)];
    var b := text[Min(o1, |text|)..Min(o2, |text|)];
    assert text[..Min(o2, |text|)] == a + b;
    CountNewlinesAppend(a, b);
  }

  /** A hit lies on or after the node's first line and no further down than its last line. */
  lemma MatchLineBounds(startLine: int, text: string, offset: nat)
    ensures startLine <= MatchLine(startLine, text, offset) <= startLine + CountNewlines(text)
  {
    NewlinesBeforeMonotone(text, Min(offset, |text|), |text|);
    assert text[..Min(|text|, |text|)] == text;
  }

  /** A later hit never lies on an earlier line. */
  lemma MatchLineMonotone(startLine: int, text: string, o1: nat, o2: nat)
    requires o1 <= o2
    ensures MatchLine(startLine, text, o1) <= MatchLine(startLine, text, o2)
  {
    NewlinesBeforeMonotone(text, o1, o2);
  }

  /** A hit on the text's first line is reported at the node's start line. */
  lemma MatchLineOnFirstLine(startLine: int, text: string, offset: nat)
    requires forall k :: 0 <= k < Min(offset, |text|) ==> text[k] != '\n'
    ensures MatchLine(startLine, text, offset) == startLine
  {
    var p := text[..Min(offset, |text|)];
    NoNewlines(p);
  }

  lemma {:induction false} NoNewlines(s: string)
    requires forall k :: 0 <= k < |s| ==> s[k] != '\n'
    ensures CountNewlines(s) == 0
  {
    if s != [] {
      NoNewlines(s[..|s| - 1]);
    }
  }
}

/**
 * The two records the walker produces: a call-path frame (`PathObject`) and a
 * pattern hit (`MatchObject`), with the frame's string form.  Both classes only
 * assign each constructor argument to a field, so they are datatypes here; a
 * datatype constructor stores its arguments unchanged by definition.
 */
module Records {
  import opened Wrappers
  import Syntax

  /** One frame of a call path: where the enclosing function is and which line made the call. */
  datatype PathObject = PathObject(
    fileName: string,
    functionName: string,
    startLine: int,
    pathFunctionCallLine: int)

  /** One pattern occurrence inside a visited function call or method declaration. */
  datatype MatchObject = MatchObject(
    node: Syntax.Node,
    fileName: string,
    functionText: string,
    functionLineNumber: int,
    matchLineNumber: int,
    path: seq<PathObject>)

  predicate IsDigit(c: char) {
    '0' <= c <= '9'
  }

  function DigitChar(d: nat): (c: char)
    requires d < 10
    ensures IsDigit(c) && c as int - '0' as int == d
  {
    ['0', '1', '2', '3', '4', '5', '6', '7', '8', '9'][d]
  }

  /** Decimal digits of `n`, most significant first, as Python's `str(int)` writes them. */
  function NatToString(n: nat): (s: string)
    ensures |s| >= 1 && forall k :: 0 <= k < |s| ==> IsDigit(s[k])
  {
    if n < 10 then [DigitChar(n)] else NatToString(n / 10) + [DigitChar(n % 10)]
  }

  /** `str(i)` for a Python int: a leading '-' for negatives. */
  function IntToString(i: int): string {
    if i < 0 then "-" + NatToString(-i) else NatToString(i)
  }

  /** Reads back a non-empty run of decimal digits. */
  function ParseNat(s: string): int
    requires forall k :: 0 <= k < |s| ==> IsDigit(s[k])
  {
    if s == [] then 0 else ParseNat(s[..|s| - 1]) * 10 + (s[|s| - 1] as int - '0' as int)
  }

  function ParseInt(s: string): int
    requires |s| >= 1
    requires s[0] == '-' || IsDigit(s[0])
    requires forall k :: 1 <= k < |s| ==> IsDigit(s[k])
  {
    if s[0] == '-' then -ParseNat(s[1..]) else ParseNat(s)
  }

  lemma {:induction false} NatToStringRoundTrip(n: nat)
    ensures ParseNat(NatToString(n)) == n
  {
    if n >= 10 {
      var s := NatToString(n);
      assert s[..|s| - 1] == NatToString(n / 10);
      NatToStringRoundTrip(n / 10);
    }
  }

  /** Formatting a line number and reading it back gives the number. */
  lemma IntToStringRoundTrip(i: int)
    ensures var s := IntToString(i);
            |s| >= 1 && (s[0] == '-' || IsDigit(s[0])) && (forall k :: 1 <= k < |s| ==> IsDigit(s[k])) &&
            ParseInt(s) == i
  {
    var s := IntToString(i);
    if i < 0 {
      var digits := NatToString(-i);
      assert s == "-" + digits;
      assert s[1..] == digits;
      assert forall k :: 1 <= k < |s| ==> s[k] == digits[k - 1];
      NatToStringRoundTrip(-i);
    } else {
      NatToStringRoundTrip(i);
    }
  }

  /** `str(PathObject)`: "{file_name}: {function_name} (line {path_function_call_line})". */
  function PathObjectStr(p: PathObject): string {
    p.fileName + ": " + p.functionName + " (line " + IntToString(p.pathFunctionCallLine) + ")"
  }

  /**
   * Reads the call line back out of a frame's string, given the frame's file
   * and function names (which may themselves contain ": " or " (line ").
   */
  function CallLineOf(s: string, fileName: string, functionName: string): Option<int> {
    var head := fileName + ": " + functionName + " (line ";
    if |s| < |head| + 2 || s[..|head|] != head || s[|s| - 1] != ')' then None
    else
      var digits := s[|head|..|s| - 1];
      if (digits[0] == '-' || IsDigit(digits[0])) && (forall k :: 1 <= k < |digits| ==> IsDigit(digits[k]))
      then Some(ParseInt(digits))
      else None
  }

  /**
   * The string form starts with the file and function names, ends with the
   * call line, and does not depend on `startLine`.
   */
  lemma PathObjectStrRoundTrip(p: PathObject)
    ensures CallLineOf(PathObjectStr(p), p.fileName, p.functionName) == Some(p.pathFunctionCallLine)
    ensures forall k: int :: PathObjectStr(p.(startLine := k)) == PathObjectStr(p)
  {
    var head := p.fileName + ": " + p.functionName + " (line ";
    var num := IntToString(p.pathFunctionCallLine);
    var s := PathObjectStr(p);
    IntToStringRoundTrip(p.pathFunctionCallLine);
    assert s == head + num + ")";
    assert s[..|head|] == head;
    assert s[|head|..|s| - 1] == num;
  }

  /** Two frames of one function print alike exactly when their call lines are equal. */
  lemma PathObjectStrDistinguishesCallLines(p: PathObject, q: PathObject)
    requires p.fileName == q.fileName && p.functionName == q.functionName
    ensures PathObjectStr(p) == PathObjectStr(q) <==> p.pathFunctionCallLine == q.pathFunctionCallLine
  {
    PathObjectStrRoundTrip(p);
    PathObjectStrRoundTrip(q);
  }

  /**
   * `repr(PathObject)` delegates to `str`, so a frame's repr, too, gives back
   * its call line and hides its start line.
   */
  function PathObjectRepr(p: PathObject): (s: string)
    ensures s == PathObjectStr(p)
    ensures CallLineOf(s, p.fileName, p.functionName) == Some(p.pathFunctionCallLine)
    ensures forall k: int :: PathObjectStr(p.(startLine := k)) == s
  {
    PathObjectStrRoundTrip(p);
    PathObjectStr(p)
  }
}

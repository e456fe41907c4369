/**
 * The small pieces of Python string behaviour the rewriter relies on:
 * the character classes of Utils.py, reading `s[i]` with Python's index
 * rules, and `str.find` for a single character.
 */
module PyText {
  import opened Wrappers

  /** `is_whitespace`: membership in Python's `string.whitespace`
      (space, tab, line feed, carriage return, vertical tab, form feed). */
  function IsWhitespace(c: char): (b: bool)
    ensures b ==> c != '^' && c != '(' && c != ')'
  {
    c in " \t\n\r\U{B}\U{C}"
  }

  /** `is_operand`: despite its name, true of the four arithmetic operator characters. */
  function IsOperand(c: char): (b: bool)
    ensures b ==> !IsWhitespace(c) && c != '^' && c != '(' && c != ')'
  {
    c in ['+', '-', '*', '/']
  }

  /** A character that ends a bare (unbracketed) operand. */
  predicate IsDelimiter(c: char) {
    IsWhitespace(c) || IsOperand(c)
  }

  /** How reading `s[i]` goes wrong. */
  datatype IndexFault =
    | IndexError   // i >= |s| or i < -|s|: Python raises IndexError
    | WrapsAround  // -|s| <= i < 0: Python reads s[|s| + i] instead; the model stops here

  /** Reading `s[i]` under Python's indexing rules, up to the wrap-around:
      a read inside the string succeeds, a read past either end is IndexError,
      and a negative index Python would count from the end stops the model. */
  function CharAt(s: string, i: int): (r: Result<char, IndexFault>)
    ensures r.Ok? <==> 0 <= i < |s|
    ensures r.Ok? ==> r.value == s[i]
    ensures r == Err(IndexError) <==> i < -|s| || |s| <= i
  {
    if 0 <= i < |s| then Ok(s[i])
    else if -|s| <= i < 0 then Err(WrapsAround)
    else Err(IndexError)
  }

  /** `str.find` with a one-character needle: the first index holding `c`, or -1. */
  function Find(s: string, c: char): (i: int)
    ensures -1 <= i < |s|
    ensures i == -1 <==> c !in s
    ensures 0 <= i ==> s[i] == c && c !in s[..i]
  {
    if s == [] then -1
    else if s[0] == c then 0
    else
      var j := Find(s[1..], c);
      assert s == [s[0]] + s[1..];
      if j == -1 then -1
      else
        assert s[..j + 1] == [s[0]] + s[1..][..j];
        j + 1
  }

  /** `Find` picks out the one index holding `c` with no `c` before it. */
  lemma FindIs(s: string, c: char, i: int)
    requires 0 <= i < |s| && s[i] == c && c !in s[..i]
    ensures Find(s, c) == i
  {
  }
}

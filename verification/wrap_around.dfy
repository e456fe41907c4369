/**
 * The rewriter with Python's negative indexing followed, as Utils.py is
 * written: reading `s[i]` for `-len <= i < 0` gives `s[len + i]`, and a slice
 * bound below 0 counts from the end. The rest of the model stops with
 * `WrapsAround` instead. The lemmas here show that the two agree whenever the
 * model does not stop that way, and exhibit an input on which following the
 * wrap leaves the caret in place.
 */
module WrapAround {
  import opened Wrappers
  import opened PyText
  import opened Operands
  import opened PowRewrite

  /** Python's `s[i]`, negative indices included. */
  function PyAt(s: string, i: int): (r: Result<char, IndexFault>)
    ensures r.Ok? <==> -|s| <= i < |s|
    ensures r.Ok? && i < 0 ==> r.value == s[|s| + i]
    ensures r.Ok? && 0 <= i ==> r.value == s[i]
    ensures r.Err? ==> r.error == IndexError
  {
    if 0 <= i < |s| then Ok(s[i])
    else if -|s| <= i < 0 then Ok(s[|s| + i])
    else Err(IndexError)
  }

  /** A slice bound as Python adjusts it: counted from the end when negative,
      then clamped to `[0, len]`. */
  function SliceBound(s: string, a: int): (r: int)
    ensures 0 <= r <= |s|
    ensures 0 <= a <= |s| ==> r == a
    ensures -|s| <= a < 0 ==> r == |s| + a
  {
    if a < 0 then (if a + |s| < 0 then 0 else a + |s|)
    else if a > |s| then |s|
    else a
  }

  /** Python's `s[a:b]`. */
  function PySlice(s: string, a: int, b: int): (r: string)
    ensures |r| == if SliceBound(s, a) < SliceBound(s, b) then SliceBound(s, b) - SliceBound(s, a) else 0
    ensures forall k | 0 <= k < |r| :: r[k] == s[SliceBound(s, a) + k]
  {
    var lo, hi := SliceBound(s, a), SliceBound(s, b);
    if lo < hi then s[lo..hi] else []
  }

  /** Utils.py:95-99 as written. */
  function SkipWhitespacePy(s: string, i: int, isAfter: bool): (r: Result<int, IndexFault>)
    ensures r.Ok? ==> -|s| <= r.value < |s| && PyAt(s, r.value).Ok?
    ensures r.Ok? ==> !IsWhitespace(PyAt(s, r.value).value)
    ensures r.Err? ==> r.error == IndexError
    decreases if isAfter then |s| - i else i + |s| + 1
  {
    match PyAt(s, i)
    case Err(e) => Err(e)
    case Ok(c) => if IsWhitespace(c) then SkipWhitespacePy(s, i + Shift(isAfter), isAfter) else Ok(i)
  }

  /** Utils.py:100-111 as written. */
  function MatchBracketPy(s: string, i: int, count: nat, isAfter: bool): (r: Result<int, IndexFault>)
    requires count > 0
    ensures r.Ok? ==> -|s| <= r.value < |s| && PyAt(s, r.value) == Ok(ParenMinus(isAfter))
    ensures r.Err? ==> r.error == IndexError
    decreases if isAfter then |s| - i else i + |s| + 1
  {
    var j := i + Shift(isAfter);
    match PyAt(s, j)
    case Err(e) => Err(e)
    case Ok(c) =>
      var count' := Recount(c, count, isAfter);
      if count' == 0 then Ok(j) else MatchBracketPy(s, j, count', isAfter)
  }

  /** Utils.py:117-121 as written. */
  function DelimiterAfterPy(s: string, i: int): (r: Result<int, IndexFault>)
    ensures r.Ok? ==> i < r.value < |s| && PyAt(s, r.value).Ok? && IsDelimiter(PyAt(s, r.value).value)
    ensures r.Err? ==> r.error == IndexError
    decreases |s| - i
  {
    match PyAt(s, i + 1)
    case Err(e) => Err(e)
    case Ok(c) => if IsDelimiter(c) then Ok(i + 1) else DelimiterAfterPy(s, i + 1)
  }

  /** Utils.py:122-126 as written: from a negative index the loop does not run;
      otherwise it is `DelimiterBefore` (the read of `s[-1]` that ends it
      changes nothing). */
  function DelimiterBeforePy(s: string, i: int): (r: int)
    requires i <= |s|
    ensures i < 0 ==> r == i
    ensures 0 <= i ==> -1 <= r < i
    ensures 0 <= r ==> IsDelimiter(s[r])
  {
    if i < 0 then i else DelimiterBefore(s, i)
  }

  /** `get_operand_bounds` as written. */
  function OperandBoundsPy(s: string, op: int, isAfter: bool): (r: Result<Bounds, IndexFault>)
    ensures r.Err? ==> r.error == IndexError
  {
    match SkipWhitespacePy(s, op + Shift(isAfter), isAfter)
    case Err(e) => Err(e)
    case Ok(closer) =>
      if PyAt(s, closer).value == ParenPlus(isAfter) then
        match MatchBracketPy(s, closer, 1, isAfter)
        case Err(e) => Err(e)
        case Ok(further) =>
          if isAfter then Ok(Bounds(closer, further)) else Ok(Bounds(further + 1, closer + 1))
      else if isAfter then
        match DelimiterAfterPy(s, closer)
        case Err(e) => Err(e)
        case Ok(further) => Ok(Bounds(closer, further))
      else
        Ok(Bounds(DelimiterBeforePy(s, closer) + 1, closer + 1))
  }

  /** `update_pow_expr` as written, with Python's slicing. */
  function UpdatePowExprPy(s: string): (r: Result<string, IndexFault>)
    ensures r.Err? ==> r.error == IndexError
  {
    var op := Find(s, '^');
    match OperandBoundsPy(s, op, false)
    case Err(e) => Err(e)
    case Ok(b) =>
      match OperandBoundsPy(s, op, true)
      case Err(e) => Err(e)
      case Ok(p) =>
        Ok(PySlice(s, 0, b.lo) + "pow(" + PySlice(s, b.lo, b.hi) + ", " +
           PySlice(s, p.lo, p.hi) + ")" + PySlice(s, p.hi, |s|))
  }

  /** Inside the string, a Python slice is the plain slice. */
  lemma SliceInside(s: string, a: int, b: int)
    requires 0 <= a <= b <= |s|
    ensures PySlice(s, a, b) == s[a..b]
  {
  }

  /** Unless the model stops at a negative index, the whitespace skip as written
      gives the same result. */
  lemma {:induction false} SkipWhitespaceAgrees(s: string, i: int, isAfter: bool)
    requires SkipWhitespace(s, i, isAfter) != Err(WrapsAround)
    ensures SkipWhitespacePy(s, i, isAfter) == SkipWhitespace(s, i, isAfter)
    decreases if isAfter then |s| - i else i + 1
  {
    if 0 <= i < |s| && IsWhitespace(s[i]) {
      SkipWhitespaceAgrees(s, i + Shift(isAfter), isAfter);
    }
  }

  /** Unless the model stops at a negative index, the bracket scan as written
      gives the same result. */
  lemma {:induction false} MatchBracketAgrees(s: string, i: int, count: nat, isAfter: bool)
    requires 0 <= i < |s| && count > 0
    requires MatchBracket(s, i, count, isAfter) != Err(WrapsAround)
    ensures MatchBracketPy(s, i, count, isAfter) == MatchBracket(s, i, count, isAfter)
    decreases if isAfter then |s| - i else i + 1
  {
    var j := i + Shift(isAfter);
    if 0 <= j < |s| && Recount(s[j], count, isAfter) != 0 {
      MatchBracketAgrees(s, j, Recount(s[j], count, isAfter), isAfter);
    }
  }

  /** The forward delimiter scan never reaches a negative index. */
  lemma {:induction false} DelimiterAfterAgrees(s: string, i: int)
    requires 0 <= i < |s|
    ensures DelimiterAfterPy(s, i) == DelimiterAfter(s, i)
    decreases |s| - i
  {
    if i + 1 < |s| && !IsDelimiter(s[i + 1]) {
      DelimiterAfterAgrees(s, i + 1);
    }
  }

  /** Unless the model stops at a negative index, `get_operand_bounds` as
      written returns the same range or raises the same error. */
  lemma OperandBoundsAgrees(s: string, op: int, isAfter: bool)
    requires OperandBounds(s, op, isAfter) != Err(WrapsAround)
    ensures OperandBoundsPy(s, op, isAfter) == OperandBounds(s, op, isAfter)
  {
    var start := op + Shift(isAfter);
    var skip := SkipWhitespace(s, start, isAfter);
    assert skip != Err(WrapsAround);
    SkipWhitespaceAgrees(s, start, isAfter);
    if skip.Ok? {
      FromCloserAgrees(s, op, isAfter, skip.value);
    }
  }

  /** The part of `get_operand_bounds` after the whitespace skip, once both
      readings have stopped at the same index. */
  lemma FromCloserAgrees(s: string, op: int, isAfter: bool, closer: int)
    requires SkipWhitespace(s, op + Shift(isAfter), isAfter) == Ok(closer)
    requires SkipWhitespacePy(s, op + Shift(isAfter), isAfter) == Ok(closer)
    requires OperandBounds(s, op, isAfter) != Err(WrapsAround)
    ensures OperandBoundsPy(s, op, isAfter) == OperandBounds(s, op, isAfter)
  {
    if s[closer] == ParenPlus(isAfter) {
      BracketedAgrees(s, op, isAfter, closer);
    } else if isAfter {
      DelimiterAfterAgrees(s, closer);
    }
  }

  /** The bracketed case of `FromCloserAgrees`. */
  lemma BracketedAgrees(s: string, op: int, isAfter: bool, closer: int)
    requires SkipWhitespace(s, op + Shift(isAfter), isAfter) == Ok(closer)
    requires SkipWhitespacePy(s, op + Shift(isAfter), isAfter) == Ok(closer)
    requires OperandBounds(s, op, isAfter) != Err(WrapsAround)
    requires s[closer] == ParenPlus(isAfter)
    ensures OperandBoundsPy(s, op, isAfter) == OperandBounds(s, op, isAfter)
  {
    assert PyAt(s, closer) == Ok(s[closer]);
    assert MatchBracket(s, closer, 1, isAfter) != Err(WrapsAround);
    MatchBracketAgrees(s, closer, 1, isAfter);
  }

  /** Inside the string, the text `update_pow_expr` assembles from Python
      slices is the model's splice. */
  lemma SpliceInside(s: string, b: Bounds, p: Bounds)
    requires 0 <= b.lo <= b.hi <= p.lo <= p.hi <= |s|
    ensures PySlice(s, 0, b.lo) + "pow(" + PySlice(s, b.lo, b.hi) + ", " +
            PySlice(s, p.lo, p.hi) + ")" + PySlice(s, p.hi, |s|) == Splice(s, b, p)
  {
    SliceInside(s, 0, b.lo);
    SliceInside(s, b.lo, b.hi);
    SliceInside(s, p.lo, p.hi);
    SliceInside(s, p.hi, |s|);
    assert s[0..b.lo] == s[..b.lo] && s[p.hi..|s|] == s[p.hi..];
  }

  /** Unless the model stops at a negative index, `update_pow_expr` as written
      returns the same text or raises the same error. */
  lemma UpdatePowExprAgrees(s: string)
    ensures UpdatePowExpr(s) != Err(WrapsAround) ==> UpdatePowExprPy(s) == UpdatePowExpr(s)
  {
    var op := Find(s, '^');
    var base := OperandBounds(s, op, false);
    if base != Err(WrapsAround) {
      OperandBoundsAgrees(s, op, false);
    }
    if base.Ok? {
      var power := OperandBounds(s, op, true);
      if power != Err(WrapsAround) {
        OperandBoundsAgrees(s, op, true);
      }
      if power.Ok? {
        UpdatePowExprRewritesLeftmostCaret(s, base.value, power.value);
        SpliceInside(s, base.value, power.value);
      }
    }
  }

  /** A caret at index 0 with whitespace at the end: the base scan wraps to
      the end of the text and yields the range `[-1, -1)`, so the prefix
      `s[0:-1]` keeps the caret. The next round finds the caret at index 0
      again, with as many carets as before. */
  lemma LeadingCaretSurvives(s: string)
    requires s == "^2 "
    ensures UpdatePowExprPy(s) == Ok("^2pow(, 2) ")
    ensures Find("^2pow(, 2) ", '^') == 0 && Carets("^2pow(, 2) ") == Carets(s)
  {
    FindIs(s, '^', 0);
    LeadingCaretBounds(s);
    LeadingCaretText(s);
    LeadingCaretCount(s, "^2pow(, 2) ");
  }

  /** The slices `update_pow_expr` puts together for `^2 `. */
  lemma LeadingCaretText(s: string)
    requires s == "^2 "
    ensures PySlice(s, 0, -1) + "pow(" + PySlice(s, -1, -1) + ", " + PySlice(s, 1, 2) + ")" +
            PySlice(s, 2, |s|) == "^2pow(, 2) "
  {
    assert PySlice(s, 0, -1) == "^2";
    assert PySlice(s, -1, -1) == "";
    assert PySlice(s, 1, 2) == "2";
    assert PySlice(s, 2, 3) == " ";
  }

  /** Both texts have their one caret at index 0. */
  lemma LeadingCaretCount(s: string, t: string)
    requires s == "^2 " && t == "^2pow(, 2) "
    ensures Find(t, '^') == 0 && Carets(t) == Carets(s)
  {
    FindIs(t, '^', 0);
    assert Carets(s) == 1 by {
      assert s == ['^'] + "2 ";
      CaretsConcat(['^'], "2 ");
      assert '^' !in "2 ";
    }
    assert Carets(t) == 1 by {
      assert t == ['^'] + "2pow(, 2) ";
      CaretsConcat(['^'], "2pow(, 2) ");
      assert '^' !in "2pow(, 2) ";
    }
  }

  /** The two ranges `get_operand_bounds` returns for `^2 ` as written. */
  lemma LeadingCaretBounds(s: string)
    requires s == "^2 "
    ensures OperandBoundsPy(s, 0, false) == Ok(Bounds(-1, -1))
    ensures OperandBoundsPy(s, 0, true) == Ok(Bounds(1, 2))
  {
    assert SkipWhitespacePy(s, -1, false) == Ok(-2);
    assert SkipWhitespacePy(s, 1, true) == Ok(1);
    assert DelimiterAfterPy(s, 1) == Ok(2);
  }

  /** The model's reading of the same input: the base scan stops at index -1,
      and the rewrite ends with an error instead of repeating. */
  lemma LeadingCaretStops(s: string)
    requires s == "^2 "
    ensures UpdatePowExpr(s) == Err(WrapsAround)
    ensures RewriteAll(s) == Err(WrapsAround)
  {
    assert Find(s, '^') == 0;
    assert OperandBounds(s, 0, false) == Err(WrapsAround);
  }
}

/**
 * `get_operand_bounds`: locating the operand on one side of a `^`.
 *
 * The scan has three stages: skip whitespace away from the operator; if the
 * character reached opens a bracket in the scan direction, count brackets to
 * the matching one; otherwise run to the nearest delimiter (whitespace or one
 * of `+ - * /`). The result is a half-open range `[lo, hi)`.
 *
 * The recursive functions below give the value each stage computes; the
 * method `GetOperandBounds` runs the source's three loops and is proved to
 * compute `OperandBounds`; the lemmas say what those values are.
 */
module Operands {
  import opened Wrappers
  import opened PyText

  /** A half-open index range `[lo, hi)` (the source's two-element list). */
  datatype Bounds = Bounds(lo: int, hi: int)

  /** `shift_dir`: +1 when scanning for the following operand, -1 for the preceding one. */
  function Shift(isAfter: bool): int {
    if isAfter then 1 else -1
  }

  /** `paren_plus`: the bracket that opens a group in the scan direction. */
  function ParenPlus(isAfter: bool): char {
    if isAfter then '(' else ')'
  }

  /** `paren_minus`: the bracket that closes a group in the scan direction. */
  function ParenMinus(isAfter: bool): char {
    if isAfter then ')' else '('
  }

  /** Every index in `[lo, hi)` lies in `s` and holds whitespace. */
  ghost predicate AllWhitespace(s: string, lo: int, hi: int) {
    forall j | lo <= j < hi :: 0 <= j < |s| && IsWhitespace(s[j])
  }

  /** Bracket depth that `t` adds in the scan direction: openers minus partners. */
  function Depth(t: string, isAfter: bool): int {
    var opens: int := multiset(t)[ParenPlus(isAfter)];
    opens - multiset(t)[ParenMinus(isAfter)]
  }

  /** The whitespace skip (Utils.py:95-99): the first index from `i` on, in the
      scan direction, whose character is not whitespace. */
  function SkipWhitespace(s: string, i: int, isAfter: bool): (r: Result<int, IndexFault>)
    ensures r.Ok? ==> 0 <= r.value < |s| && !IsWhitespace(s[r.value])
    ensures r.Ok? && isAfter ==> i <= r.value && AllWhitespace(s, i, r.value)
    ensures r.Ok? && !isAfter ==> r.value <= i && AllWhitespace(s, r.value + 1, i + 1)
    ensures r.Err? && isAfter && 0 <= i ==> r.error == IndexError && AllWhitespace(s, i, |s|)
    ensures r.Err? && !isAfter && -|s| <= i < |s| ==> r.error == WrapsAround && AllWhitespace(s, 0, i + 1)
    decreases if isAfter then |s| - i else i + 1
  {
    match CharAt(s, i)
    case Err(e) => Err(e)
    case Ok(c) => if IsWhitespace(c) then SkipWhitespace(s, i + Shift(isAfter), isAfter) else Ok(i)
  }

  /** The bracket counter (Utils.py:103-111): having last read index `i` with
      `count` groups still open, the index at which the count returns to 0. */
  function MatchBracket(s: string, i: int, count: nat, isAfter: bool): (r: Result<int, IndexFault>)
    requires 0 <= i < |s| && count > 0
    ensures r.Ok? ==> 0 <= r.value < |s| && s[r.value] == ParenMinus(isAfter)
    ensures r.Ok? && isAfter ==> i < r.value
    ensures r.Ok? && !isAfter ==> r.value < i
    ensures r.Err? ==> r.error == (if isAfter then IndexError else WrapsAround)
    decreases if isAfter then |s| - i else i + 1
  {
    var j := i + Shift(isAfter);
    match CharAt(s, j)
    case Err(e) => Err(e)
    case Ok(c) =>
      var count' := Recount(c, count, isAfter);
      if count' == 0 then Ok(j) else MatchBracket(s, j, count', isAfter)
  }

  /** The forward delimiter scan (Utils.py:117-121): the first index after `i`
      holding a delimiter; running off the end raises IndexError. */
  function DelimiterAfter(s: string, i: int): (r: Result<int, IndexFault>)
    requires 0 <= i < |s|
    ensures r.Ok? ==> i < r.value < |s| && IsDelimiter(s[r.value])
    ensures r.Ok? ==> forall k | i < k < r.value :: !IsDelimiter(s[k])
    ensures r.Err? ==> r.error == IndexError && forall k | i < k < |s| :: !IsDelimiter(s[k])
    decreases |s| - i
  {
    match CharAt(s, i + 1)
    case Err(e) => Err(e)
    case Ok(c) => if IsDelimiter(c) then Ok(i + 1) else DelimiterAfter(s, i + 1)
  }

  /** The backward delimiter scan (Utils.py:122-126): the last index before `i`
      holding a delimiter, or -1 when there is none. */
  function DelimiterBefore(s: string, i: int): (r: int)
    requires 0 <= i <= |s|
    ensures -1 <= r < i
    ensures 0 <= r ==> IsDelimiter(s[r])
    ensures forall k | r < k < i :: !IsDelimiter(s[k])
  {
    if i == 0 then -1
    else if IsDelimiter(s[i - 1]) then i - 1
    else DelimiterBefore(s, i - 1)
  }

  /** What `get_operand_bounds(s, op, is_after)` returns or raises. */
  function OperandBounds(s: string, op: int, isAfter: bool): (r: Result<Bounds, IndexFault>)
    ensures r.Ok? ==> 0 <= r.value.lo < r.value.hi <= |s|
    ensures r.Ok? && isAfter ==> op < r.value.lo && AllWhitespace(s, op + 1, r.value.lo)
    ensures r.Ok? && !isAfter ==> r.value.hi <= op && AllWhitespace(s, r.value.hi, op)
  {
    match SkipWhitespace(s, op + Shift(isAfter), isAfter)
    case Err(e) => Err(e)
    case Ok(closer) =>
      if s[closer] == ParenPlus(isAfter) then
        match MatchBracket(s, closer, 1, isAfter)
        case Err(e) => Err(e)
        case Ok(further) =>
          if isAfter then Ok(Bounds(closer, further)) else Ok(Bounds(further + 1, closer + 1))
      else if isAfter then
        match DelimiterAfter(s, closer)
        case Err(e) => Err(e)
        case Ok(further) => Ok(Bounds(closer, further))
      else
        Ok(Bounds(DelimiterBefore(s, closer) + 1, closer + 1))
  }

  /** The depth of a concatenation is the sum of the depths. */
  lemma DepthConcat(a: string, b: string, isAfter: bool)
    ensures Depth(a + b, isAfter) == Depth(a, isAfter) + Depth(b, isAfter)
  {
    assert multiset(a + b) == multiset(a) + multiset(b);
  }

  /** The count after reading one more character `c`. */
  function Recount(c: char, count: int, isAfter: bool): int {
    if c == ParenPlus(isAfter) then count + 1
    else if c == ParenMinus(isAfter) then count - 1
    else count
  }

  lemma DepthOne(c: char, count: int, isAfter: bool)
    ensures Depth([c], isAfter) == Recount(c, count, isAfter) - count
  {
    assert multiset([c]) == multiset{c};
  }

  /** The count of the forward bracket scan after reading `s[j..k]` left to
      right, starting from `count`. */
  ghost function Level(s: string, j: int, k: int, count: int): int
    requires 0 <= j <= k <= |s|
    decreases k - j
  {
    if j == k then count else Level(s, j + 1, k, Recount(s[j], count, true))
  }

  /** The count of the backward bracket scan after reading `s[k..i]` right to
      left, starting from `count`. */
  ghost function LevelBack(s: string, k: int, i: int, count: int): int
    requires 0 <= k <= i <= |s|
    decreases i - k
  {
    if k == i then count else LevelBack(s, k, i - 1, Recount(s[i - 1], count, false))
  }

  /** The forward count is the starting count plus the depth of what was read. */
  lemma {:induction false} LevelIsDepth(s: string, j: int, k: int, count: int)
    requires 0 <= j <= k <= |s|
    ensures Level(s, j, k, count) == count + Depth(s[j..k], true)
    decreases k - j
  {
    if j < k {
      LevelIsDepth(s, j + 1, k, Recount(s[j], count, true));
      assert s[j..k] == [s[j]] + s[j + 1..k];
      DepthConcat([s[j]], s[j + 1..k], true);
      DepthOne(s[j], count, true);
    } else {
      assert s[j..k] == [];
    }
  }

  /** The backward count is the starting count plus the depth of what was read. */
  lemma {:induction false} LevelBackIsDepth(s: string, k: int, i: int, count: int)
    requires 0 <= k <= i <= |s|
    ensures LevelBack(s, k, i, count) == count + Depth(s[k..i], false)
    decreases i - k
  {
    if k < i {
      LevelBackIsDepth(s, k, i - 1, Recount(s[i - 1], count, false));
      assert s[k..i] == s[k..i - 1] + [s[i - 1]];
      DepthConcat(s[k..i - 1], [s[i - 1]], false);
      DepthOne(s[i - 1], count, false);
    } else {
      assert s[k..i] == [];
    }
  }

  /** Scanning right from index `i`, the last index read: the index returned
      is the first at which the running count returns to 0, and the scan fails
      only when the count stays positive up to the end of the string. */
  lemma {:induction false} MatchBracketForward(s: string, i: int, count: nat)
    requires 0 <= i < |s| && count > 0
    ensures MatchBracket(s, i, count, true).Ok? ==>
      var j, m := i + 1, MatchBracket(s, i, count, true).value;
      Level(s, j, m + 1, count) == 0 &&
      forall k | j <= k <= m :: Level(s, j, k, count) > 0
    ensures MatchBracket(s, i, count, true).Err? ==>
      var j := i + 1;
      forall k | j <= k <= |s| :: Level(s, j, k, count) > 0
    decreases |s| - i
  {
    var j := i + 1;
    if j < |s| {
      var count' := Recount(s[j], count, true);
      if count' == 0 {
        assert MatchBracket(s, i, count, true) == Ok(j);
        assert Level(s, j, j + 1, count) == Level(s, j + 1, j + 1, count');
      } else {
        assert MatchBracket(s, i, count, true) == MatchBracket(s, j, count', true);
        MatchBracketForward(s, j, count');
      }
    } else {
      assert MatchBracket(s, i, count, true) == Err(IndexError);
    }
  }

  /** Scanning left from index `i`: the mirror image of `MatchBracketForward`. */
  lemma {:induction false} MatchBracketBackward(s: string, i: int, count: nat)
    requires 0 <= i < |s| && count > 0
    ensures MatchBracket(s, i, count, false).Ok? ==>
      var m := MatchBracket(s, i, count, false).value;
      LevelBack(s, m, i, count) == 0 &&
      forall k | m < k <= i :: LevelBack(s, k, i, count) > 0
    ensures MatchBracket(s, i, count, false).Err? ==>
      forall k | 0 <= k <= i :: LevelBack(s, k, i, count) > 0
    decreases i
  {
    if i > 0 {
      var j := i - 1;
      var count' := Recount(s[j], count, false);
      if count' == 0 {
        assert MatchBracket(s, i, count, false) == Ok(j);
        assert LevelBack(s, j, i, count) == LevelBack(s, j, j, count');
      } else {
        assert MatchBracket(s, i, count, false) == MatchBracket(s, j, count', false);
        MatchBracketBackward(s, j, count');
      }
    } else {
      assert MatchBracket(s, i, count, false) == Err(WrapsAround);
    }
  }

  /** Past an opening bracket at `c`, the depth is the forward count from 1. */
  lemma DepthsAfterOpener(s: string, c: int)
    requires 0 <= c < |s| && s[c] == '('
    ensures forall k | c < k <= |s| :: Depth(s[c..k], true) == Level(s, c + 1, k, 1)
  {
    forall k | c < k <= |s|
      ensures Depth(s[c..k], true) == Level(s, c + 1, k, 1)
    {
      LevelIsDepth(s, c, k, 0);
    }
  }

  /** Before a closing bracket at `hi - 1`, the depth is the backward count from 1. */
  lemma DepthsBeforeCloser(s: string, hi: int)
    requires 0 < hi <= |s| && s[hi - 1] == ')'
    ensures forall k | 0 <= k < hi :: Depth(s[k..hi], false) == LevelBack(s, k, hi - 1, 1)
  {
    forall k | 0 <= k < hi
      ensures Depth(s[k..hi], false) == LevelBack(s, k, hi - 1, 1)
    {
      LevelBackIsDepth(s, k, hi, 0);
    }
  }

  /** A bracketed following operand, as in `x^(y)`: the range runs from the
      opening bracket up to, but not including, its matching closing bracket.
      If the group is never closed, the scan reads past the end. */
  lemma BracketedFollowingOperand(s: string, op: int, c: int)
    requires 0 <= op + 1 && SkipWhitespace(s, op + 1, true) == Ok(c) && s[c] == '('
    ensures OperandBounds(s, op, true).Ok? ==>
      var b := OperandBounds(s, op, true).value;
      b.lo == c && s[b.hi] == ')' && Depth(s[b.lo..b.hi + 1], true) == 0 &&
      forall k | b.lo < k <= b.hi :: Depth(s[b.lo..k], true) > 0
    ensures OperandBounds(s, op, true).Err? ==>
      OperandBounds(s, op, true).error == IndexError &&
      forall k | c < k <= |s| :: Depth(s[c..k], true) > 0
  {
    var m := MatchBracket(s, c, 1, true);
    MatchBracketForward(s, c, 1);
    DepthsAfterOpener(s, c);
    if m.Ok? {
      assert OperandBounds(s, op, true) == Ok(Bounds(c, m.value));
    } else {
      assert OperandBounds(s, op, true) == Err(m.error);
    }
  }

  /** A bracketed preceding operand, as in `(a)^2`: the range starts just after
      the matching opening bracket and ends just after the closing one at
      `hi - 1`. If the group is never opened, the scan runs below index 0. */
  lemma BracketedPrecedingOperand(s: string, op: int, hi: int)
    requires op - 1 < |s| && SkipWhitespace(s, op - 1, false) == Ok(hi - 1) && s[hi - 1] == ')'
    ensures OperandBounds(s, op, false).Ok? ==>
      var b := OperandBounds(s, op, false).value;
      b.hi == hi && 0 < b.lo && s[b.lo - 1] == '(' && Depth(s[b.lo - 1..hi], false) == 0 &&
      forall k | b.lo - 1 < k < hi :: Depth(s[k..hi], false) > 0
    ensures OperandBounds(s, op, false).Err? ==>
      OperandBounds(s, op, false).error == WrapsAround &&
      forall k | 0 <= k < hi :: Depth(s[k..hi], false) > 0
  {
    var c := hi - 1;
    var m := MatchBracket(s, c, 1, false);
    PrecedingBracketResult(s, op, hi);
    MatchBracketBackward(s, c, 1);
    DepthsBeforeCloser(s, hi);
  }

  /** What `OperandBounds` makes of the backward bracket scan. */
  lemma PrecedingBracketResult(s: string, op: int, hi: int)
    requires op - 1 < |s| && SkipWhitespace(s, op - 1, false) == Ok(hi - 1) && s[hi - 1] == ')'
    ensures 0 <= hi - 1 < |s|
    ensures OperandBounds(s, op, false) ==
      match MatchBracket(s, hi - 1, 1, false)
      case Ok(m) => Ok(Bounds(m + 1, hi))
      case Err(e) => Err(e)
  {
  }

  /** A bare following operand: it starts at the first non-whitespace character
      after the operator and ends before the first later delimiter; everything
      between, `^` and brackets included, belongs to it. With no such
      delimiter, the scan reads past the end (IndexError). */
  lemma BareFollowingOperand(s: string, op: int)
    requires 0 <= op + 1 && SkipWhitespace(s, op + 1, true).Ok?
    requires s[SkipWhitespace(s, op + 1, true).value] != '('
    ensures var c := SkipWhitespace(s, op + 1, true).value;
      match OperandBounds(s, op, true)
      case Ok(b) =>
        b.lo == c && !IsWhitespace(s[c]) && AllWhitespace(s, op + 1, c) &&
        b.hi < |s| && IsDelimiter(s[b.hi]) && forall k | c < k < b.hi :: !IsDelimiter(s[k])
      case Err(e) =>
        e == IndexError && forall k | c < k < |s| :: !IsDelimiter(s[k])
  {
  }

  /** A bare preceding operand: it ends just after the nearest non-whitespace
      character before the operator and starts just after the nearest earlier
      delimiter, or at 0 when there is none. */
  lemma BarePrecedingOperand(s: string, op: int)
    requires op - 1 < |s| && SkipWhitespace(s, op - 1, false).Ok?
    requires s[SkipWhitespace(s, op - 1, false).value] != ')'
    ensures var c := SkipWhitespace(s, op - 1, false).value;
      match OperandBounds(s, op, false)
      case Ok(b) =>
        b.hi == c + 1 && !IsWhitespace(s[c]) && AllWhitespace(s, c + 1, op) &&
        (b.lo == 0 || IsDelimiter(s[b.lo - 1])) && forall k | b.lo <= k < c :: !IsDelimiter(s[k])
      case Err(_) => false
  {
  }

  /** `get_operand_bounds`; its three loops are the methods below. */
  method GetOperandBounds(s: string, opIndex: int, isAfter: bool) returns (r: Result<Bounds, IndexFault>)
    ensures r == OperandBounds(s, opIndex, isAfter)
  {
    var skipped := SkipWhitespaceLoop(s, opIndex + Shift(isAfter), isAfter);
    if skipped.Err? {
      return Err(skipped.error);
    }
    var closer := skipped.value;
    if s[closer] == ParenPlus(isAfter) {
      var further := BracketLoop(s, closer, isAfter);
      if further.Err? {
        return Err(further.error);
      }
      r := if isAfter then Ok(Bounds(closer, further.value)) else Ok(Bounds(further.value + 1, closer + 1));
    } else if isAfter {
      var further := DelimiterAfterLoop(s, closer);
      if further.Err? {
        return Err(further.error);
      }
      r := Ok(Bounds(closer, further.value));
    } else {
      var further := DelimiterBeforeLoop(s, closer);
      r := Ok(Bounds(further + 1, closer + 1));
    }
  }

  /** Utils.py:95-99: step from `start` while the character read is whitespace. */
  method SkipWhitespaceLoop(s: string, start: int, isAfter: bool) returns (r: Result<int, IndexFault>)
    ensures r == SkipWhitespace(s, start, isAfter)
  {
    var closer := start;
    var read := CharAt(s, closer);
    while read.Ok? && IsWhitespace(read.value)
      invariant read == CharAt(s, closer)
      invariant SkipWhitespace(s, closer, isAfter) == SkipWhitespace(s, start, isAfter)
      decreases if isAfter then |s| - closer else closer + 1
    {
      assert SkipWhitespace(s, closer, isAfter) == SkipWhitespace(s, closer + Shift(isAfter), isAfter);
      closer := closer + Shift(isAfter);
      read := CharAt(s, closer);
    }
    r := if read.Err? then Err(read.error) else Ok(closer);
  }

  /** Utils.py:103-111: from the opening bracket at `closer`, count brackets
      until the count returns to 0. */
  method BracketLoop(s: string, closer: int, isAfter: bool) returns (r: Result<int, IndexFault>)
    requires 0 <= closer < |s|
    ensures r == MatchBracket(s, closer, 1, isAfter)
  {
    var further := closer;
    var parenCount := 1;
    while parenCount > 0
      invariant 0 <= further < |s| && parenCount >= 0
      invariant parenCount > 0 ==>
        MatchBracket(s, further, parenCount, isAfter) == MatchBracket(s, closer, 1, isAfter)
      invariant parenCount == 0 ==> MatchBracket(s, closer, 1, isAfter) == Ok(further)
      decreases if isAfter then |s| - further else further + 1
    {
      further := further + Shift(isAfter);
      var next := CharAt(s, further);
      if next.Err? {
        return Err(next.error);
      }
      if next.value == ParenPlus(isAfter) { parenCount := parenCount + 1; }
      if next.value == ParenMinus(isAfter) { parenCount := parenCount - 1; }
    }
    r := Ok(further);
  }

  /** Utils.py:117-121: step right from `closer` until a delimiter is read. */
  method DelimiterAfterLoop(s: string, closer: int) returns (r: Result<int, IndexFault>)
    requires 0 <= closer < |s|
    ensures r == DelimiterAfter(s, closer)
  {
    var further := closer;
    while further < |s|
      invariant closer <= further < |s|
      invariant DelimiterAfter(s, further) == DelimiterAfter(s, closer)
    {
      further := further + 1;
      var next := CharAt(s, further);
      if next.Err? {
        return Err(next.error);
      }
      if IsDelimiter(next.value) { break; }
    }
    r := Ok(further);
  }

  /** Utils.py:122-126: step left from `closer` until a delimiter is read or the
      index falls below 0. */
  method DelimiterBeforeLoop(s: string, closer: int) returns (further: int)
    requires 0 <= closer < |s|
    ensures further == DelimiterBefore(s, closer)
  {
    further := closer;
    while further >= 0
      invariant -1 <= further <= closer
      invariant DelimiterBefore(s, closer) == if further == -1 then -1 else DelimiterBefore(s, further)
    {
      further := further - 1;
      // At further == -1 Python reads s[-1], the last character; the loop
      // ends there whatever it holds, so the model does not read it.
      if further >= 0 && IsDelimiter(s[further]) { break; }
    }
  }
}

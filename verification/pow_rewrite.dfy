/**
 * `update_pow_expr` and `update_pow_expressions`: rewriting every `x^y` in a
 * text as `pow(x, y)`, the leftmost caret first.
 */
module PowRewrite {
  import opened Wrappers
  import opened PyText
  import opened Operands

  /** The number of carets in `s`. */
  function Carets(s: string): nat {
    multiset(s)['^']
  }

  /** The string `update_pow_expr` builds once both ranges are known
      (Utils.py:141-146): the text from the base through the exponent becomes
      `pow(base, power)`. */
  function Splice(s: string, base: Bounds, power: Bounds): (r: string)
    requires 0 <= base.lo <= base.hi <= power.lo <= power.hi <= |s|
    ensures |r| == |s| - (power.lo - base.hi) + 7
    ensures r[..base.lo] == s[..base.lo]
    ensures r[|r| - (|s| - power.hi)..] == s[power.hi..]
  {
    s[..base.lo] + "pow(" + s[base.lo..base.hi] + ", " + s[power.lo..power.hi] + ")" + s[power.hi..]
  }

  /** Carets add up over a concatenation. */
  lemma CaretsConcat(a: string, b: string)
    ensures Carets(a + b) == Carets(a) + Carets(b)
  {
    assert multiset(a + b) == multiset(a) + multiset(b);
  }

  /** Cutting a string at four ordered indices and joining the pieces gives it back. */
  lemma FivePieces(s: string, i: int, j: int, k: int, l: int)
    requires 0 <= i <= j <= k <= l <= |s|
    ensures s == s[..i] + s[i..j] + s[j..k] + s[k..l] + s[l..]
  {
    assert s[..j] == s[..i] + s[i..j];
    assert s[..k] == s[..j] + s[j..k];
    assert s[..l] == s[..k] + s[k..l];
    assert s == s[..l] + s[l..];
  }

  /** A stretch with no character but whitespace holds no caret. */
  lemma NoCaretInWhitespace(s: string, lo: int, hi: int)
    requires 0 <= lo <= hi <= |s| && AllWhitespace(s, lo, hi)
    ensures Carets(s[lo..hi]) == 0
  {
    assert '^' !in s[lo..hi] by {
      forall k | 0 <= k < hi - lo ensures s[lo..hi][k] != '^' {
        assert s[lo..hi][k] == s[lo + k];
      }
    }
  }

  /** The gap between the two ranges: whitespace, the caret at `op`, whitespace. */
  lemma GapHoldsOneCaret(s: string, op: int, lo: int, hi: int)
    requires 0 <= lo <= op < hi <= |s| && s[op] == '^'
    requires AllWhitespace(s, lo, op) && AllWhitespace(s, op + 1, hi)
    ensures Carets(s[lo..hi]) == 1
    ensures forall c <- s[lo..hi] :: c == '^' || IsWhitespace(c)
  {
    assert s[lo..hi] == s[lo..op] + [s[op]] + s[op + 1..hi];
    NoCaretInWhitespace(s, lo, op);
    NoCaretInWhitespace(s, op + 1, hi);
    CaretsConcat(s[lo..op], [s[op]]);
    CaretsConcat(s[lo..op] + [s[op]], s[op + 1..hi]);
    forall c <- s[lo..hi] ensures c == '^' || IsWhitespace(c) {
      var k :| 0 <= k < hi - lo && s[lo..hi][k] == c;
      assert c == s[lo + k];
    }
  }

  /** Replacing `base + gap + power` by `pow(base, power)` removes the carets
      of the gap and adds none. */
  lemma CaretsOfRewrite(pre: string, base: string, gap: string, power: string, rest: string)
    ensures Carets(pre + "pow(" + base + ", " + power + ")" + rest) + Carets(gap) ==
            Carets(pre + base + gap + power + rest)
  {
    assert Carets("pow(") == 0 && Carets(", ") == 0 && Carets(")") == 0;
    assert multiset(pre + "pow(" + base + ", " + power + ")" + rest) ==
      multiset(pre) + multiset("pow(") + multiset(base) + multiset(", ") + multiset(power) + multiset(")") + multiset(rest);
    assert multiset(pre + base + gap + power + rest) ==
      multiset(pre) + multiset(base) + multiset(gap) + multiset(power) + multiset(rest);
  }

  /** Splicing around the caret at `op`, with only whitespace between it and the
      two ranges, removes exactly that caret and adds none. */
  lemma SpliceRemovesOneCaret(s: string, op: int, base: Bounds, power: Bounds)
    requires 0 <= base.lo <= base.hi <= op < power.lo <= power.hi <= |s| && s[op] == '^'
    requires AllWhitespace(s, base.hi, op) && AllWhitespace(s, op + 1, power.lo)
    ensures Carets(Splice(s, base, power)) + 1 == Carets(s)
  {
    GapHoldsOneCaret(s, op, base.hi, power.lo);
    FivePieces(s, base.lo, base.hi, power.lo, power.hi);
    CaretsOfRewrite(s[..base.lo], s[base.lo..base.hi], s[base.hi..power.lo], s[power.lo..power.hi], s[power.hi..]);
  }

  /** `update_pow_expr` (Utils.py:135-146): the leftmost caret and the operands
      on either side of it are rewritten as a `pow` call. */
  function UpdatePowExpr(s: string): (r: Result<string, IndexFault>)
    ensures r.Ok? ==> Carets(r.value) + 1 == Carets(s)
    ensures r.Ok? <==>
      OperandBounds(s, Find(s, '^'), false).Ok? && OperandBounds(s, Find(s, '^'), true).Ok?
  {
    var op := Find(s, '^');
    match OperandBounds(s, op, false)
    case Err(e) => Err(e)
    case Ok(base) =>
      match OperandBounds(s, op, true)
      case Err(e) => Err(e)
      case Ok(power) =>
        SpliceRemovesOneCaret(s, op, base, power);
        Ok(Splice(s, base, power))
  }

  /** When both scans succeed, the rewrite splits the text into five
      consecutive pieces: a caret-free prefix, the base, a gap of whitespace
      around the one caret it holds, the exponent and the rest. The prefix and
      the rest are kept; the middle three become `pow(base, power)`. */
  lemma UpdatePowExprRewritesLeftmostCaret(s: string, b: Bounds, p: Bounds)
    requires OperandBounds(s, Find(s, '^'), false) == Ok(b)
    requires OperandBounds(s, Find(s, '^'), true) == Ok(p)
    ensures 0 <= b.lo < b.hi < p.lo < p.hi <= |s|
    ensures s == s[..b.lo] + s[b.lo..b.hi] + s[b.hi..p.lo] + s[p.lo..p.hi] + s[p.hi..]
    ensures UpdatePowExpr(s) == Ok(s[..b.lo] + "pow(" + s[b.lo..b.hi] + ", " + s[p.lo..p.hi] + ")" + s[p.hi..])
    ensures '^' !in s[..b.lo]
    ensures Carets(s[b.hi..p.lo]) == 1
    ensures forall c <- s[b.hi..p.lo] :: c == '^' || IsWhitespace(c)
  {
    var op := Find(s, '^');
    RewriteSites(s, op, b, p);
    var r := UpdatePowExpr(s);
    assert r.Ok? && r.value == Splice(s, b, p);
  }

  /** The pieces around the leftmost caret `op`, given the two ranges. */
  lemma RewriteSites(s: string, op: int, b: Bounds, p: Bounds)
    requires 0 <= b.lo < b.hi <= op < p.lo < p.hi <= |s|
    requires s[op] == '^' && '^' !in s[..op]
    requires AllWhitespace(s, b.hi, op) && AllWhitespace(s, op + 1, p.lo)
    ensures s == s[..b.lo] + s[b.lo..b.hi] + s[b.hi..p.lo] + s[p.lo..p.hi] + s[p.hi..]
    ensures '^' !in s[..b.lo]
    ensures Carets(s[b.hi..p.lo]) == 1
    ensures forall c <- s[b.hi..p.lo] :: c == '^' || IsWhitespace(c)
  {
    FivePieces(s, b.lo, b.hi, p.lo, p.hi);
    GapHoldsOneCaret(s, op, b.hi, p.lo);
    assert s[..b.lo] <= s[..op];
  }

  /** What `update_pow_expressions` returns or raises: rewrites until no caret
      is left. Terminates because every rewrite removes one caret. */
  function RewriteAll(s: string): (r: Result<string, IndexFault>)
    ensures r.Ok? ==> '^' !in r.value
    ensures '^' !in s ==> r == Ok(s)
    decreases Carets(s)
  {
    if Find(s, '^') == -1 then Ok(s)
    else
      match UpdatePowExpr(s)
      case Err(e) => Err(e)
      case Ok(t) => RewriteAll(t)
  }

  /** `update_pow_expressions` (Utils.py:148-155), with its loop. */
  method UpdatePowExpressions(expression: string) returns (r: Result<string, IndexFault>)
    ensures r == RewriteAll(expression)
    ensures r.Ok? ==> '^' !in r.value
  {
    var e := expression;
    var powIndex := Find(e, '^');
    while powIndex > -1
      invariant powIndex == Find(e, '^')
      invariant RewriteAll(e) == RewriteAll(expression)
      decreases Carets(e)
    {
      var next := UpdatePowExpr(e);
      if next.Err? {
        return Err(next.error);
      }
      e := next.value;
      powIndex := Find(e, '^');
    }
    r := Ok(e);
  }

  /** Rewriting a result again changes nothing. */
  lemma RewriteAllIdempotent(s: string)
    ensures RewriteAll(s).Ok? ==> RewriteAll(RewriteAll(s).value) == RewriteAll(s)
  {
  }
}

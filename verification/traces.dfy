/**
 * Worked examples of `update_pow_expressions`, step by step:
 * which ranges each rewrite finds and the text it produces. The input is a
 * parameter fixed by the precondition, so that the verifier evaluates only
 * the steps spelled out here.
 */
module Traces {
  import opened Wrappers
  import opened PyText
  import opened Operands
  import opened PowRewrite

  /** One rewrite at the leftmost caret `op`, with both ranges already known. */
  lemma RewriteStep(s: string, op: int, b: Bounds, p: Bounds)
    requires 0 <= op < |s| && s[op] == '^' && '^' !in s[..op]
    requires OperandBounds(s, op, false) == Ok(b) && OperandBounds(s, op, true) == Ok(p)
    ensures RewriteAll(s) == RewriteAll(Splice(s, b, p))
  {
    FindIs(s, '^', op);
  }

  /** A rewrite whose exponent scan fails: the whole run fails the same way. */
  lemma RewriteFailsOnPower(s: string, op: int, e: IndexFault)
    requires 0 <= op < |s| && s[op] == '^' && '^' !in s[..op]
    requires OperandBounds(s, op, false).Ok? && OperandBounds(s, op, true) == Err(e)
    ensures RewriteAll(s) == Err(e)
  {
    FindIs(s, '^', op);
  }

  /** A bare base and a bare exponent between operators. */
  lemma TraceBareOperands(s: string)
    requires s == "a*b^c+d"
    ensures RewriteAll(s) == Ok("a*pow(b, c)+d")
  {
    var t := "a*pow(b, c)+d";
    assert '^' !in t;
    assert Splice(s, Bounds(2, 3), Bounds(4, 5)) == t by {
      assert s[..2] == "a*" && s[2..3] == "b" && s[4..5] == "c" && s[5..] == "+d";
    }
    assert s[3] == '^' && '^' !in s[..3] by {
      assert s[..3] == "a*b";
    }
    BareOperandsBounds(s);
    RewriteStep(s, 3, Bounds(2, 3), Bounds(4, 5));
  }

  /** The two ranges at the caret of `a*b^c+d`. */
  lemma BareOperandsBounds(s: string)
    requires s == "a*b^c+d"
    ensures OperandBounds(s, 3, false) == Ok(Bounds(2, 3))
    ensures OperandBounds(s, 3, true) == Ok(Bounds(4, 5))
  {
    assert OperandBounds(s, 3, false) == Ok(Bounds(2, 3)) by {
      assert SkipWhitespace(s, 2, false) == Ok(2);
      assert DelimiterBefore(s, 2) == 1;
    }
    assert OperandBounds(s, 3, true) == Ok(Bounds(4, 5)) by {
      assert SkipWhitespace(s, 4, true) == Ok(4);
      assert DelimiterAfter(s, 4) == Ok(5);
    }
  }

  /** A chain nests to the right: the first exponent runs on to the next
      delimiter and so swallows the second caret. */
  lemma TraceChainNestsRight(s: string)
    requires s == "x^y^z "
    ensures RewriteAll(s) == Ok("pow(x, pow(y, z)) ")
  {
    ChainFirstStep(s, "pow(x, y^z) ");
    ChainSecondStep("pow(x, y^z) ");
  }

  /** The first rewrite of `x^y^z `: base `x`, exponent `y^z`. */
  lemma ChainFirstStep(s: string, t: string)
    requires s == "x^y^z " && t == "pow(x, y^z) "
    ensures RewriteAll(s) == RewriteAll(t)
  {
    ChainFirstBounds(s);
    assert Splice(s, Bounds(0, 1), Bounds(2, 5)) == t by {
      assert s[..0] == "" && s[0..1] == "x" && s[2..5] == "y^z" && s[5..] == " ";
    }
    assert s[1] == '^' && '^' !in s[..1] by {
      assert s[..1] == "x";
    }
    RewriteStep(s, 1, Bounds(0, 1), Bounds(2, 5));
  }

  /** The ranges of the first rewrite of `x^y^z `. */
  lemma ChainFirstBounds(s: string)
    requires s == "x^y^z "
    ensures OperandBounds(s, 1, false) == Ok(Bounds(0, 1))
    ensures OperandBounds(s, 1, true) == Ok(Bounds(2, 5))
  {
    assert SkipWhitespace(s, 0, false) == Ok(0);
    assert DelimiterBefore(s, 0) == -1;
    assert SkipWhitespace(s, 2, true) == Ok(2);
    assert DelimiterAfter(s, 4) == Ok(5);
    assert DelimiterAfter(s, 3) == Ok(5);
    assert DelimiterAfter(s, 2) == Ok(5);
  }

  /** The second rewrite: base `y`, exponent `z)`, whose bracket the first
      rewrite added. */
  lemma ChainSecondStep(s: string)
    requires s == "pow(x, y^z) "
    ensures RewriteAll(s) == Ok("pow(x, pow(y, z)) ")
  {
    var t := "pow(x, pow(y, z)) ";
    assert '^' !in t;
    assert Splice(s, Bounds(7, 8), Bounds(9, 11)) == t by {
      assert s[..7] == "pow(x, " && s[7..8] == "y" && s[9..11] == "z)" && s[11..] == " ";
    }
    assert s[8] == '^' && '^' !in s[..8] by {
      assert s[..8] == "pow(x, y";
    }
    ChainSecondBounds(s);
    RewriteStep(s, 8, Bounds(7, 8), Bounds(9, 11));
  }

  /** The two ranges at the caret of `pow(x, y^z) `. */
  lemma ChainSecondBounds(s: string)
    requires s == "pow(x, y^z) "
    ensures OperandBounds(s, 8, false) == Ok(Bounds(7, 8))
    ensures OperandBounds(s, 8, true) == Ok(Bounds(9, 11))
  {
    assert OperandBounds(s, 8, false) == Ok(Bounds(7, 8)) by {
      assert SkipWhitespace(s, 7, false) == Ok(7);
      assert DelimiterBefore(s, 7) == 6;
    }
    assert OperandBounds(s, 8, true) == Ok(Bounds(9, 11)) by {
      assert SkipWhitespace(s, 9, true) == Ok(9);
      assert DelimiterAfter(s, 10) == Ok(11);
      assert DelimiterAfter(s, 9) == Ok(11);
    }
  }

  /** A bracketed exponent: its range stops before the closing bracket, which
      the kept rest of the text then supplies. */
  lemma TraceBracketedExponent(s: string)
    requires s == "x^(y) "
    ensures RewriteAll(s) == Ok("pow(x, (y)) ")
  {
    var t := "pow(x, (y)) ";
    assert '^' !in t;
    assert Splice(s, Bounds(0, 1), Bounds(2, 4)) == t by {
      assert s[..0] == "" && s[0..1] == "x" && s[2..4] == "(y" && s[4..] == ") ";
    }
    assert s[1] == '^' && '^' !in s[..1] by {
      assert s[..1] == "x";
    }
    BracketedExponentBounds(s);
    RewriteStep(s, 1, Bounds(0, 1), Bounds(2, 4));
  }

  /** The two ranges at the caret of `x^(y) `. */
  lemma BracketedExponentBounds(s: string)
    requires s == "x^(y) "
    ensures OperandBounds(s, 1, false) == Ok(Bounds(0, 1))
    ensures OperandBounds(s, 1, true) == Ok(Bounds(2, 4))
  {
    assert OperandBounds(s, 1, false) == Ok(Bounds(0, 1)) by {
      assert SkipWhitespace(s, 0, false) == Ok(0);
      assert DelimiterBefore(s, 0) == -1;
    }
    assert OperandBounds(s, 1, true) == Ok(Bounds(2, 4)) by {
      assert SkipWhitespace(s, 2, true) == Ok(2);
      assert MatchBracket(s, 3, 1, true) == Ok(4);
      assert MatchBracket(s, 2, 1, true) == Ok(4);
    }
  }

  /** A bracketed base: its range starts after the opening bracket, which the
      kept prefix holds, so the brackets end up around `pow(a)`. */
  lemma TraceBracketedBase(s: string)
    requires s == "(a)^2 "
    ensures RewriteAll(s) == Ok("(pow(a), 2) ")
  {
    var t := "(pow(a), 2) ";
    assert '^' !in t;
    assert Splice(s, Bounds(1, 3), Bounds(4, 5)) == t by {
      assert s[..1] == "(" && s[1..3] == "a)" && s[4..5] == "2" && s[5..] == " ";
    }
    assert s[3] == '^' && '^' !in s[..3] by {
      assert s[..3] == "(a)";
    }
    BracketedBaseBounds(s);
    RewriteStep(s, 3, Bounds(1, 3), Bounds(4, 5));
  }

  /** The two ranges at the caret of `(a)^2 `. */
  lemma BracketedBaseBounds(s: string)
    requires s == "(a)^2 "
    ensures OperandBounds(s, 3, false) == Ok(Bounds(1, 3))
    ensures OperandBounds(s, 3, true) == Ok(Bounds(4, 5))
  {
    assert OperandBounds(s, 3, false) == Ok(Bounds(1, 3)) by {
      assert SkipWhitespace(s, 2, false) == Ok(2);
      assert MatchBracket(s, 1, 1, false) == Ok(0);
      assert MatchBracket(s, 2, 1, false) == Ok(0);
    }
    assert OperandBounds(s, 3, true) == Ok(Bounds(4, 5)) by {
      assert SkipWhitespace(s, 4, true) == Ok(4);
      assert DelimiterAfter(s, 4) == Ok(5);
    }
  }

  /** A bare exponent at the very end: the delimiter scan reads past the end. */
  lemma TraceExponentAtEnd(s: string)
    requires s == "x^2"
    ensures RewriteAll(s) == Err(IndexError)
  {
    assert s[1] == '^' && '^' !in s[..1] by {
      assert s[..1] == "x";
    }
    assert OperandBounds(s, 1, false) == Ok(Bounds(0, 1)) by {
      assert SkipWhitespace(s, 0, false) == Ok(0);
      assert DelimiterBefore(s, 0) == -1;
    }
    assert OperandBounds(s, 1, true) == Err(IndexError) by {
      assert SkipWhitespace(s, 2, true) == Ok(2);
      assert DelimiterAfter(s, 2) == Err(IndexError);
    }
    RewriteFailsOnPower(s, 1, IndexError);
  }
}

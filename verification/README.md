# AutoActivityUpdater: the caret-to-`pow` rewriter and link descriptors

This project models, in Dafny, the logic of `Utils.py` in AutoActivityUpdater:

- **The caret rewriter.** `get_operand_bounds` finds the operand on one side of
  a `^`. It skips whitespace away from the operator. If the character it reaches
  opens a bracket in the scan direction, it counts brackets to the matching one.
  Otherwise it runs to the nearest delimiter: whitespace or one of `+ - * /`.
  It returns a half-open range `[lo, hi)`. `update_pow_expr` rewrites the
  leftmost `x^y` as `pow(x, y)`. `update_pow_expressions` repeats that until no
  caret is left.
- **Link descriptors.** `LinkInfo` reads a descriptor such as
  `Lesson Example #3 Pre-Board` into four flags and a number.
  `get_board_id` names the board element.

Files:

- `wrappers.dfy`: `Option` and `Result`.
- `pytext.dfy` (module `PyText`): `is_whitespace` (`IsWhitespace`), `is_operand`
  (`IsOperand`), Python's `s[i]` up to the wrap-around (`CharAt`; the full
  reading, negative indices included, is `WrapAround.PyAt`) and `str.find`
  (`Find`).
- `operands.dfy` (module `Operands`): `get_operand_bounds`. Each of its loops is
  a recursive function (`SkipWhitespace`, `MatchBracket`, `DelimiterAfter`,
  `DelimiterBefore`, put together in `OperandBounds`) and a method with the
  source's `while` loop, proved to compute that function (`GetOperandBounds`
  and the four `...Loop` methods). Lemmas then say what the ranges are.
- `pow_rewrite.dfy` (module `PowRewrite`): `update_pow_expr` (`UpdatePowExpr`),
  `update_pow_expressions` as a function (`RewriteAll`) and as the source's loop
  (`UpdatePowExpressions`), and the caret-count argument.
- `traces.dfy` (module `Traces`): five inputs worked through to their results.
- `activity.dfy` (module `Activity`): `get_board_id`, `str.split()`, and the
  class `LinkInfo`. Its field `currInfo` is the `curr_info` dictionary. The
  constructor runs the token loop. The predicates `IsLesson`, `IsPre`,
  `IsPost`, `IsExample` and `HasNum` are `is_lesson` … `has_num`.
- `wrap_around.dfy` (module `WrapAround`): `get_operand_bounds` and
  `update_pow_expr` with Python's negative indices and slice bounds followed
  (`OperandBoundsPy`, `UpdatePowExprPy`). Lemmas show that they agree with the
  model wherever the model does not stop at a negative index, and work
  through an input on which following the wrap-around keeps the caret.

How errors are modelled. Python raises `IndexError` when an index is past
either end. The model returns `Err(IndexError)` there. A negative index from
`-len` to `-1` is not an error in Python: it reads from the end of the string.
The model returns `Err(WrapsAround)` at that point instead of going on (see
"Left out" and "Findings"). `WrapAround` follows the wrap instead, and proves
that the two readings agree whenever the model does not stop that way. So the scanning and rewriting functions (`OperandBounds`, `UpdatePowExpr`,
`RewriteAll`) have no precondition, and each error case is part of a contract
rather than excluded by a `requires`.

What the code does, in detail:

- Existing `pow(...)` calls are left as they are.
- Ranges are half-open.
- A bare operand runs to the next whitespace or `+ - * /`, so it can include
  `^`, letters and brackets.
- Bracketed operands keep their brackets, not always in a balanced way:
  `x^(y) ` becomes `pow(x, (y)) ` and `(a)^2 ` becomes `(pow(a), 2) `.
- The output is `pow(base, power)`, with a space after the comma.
- Chains nest to the right: `x^y^z ` becomes `pow(x, pow(y, z)) `, because the
  first exponent absorbs the second caret.
- `str.split()` separates tokens at the characters Python's `str.isspace`
  accepts, listed in `Activity.IsSpace`.

## Model

| member | source | states |
|---|---|---|
| PyText.IsWhitespace | Utils.py:68-69 | membership in `string.whitespace`; a whitespace character is never a caret or a bracket |
| PyText.IsOperand | Utils.py:71-73 | membership in `['+', '-', '*', '/']`; an operator character is never whitespace, a caret or a bracket |
| PyText.CharAt | Utils.py:98-125 | a read succeeds exactly inside the string and gives `s[i]`; it is IndexError exactly past either end; the remaining negative indices are the wrap-around stop |
| PyText.Find | Utils.py:137 | `find('^')` is -1 exactly when there is no caret; otherwise it is an index holding a caret with none before it |
| PyText.FindIs | Utils.py:150 | the index of a caret with no caret before it is the one `find` returns |
| Operands.SkipWhitespace | Utils.py:95-99 | the stop is the first non-whitespace index in the scan direction, with only whitespace passed over; running off the end is IndexError, and running below 0 is the wrap-around case, both after only whitespace |
| Operands.MatchBracket | Utils.py:100-111 | a successful bracket scan stops on a closing bracket of the scan direction, strictly beyond its start; failing forward is IndexError, failing backward is the wrap-around case |
| Operands.DelimiterAfter | Utils.py:116-121 | the result is the first index after the start holding whitespace or `+ - * /`; with none, IndexError |
| Operands.DelimiterBefore | Utils.py:122-126 | the result is the last index before the start holding a delimiter, or -1 when there is none |
| Operands.OperandBounds | Utils.py:76-132 | a returned range is non-empty and inside the string, `0 <= lo < hi <= len`; the following operand starts after the operator with only whitespace between them; the preceding operand ends at or before the operator with only whitespace between them |
| Operands.GetOperandBounds | Utils.py:76-132 | the method with the source's three loops returns exactly `OperandBounds` |
| Operands.SkipWhitespaceLoop | Utils.py:95-99 | the whitespace-skipping loop computes `SkipWhitespace` |
| Operands.BracketLoop | Utils.py:100-111 | the bracket-counting loop computes `MatchBracket` from a count of 1 |
| Operands.DelimiterAfterLoop | Utils.py:116-121 | the forward delimiter loop computes `DelimiterAfter` |
| Operands.DelimiterBeforeLoop | Utils.py:122-126 | the backward delimiter loop computes `DelimiterBefore` |
| Operands.LevelIsDepth | Utils.py:103-111 | the forward running count after a stretch is the start count plus openers minus closers in it |
| Operands.LevelBackIsDepth | Utils.py:103-111 | the same for the backward scan, where `)` opens and `(` closes |
| Operands.MatchBracketForward | Utils.py:103-111 | the forward scan returns the first index at which the running count reaches 0; it fails only if the count stays positive to the end of the string |
| Operands.MatchBracketBackward | Utils.py:103-111 | the backward scan returns the first index, going left, at which the running count reaches 0; it fails only if the count stays positive down to index 0 |
| Operands.DepthsAfterOpener | Utils.py:100-104 | after an opening bracket, the depth of every prefix equals the scan's count started at 1 |
| Operands.DepthsBeforeCloser | Utils.py:100-104 | before a closing bracket, the depth of every suffix equals the backward count started at 1 |
| Operands.BracketedFollowingOperand | Utils.py:100-129 | a bracketed exponent runs from its `(` up to, not including, the first `)` where the depth returns to 0, with depth positive before it; unbalanced, it is IndexError with the depth positive to the end |
| Operands.PrecedingBracketResult | Utils.py:100-132 | with a `)` before the caret, the base range is `[m + 1, hi)` for the index `m` the backward bracket scan returns, or that scan's error |
| Operands.BracketedPrecedingOperand | Utils.py:100-132 | a bracketed base ends just after its `)` and starts just after the matching `(`, the first going left where the depth returns to 0; unbalanced, it is the wrap-around case with the depth positive down to 0 |
| Operands.BareFollowingOperand | Utils.py:116-121 | a bare exponent starts at the first non-whitespace after the caret and ends before the next delimiter; nothing between is a delimiter (so `^` and brackets belong to it); with no later delimiter, IndexError |
| Operands.BarePrecedingOperand | Utils.py:122-132 | a bare base ends one past the nearest non-whitespace before the caret and starts just after the nearest earlier delimiter, or at 0; this case never fails |
| PowRewrite.Splice | Utils.py:141-146 | the text before the base and after the exponent is kept as it is; the length changes by the seven inserted characters minus the dropped gap |
| PowRewrite.CaretsOfRewrite | Utils.py:141-146 | the inserted `pow(`, `, ` and `)` hold no caret, so the rewrite loses exactly the carets of the dropped gap |
| PowRewrite.SpliceRemovesOneCaret | Utils.py:141-146 | with only whitespace between each range and the caret, the rewritten text has exactly one caret fewer |
| PowRewrite.RewriteSites | Utils.py:137-146 | the text is prefix, base, gap, exponent and rest in order; the prefix has no caret; the gap holds only whitespace and the one caret |
| PowRewrite.UpdatePowExpr | Utils.py:135-146 | the rewrite succeeds exactly when both operand scans succeed, and then removes exactly one caret |
| PowRewrite.UpdatePowExprRewritesLeftmostCaret | Utils.py:135-146 | the result is `prefix + "pow(" + base + ", " + power + ")" + rest`, the prefix and the rest being kept as they are; the prefix has no caret; the dropped gap is only whitespace and the leftmost caret |
| PowRewrite.RewriteAll | Utils.py:148-155 | it terminates, because every rewrite removes one caret; a result has no caret; text without a caret comes back unchanged |
| PowRewrite.UpdatePowExpressions | Utils.py:148-155 | the source's loop computes `RewriteAll`, and what it returns has no caret |
| PowRewrite.RewriteAllIdempotent | Utils.py:148-155 | rewriting a result again gives the same result |
| Traces.RewriteStep | Utils.py:148-155 | once both ranges at the leftmost caret are known, the loop goes on with the rewritten text |
| Traces.RewriteFailsOnPower | Utils.py:148-155 | when the exponent scan fails at the leftmost caret, the whole loop fails with that error |
| Traces.TraceBareOperands | Utils.py:135-155 | `a*b^c+d` becomes `a*pow(b, c)+d` |
| Traces.TraceChainNestsRight | Utils.py:135-155 | `x^y^z ` becomes `pow(x, pow(y, z)) ` |
| Traces.ChainFirstStep | Utils.py:135-146 | the first round on `x^y^z ` gives `pow(x, y^z) ` |
| Traces.BareOperandsBounds | Utils.py:116-126 | in `a*b^c+d` the base is `[2, 3)` and the exponent `[4, 5)` |
| Traces.ChainSecondBounds | Utils.py:116-126 | in `pow(x, y^z) ` the base is `[7, 8)` and the exponent `[9, 11)` |
| Traces.BracketedExponentBounds | Utils.py:100-126 | in `x^(y) ` the base is `[0, 1)` and the exponent `[2, 4)` |
| Traces.BracketedBaseBounds | Utils.py:100-132 | in `(a)^2 ` the base is `[1, 3)` and the exponent `[4, 5)` |
| Traces.ChainFirstBounds | Utils.py:116-126 | in `x^y^z ` the base is `[0, 1)` and the exponent `[2, 5)`, which takes in the second caret |
| Traces.ChainSecondStep | Utils.py:135-155 | `pow(x, y^z) ` becomes `pow(x, pow(y, z)) `; the exponent is `z)` |
| Traces.TraceBracketedExponent | Utils.py:100-111 | `x^(y) ` becomes `pow(x, (y)) `; the exponent range stops before its `)` |
| Traces.TraceBracketedBase | Utils.py:128-132 | `(a)^2 ` becomes `(pow(a), 2) `; the base range starts after its `(` |
| Traces.TraceExponentAtEnd | Utils.py:116-121 | `x^2` fails with IndexError: the exponent scan reads past the end |
| Activity.GetBoardId | Utils.py:13-15 | the id is `preBoard` exactly for the pre-board and `postBoard` exactly for the post-board |
| Activity.WordLength | Utils.py:27 | a word is a non-empty run of non-separators ending at a separator or at the end of the text |
| Activity.Split | Utils.py:27 | every token of `str.split()` is non-empty and holds no separator |
| Activity.SplitWordThenSpace | Utils.py:27 | a word followed by a separator is one whole token, followed by the tokens of the rest: no token is cut inside a word |
| Activity.SplitLastWord | Utils.py:27 | a word at the end of the text is one whole token |
| Activity.SplitKeepsEverythingButSpaces | Utils.py:27 | the tokens joined together are the text with its separators removed |
| Activity.Describe | Utils.py:19-37 | all five keys are present; each flag is 1 exactly when its keyword is a token, and otherwise 0; `N` is a digit |
| Activity.LastNumber | Utils.py:36-37 | the number is one decimal digit, 0 to 9 |
| Activity.LastNumberWithoutNumberTokens | Utils.py:19-37 | with no number token, `N` stays at its default 0 |
| Activity.LastNumberIsFromLastNumberToken | Utils.py:36-37 | `N` is the last character's digit of the last number token (a single digit, or `#` followed by text ending in a digit); earlier ones are overwritten |
| Activity.DescribeOneMore | Utils.py:27-37 | one more token sets the flag of its keyword, replaces `N` if it is a number token, and otherwise changes nothing |
| Activity.SplitExample | Utils.py:27 | `Lesson #12 Pre-Board` splits into `Lesson`, `#12` and `Pre-Board` |
| Activity.DescribeExample | Utils.py:19-37 | the descriptor text `Lesson #12 Pre-Board` splits into three tokens and gives `L = 1`, `Pr = 1`, `Po = 0`, `E = 0` and `N = 2` |
| Activity.DescribeTokensExample | Utils.py:28-37 | the tokens `Lesson`, `#12`, `Pre-Board` give those values |
| Activity.DigitString | Utils.py:65 | `str(N)` for a digit is one character, and that character is the digit `N` |
| Activity.LinkInfo.constructor | Utils.py:18-37 | every key of `curr_info` is present, with flags 0 or 1 and `N` a digit; `L`, `Pr`, `Po` and `E` are 1 exactly when `Lesson`, `Pre-Board`, `Post-Board` and `Example` are among the tokens; `N` is that of the last number token |
| Activity.LinkInfo.IsLesson | Utils.py:49-50 | true exactly when the `L` flag is 1 |
| Activity.LinkInfo.IsPre | Utils.py:52-53 | true exactly when the `Pr` flag is 1 |
| Activity.LinkInfo.IsPost | Utils.py:55-56 | true exactly when the `Po` flag is 1 |
| Activity.LinkInfo.IsExample | Utils.py:58-59 | true exactly when the `E` flag is 1 |
| Activity.LinkInfo.HasNum | Utils.py:61-62 | true exactly when the number is one of 1 to 9 |
| Activity.LinkInfo.GetNumStr | Utils.py:64-66 | None exactly when `N` is 0; otherwise the one-character string of `N` |
| WrapAround.PyAt | Utils.py:98-125 | Python's `s[i]`: it succeeds exactly for `-len <= i < len`, reading `s[len + i]` for a negative index and `s[i]` otherwise; outside that range it is IndexError |
| WrapAround.SliceBound | Utils.py:141-146 | a slice bound as Python adjusts it: a negative bound counts from the end, and the result is clamped to `[0, len]` |
| WrapAround.PySlice | Utils.py:141-146 | Python's `s[a:b]`: the characters from the adjusted `a` up to the adjusted `b`, and empty when the adjusted `a` is not below the adjusted `b` |
| WrapAround.SkipWhitespacePy | Utils.py:95-99 | the whitespace skip as written, with negative indices read from the end, stops on an index between `-len` and `len - 1` whose character is not whitespace; `SkipWhitespaceAgrees` ties it to the model |
| WrapAround.MatchBracketPy | Utils.py:100-111 | the bracket scan as written, with negative indices read from the end; `MatchBracketAgrees` ties it to the model |
| WrapAround.DelimiterAfterPy | Utils.py:116-121 | the forward delimiter scan as written; `DelimiterAfterAgrees` ties it to the model |
| WrapAround.DelimiterBeforePy | Utils.py:122-126 | the backward delimiter scan as written: from a negative index the loop does not run and the result is that index; from `i >= 0` the result lies in `[-1, i)`, and a non-negative result holds a delimiter |
| WrapAround.OperandBoundsPy | Utils.py:76-132 | `get_operand_bounds` as written, with negative indices read from the end; `OperandBoundsAgrees` ties it to the model |
| WrapAround.UpdatePowExprPy | Utils.py:135-146 | `update_pow_expr` as written, with Python's slice bounds; `UpdatePowExprAgrees` ties it to the model |
| WrapAround.SkipWhitespaceAgrees | Utils.py:95-99 | on every input where the model's skip does not return the wrap-around error, the skip as written returns the same result as the model |
| WrapAround.MatchBracketAgrees | Utils.py:100-111 | on every input where the model's bracket scan does not return the wrap-around error, the scan as written returns the same result as the model |
| WrapAround.DelimiterAfterAgrees | Utils.py:116-121 | the forward delimiter scan as written always gives the model's result |
| WrapAround.OperandBoundsAgrees | Utils.py:76-132 | on every input where `OperandBounds` does not return the wrap-around error, `get_operand_bounds` as written returns the same result as `OperandBounds` |
| WrapAround.SpliceInside | Utils.py:141-146 | with both ranges inside the text, the Python slices put together are the model's splice |
| WrapAround.UpdatePowExprAgrees | Utils.py:135-146 | on every input where `UpdatePowExpr` does not return the wrap-around error, `update_pow_expr` as written returns the same result as `UpdatePowExpr` |
| WrapAround.LeadingCaretBounds | Utils.py:95-132 | for `^2 ` as written, the base range is `[-1, -1)` (the scan wraps to the end) and the exponent range is `[1, 2)` |
| WrapAround.LeadingCaretText | Utils.py:141-146 | for `^2 ` as written, the slices put together give `^2pow(, 2) ` |
| WrapAround.LeadingCaretCount | Utils.py:137 | `^2 ` and `^2pow(, 2) ` each have one caret, at index 0 |
| WrapAround.LeadingCaretSurvives | Utils.py:135-146 | for `^2 ` as written, the result is `^2pow(, 2) `: the caret is still at index 0 and the number of carets is unchanged |
| WrapAround.LeadingCaretStops | Utils.py:148-155 | the model stops on `^2 ` with the wrap-around error, both for one round and for the whole loop |

## Left out

- OperandBounds: a negative index from `-len` to `-1` is not followed. Python
  reads from the end of the string there; the model stops with `WrapsAround`.
  This is reached by a caret at index 0, by an unbalanced `)` in a base, and
  by text made only of whitespace before the caret. `WrapAround` follows the
  wrap for one round of the rewrite and shows the two agree everywhere else;
  the loop as written is not followed past a wrapped round.
- CharAt, SkipWhitespace, MatchBracket: the same wrap-around stop as in
  OperandBounds: a read at `-len <= i < 0` returns `Err(WrapsAround)` where
  Python reads `s[len + i]`.
- SkipWhitespaceAgrees: says nothing about inputs where the model returns the
  wrap-around error; there the skip as written goes on from the end of the text.
- MatchBracketAgrees: says nothing about inputs where the model returns the
  wrap-around error; there the scan as written goes on from the end of the text.
- OperandBoundsAgrees: says nothing about inputs where the model returns the
  wrap-around error; `LeadingCaretBounds` works one of them through.
- UpdatePowExprAgrees: says nothing about inputs where the model returns the
  wrap-around error; `LeadingCaretSurvives` works one of them through.
- UpdatePowExpr, RewriteAll, UpdatePowExpressions: inherit that stop. Where
  Python would go on rewriting with wrapped indices, the model returns
  `Err(WrapsAround)`.
- DelimiterBeforeLoop: when the index reaches -1, Python reads `s[-1]` before
  the loop ends. The loop ends at -1 whatever that character is, so the model
  skips the read.
- IsDigit: `str.isdigit` also accepts non-ASCII digits, for which `int()` then
  either gives a value or raises. The model accepts ASCII `0`-`9` only.
- The dead `operand_end` assignment (Utils.py:113-114) changes nothing and has
  no counterpart.
- `LinkInfo.__str__` (Utils.py:39-47) builds a string but never returns it.
  It is not modelled.
- `get_curr_dir`, `append_cur_dir` and `write_to_file` are file-system I/O, and
  `parse_out_links` reads a file. They are not part of this model.
- AutoActivityUpdater.py, DriverUtils.py and SeleniumUtils.py drive a browser.
  They are not part of this model. Neither is the older copy of the rewriter
  in AutoActivityUpdater.py.
- Python's exceptions are the `Err` side of a `Result`. The model does not
  carry the exception's message.

## Findings

| source | as written | input that shows it | evidently intended | confidence | as-written member | corrected member |
|---|---|---|---|---|---|---|
| Utils.py:95-146 | with the caret at index 0 and whitespace at the end of the text, the base scan reads `s[-1]`, `s[-2]`, … from the end of the text, and the base range has a negative lower bound (`[-1, -1)` when the last non-whitespace character is not `)`); the prefix `s[0:lo]` then keeps the caret | `^2 ` becomes `^2pow(, 2) `, which has the caret at index 0 again and as many carets as before, so the next round starts from the same caret | each round removes the leftmost caret or raises, so that the loop ends | not executed | WrapAround.LeadingCaretSurvives | PowRewrite.UpdatePowExpr |

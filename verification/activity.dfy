/**
 * The descriptor side of Utils.py: `get_board_id` and `LinkInfo`, which reads
 * a link's descriptor text ("Lesson Example #3 Pre-Board", say) into flags and
 * a number.
 */
module Activity {
  import opened Wrappers

  /** `get_board_id` (Utils.py:13-15): the element id of the chosen board. */
  function GetBoardId(isPreboard: bool): (id: string)
    ensures id == "preBoard" <==> isPreboard
    ensures id == "postBoard" <==> !isPreboard
  {
    if isPreboard then "preBoard" else "postBoard"
  }

  /** The separators of Python's `str.split()` with no argument (`str.isspace`). */
  predicate IsSpace(c: char) {
    '\U{9}' <= c <= '\U{D}' || '\U{1C}' <= c <= ' ' || c == '\U{85}' || c == '\U{A0}' ||
    c == '\U{1680}' || '\U{2000}' <= c <= '\U{200A}' || c == '\U{2028}' || c == '\U{2029}' ||
    c == '\U{202F}' || c == '\U{205F}' || c == '\U{3000}'
  }

  /** The characters of `s` that are not separators, in order. */
  function NonSpace(s: string): string {
    if s == [] then []
    else (if IsSpace(s[0]) then [] else [s[0]]) + NonSpace(s[1..])
  }

  /** The strings of `ts` joined end to end. */
  function Concat(ts: seq<string>): string {
    if ts == [] then [] else ts[0] + Concat(ts[1..])
  }

  /** The length of the run of non-separators at the start of `s`. */
  function WordLength(s: string): (n: nat)
    requires s != [] && !IsSpace(s[0])
    ensures 0 < n <= |s|
    ensures forall k | 0 <= k < n :: !IsSpace(s[k])
    ensures n < |s| ==> IsSpace(s[n])
  {
    if |s| == 1 || IsSpace(s[1]) then 1 else 1 + WordLength(s[1..])
  }

  /** `str.split()` with no argument: the maximal runs of non-separators, in order. */
  function Split(s: string): (tokens: seq<string>)
    ensures forall t <- tokens :: t != [] && forall c <- t :: !IsSpace(c)
    decreases |s|
  {
    if s == [] then []
    else if IsSpace(s[0]) then Split(s[1..])
    else
      var n := WordLength(s);
      [s[..n]] + Split(s[n..])
  }

  /** A string with no separator in it is its own `NonSpace`. */
  lemma {:induction false} NonSpaceOfWord(w: string)
    requires forall c <- w :: !IsSpace(c)
    ensures NonSpace(w) == w
  {
    if w != [] {
      NonSpaceOfWord(w[1..]);
      assert w == [w[0]] + w[1..];
    }
  }

  /** `NonSpace` distributes over concatenation. */
  lemma {:induction false} NonSpaceConcat(a: string, b: string)
    ensures NonSpace(a + b) == NonSpace(a) + NonSpace(b)
  {
    if a == [] {
      assert a + b == b;
    } else {
      assert (a + b)[0] == a[0] && (a + b)[1..] == a[1..] + b;
      NonSpaceConcat(a[1..], b);
    }
  }

  /** Splitting loses only the separators: the tokens joined back together
      are the input with its separators removed. */
  lemma {:induction false} SplitKeepsEverythingButSpaces(s: string)
    ensures Concat(Split(s)) == NonSpace(s)
    decreases |s|
  {
    if s != [] {
      if IsSpace(s[0]) {
        SplitKeepsEverythingButSpaces(s[1..]);
      } else {
        var n := WordLength(s);
        SplitKeepsEverythingButSpaces(s[n..]);
        assert s == s[..n] + s[n..];
        NonSpaceConcat(s[..n], s[n..]);
        NonSpaceOfWord(s[..n]);
        assert Split(s)[1..] == Split(s[n..]);
      }
    }
  }

  /** A word followed by a separator is one whole token: `str.split()` cuts at
      the separator and nowhere inside the word. */
  lemma {:induction false} SplitWordThenSpace(w: string, c: char, rest: string)
    requires w != [] && (forall x <- w :: !IsSpace(x)) && IsSpace(c)
    ensures Split(w + [c] + rest) == [w] + Split(rest)
  {
    var s := w + [c] + rest;
    WordOfWord(w, [c] + rest);
    assert s == w + ([c] + rest);
    assert s[|w|..] == [c] + rest;
    assert Split(s[|w|..]) == Split(rest) by {
      assert ([c] + rest)[1..] == rest;
    }
  }

  /** A word at the end of the text is the last token, whole. */
  lemma SplitLastWord(w: string)
    requires w != [] && forall x <- w :: !IsSpace(x)
    ensures Split(w) == [w]
  {
    WordOfWord(w, []);
    assert w + [] == w;
  }

  /** The run at the start of `w + rest` is all of `w` when `w` has no
      separator and `rest` is empty or starts with one. */
  lemma {:induction false} WordOfWord(w: string, rest: string)
    requires w != [] && (forall x <- w :: !IsSpace(x))
    requires rest == [] || IsSpace(rest[0])
    ensures WordLength(w + rest) == |w|
    ensures (w + rest)[..|w|] == w && (w + rest)[|w|..] == rest
  {
    if |w| > 1 {
      WordOfWord(w[1..], rest);
      assert (w + rest)[1..] == w[1..] + rest;
    }
  }

  /** ASCII decimal digits (see the notes on `str.isdigit`). */
  predicate IsDigit(c: char) {
    '0' <= c <= '9'
  }

  function DigitValue(c: char): int
    requires IsDigit(c)
  {
    c as int - '0' as int
  }

  /** A token that sets the number (Utils.py:36): it ends in a digit and is
      either that digit alone or starts with `#`. */
  predicate IsNumberToken(t: string) {
    t != [] && IsDigit(t[|t| - 1]) && (|t| == 1 || t[0] == '#')
  }

  /** The number the last number token in `ts` gives, or 0 when there is none. */
  function LastNumber(ts: seq<string>): (n: int)
    ensures 0 <= n <= 9
  {
    if ts == [] then 0
    else if IsNumberToken(ts[|ts| - 1]) then DigitValue(ts[|ts| - 1][|ts[|ts| - 1]| - 1])
    else LastNumber(ts[..|ts| - 1])
  }

  /** With no number token, `LastNumber` is 0. */
  lemma {:induction false} LastNumberWithoutNumberTokens(ts: seq<string>)
    requires forall i | 0 <= i < |ts| :: !IsNumberToken(ts[i])
    ensures LastNumber(ts) == 0
  {
    if ts != [] {
      var init := ts[..|ts| - 1];
      assert forall i | 0 <= i < |init| :: init[i] == ts[i];
      LastNumberWithoutNumberTokens(init);
    }
  }

  /** Otherwise `LastNumber` is the digit ending the last number token `ts[i]`:
      earlier number tokens are overwritten. */
  lemma {:induction false} LastNumberIsFromLastNumberToken(ts: seq<string>, i: int)
    requires 0 <= i < |ts| && IsNumberToken(ts[i])
    requires forall j | i < j < |ts| :: !IsNumberToken(ts[j])
    ensures LastNumber(ts) == DigitValue(ts[i][|ts[i]| - 1])
  {
    if i < |ts| - 1 {
      var init := ts[..|ts| - 1];
      assert init[i] == ts[i];
      assert forall j | i < j < |init| :: init[j] == ts[j];
      LastNumberIsFromLastNumberToken(init, i);
    }
  }

  function Flag(b: bool): int {
    if b then 1 else 0
  }

  /** A `curr_info` dictionary with the given entries. */
  function Info(l: int, pr: int, po: int, e: int, n: int): map<string, int> {
    map["L" := l, "Pr" := pr, "Po" := po, "E" := e, "N" := n]
  }

  // SetL … SetN and InAppend are one-line facts about `Info` and `in`. Dafny
  // proves each on its own; `DescribeOneMore` calls them so that its own
  // proof stays small.

  lemma SetL(l: int, pr: int, po: int, e: int, n: int)
    ensures Info(l, pr, po, e, n)["L" := 1] == Info(1, pr, po, e, n)
  {
  }

  lemma SetPr(l: int, pr: int, po: int, e: int, n: int)
    ensures Info(l, pr, po, e, n)["Pr" := 1] == Info(l, 1, po, e, n)
  {
  }

  lemma SetPo(l: int, pr: int, po: int, e: int, n: int)
    ensures Info(l, pr, po, e, n)["Po" := 1] == Info(l, pr, 1, e, n)
  {
  }

  lemma SetE(l: int, pr: int, po: int, e: int, n: int)
    ensures Info(l, pr, po, e, n)["E" := 1] == Info(l, pr, po, 1, n)
  {
  }

  lemma SetN(l: int, pr: int, po: int, e: int, n: int, n': int)
    ensures Info(l, pr, po, e, n)["N" := n'] == Info(l, pr, po, e, n')
  {
  }

  /** The `curr_info` the descriptor with tokens `ts` leads to (Utils.py:19-37):
      each flag is 1 exactly when its word is among the tokens; the number is
      that of the last number token. */
  function Describe(ts: seq<string>): (info: map<string, int>)
    ensures info.Keys == {"L", "Pr", "Po", "E", "N"}
    ensures info["L"] == 1 <==> "Lesson" in ts
    ensures info["Pr"] == 1 <==> "Pre-Board" in ts
    ensures info["Po"] == 1 <==> "Post-Board" in ts
    ensures info["E"] == 1 <==> "Example" in ts
    ensures forall k <- ["L", "Pr", "Po", "E"] :: info[k] in {0, 1}
    ensures 0 <= info["N"] <= 9
  {
    Info(Flag("Lesson" in ts), Flag("Pre-Board" in ts), Flag("Post-Board" in ts),
         Flag("Example" in ts), LastNumber(ts))
  }

  /** How one more token changes `Describe`: a keyword sets its flag, a number
      token replaces the number, anything else changes nothing. */
  lemma DescribeOneMore(ts: seq<string>, t: string)
    requires t != []
    ensures Describe(ts + [t]) ==
      if t == "Lesson" then Describe(ts)["L" := 1]
      else if t == "Pre-Board" then Describe(ts)["Pr" := 1]
      else if t == "Post-Board" then Describe(ts)["Po" := 1]
      else if t == "Example" then Describe(ts)["E" := 1]
      else if IsNumberToken(t) then Describe(ts)["N" := DigitValue(t[|t| - 1])]
      else Describe(ts)
  {
    var ts' := ts + [t];
    assert ts'[..|ts'| - 1] == ts;
    InAppend(ts, t, "Lesson");
    InAppend(ts, t, "Pre-Board");
    InAppend(ts, t, "Post-Board");
    InAppend(ts, t, "Example");
    var l, pr, po, e, n :=
      Flag("Lesson" in ts), Flag("Pre-Board" in ts), Flag("Post-Board" in ts),
      Flag("Example" in ts), LastNumber(ts);
    if t == "Lesson" {
      SetL(l, pr, po, e, n);
    } else if t == "Pre-Board" {
      SetPr(l, pr, po, e, n);
    } else if t == "Post-Board" {
      SetPo(l, pr, po, e, n);
    } else if t == "Example" {
      SetE(l, pr, po, e, n);
    } else if IsNumberToken(t) {
      assert LastNumber(ts') == DigitValue(t[|t| - 1]);
      SetN(l, pr, po, e, n, DigitValue(t[|t| - 1]));
    } else {
      assert LastNumber(ts') == n;
    }
  }

  lemma InAppend(ts: seq<string>, t: string, w: string)
    ensures w in ts + [t] <==> w in ts || w == t
  {
  }

  /** A worked descriptor: the text splits into three tokens; `#12` counts as a
      number token and gives its last digit, 2 (`12` alone would not count). */
  lemma DescribeExample(s: string)
    requires s == "Lesson #12 Pre-Board"
    ensures Split(s) == ["Lesson", "#12", "Pre-Board"]
    ensures Describe(Split(s)) == map["L" := 1, "Pr" := 1, "Po" := 0, "E" := 0, "N" := 2]
  {
    SplitExample(s);
    DescribeTokensExample(Split(s));
  }

  lemma DescribeTokensExample(ts: seq<string>)
    requires ts == ["Lesson", "#12", "Pre-Board"]
    ensures Describe(ts) == map["L" := 1, "Pr" := 1, "Po" := 0, "E" := 0, "N" := 2]
  {
    assert IsNumberToken("#12") && DigitValue('2') == 2;
    assert !IsNumberToken("Pre-Board");
    assert ts[..2] == ["Lesson", "#12"];
    assert LastNumber(["Lesson", "#12"]) == 2;
  }

  lemma SplitExample(s: string)
    requires s == "Lesson #12 Pre-Board"
    ensures Split(s) == ["Lesson", "#12", "Pre-Board"]
  {
    assert s == "Lesson" + [' '] + ("#12" + [' '] + "Pre-Board");
    VisibleWord("Lesson");
    VisibleWord("#12");
    VisibleWord("Pre-Board");
    SplitWordThenSpace("Lesson", ' ', "#12" + [' '] + "Pre-Board");
    SplitWordThenSpace("#12", ' ', "Pre-Board");
    SplitLastWord("Pre-Board");
  }

  /** Visible ASCII characters are not separators. */
  lemma VisibleWord(w: string)
    requires forall i | 0 <= i < |w| :: '!' <= w[i] <= '~'
    ensures forall x <- w :: !IsSpace(x)
  {
  }

  /** `str(n)` for a single decimal digit. */
  function DigitString(n: int): (s: string)
    requires 0 <= n <= 9
    ensures |s| == 1 && IsDigit(s[0]) && DigitValue(s[0]) == n
  {
    [('0' as int + n) as char]
  }

  /** `LinkInfo`: the flags and number read from one link descriptor. */
  class LinkInfo {
    var currInfo: map<string, int>

    /** The five keys are present; the flags are 0 or 1; the number is one digit. */
    ghost predicate Valid()
      reads this
    {
      currInfo.Keys == {"L", "Pr", "Po", "E", "N"} &&
      currInfo["L"] in {0, 1} && currInfo["Pr"] in {0, 1} &&
      currInfo["Po"] in {0, 1} && currInfo["E"] in {0, 1} &&
      0 <= currInfo["N"] <= 9
    }

    /** `LinkInfo.__init__` (Utils.py:18-37): every field starts at 0 and each
        token of the descriptor may set one of them. */
    constructor (descriptor: string)
      ensures Valid()
      ensures currInfo == Describe(Split(descriptor))
      ensures IsLesson() <==> "Lesson" in Split(descriptor)
      ensures IsPre() <==> "Pre-Board" in Split(descriptor)
      ensures IsPost() <==> "Post-Board" in Split(descriptor)
      ensures IsExample() <==> "Example" in Split(descriptor)
      ensures HasNum() <==> LastNumber(Split(descriptor)) != 0
    {
      currInfo := map["L" := 0, "Pr" := 0, "Po" := 0, "E" := 0, "N" := 0];
      new;
      var tokens := Split(descriptor);
      assert tokens[..0] == [];
      for i := 0 to |tokens|
        invariant currInfo == Describe(tokens[..i])
      {
        var token := tokens[i];
        assert token in tokens;
        assert tokens[..i + 1] == tokens[..i] + [token];
        DescribeOneMore(tokens[..i], token);
        if token == "Lesson" {
          currInfo := currInfo["L" := 1];
        } else if token == "Pre-Board" {
          currInfo := currInfo["Pr" := 1];
        } else if token == "Post-Board" {
          currInfo := currInfo["Po" := 1];
        } else if token == "Example" {
          currInfo := currInfo["E" := 1];
        } else if IsDigit(token[|token| - 1]) && (|token| == 1 || token[0] == '#') {
          currInfo := currInfo["N" := DigitValue(token[|token| - 1])];
        }
      }
      assert tokens[..|tokens|] == tokens;
    }

    /** `is_lesson` (Utils.py:49-50). */
    function IsLesson(): (b: bool)
      reads this
      requires Valid()
      ensures b <==> currInfo["L"] == 1
    {
      currInfo["L"] != 0
    }

    /** `is_pre` (Utils.py:52-53). */
    function IsPre(): (b: bool)
      reads this
      requires Valid()
      ensures b <==> currInfo["Pr"] == 1
    {
      currInfo["Pr"] != 0
    }

    /** `is_post` (Utils.py:55-56). */
    function IsPost(): (b: bool)
      reads this
      requires Valid()
      ensures b <==> currInfo["Po"] == 1
    {
      currInfo["Po"] != 0
    }

    /** `is_example` (Utils.py:58-59). */
    function IsExample(): (b: bool)
      reads this
      requires Valid()
      ensures b <==> currInfo["E"] == 1
    {
      currInfo["E"] != 0
    }

    /** `has_num` (Utils.py:61-62). */
    function HasNum(): (b: bool)
      reads this
      requires Valid()
      ensures b <==> 1 <= currInfo["N"] <= 9
    {
      currInfo["N"] != 0
    }

    /** `get_num_str` (Utils.py:64-66): the number as text, or None when it is 0.
        Reading the text back as a digit gives the number. */
    function GetNumStr(): (r: Option<string>)
      reads this
      requires Valid()
      ensures r.None? <==> !HasNum()
      ensures r.Some? ==> |r.value| == 1 && IsDigit(r.value[0]) && DigitValue(r.value[0]) == currInfo["N"]
    {
      if HasNum() then Some(DigitString(currInfo["N"])) else None
    }
  }
}

/**
 * Which queries share a mask: the four kinds of differences that sql/cluster_stmt_mask.sql is meant
 * to remove, in any context.
 */
module MaskVariants {
  import opened Regex
  import opened Text
  import opened QueryMask
  import opened MaskChainScan

  // ---- the first two rewrites as automata

  /** Blank runs to one space; `p`: a blank has just been seen. */
  function Squeeze(p: bool, s: string): string
    decreases |s|
  {
    if s == "" then ""
    else if s[0] in BLANKS then (if p then "" else " ") + Squeeze(true, s[1..])
    else [s[0]] + Squeeze(false, s[1..])
  }

  function AfterBlank(p: bool, s: string): bool {
    if s == "" then p else s[|s| - 1] in BLANKS
  }

  lemma {:induction false} SqueezeConcat(p: bool, a: string, b: string)
    ensures Squeeze(p, a + b) == Squeeze(p, a) + Squeeze(AfterBlank(p, a), b)
    decreases |a|
  {
    if a == "" {
      assert a + b == b;
    } else {
      var q := a[0] in BLANKS;
      var x := a[1..];
      assert a == [a[0]] + x && a + b == [a[0]] + (x + b);
      SqueezeConcat(q, x, b);
      assert AfterBlank(q, x) == AfterBlank(p, a);
    }
  }

  lemma {:induction false} SqueezeRun(run: string, tail: string)
    requires AllIn(run, BLANKS)
    ensures Squeeze(true, run + tail) == Squeeze(true, tail)
  {
    if run == "" {
      assert run + tail == tail;
    } else {
      assert (run + tail)[1..] == run[1..] + tail;
      SqueezeRun(run[1..], tail);
    }
  }

  lemma {:induction false} MaskSpacesIs(s: string)
    ensures MaskSpaces(s) == Squeeze(false, s)
    decreases |s|
  {
    if s != "" && s[0] in BLANKS {
      var run, tail := CutRun(s, BLANKS);
      BlankRun(run, tail);
      ReplaceHit(SPACES, Literal(" "), run, tail);
      MaskSpacesIs(tail);
      assert s[1..] == run[1..] + tail;
      SqueezeRun(run[1..], tail);
      assert Squeeze(true, tail) == Squeeze(false, tail);
    } else if s != "" {
      NoBlankNoMatch(s);
      assert s == [s[0]] + s[1..];
      ReplaceMiss(SPACES, Literal(" "), s[0], s[1..]);
      MaskSpacesIs(s[1..]);
    }
  }

  datatype Digits = Outside | Dollar | Number

  function Emit(q: Digits, c: char): string {
    if c !in DIGITS || q == Outside then [c] else if q == Dollar then "0" else ""
  }

  function Next(q: Digits, c: char): Digits {
    if c == '$' then Dollar else if c in DIGITS && q != Outside then Number else Outside
  }

  /** Parameter numbers to 0. */
  function Zeroing(q: Digits, s: string): string
    decreases |s|
  {
    if s == "" then "" else Emit(q, s[0]) + Zeroing(Next(q, s[0]), s[1..])
  }

  function After(q: Digits, s: string): Digits
    decreases |s|
  {
    if s == "" then q else After(Next(q, s[0]), s[1..])
  }

  lemma {:induction false} ZeroingConcat(q: Digits, a: string, b: string)
    ensures Zeroing(q, a + b) == Zeroing(q, a) + Zeroing(After(q, a), b)
    decreases |a|
  {
    if a == "" {
      assert a + b == b;
    } else {
      var x := a[1..];
      assert a == [a[0]] + x && a + b == [a[0]] + (x + b);
      ZeroingConcat(Next(q, a[0]), x, b);
    }
  }

  lemma {:induction false} MaskParamsIs(s: string)
    ensures MaskParams(s) == Zeroing(Outside, s)
    decreases |s|
  {
    if s != "" && s[0] == '$' && |s| > 1 && s[1] in DIGITS {
      var digits, tail := CutRun(s[1..], DIGITS);
      assert s == "$" + digits + tail;
      ParamRun(digits, tail);
      ReplaceHit(PARAM, Literal("$0"), "$" + digits, tail);
      MaskParamsIs(tail);
      ZeroingParam(digits, tail);
    } else if s != "" {
      NoParamHere(s);
      assert s == [s[0]] + s[1..];
      ReplaceMiss(PARAM, Literal("$0"), s[0], s[1..]);
      MaskParamsIs(s[1..]);
      assert Zeroing(Outside, s) == [s[0]] + Zeroing(Outside, s[1..]);
    }
  }

  lemma {:induction false} ZeroingParam(digits: string, tail: string)
    requires digits != "" && AllIn(digits, DIGITS) && (tail != "" ==> tail[0] !in DIGITS)
    ensures Zeroing(Outside, "$" + digits + tail) == "$0" + Zeroing(Outside, tail)
  {
    var x := "$" + digits;
    assert x[1..] == digits;
    NumberPassed(Outside, x);
    ZeroingConcat(Outside, x, tail);
    assert Zeroing(Number, tail) == Zeroing(Outside, tail);
  }

  // ---- blanks and numbers

  /** Any blank run can stand for any other. */
  lemma {:induction false} SameBlanks(p: string, w: string, v: string, s: string)
    requires In(SPACES, w) && In(SPACES, v)
    ensures Mask(p + w + s) == Mask(p + v + s)
  {
    BlanksSqueezed(p, w, s);
    BlanksSqueezed(p, v, s);
  }

  lemma {:induction false} BlanksSqueezed(p: string, w: string, s: string)
    requires In(SPACES, w)
    ensures MaskSpaces(p + w + s) == Squeeze(false, p) + (if AfterBlank(false, p) then "" else " ") + Squeeze(true, s)
  {
    RunSqueezed(AfterBlank(false, p), w);
    MaskSpacesIs(p + w + s);
    SqueezeConcat(false, p + w, s);
    SqueezeConcat(false, p, w);
    assert (p + w)[|p + w| - 1] == w[|w| - 1];
  }

  lemma {:induction false} RunSqueezed(p: bool, w: string)
    requires In(SPACES, w)
    ensures w != "" && Squeeze(p, w) == (if p then "" else " ") && w[|w| - 1] in BLANKS
  {
    PlusClass(BLANKS, w);
    assert w[1..] + "" == w[1..];
    SqueezeRun(w[1..], "");
    assert Squeeze(true, "") == "";
  }

  /** Any parameter number can stand for any other. */
  lemma {:induction false} SameNumbers(p: string, x: string, y: string, s: string)
    requires In(PARAM, x) && In(PARAM, y)
    ensures Mask(p + x + s) == Mask(p + y + s)
  {
    NumberZeroed(p, x, s);
    NumberZeroed(p, y, s);
  }

  lemma {:induction false} NumberZeroed(p: string, x: string, s: string)
    requires In(PARAM, x)
    ensures MaskParams(MaskSpaces(p + x + s)) ==
            Zeroing(Outside, Squeeze(false, p)) + "$0" + Zeroing(Number, Squeeze(false, s))
  {
    ParamSplit(x);
    var digits := x[1..];
    VisibleSqueezed(AfterBlank(false, p), x);
    MaskSpacesIs(p + x + s);
    SqueezeConcat(false, p + x, s);
    SqueezeConcat(false, p, x);
    assert (p + x)[|p + x| - 1] == x[|x| - 1] == digits[|digits| - 1];
    var a, b := Squeeze(false, p), Squeeze(false, s);
    MaskParamsIs(a + x + b);
    ZeroingConcat(Outside, a + x, b);
    ZeroingConcat(Outside, a, x);
    NumberPassed(After(Outside, a), x);
    AfterConcat(Outside, a, x);
  }

  lemma {:induction false} VisibleSqueezed(p: bool, t: string)
    requires forall i :: 0 <= i < |t| ==> t[i] !in BLANKS
    ensures Squeeze(p, t) == t
    decreases |t|
  {
    if t != "" {
      VisibleSqueezed(false, t[1..]);
    }
  }

  lemma {:induction false} AfterConcat(q: Digits, a: string, b: string)
    ensures After(q, a + b) == After(After(q, a), b)
    decreases |a|
  {
    if a == "" {
      assert a + b == b;
    } else {
      assert (a + b)[0] == a[0] && (a + b)[1..] == a[1..] + b;
      AfterConcat(Next(q, a[0]), a[1..], b);
    }
  }

  lemma {:induction false} NumberPassed(q: Digits, x: string)
    requires |x| >= 2 && x[0] == '$' && AllIn(x[1..], DIGITS)
    ensures Zeroing(q, x) == "$0" && After(q, x) == Number
  {
    var digits := x[1..];
    DigitsPassed(digits[1..]);
    assert Zeroing(Dollar, digits) == "0" + Zeroing(Number, digits[1..]);
  }

  lemma {:induction false} DigitsPassed(digits: string)
    requires AllIn(digits, DIGITS)
    ensures Zeroing(Number, digits) == "" && After(Number, digits) == Number
  {
    if digits != "" {
      DigitsPassed(digits[1..]);
    }
  }

  // ---- the first three rewrites piece by piece

  /** The query before the repeated tuples are collapsed. */
  function Tidy(s: string): string {
    MaskLists(MaskParams(MaskSpaces(s)))
  }

  /** Two texts that meet at a parenthesis are rewritten independently. */
  ghost predicate MeetAtParenthesis(x: string, y: string) {
    (x != "" && x[|x| - 1] == ')') || (y != "" && y[0] == '(')
  }

  lemma SpacesSplit(x: string, y: string)
    requires MeetAtParenthesis(x, y)
    ensures MaskSpaces(x + y) == MaskSpaces(x) + MaskSpaces(y)
    ensures MeetAtParenthesis(MaskSpaces(x), MaskSpaces(y))
  {
    MaskSpacesIs(x);
    MaskSpacesIs(y);
    MaskSpacesIs(x + y);
    SqueezeConcat(false, x, y);
    if x != "" && x[|x| - 1] == ')' {
      var init := x[..|x| - 1];
      assert x == init + ")";
      SqueezeConcat(false, init, ")");
      VisibleSqueezed(AfterBlank(false, init), ")");
    } else {
      assert Squeeze(true, y) == Squeeze(false, y);
    }
  }

  lemma ParamsSplit(x: string, y: string)
    requires MeetAtParenthesis(x, y)
    ensures MaskParams(x + y) == MaskParams(x) + MaskParams(y)
    ensures MeetAtParenthesis(MaskParams(x), MaskParams(y))
  {
    MaskParamsIs(x);
    MaskParamsIs(y);
    MaskParamsIs(x + y);
    ZeroingConcat(Outside, x, y);
    if x != "" && x[|x| - 1] == ')' {
      var init := x[..|x| - 1];
      assert x == init + ")";
      ZeroingConcat(Outside, init, ")");
      AfterConcat(Outside, init, ")");
      assert Zeroing(After(Outside, init), ")") == ")";
      assert After(After(Outside, init), ")") == Outside;
    } else {
      assert Zeroing(After(Outside, x), y) == Zeroing(Outside, y);
    }
  }

  /** No list reaches over the meeting point. */
  lemma SameListMatch(x: string, y: string)
    requires x != "" && MeetAtParenthesis(x, y)
    ensures MatchLen(LIST, x + y) == MatchLen(LIST, x)
  {
    var s := x + y;
    LongestMatch(LIST, x);
    LongestMatch(LIST, s);
    forall m | 0 < m <= |s| && In(LIST, s[..m])
      ensures m <= |x| && s[..m] == x[..m]
    {
      ListEnclosed(s[..m]);
      NotAcross(x, y, m);
    }
    var n := MatchLen(LIST, x);
    if n > 0 {
      assert s[..n] == x[..n];
      LongestIs(LIST, s, n);
    }
  }

  lemma NotAcross(x: string, y: string, m: nat)
    requires x != "" && MeetAtParenthesis(x, y) && m <= |x + y| && Enclosed((x + y)[..m])
    ensures m <= |x| && (x + y)[..m] == x[..m]
  {
    var t := (x + y)[..m];
    assert forall i :: 0 < i < m - 1 ==> t[i] != '(' && t[i] != ')';
    PrefixChars(x, y, m);
  }

  lemma PrefixChars(x: string, y: string, m: nat)
    requires m <= |x + y|
    ensures forall i :: 0 <= i < m && i < |x| ==> (x + y)[..m][i] == x[i]
    ensures forall j :: 0 <= j < m - |x| ==> (x + y)[..m][|x| + j] == y[j]
  {
  }

  lemma {:induction false} ListsSplit(x: string, y: string)
    requires MeetAtParenthesis(x, y)
    ensures MaskLists(x + y) == MaskLists(x) + MaskLists(y)
    decreases |x|
  {
    if x == "" {
      assert x + y == y;
    } else {
      SameListMatch(x, y);
      var head, out, tail := ScanStep(LIST, Literal(TWO_PARAMS), x);
      Regroup(head, tail, y);
      assert (x + y)[..|head|] == head;
      if MatchLen(LIST, x) == 0 {
        ReplaceMiss(LIST, Literal(TWO_PARAMS), x[0], tail + y);
      } else {
        ReplaceHit(LIST, Literal(TWO_PARAMS), head, tail + y);
      }
      if tail == "" {
        assert tail + y == y;
      } else {
        assert tail[|tail| - 1] == x[|x| - 1];
        ListsSplit(tail, y);
      }
      Regroup(out, MaskLists(tail), MaskLists(y));
    }
  }

  lemma TidySplit(x: string, y: string)
    requires MeetAtParenthesis(x, y)
    ensures Tidy(x + y) == Tidy(x) + Tidy(y)
  {
    SpacesSplit(x, y);
    ParamsSplit(MaskSpaces(x), MaskSpaces(y));
    ListsSplit(MaskParams(MaskSpaces(x)), MaskParams(MaskSpaces(y)));
  }

  // ---- what the first two rewrites make of a match

  /** Expressions that keep matching when blank runs shrink. */
  ghost predicate Squeezable(re: Re) {
    match re
    case Class(chars) => chars !! BLANKS
    case Cat(a, b) => Squeezable(a) && Squeezable(b)
    case Plus(a) => Squeezable(a)
    case Optional(a) => a == Plus(Class(BLANKS)) || Squeezable(a)
  }

  lemma {:induction false} SqueezeImage(re: Re, p: bool, t: string)
    requires Squeezable(re) && In(re, t)
    ensures In(re, Squeeze(p, t))
    decreases re, |t|
  {
    match re
    case Class(chars) =>
      VisibleSqueezed(p, t);
    case Cat(a, b) =>
      var x, y := CatParts(a, b, t);
      SqueezeConcat(p, x, y);
      SqueezeImage(a, p, x);
      SqueezeImage(b, AfterBlank(p, x), y);
      CatIn(a, b, Squeeze(p, x), Squeeze(AfterBlank(p, x), y));
    case Plus(a) =>
      if In(a, t) {
        SqueezeImage(a, p, t);
      } else {
        var k := PlusSplit(a, t);
        var x, y := t[..k], t[k..];
        assert t == x + y;
        SqueezeConcat(p, x, y);
        SqueezeImage(a, p, x);
        SqueezeImage(re, AfterBlank(p, x), y);
        PlusJoin(a, Squeeze(p, x), Squeeze(AfterBlank(p, x), y));
      }
    case Optional(a) =>
      if t != "" {
        if a == Plus(Class(BLANKS)) {
          BlanksShrink(p, t);
        } else {
          SqueezeImage(a, p, t);
        }
      }
  }

  lemma {:induction false} PlusJoin(a: Re, x: string, y: string)
    requires In(a, x) && In(Plus(a), y)
    ensures In(Plus(a), x + y)
  {
    if x == "" {
      assert x + y == y;
    } else if y == "" {
      assert x + y == x;
    } else {
      PlusCons(a, x, y);
    }
  }

  lemma {:induction false} BlanksShrink(p: bool, t: string)
    requires In(Plus(Class(BLANKS)), t)
    ensures In(Optional(Plus(Class(BLANKS))), Squeeze(p, t))
  {
    RunSqueezed(p, t);
    PlusClass(BLANKS, " ");
  }

  /** Parameter numbers only occur in parameters. */
  ghost predicate Zeroable(re: Re) {
    re == PARAM ||
    match re
    case Class(chars) => chars !! DIGITS && '$' !in chars
    case Cat(a, b) => Zeroable(a) && Zeroable(b)
    case Plus(a) => Zeroable(a)
    case Optional(a) => Zeroable(a)
  }

  /** The expression with every parameter replaced by $0. */
  ghost function ZeroRe(re: Re): Re {
    if re == PARAM then ZERO
    else
      match re
      case Class(chars) => re
      case Cat(a, b) => Cat(ZeroRe(a), ZeroRe(b))
      case Plus(a) => Plus(ZeroRe(a))
      case Optional(a) => Optional(ZeroRe(a))
  }

  lemma ZeroIn()
    ensures In(ZERO, "$0")
  {
    CatIn(Chr('$'), Chr('0'), "$", "0");
    assert "$" + "0" == "$0";
  }

  lemma {:induction false} ZeroImage(re: Re, q: Digits, t: string)
    requires Zeroable(re) && In(re, t)
    ensures In(ZeroRe(re), Zeroing(q, t))
    decreases re, |t|
  {
    if re == PARAM {
      ParamSplit(t);
      NumberPassed(q, t);
      ZeroIn();
    } else {
      match re
      case Class(chars) =>
        assert Zeroing(q, t) == t;
      case Cat(a, b) =>
        var x, y := CatParts(a, b, t);
        ZeroingConcat(q, x, y);
        ZeroImage(a, q, x);
        ZeroImage(b, After(q, x), y);
        CatIn(ZeroRe(a), ZeroRe(b), Zeroing(q, x), Zeroing(After(q, x), y));
      case Plus(a) =>
        if In(a, t) {
          ZeroImage(a, q, t);
        } else {
          var k := PlusSplit(a, t);
          var x, y := t[..k], t[k..];
          assert t == x + y;
          ZeroingConcat(q, x, y);
          ZeroImage(a, q, x);
          ZeroImage(re, After(q, x), y);
          PlusJoin(ZeroRe(a), Zeroing(q, x), Zeroing(After(q, x), y));
        }
      case Optional(a) =>
        if t != "" {
          ZeroImage(a, q, t);
        }
    }
  }

  /** Both together. */
  lemma {:induction false} TidiedIn(re: Re, t: string)
    requires Squeezable(re) && Zeroable(re) && In(re, t)
    ensures In(ZeroRe(re), MaskParams(MaskSpaces(t)))
  {
    MaskSpacesIs(t);
    MaskParamsIs(MaskSpaces(t));
    SqueezeImage(re, false, t);
    ZeroImage(re, Outside, Squeeze(false, t));
  }

  // ---- parameter lists

  // a parenthesised list of two or more parameters, with any blanks
  const RAW_BODY: Re := Cat(BLANK_RUN, Cat(PARAM, Cat(Plus(Cat(SEPARATOR, PARAM)), BLANK_RUN)))
  const RAW_LIST: Re := Bracketed(RAW_BODY)

  lemma {:induction false} CatFacts(a: Re, b: Re)
    requires Squeezable(a) && Squeezable(b) && Zeroable(a) && Zeroable(b) && Cat(a, b) != PARAM
    ensures Squeezable(Cat(a, b)) && Zeroable(Cat(a, b)) && ZeroRe(Cat(a, b)) == Cat(ZeroRe(a), ZeroRe(b))
  {
  }

  lemma {:induction false} BracketedFacts(body: Re)
    requires Squeezable(body) && Zeroable(body)
    ensures Squeezable(Bracketed(body)) && Zeroable(Bracketed(body))
            && ZeroRe(Bracketed(body)) == Bracketed(ZeroRe(body))
  {
    CatFacts(body, Chr(')'));
    CatFacts(Chr('('), Cat(body, Chr(')')));
  }

  lemma RawListFacts()
    ensures Squeezable(RAW_LIST) && Zeroable(RAW_LIST) && ZeroRe(RAW_LIST) == LIST
  {
    var more := Plus(Cat(SEPARATOR, PARAM));
    CatFacts(SEPARATOR, PARAM);
    assert Squeezable(more) && Zeroable(more) && ZeroRe(more) == Plus(Cat(SEPARATOR, ZERO));
    CatFacts(more, BLANK_RUN);
    CatFacts(PARAM, Cat(more, BLANK_RUN));
    CatFacts(BLANK_RUN, Cat(PARAM, Cat(more, BLANK_RUN)));
    BracketedFacts(RAW_BODY);
  }

  lemma {:induction false} ListTidied(x: string)
    requires In(LIST, x)
    ensures MaskLists(x) == TWO_PARAMS
  {
    ListEnclosed(x);
    assert x[..|x|] == x;
    LongestIs(LIST, x, |x|);
    assert x + "" == x;
    ReplaceHit(LIST, Literal(TWO_PARAMS), x, "");
  }

  lemma {:induction false} RawEnclosed(body: Re, x: string)
    requires In(Bracketed(body), x)
    ensures |x| >= 2 && x[0] == '(' && x[|x| - 1] == ')'
  {
    var inner := BracketedSplit(body, x);
  }

  /** A parameter list counts as two parameters, whatever its length, numbers and blanks. */
  lemma {:induction false} SameLists(p: string, x: string, y: string, s: string)
    requires In(RAW_LIST, x) && In(RAW_LIST, y)
    ensures Mask(p + x + s) == Mask(p + y + s)
  {
    ListInContext(p, x, s);
    ListInContext(p, y, s);
  }

  lemma {:induction false} ListInContext(p: string, x: string, s: string)
    requires In(RAW_LIST, x)
    ensures Tidy(p + x + s) == Tidy(p) + TWO_PARAMS + Tidy(s)
  {
    RawEnclosed(RAW_BODY, x);
    TidySplit(p + x, s);
    TidySplit(p, x);
    RawListFacts();
    TidiedIn(RAW_LIST, x);
    ListTidied(MaskParams(MaskSpaces(x)));
  }

  // ---- repeated tuples

  // a parenthesised list of one or more parameters, and one more of them behind a comma
  const RAW_ROW_BODY: Re := Cat(BLANK_RUN, Cat(PARAM, Cat(Star(Cat(SEPARATOR, PARAM)), BLANK_RUN)))
  const RAW_ROW: Re := Bracketed(RAW_ROW_BODY)
  const ROW: Re := Bracketed(Cat(BLANK_RUN, Cat(ZERO, Cat(Star(Cat(SEPARATOR, ZERO)), BLANK_RUN))))
  const RAW_LINK: Re := Cat(SEPARATOR, RAW_ROW)

  lemma RawRowFacts()
    ensures Squeezable(RAW_ROW) && Zeroable(RAW_ROW) && ZeroRe(RAW_ROW) == ROW
  {
    var more := Star(Cat(SEPARATOR, PARAM));
    CatFacts(SEPARATOR, PARAM);
    assert ZeroRe(Plus(Cat(SEPARATOR, PARAM))) == Plus(Cat(SEPARATOR, ZERO));
    assert Squeezable(more) && Zeroable(more) && ZeroRe(more) == Star(Cat(SEPARATOR, ZERO));
    CatFacts(more, BLANK_RUN);
    CatFacts(PARAM, Cat(more, BLANK_RUN));
    CatFacts(BLANK_RUN, Cat(PARAM, Cat(more, BLANK_RUN)));
    BracketedFacts(RAW_ROW_BODY);
  }

  /** The only blank left is the space. */
  ghost predicate OnlySpaces(s: string) {
    forall i :: 0 <= i < |s| ==> s[i] in BLANKS ==> s[i] == ' '
  }

  lemma {:induction false} SqueezeOnlySpaces(p: bool, s: string)
    ensures OnlySpaces(Squeeze(p, s))
    decreases |s|
  {
    if s != "" {
      SqueezeOnlySpaces(s[0] in BLANKS, s[1..]);
    }
  }

  lemma {:induction false} ZeroingOnlySpaces(q: Digits, s: string)
    requires OnlySpaces(s)
    ensures OnlySpaces(Zeroing(q, s))
    decreases |s|
  {
    if s != "" {
      ZeroingOnlySpaces(Next(q, s[0]), s[1..]);
    }
  }

  lemma TidiedOnlySpaces(t: string)
    ensures OnlySpaces(MaskParams(MaskSpaces(t)))
  {
    MaskSpacesIs(t);
    MaskParamsIs(MaskSpaces(t));
    SqueezeOnlySpaces(false, t);
    ZeroingOnlySpaces(Outside, Squeeze(false, t));
  }

  /** A row of $0 with plain spaces is a tuple of the last rewrite. */
  lemma {:induction false} RowIsTuple(t: string)
    requires In(ROW, t) && OnlySpaces(t)
    ensures In(TUPLE, t)
  {
    var body := Cat(BLANK_RUN, Cat(ZERO, Cat(Star(Cat(SEPARATOR, ZERO)), BLANK_RUN)));
    var inner := BracketedSplit(body, t);
    InAlphabet(body, inner);
    assert forall i :: 0 <= i < |inner| ==> inner[i] == t[i + 1];
    var x, y := CatParts(BLANK_RUN, Cat(ZERO, Cat(Star(Cat(SEPARATOR, ZERO)), BLANK_RUN)), inner);
    var z, u := CatParts(ZERO, Cat(Star(Cat(SEPARATOR, ZERO)), BLANK_RUN), y);
    var d, e := CatParts(Chr('$'), Chr('0'), z);
    PlusClass(TUPLE_CHARS, inner);
    BracketedJoin(Plus(Class(TUPLE_CHARS)), inner);
  }

  lemma {:induction false} TupleStays(t: string)
    requires In(TUPLE, t)
    ensures In(TUPLE, MaskLists(t))
  {
    TupleEnclosed(t);
    if In(LIST, t) {
      ListTidied(t);
      PlusClass(TUPLE_CHARS, "$0,$0");
      BracketedJoin(Plus(Class(TUPLE_CHARS)), "$0,$0");
      assert "(" + "$0,$0" + ")" == TWO_PARAMS;
    } else {
      NotAListStays(t);
    }
  }

  lemma ListIsWhole(t: string, n: nat)
    requires Enclosed(t) && n <= |t| && In(LIST, t[..n])
    ensures t[..n] == t
  {
    ListEnclosed(t[..n]);
    assert t == t[..n] + t[n..] && t == t + "";
    EnclosedUnique(t[..n], t[n..], t, "");
  }

  lemma {:induction false} NotAListStays(t: string)
    requires Enclosed(t) && !In(LIST, t)
    ensures MaskLists(t) == t
  {
    LongestMatch(LIST, t);
    if MatchLen(LIST, t) > 0 {
      ListIsWhole(t, MatchLen(LIST, t));
    }
    assert t == [t[0]] + t[1..];
    ReplaceMiss(LIST, Literal(TWO_PARAMS), t[0], t[1..]);
    PlainStays(t[1..]);
  }

  lemma {:induction false} PlainStays(t: string)
    requires '(' !in t
    ensures MaskLists(t) == t
  {
    if t != "" {
      LongestMatch(LIST, t);
      assert t[0] in t;
      if MatchLen(LIST, t) > 0 {
        ListEnclosed(t[..MatchLen(LIST, t)]);
      }
      assert t == [t[0]] + t[1..];
      ReplaceMiss(LIST, Literal(TWO_PARAMS), t[0], t[1..]);
      PlainStays(t[1..]);
    }
  }

  lemma {:induction false} RowTidied(t: string)
    requires In(RAW_ROW, t)
    ensures In(TUPLE, Tidy(t))
  {
    var u := MaskParams(MaskSpaces(t));
    RawRowFacts();
    TidiedIn(RAW_ROW, t);
    TidiedOnlySpaces(t);
    RowIsTuple(u);
    TupleStays(u);
  }

  lemma {:induction false} SeparatorTidied(sep: string)
    requires In(SEPARATOR, sep)
    ensures In(SEPARATOR, Tidy(sep))
  {
    TidiedIn(SEPARATOR, sep);
    SeparatorPlain(MaskParams(MaskSpaces(sep)));
    PlainStays(MaskParams(MaskSpaces(sep)));
  }

  lemma {:induction false} LinkTidied(l: string)
    requires In(RAW_LINK, l)
    ensures In(LINK, Tidy(l)) && l != "" && l[|l| - 1] == ')'
  {
    var sep, e := CatParts(SEPARATOR, RAW_ROW, l);
    RawEnclosed(RAW_ROW_BODY, e);
    TidySplit(sep, e);
    SeparatorTidied(sep);
    RowTidied(e);
    CatIn(SEPARATOR, TUPLE, Tidy(sep), Tidy(e));
  }

  lemma {:induction false} LinksTidied(c: string)
    requires In(Plus(RAW_LINK), c)
    ensures In(Plus(LINK), Tidy(c)) && c != "" && c[|c| - 1] == ')'
    decreases |c|
  {
    var l, rest := PlusFirst(RAW_LINK, c);
    LinkTidied(l);
    if rest == "" {
      assert c == l;
    } else {
      LinksTidied(rest);
      TidySplit(l, rest);
      PlusJoin(LINK, Tidy(l), Tidy(rest));
      assert c[|c| - 1] == rest[|rest| - 1];
    }
  }

  /** The number of further rows behind the first one does not matter: VALUES (..), (..), ... */
  lemma {:induction false} SameRows(p: string, t: string, c: string, d: string, s: string)
    requires In(RAW_ROW, t) && In(Plus(RAW_LINK), c) && In(Plus(RAW_LINK), d)
    ensures Mask(p + t + c + s) == Mask(p + t + d + s)
  {
    RowsInContext(p, t, c, s);
    RowsInContext(p, t, d, s);
    RowTidied(t);
    LinksTidied(c);
    LinksTidied(d);
    Collapse(Tidy(p), Tidy(t), Tidy(c), Tidy(d), Tidy(s));
  }

  lemma {:induction false} RowsInContext(p: string, t: string, c: string, s: string)
    requires In(RAW_ROW, t) && In(Plus(RAW_LINK), c)
    ensures Tidy(p + t + c + s) == Tidy(p) + (Tidy(t) + (Tidy(c) + Tidy(s)))
  {
    RawEnclosed(RAW_ROW_BODY, t);
    LinksTidied(c);
    TidySplit(p + t + c, s);
    TidySplit(p + t, c);
    TidySplit(p, t);
    Regroup(Tidy(p) + Tidy(t), Tidy(c), Tidy(s));
    Regroup(Tidy(p), Tidy(t), Tidy(c) + Tidy(s));
  }
}

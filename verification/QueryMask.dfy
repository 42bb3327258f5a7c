/**
 * The query mask: the four nested regexp_replace calls of sql/cluster_stmt_mask.sql, and the proof
 * that masking is idempotent on every text.
 */
module QueryMask {
  import opened Regex
  import opened Text

  const BLANKS: set<char> := {' ', '\t', '\n', '\r', '\U{0B}', '\U{0C}'}
  const DIGITS: set<char> := {'0', '1', '2', '3', '4', '5', '6', '7', '8', '9'}
  const TUPLE_CHARS: set<char> := {'$', '0', ',', ' '}

  // \s+
  const SPACES: Re := Plus(Class(BLANKS))
  // \$[0-9]+
  const PARAM: Re := Cat(Chr('$'), Plus(Class(DIGITS)))
  // \(\s*\$0(\s*,\s*\$0)+\s*\)
  const BLANK_RUN: Re := Star(Class(BLANKS))
  const ZERO: Re := Cat(Chr('$'), Chr('0'))
  const SEPARATOR: Re := Cat(BLANK_RUN, Cat(Chr(','), BLANK_RUN))
  const LIST_BODY: Re := Cat(BLANK_RUN, Cat(ZERO, Cat(Plus(Cat(SEPARATOR, ZERO)), BLANK_RUN)))
  const LIST: Re := Bracketed(LIST_BODY)
  // (\([$0, ]+\))(\s*,\s*\([$0, ]+\))+
  const TUPLE: Re := Bracketed(Plus(Class(TUPLE_CHARS)))
  const CHAIN: Re := Cat(TUPLE, Plus(Cat(SEPARATOR, TUPLE)))

  const TWO_PARAMS := "($0,$0)"

  function MaskSpaces(s: string): string { ReplaceAll(SPACES, Literal(" "), s) }
  function MaskParams(s: string): string { ReplaceAll(PARAM, Literal("$0"), s) }
  function MaskLists(s: string): string { ReplaceAll(LIST, Literal(TWO_PARAMS), s) }
  function MaskChains(s: string): string { ReplaceAll(CHAIN, FirstGroup(TUPLE, ",..."), s) }

  /** `query_mask`. */
  function Mask(query: string): string {
    MaskChains(MaskLists(MaskParams(MaskSpaces(query))))
  }

  // ---- what the expressions match

  lemma {:induction false} ParamSplit(t: string)
    requires In(PARAM, t)
    ensures |t| >= 2 && t[0] == '$' && AllIn(t[1..], DIGITS)
  {
    var k := CatSplit(Chr('$'), Plus(Class(DIGITS)), t);
    assert |t[..k]| == 1 && t[..k][0] == t[0];
    PlusClass(DIGITS, t[k..]);
  }

  lemma {:induction false} ParamJoin(digits: string)
    requires digits != "" && AllIn(digits, DIGITS)
    ensures In(PARAM, "$" + digits)
  {
    PlusClass(DIGITS, digits);
    CatIn(Chr('$'), Plus(Class(DIGITS)), "$", digits);
  }

  /** A text in one pair of parentheses, with none inside. */
  ghost predicate Enclosed(t: string) {
    && |t| >= 2 && t[0] == '(' && t[|t| - 1] == ')'
    && forall i :: 0 < i < |t| - 1 ==> t[i] != '(' && t[i] != ')'
  }

  lemma EncloseText(inner: string)
    requires '(' !in inner && ')' !in inner
    ensures Enclosed("(" + inner + ")")
  {
    var t := "(" + inner + ")";
    forall i | 0 < i < |t| - 1
      ensures t[i] != '(' && t[i] != ')'
    {
      assert t[i] == inner[i - 1] && inner[i - 1] in inner;
    }
  }

  lemma EnclosedNotShorter(a: string, x: string, b: string, y: string)
    requires Enclosed(a) && Enclosed(b) && a + x == b + y
    ensures |a| >= |b|
  {
    assert (a + x)[|a| - 1] == ')';
    assert forall i :: 0 < i < |b| - 1 ==> (b + y)[i] != ')';
  }

  /** The first closing parenthesis ends an enclosed text. */
  lemma EnclosedUnique(a: string, x: string, b: string, y: string)
    requires Enclosed(a) && Enclosed(b) && a + x == b + y
    ensures a == b && x == y
  {
    EnclosedNotShorter(a, x, b, y);
    EnclosedNotShorter(b, y, a, x);
    assert a == (a + x)[..|a|] && b == (b + y)[..|a|];
    assert x == (a + x)[|a|..] && y == (b + y)[|a|..];
  }

  lemma {:induction false} ListEnclosed(t: string)
    requires In(LIST, t)
    ensures Enclosed(t)
  {
    var inner := BracketedSplit(LIST_BODY, t);
    InAlphabet(LIST_BODY, inner);
    EncloseText(inner);
  }

  lemma {:induction false} TupleEnclosed(t: string)
    requires In(TUPLE, t)
    ensures Enclosed(t)
  {
    var inner := BracketedSplit(Plus(Class(TUPLE_CHARS)), t);
    PlusClass(TUPLE_CHARS, inner);
    EncloseText(inner);
  }

  /** A separator is made of blanks and one comma. */
  lemma {:induction false} SeparatorChars(t: string)
    requires In(SEPARATOR, t)
    ensures AllIn(t, BLANKS + {','}) && ',' in t && t != ""
  {
    InAlphabet(SEPARATOR, t);
    var k := CatSplit(BLANK_RUN, Cat(Chr(','), BLANK_RUN), t);
    var u := t[k..];
    var m := CatSplit(Chr(','), BLANK_RUN, u);
    assert u[..m][0] == ',' == t[k];
  }

  /** A chain starts with two tuples and a separator between them; that part alone is a chain, too. */
  lemma ChainStart(t: string) returns (a: string, sep: string, b: string, rest: string)
    requires In(CHAIN, t)
    ensures t == a + sep + b + rest
    ensures In(TUPLE, a) && In(SEPARATOR, sep) && In(TUPLE, b) && In(CHAIN, a + sep + b)
  {
    var link := Cat(SEPARATOR, TUPLE);
    var u, first;
    a, u := CatParts(TUPLE, Plus(link), t);
    first, rest := PlusFirst(link, u);
    sep, b := CatParts(SEPARATOR, TUPLE, first);
    CatIn(TUPLE, Plus(link), a, first);
    assert a + first == a + sep + b;
  }

  lemma {:induction false} ChainHead(t: string)
    requires In(CHAIN, t)
    ensures t != "" && t[0] == '('
  {
    var a, sep, b, rest := ChainStart(t);
    TupleEnclosed(a);
    assert t[0] == a[0];
  }

  /** The captured group is the first tuple. */
  lemma {:induction false} FirstTuple(t: string, a: string, x: string)
    requires t == a + x && In(TUPLE, a)
    ensures MatchLen(TUPLE, t) == |a|
  {
    TupleEnclosed(a);
    assert t[..|a|] == a;
    forall m | |a| < m <= |t|
      ensures !In(TUPLE, t[..m])
    {
      if In(TUPLE, t[..m]) {
        TupleEnclosed(t[..m]);
        assert t == t[..m] + t[m..];
        EnclosedUnique(a, x, t[..m], t[m..]);
      }
    }
    LongestIs(TUPLE, t, |a|);
  }

  /** What a chain is replaced with: its first tuple and an ellipsis. */
  lemma ChainApply(t: string) returns (a: string, x: string)
    requires In(CHAIN, t)
    ensures t == a + x && t != "" && In(TUPLE, a) && Enclosed(a)
    ensures Apply(FirstGroup(TUPLE, ",..."), t) == a + ",..."
  {
    var sep, b, rest;
    a, sep, b, rest := ChainStart(t);
    x := sep + b + rest;
    assert t == a + x;
    FirstTuple(t, a, x);
    TupleEnclosed(a);
    assert t[..|a|] == a;
  }

  /** One replacement of a chain. */
  lemma ChainReplaced(head: string, tail: string) returns (a: string, x: string)
    requires MatchLen(CHAIN, head + tail) == |head| && In(CHAIN, head)
    ensures head == a + x && In(TUPLE, a) && Enclosed(a)
    ensures MaskChains(head + tail) == a + (",..." + MaskChains(tail))
  {
    a, x := ChainApply(head);
    ReplaceHit(CHAIN, FirstGroup(TUPLE, ",..."), head, tail);
    Regroup(a, ",...", MaskChains(tail));
  }

  // ---- replacing keeps the first character

  lemma ParamsKeepHead()
    ensures KeepsHead(PARAM, Literal("$0")) && StartsWith(PARAM, '$')
  {
    forall t | In(PARAM, t)
      ensures t != "" && t[0] == '$'
    {
      ParamSplit(t);
    }
  }

  lemma ListsKeepHead()
    ensures KeepsHead(LIST, Literal(TWO_PARAMS)) && StartsWith(LIST, '(')
  {
    forall t | In(LIST, t)
      ensures t != "" && t[0] == '('
    {
      ListEnclosed(t);
    }
  }

  lemma ChainsKeepHead()
    ensures KeepsHead(CHAIN, FirstGroup(TUPLE, ",...")) && StartsWith(CHAIN, '(')
  {
    forall t | In(CHAIN, t)
      ensures t != "" && t[0] == '(' && Apply(FirstGroup(TUPLE, ",..."), t) != ""
      ensures Apply(FirstGroup(TUPLE, ",..."), t)[0] == t[0]
    {
      ChainHead(t);
      var a, x := ChainApply(t);
      assert t[0] == a[0] == (a + ",...")[0];
    }
  }

  // ---- 1. blanks: single spaces only

  ghost predicate Spaced(s: string) {
    s == "" || (Spaced(s[1..]) && (s[0] in BLANKS ==> s[0] == ' ' && (|s| > 1 ==> s[1] !in BLANKS)))
  }

  lemma {:induction false} SpacedConcat(a: string, b: string)
    requires Spaced(a) && Spaced(b) && a != "" && a[|a| - 1] !in BLANKS
    ensures Spaced(a + b)
  {
    assert (a + b)[1..] == a[1..] + b;
    if |a| > 1 {
      SpacedConcat(a[1..], b);
    } else {
      assert a[1..] + b == b;
    }
  }

  lemma {:induction false} SpacedSplit(a: string, b: string)
    requires Spaced(a + b)
    ensures Spaced(a) && Spaced(b)
  {
    if a == "" {
      assert a + b == b;
    } else {
      assert (a + b)[1..] == a[1..] + b;
      SpacedSplit(a[1..], b);
      assert |a| > 1 ==> (a + b)[1] == a[1];
    }
  }

  lemma NoBlankNoMatch(s: string)
    requires s != "" ==> s[0] !in BLANKS
    ensures MatchLen(SPACES, s) == 0
    ensures s != "" ==> MaskSpaces(s) != "" && MaskSpaces(s)[0] == s[0]
    ensures s == "" ==> MaskSpaces(s) == ""
  {
    LongestMatch(SPACES, s);
    if MatchLen(SPACES, s) > 0 {
      PlusClass(BLANKS, s[..MatchLen(SPACES, s)]);
    }
  }

  /** A run of blanks is matched as a whole. */
  lemma BlankRun(run: string, tail: string)
    requires run != "" && AllIn(run, BLANKS) && (tail != "" ==> tail[0] !in BLANKS)
    ensures MatchLen(SPACES, run + tail) == |run|
  {
    var s := run + tail;
    PlusClass(BLANKS, run);
    assert s[..|run|] == run;
    forall m | |run| < m <= |s|
      ensures !In(SPACES, s[..m])
    {
      PlusClass(BLANKS, s[..m]);
      assert s[..m][|run|] == tail[0];
    }
    LongestIs(SPACES, s, |run|);
  }

  lemma {:induction false} CutRun(s: string, chars: set<char>) returns (run: string, tail: string)
    ensures s == run + tail && AllIn(run, chars) && (tail != "" ==> tail[0] !in chars)
    ensures s != "" && s[0] in chars ==> run != ""
  {
    if s == "" || s[0] !in chars {
      run, tail := "", s;
    } else {
      run, tail := CutRun(s[1..], chars);
      run := [s[0]] + run;
    }
  }

  lemma {:induction false} SpacesNormalize(s: string)
    ensures Spaced(MaskSpaces(s))
    decreases |s|
  {
    if s != "" {
      if s[0] in BLANKS {
        var run, tail := CutRun(s, BLANKS);
        BlankRun(run, tail);
        ReplaceHit(SPACES, Literal(" "), run, tail);
        SpacesNormalize(tail);
        NoBlankNoMatch(tail);
      } else {
        NoBlankNoMatch(s);
        assert s == [s[0]] + s[1..];
        ReplaceMiss(SPACES, Literal(" "), s[0], s[1..]);
        SpacesNormalize(s[1..]);
      }
    }
  }

  lemma {:induction false} SpacedFixed(s: string)
    requires Spaced(s)
    ensures Normal(SPACES, Literal(" "), s)
  {
    if s != "" {
      SpacedFixed(s[1..]);
      var n := MatchLen(SPACES, s);
      LongestMatch(SPACES, s);
      if n > 0 {
        PlusClass(BLANKS, s[..n]);
        assert forall i :: 0 <= i < n ==> s[..n][i] == s[i];
        assert s[..n] == " ";
      }
    }
  }

  /** A rewrite whose replacements are tidy and end visibly leaves the text with single spaces. */
  lemma {:induction false} KeepsSpaced(re: Re, rep: Replacement, s: string)
    requires KeepsHead(re, rep) && Spaced(s)
    requires forall t :: In(re, t) && Spaced(t) ==>
               Spaced(Apply(rep, t)) && Apply(rep, t)[|Apply(rep, t)| - 1] !in BLANKS
    ensures Spaced(ReplaceAll(re, rep, s))
    decreases |s|
  {
    if s != "" {
      var head, out, tail := ScanStep(re, rep, s);
      SpacedSplit(head, tail);
      KeepsSpaced(re, rep, tail);
      HeadKept(re, rep, tail);
      if MatchLen(re, s) != 0 {
        SpacedConcat(out, ReplaceAll(re, rep, tail));
      }
    }
  }

  lemma {:induction false} ParamsKeepSpaced(s: string)
    requires Spaced(s)
    ensures Spaced(MaskParams(s))
  {
    ParamsKeepHead();
    assert "$0"[1..] == "0" && "0"[1..] == "";
    KeepsSpaced(PARAM, Literal("$0"), s);
  }

  lemma {:induction false} ListsKeepSpaced(s: string)
    requires Spaced(s)
    ensures Spaced(MaskLists(s))
  {
    ListsKeepHead();
    VisibleIsSpaced(TWO_PARAMS);
    KeepsSpaced(LIST, Literal(TWO_PARAMS), s);
  }

  lemma {:induction false} VisibleIsSpaced(t: string)
    requires forall i :: 0 <= i < |t| ==> t[i] !in BLANKS
    ensures Spaced(t)
  {
    if t != "" {
      VisibleIsSpaced(t[1..]);
    }
  }

  lemma {:induction false} ChainsKeepSpaced(s: string)
    requires Spaced(s)
    ensures Spaced(MaskChains(s))
  {
    var rep := FirstGroup(TUPLE, ",...");
    ChainsKeepHead();
    forall t | In(CHAIN, t) && Spaced(t)
      ensures Spaced(Apply(rep, t)) && Apply(rep, t)[|Apply(rep, t)| - 1] !in BLANKS
    {
      ChainSpaced(t);
    }
    KeepsSpaced(CHAIN, rep, s);
  }

  lemma {:induction false} ChainSpaced(t: string)
    requires In(CHAIN, t) && Spaced(t)
    ensures var r := Apply(FirstGroup(TUPLE, ",..."), t); Spaced(r) && r[|r| - 1] !in BLANKS
  {
    var a, x := ChainApply(t);
    SpacedSplit(a, x);
    VisibleIsSpaced(",...");
    SpacedConcat(a, ",...");
  }

  // ---- 2. parameters: only $0

  ghost predicate Zeroed(s: string) {
    s == "" ||
    (Zeroed(s[1..]) && (s[0] == '$' && |s| > 1 && s[1] in DIGITS ==> s[1] == '0' && (|s| > 2 ==> s[2] !in DIGITS)))
  }

  lemma {:induction false} ZeroedConcat(a: string, b: string)
    requires Zeroed(a) && Zeroed(b) && a != "" && a[|a| - 1] != '$' && a[|a| - 1] !in DIGITS
    ensures Zeroed(a + b)
  {
    assert (a + b)[1..] == a[1..] + b;
    if |a| > 1 {
      ZeroedConcat(a[1..], b);
      assert (a + b)[1] == a[1] && (|a| > 2 ==> (a + b)[2] == a[2]);
    } else {
      assert a[1..] + b == b;
    }
  }

  lemma {:induction false} ZeroedSplit(a: string, b: string)
    requires Zeroed(a + b)
    ensures Zeroed(a) && Zeroed(b)
  {
    if a == "" {
      assert a + b == b;
    } else {
      assert (a + b)[1..] == a[1..] + b;
      ZeroedSplit(a[1..], b);
      assert |a| > 1 ==> (a + b)[1] == a[1];
      assert |a| > 2 ==> (a + b)[2] == a[2];
    }
  }

  /** "$" with all digits behind it is matched as a whole. */
  lemma ParamRun(digits: string, tail: string)
    requires digits != "" && AllIn(digits, DIGITS) && (tail != "" ==> tail[0] !in DIGITS)
    ensures MatchLen(PARAM, "$" + digits + tail) == 1 + |digits|
  {
    var s := "$" + digits + tail;
    var n := 1 + |digits|;
    ParamJoin(digits);
    assert s[..n] == "$" + digits;
    forall m | n < m <= |s|
      ensures !In(PARAM, s[..m])
    {
      assert s[..m][1..][n - 1] == tail[0];
      if In(PARAM, s[..m]) {
        ParamSplit(s[..m]);
      }
    }
    LongestIs(PARAM, s, n);
  }

  lemma NoParamHere(s: string)
    requires s != "" && (s[0] != '$' || |s| == 1 || s[1] !in DIGITS)
    ensures MatchLen(PARAM, s) == 0
  {
    LongestMatch(PARAM, s);
    var n := MatchLen(PARAM, s);
    assert n > 1 ==> s[..n][1..][0] == s[1] && s[..n][0] == s[0];
    if n > 0 {
      ParamSplit(s[..n]);
    }
  }

  lemma ParamHit(digits: string, tail: string)
    requires digits != "" && AllIn(digits, DIGITS) && (tail != "" ==> tail[0] !in DIGITS) && Zeroed(MaskParams(tail))
    ensures Zeroed(MaskParams("$" + digits + tail))
  {
    var rest := MaskParams(tail);
    ParamRun(digits, tail);
    ReplaceHit(PARAM, Literal("$0"), "$" + digits, tail);
    ParamsKeepHead();
    HeadKept(PARAM, Literal("$0"), tail);
    ZeroInFront(rest);
  }

  lemma {:induction false} ZeroInFront(rest: string)
    requires Zeroed(rest) && (rest != "" ==> rest[0] !in DIGITS)
    ensures Zeroed("$0" + rest)
  {
    var s := "$0" + rest;
    assert s[1..] == "0" + rest && s[1..][1..] == rest;
    assert Zeroed(s[1..]);
  }

  lemma ParamMiss(c: char, tail: string)
    requires c != '$' || tail == "" || tail[0] !in DIGITS
    requires Zeroed(MaskParams(tail))
    ensures Zeroed(MaskParams([c] + tail))
  {
    NoParamHere([c] + tail);
    ReplaceMiss(PARAM, Literal("$0"), c, tail);
    ParamsKeepHead();
    HeadKept(PARAM, Literal("$0"), tail);
    assert ([c] + MaskParams(tail))[1..] == MaskParams(tail);
  }

  lemma {:induction false} ParamsNormalize(s: string)
    ensures Zeroed(MaskParams(s))
    decreases |s|
  {
    if s != "" {
      if s[0] == '$' && |s| > 1 && s[1] in DIGITS {
        var digits, tail := CutRun(s[1..], DIGITS);
        ParamsNormalize(tail);
        ParamHit(digits, tail);
        assert s == "$" + digits + tail;
      } else {
        ParamsNormalize(s[1..]);
        ParamMiss(s[0], s[1..]);
        assert s == [s[0]] + s[1..];
      }
    }
  }

  lemma {:induction false} ZeroedFixed(s: string)
    requires Zeroed(s)
    ensures Normal(PARAM, Literal("$0"), s)
  {
    if s != "" {
      ZeroedFixed(s[1..]);
      var n := MatchLen(PARAM, s);
      LongestMatch(PARAM, s);
      if n > 0 {
        ParamSplit(s[..n]);
        assert forall i :: 0 <= i < n ==> s[..n][i] == s[i];
        assert forall i :: 0 <= i < n - 1 ==> s[..n][1..][i] == s[i + 1];
        assert s[..n] == "$0";
      }
    }
  }

  /** A rewrite of parenthesised text with tidy replacements keeps the parameters zeroed. */
  lemma {:induction false} KeepsZeroed(re: Re, rep: Replacement, s: string)
    requires KeepsHead(re, rep) && StartsWith(re, '(') && Zeroed(s)
    requires forall t :: In(re, t) && Zeroed(t) ==>
               var r := Apply(rep, t); Zeroed(r) && r[|r| - 1] != '$' && r[|r| - 1] !in DIGITS
    ensures Zeroed(ReplaceAll(re, rep, s))
    decreases |s|
  {
    if s != "" {
      var head, out, tail := ScanStep(re, rep, s);
      ZeroedSplit(head, tail);
      KeepsZeroed(re, rep, tail);
      if MatchLen(re, s) == 0 {
        DigitsKept(re, rep, tail);
      } else {
        ZeroedConcat(out, ReplaceAll(re, rep, tail));
      }
    }
  }

  /** Two leading characters survive if the first is a digit. */
  lemma {:induction false} DigitsKept(re: Re, rep: Replacement, s: string)
    requires KeepsHead(re, rep) && StartsWith(re, '(')
    ensures var out := ReplaceAll(re, rep, s);
            && (s == "" <==> out == "") && (s != "" ==> out[0] == s[0])
            && (s != "" && s[0] in DIGITS ==> (|s| > 1 <==> |out| > 1) && (|s| > 1 ==> out[1] == s[1]))
  {
    HeadKept(re, rep, s);
    if s != "" && s[0] in DIGITS {
      LongestMatch(re, s);
      assert s == [s[0]] + s[1..];
      ReplaceMiss(re, rep, s[0], s[1..]);
      HeadKept(re, rep, s[1..]);
    }
  }

  lemma {:induction false} ListsKeepZeroed(s: string)
    requires Zeroed(s)
    ensures Zeroed(MaskLists(s))
  {
    ListsKeepHead();
    TwoParamsZeroed();
    KeepsZeroed(LIST, Literal(TWO_PARAMS), s);
  }

  lemma TwoParamsZeroed()
    ensures Zeroed(TWO_PARAMS)
  {
  }

  lemma {:induction false} ChainsKeepZeroed(s: string)
    requires Zeroed(s)
    ensures Zeroed(MaskChains(s))
  {
    var rep := FirstGroup(TUPLE, ",...");
    ChainsKeepHead();
    forall t | In(CHAIN, t) && Zeroed(t)
      ensures var r := Apply(rep, t); Zeroed(r) && r[|r| - 1] != '$' && r[|r| - 1] !in DIGITS
    {
      ChainZeroed(t);
    }
    KeepsZeroed(CHAIN, rep, s);
  }

  lemma {:induction false} ChainZeroed(t: string)
    requires In(CHAIN, t) && Zeroed(t)
    ensures var r := Apply(FirstGroup(TUPLE, ",..."), t); Zeroed(r) && r[|r| - 1] != '$' && r[|r| - 1] !in DIGITS
  {
    var a, x := ChainApply(t);
    ZeroedSplit(a, x);
    ZeroedConcat(a, ",...");
  }

  // ---- 3. parameter lists: only ($0,$0)

  ghost predicate Listed(s: string) {
    s == "" || (Listed(s[1..]) && forall n :: 0 < n <= |s| && In(LIST, s[..n]) ==> s[..n] == TWO_PARAMS)
  }

  lemma {:induction false} ListedSuffix(s: string, n: nat)
    requires Listed(s) && n <= |s|
    ensures Listed(s[n..])
  {
    if n == 0 {
      assert s[0..] == s;
    } else {
      ListedSuffix(s[1..], n - 1);
      assert s[1..][n - 1..] == s[n..];
    }
  }

  lemma {:induction false} ListedFixed(s: string)
    requires Listed(s)
    ensures Normal(LIST, Literal(TWO_PARAMS), s)
  {
    if s != "" {
      ListedFixed(s[1..]);
      LongestMatch(LIST, s);
    }
  }

  /** Text without an opening parenthesis in front changes nothing. */
  lemma {:induction false} ListedBehind(x: string, s: string)
    requires '(' !in x && Listed(s)
    ensures Listed(x + s)
  {
    if x == "" {
      assert x + s == s;
    } else {
      assert (x + s)[1..] == x[1..] + s && x[0] in x;
      ListedBehind(x[1..], s);
      forall n | 0 < n <= |x + s|
        ensures !In(LIST, (x + s)[..n])
      {
        if In(LIST, (x + s)[..n]) {
          ListEnclosed((x + s)[..n]);
        }
      }
    }
  }

  /** An enclosed text behind the first character of a scan that did not match there. */
  lemma {:induction false} EnclosedUntouched(re: Re, rep: Replacement, c: char, tail: string, n: nat)
    requires KeepsHead(re, rep) && StartsWith(re, '(')
    requires 0 < n <= 1 + |ReplaceAll(re, rep, tail)| && Enclosed(([c] + ReplaceAll(re, rep, tail))[..n])
    ensures n <= 1 + |tail| && ([c] + tail)[..n] == ([c] + ReplaceAll(re, rep, tail))[..n]
  {
    var out := ReplaceAll(re, rep, tail);
    BehindFirst(c, out, n);
    assert ([c] + out[..n - 1])[1..] == out[..n - 1];
    UntouchedPrefix(re, rep, '(', tail, n - 1);
    BehindFirst(c, tail, n);
  }

  lemma {:induction false} ListsNormalize(s: string)
    ensures Listed(MaskLists(s))
    decreases |s|
  {
    if s != "" {
      var head, out, tail := ScanStep(LIST, Literal(TWO_PARAMS), s);
      ListsNormalize(tail);
      if MatchLen(LIST, s) == 0 {
        ListedMiss(s[0], tail, MaskLists(tail));
      } else {
        ListedHit(TWO_PARAMS, MaskLists(tail));
      }
    }
  }

  lemma {:induction false} ListedMiss(c: char, tail: string, rest: string)
    requires MatchLen(LIST, [c] + tail) == 0 && rest == MaskLists(tail) && Listed(rest)
    ensures Listed([c] + rest)
  {
    ListsKeepHead();
    LongestMatch(LIST, [c] + tail);
    forall m | 0 < m <= |[c] + rest|
      ensures !In(LIST, ([c] + rest)[..m])
    {
      if In(LIST, ([c] + rest)[..m]) {
        ListEnclosed(([c] + rest)[..m]);
        EnclosedUntouched(LIST, Literal(TWO_PARAMS), c, tail, m);
      }
    }
    assert ([c] + rest)[1..] == rest;
  }

  /** In front of a normal text an enclosed text may stand that is normal if it is a list. */
  lemma {:induction false} ListedHit(a: string, rest: string)
    requires Enclosed(a) && Listed(rest) && (In(LIST, a) ==> a == TWO_PARAMS)
    ensures Listed(a + rest)
  {
    var s := a + rest;
    forall m | 0 < m <= |s| && In(LIST, s[..m])
      ensures s[..m] == TWO_PARAMS
    {
      ListEnclosed(s[..m]);
      assert s == s[..m] + s[m..];
      EnclosedUnique(a, rest, s[..m], s[m..]);
    }
    assert s[1..] == a[1..] + rest;
    ListedBehind(a[1..], rest);
  }

  lemma {:induction false} ChainsKeepListed(s: string)
    requires Listed(s)
    ensures Listed(MaskChains(s))
    decreases |s|
  {
    var rep := FirstGroup(TUPLE, ",...");
    if s != "" {
      var head, out, tail := ScanStep(CHAIN, rep, s);
      ListedSuffix(s, |head|);
      ChainsKeepListed(tail);
      if MatchLen(CHAIN, s) == 0 {
        ListedKept(s[0], tail, MaskChains(tail));
      } else {
        var a, x := ChainReplaced(head, tail);
        Regroup(a, x, tail);
        ListedChain(a, x + tail, MaskChains(tail));
      }
    }
  }

  lemma {:induction false} ListedChain(a: string, y: string, rest: string)
    requires Enclosed(a) && Listed(a + y) && Listed(rest)
    ensures Listed(a + (",..." + rest))
  {
    ListedBehind(",...", rest);
    ListedPrefix(a, y);
    ListedHit(a, ",..." + rest);
  }

  lemma {:induction false} ListedPrefix(a: string, y: string)
    ensures a != "" && Listed(a + y) && In(LIST, a) ==> a == TWO_PARAMS
  {
    assert (a + y)[..|a|] == a;
  }

  lemma {:induction false} ListedKept(c: char, tail: string, rest: string)
    requires Listed([c] + tail) && rest == MaskChains(tail) && Listed(rest)
    ensures Listed([c] + rest)
  {
    ChainsKeepHead();
    forall m | 0 < m <= |[c] + rest| && In(LIST, ([c] + rest)[..m])
      ensures ([c] + rest)[..m] == TWO_PARAMS
    {
      ListEnclosed(([c] + rest)[..m]);
      EnclosedUntouched(CHAIN, FirstGroup(TUPLE, ",..."), c, tail, m);
    }
    assert ([c] + rest)[1..] == rest;
  }

  // ---- 4. repeated tuples: none

  ghost predicate Unchained(s: string) {
    s == "" || (Unchained(s[1..]) && forall n :: 0 < n <= |s| ==> !In(CHAIN, s[..n]))
  }

  lemma {:induction false} UnchainedFixed(s: string)
    requires Unchained(s)
    ensures Normal(CHAIN, FirstGroup(TUPLE, ",..."), s)
  {
    if s != "" {
      UnchainedFixed(s[1..]);
      LongestMatch(CHAIN, s);
    }
  }

  lemma {:induction false} UnchainedBehind(x: string, s: string)
    requires '(' !in x && Unchained(s)
    ensures Unchained(x + s)
  {
    if x == "" {
      assert x + s == s;
    } else {
      assert (x + s)[1..] == x[1..] + s && x[0] in x;
      UnchainedBehind(x[1..], s);
      forall n | 0 < n <= |x + s|
        ensures !In(CHAIN, (x + s)[..n])
      {
        if In(CHAIN, (x + s)[..n]) {
          ChainHead((x + s)[..n]);
        }
      }
    }
  }

  /** A tuple at the start of the result stands at the start of the text, too. */
  lemma TupleKept(s: string, t: string, y: string) returns (z: string)
    requires MaskChains(s) == t + y && In(TUPLE, t)
    ensures s == t + z
  {
    TupleEnclosed(t);
    assert s != "";
    var head, out, tail := ScanStep(CHAIN, FirstGroup(TUPLE, ",..."), s);
    if MatchLen(CHAIN, s) == 0 {
      z := TupleKeptMiss(s[0], tail, t, y);
    } else {
      z := TupleKeptHit(head, tail, t, y);
    }
  }

  lemma TupleKeptMiss(c: char, tail: string, t: string, y: string) returns (z: string)
    requires MatchLen(CHAIN, [c] + tail) == 0 && MaskChains([c] + tail) == t + y && Enclosed(t)
    ensures [c] + tail == t + z
  {
    var rep := FirstGroup(TUPLE, ",...");
    ChainsKeepHead();
    ReplaceMiss(CHAIN, rep, c, tail);
    assert (t + y)[..|t|] == t;
    EnclosedUntouched(CHAIN, rep, c, tail, |t|);
    z := ([c] + tail)[|t|..];
    assert [c] + tail == ([c] + tail)[..|t|] + z;
  }

  lemma TupleKeptHit(head: string, tail: string, t: string, y: string) returns (z: string)
    requires MatchLen(CHAIN, head + tail) == |head| && In(CHAIN, head) && MaskChains(head + tail) == t + y
             && Enclosed(t)
    ensures head + tail == t + z
  {
    var a, x := ChainReplaced(head, tail);
    EnclosedUnique(a, ",..." + MaskChains(tail), t, y);
    z := x + tail;
    Regroup(a, x, tail);
  }

  /** Characters of a text over an alphabet without parentheses. */
  lemma {:induction false} SeparatorPlain(sep: string)
    requires In(SEPARATOR, sep)
    ensures '(' !in sep && '.' !in sep
  {
    SeparatorChars(sep);
  }

  /** A chain in the result behind an unmatched character would be a chain in the text. */
  lemma {:induction false} UnchainedMiss(c: char, tail: string, rest: string)
    requires MatchLen(CHAIN, [c] + tail) == 0 && rest == MaskChains(tail) && Unchained(rest)
    ensures Unchained([c] + rest)
  {
    forall m | 0 < m <= |[c] + rest|
      ensures !In(CHAIN, ([c] + rest)[..m])
    {
      NoChainReflected(c, tail, rest, ([c] + rest)[..m], ([c] + rest)[m..]);
    }
    assert ([c] + rest)[1..] == rest;
  }

  lemma {:induction false} NoChainReflected(c: char, tail: string, rest: string, t: string, y: string)
    requires MatchLen(CHAIN, [c] + tail) == 0 && rest == MaskChains(tail) && [c] + rest == t + y
    ensures !In(CHAIN, t)
  {
    if In(CHAIN, t) {
      var u, v := ChainReflected(c, tail, rest, t, y);
      NoMatchAtStart(CHAIN, u, v);
    }
  }

  lemma {:induction false} NoMatchAtStart(re: Re, u: string, v: string)
    requires u != "" && MatchLen(re, u + v) == 0
    ensures !In(re, u)
  {
    LongestMatch(re, u + v);
    assert (u + v)[..|u|] == u;
  }

  lemma PeelFirst(c: char, rest: string, a: string, more: string)
    requires [c] + rest == a + more && a != ""
    ensures a == [c] + a[1..] && rest == a[1..] + more
  {
    assert a[0] == (a + more)[0] == c;
    assert rest == ([c] + rest)[1..] && (a + more)[1..] == a[1..] + more;
  }

  lemma ChainReflected(c: char, tail: string, rest: string, t: string, y: string) returns (u: string, v: string)
    requires rest == MaskChains(tail) && [c] + rest == t + y && In(CHAIN, t)
    ensures [c] + tail == u + v && u != "" && In(CHAIN, u)
  {
    var a, sep, b, more := ChainStart(t);
    TupleEnclosed(a);
    FourParts(c, rest, a, sep, b, more, y);
    v := TextBehind(tail, a[1..], sep, b, more + y);
    u := a + sep + b;
    FourPartsBack(c, tail, a, sep, b, v);
  }

  lemma FourParts(c: char, rest: string, a: string, sep: string, b: string, more: string, y: string)
    requires [c] + rest == a + sep + b + more + y && a != ""
    ensures rest == a[1..] + (sep + (b + (more + y))) && a == [c] + a[1..]
  {
    assert [c] + rest == a + (sep + (b + (more + y)));
    PeelFirst(c, rest, a, sep + (b + (more + y)));
  }

  lemma FourPartsBack(c: char, tail: string, a: string, sep: string, b: string, v: string)
    requires a != "" && a == [c] + a[1..] && tail == a[1..] + (sep + (b + v))
    ensures [c] + tail == a + sep + b + v
  {
    assert [c] + (a[1..] + (sep + (b + v))) == ([c] + a[1..]) + sep + b + v;
  }

  lemma TextBehind(tail: string, a: string, sep: string, b: string, y: string) returns (z: string)
    requires '(' !in a && In(SEPARATOR, sep) && In(TUPLE, b)
    requires MaskChains(tail) == a + (sep + (b + y))
    ensures tail == a + (sep + (b + z))
  {
    SeparatorPlain(sep);
    Regroup(a, sep, b + y);
    z := BehindPlain(tail, a + sep, b, y);
    Regroup(a, sep, b + z);
  }

  /** Behind text without an opening parenthesis, a tuple in the result is a tuple in the text. */
  lemma BehindPlain(s: string, plain: string, b: string, y: string) returns (z: string)
    requires MaskChains(s) == plain + (b + y) && '(' !in plain && In(TUPLE, b)
    ensures s == plain + (b + z)
  {
    ChainsKeepHead();
    var out := MaskChains(s);
    assert out[..|plain|] == plain && out[|plain|..] == b + y;
    UntouchedPrefix(CHAIN, FirstGroup(TUPLE, ",..."), '(', s, |plain|);
    z := TupleKept(s[|plain|..], b, y);
    assert s == s[..|plain|] + s[|plain|..];
  }

  /** Behind a replaced chain comes an ellipsis, which no chain can cross. */
  lemma {:induction false} UnchainedHit(a: string, rest: string)
    requires In(TUPLE, a) && Unchained(rest)
    ensures Unchained(a + (",..." + rest))
  {
    var s := a + (",..." + rest);
    TupleEnclosed(a);
    forall m | 0 < m <= |s|
      ensures !In(CHAIN, s[..m])
    {
      assert s == s[..m] + s[m..];
      NoChainOverEllipsis(a, rest, s[..m], s[m..]);
    }
    assert s[1..] == (a[1..] + ",...") + rest;
    UnchainedBehind(a[1..] + ",...", rest);
  }

  lemma {:induction false} NoChainOverEllipsis(a: string, rest: string, t: string, y: string)
    requires Enclosed(a) && a + (",..." + rest) == t + y
    ensures !In(CHAIN, t)
  {
    if In(CHAIN, t) {
      var a', sep, b, more := ChainStart(t);
      TupleEnclosed(a');
      assert t + y == a' + (sep + b + (more + y));
      EnclosedUnique(a, ",..." + rest, a', sep + b + (more + y));
      EllipsisNoSeparator(sep, b, more + y, rest);
    }
  }

  lemma {:induction false} EllipsisNoSeparator(sep: string, b: string, y: string, rest: string)
    requires In(SEPARATOR, sep) && In(TUPLE, b)
    ensures sep + b + y != ",..." + rest
  {
    SeparatorPlain(sep);
    SeparatorChars(sep);
    TupleEnclosed(b);
    var s, t := sep + b + y, ",..." + rest;
    assert t[1] == '.';
    assert s[|sep|] == '(';
    assert forall i :: 0 <= i < |sep| ==> s[i] == sep[i] && sep[i] in sep;
    assert |sep| == 1 ==> s[1] == '(';
    assert |sep| > 1 ==> s[1] == sep[1];
  }

  lemma {:induction false} ChainsNormalize(s: string)
    ensures Unchained(MaskChains(s))
    decreases |s|
  {
    var rep := FirstGroup(TUPLE, ",...");
    if s != "" {
      var head, out, tail := ScanStep(CHAIN, rep, s);
      ChainsNormalize(tail);
      if MatchLen(CHAIN, s) == 0 {
        UnchainedMiss(s[0], tail, MaskChains(tail));
      } else {
        var a, x := ChainReplaced(head, tail);
        UnchainedHit(a, MaskChains(tail));
      }
    }
  }

  // ---- the mask

  /** What a mask looks like: no rewrite finds anything left to change in it. */
  lemma MaskIsNormal(query: string)
    ensures Spaced(Mask(query)) && Zeroed(Mask(query)) && Listed(Mask(query)) && Unchained(Mask(query))
  {
    var s1 := MaskSpaces(query);
    var s2 := MaskParams(s1);
    var s3 := MaskLists(s2);
    SpacesNormalize(query);
    ParamsKeepSpaced(s1);
    ListsKeepSpaced(s2);
    ChainsKeepSpaced(s3);
    ParamsNormalize(s1);
    ListsKeepZeroed(s2);
    ChainsKeepZeroed(s3);
    ListsNormalize(s2);
    ChainsKeepListed(s3);
    ChainsNormalize(s3);
  }

  lemma {:induction false} NormalIsFixed(m: string)
    requires Spaced(m) && Zeroed(m) && Listed(m) && Unchained(m)
    ensures Mask(m) == m
  {
    SpacedFixed(m);
    NormalFixed(SPACES, Literal(" "), m);
    ZeroedFixed(m);
    NormalFixed(PARAM, Literal("$0"), m);
    ListedFixed(m);
    NormalFixed(LIST, Literal(TWO_PARAMS), m);
    UnchainedFixed(m);
    NormalFixed(CHAIN, FirstGroup(TUPLE, ",..."), m);
  }

  /** Masking a mask changes nothing, for every text. */
  lemma MaskIdempotent(query: string)
    ensures Mask(Mask(query)) == Mask(query)
  {
    MaskIsNormal(query);
    NormalIsFixed(Mask(query));
  }
}

/**
 * What a mask is, in the words of the query text: what sql/cluster_stmt_mask.sql keeps, and what becomes of
 * blanks, parameters, parameter lists and repeated rows in the middle of any text. Together these laws
 * determine the mask of every text.
 */
module MaskLaws {
  import opened Regex
  import opened Text
  import opened QueryMask
  import opened MaskChainScan
  import opened MaskVariants

  // ---------------------------------------------------------------- what is kept

  /** Exactly the normal texts are their own masks. */
  lemma {:induction false} MaskFixedIff(s: string)
    ensures Mask(s) == s <==> Spaced(s) && Zeroed(s) && Listed(s) && Unchained(s)
  {
    MaskIsNormal(s);
    if Spaced(s) && Zeroed(s) && Listed(s) && Unchained(s) {
      NormalIsFixed(s);
    }
  }

  predicate IsBlank(c: char) {
    c == ' ' || c == '\t' || c == '\n' || c == '\r' || c == '\U{0B}' || c == '\U{0C}'
  }

  predicate IsDigit(c: char) {
    '0' <= c <= '9'
  }

  /** A character that no rewrite looks at. */
  predicate Foreign(c: char) {
    !IsBlank(c) && !IsDigit(c) && c != '$' && c != '(' && c != ')' && c != ','
  }

  lemma ForeignAlphabets(c: char)
    requires Foreign(c)
    ensures c !in Alphabet(SPACES) && c !in Alphabet(PARAM) && c !in Alphabet(LIST) && c !in Alphabet(CHAIN)
  {
  }

  /** No match reaches over a character that the expression cannot match. */
  lemma {:induction false} NotOver(re: Re, x: string, c: char, y: string, m: nat)
    requires c !in Alphabet(re) && m <= |x + [c] + y| && In(re, (x + [c] + y)[..m])
    ensures m <= |x| && (x + [c] + y)[..m] == x[..m]
  {
    var t := (x + [c] + y)[..m];
    assert m > |x| ==> t[|x|] == c;
    InAlphabet(re, t);
    assert m <= |x|;
    assert t == x[..m];
  }

  lemma {:induction false} ForeignMatch(re: Re, x: string, c: char, y: string)
    requires c !in Alphabet(re)
    ensures MatchLen(re, x + [c] + y) == MatchLen(re, x)
  {
    var s := x + [c] + y;
    LongestMatch(re, x);
    LongestMatch(re, s);
    forall m | 0 < m <= |s| && In(re, s[..m])
      ensures m <= |x| && s[..m] == x[..m]
    {
      NotOver(re, x, c, y, m);
    }
    var n := MatchLen(re, x);
    if n > 0 {
      assert s[..n] == x[..n];
      LongestIs(re, s, n);
    }
  }

  /** So the texts on both sides of it are rewritten independently. */
  lemma {:induction false} ReplaceAround(re: Re, rep: Replacement, x: string, c: char, y: string)
    requires c !in Alphabet(re)
    ensures ReplaceAll(re, rep, x + [c] + y) == ReplaceAll(re, rep, x) + [c] + ReplaceAll(re, rep, y)
    decreases |x|
  {
    if x == "" {
      ForeignMatch(re, x, c, y);
      assert x + [c] + y == [c] + y;
      LongestMatch(re, "");
      ReplaceMiss(re, rep, c, y);
    } else {
      var head, out, tail := ScanStep(re, rep, x);
      ReplaceAround(re, rep, tail, c, y);
      AroundStep(re, rep, x, head, out, tail, c, y);
      Regroup(out, ReplaceAll(re, rep, tail), [c]);
      Regroup(out, ReplaceAll(re, rep, tail) + [c], ReplaceAll(re, rep, y));
    }
  }

  lemma {:induction false} AroundStep(re: Re, rep: Replacement, x: string, head: string, out: string, tail: string,
      c: char, y: string)
    requires c !in Alphabet(re) && x == head + tail && head != ""
    requires if MatchLen(re, x) == 0 then head == out == [x[0]]
             else |head| == MatchLen(re, x) && out == Apply(rep, head)
    ensures ReplaceAll(re, rep, x + [c] + y) == out + ReplaceAll(re, rep, tail + [c] + y)
  {
    ForeignMatch(re, x, c, y);
    assert x + [c] + y == head + (tail + [c] + y);
    if MatchLen(re, x) == 0 {
      ReplaceMiss(re, rep, x[0], tail + [c] + y);
    } else {
      ReplaceHit(re, rep, head, tail + [c] + y);
    }
  }

  lemma TidyAround(x: string, c: char, y: string)
    requires Foreign(c)
    ensures Tidy(x + [c] + y) == Tidy(x) + [c] + Tidy(y)
  {
    ForeignAlphabets(c);
    ReplaceAround(SPACES, Literal(" "), x, c, y);
    ReplaceAround(PARAM, Literal("$0"), MaskSpaces(x), c, MaskSpaces(y));
    ReplaceAround(LIST, Literal(TWO_PARAMS), MaskParams(MaskSpaces(x)), c, MaskParams(MaskSpaces(y)));
  }

  /**
   * Every character other than blanks, digits, "$", parentheses and commas is kept, and the mask of a text is
   * put together from the masks of the texts before and after it.
   */
  lemma MaskAround(x: string, c: char, y: string)
    requires Foreign(c)
    ensures Mask(x + [c] + y) == Mask(x) + [c] + Mask(y)
  {
    ForeignAlphabets(c);
    TidyAround(x, c, y);
    ReplaceAround(CHAIN, FirstGroup(TUPLE, ",..."), Tidy(x), c, Tidy(y));
  }

  /** The blanks are single spaces. */
  predicate SingleSpaces(s: string) {
    && (forall i :: 0 <= i < |s| && IsBlank(s[i]) ==> s[i] == ' ')
    && forall i :: 0 < i < |s| ==> s[i - 1] != ' ' || s[i] != ' '
  }

  lemma {:induction false} PlainIsNormal(s: string)
    requires SingleSpaces(s) && '$' !in s && '(' !in s
    ensures Spaced(s) && Zeroed(s) && Listed(s) && Unchained(s)
  {
    if s != "" {
      assert s[0] in s;
      PlainIsNormal(s[1..]);
      NoListAt(s);
    }
  }

  lemma {:induction false} NoListAt(s: string)
    requires '(' !in s
    ensures forall n :: 0 < n <= |s| ==> !In(LIST, s[..n]) && !In(CHAIN, s[..n])
  {
    forall n | 0 < n <= |s|
      ensures !In(LIST, s[..n]) && !In(CHAIN, s[..n])
    {
      assert s[..n][0] == s[0] && s[0] in s;
      if In(LIST, s[..n]) {
        ListEnclosed(s[..n]);
      }
      if In(CHAIN, s[..n]) {
        ChainHead(s[..n]);
      }
    }
  }

  /** A query without parameters and parentheses is kept as it is, but for its blanks. */
  lemma PlainTextKept(s: string)
    requires SingleSpaces(s) && '$' !in s && '(' !in s
    ensures Mask(s) == s
  {
    PlainIsNormal(s);
    MaskFixedIff(s);
  }

  // ---------------------------------------------------------------- blanks and parameters

  ghost predicate Blanks(w: string) {
    forall i :: 0 <= i < |w| ==> IsBlank(w[i])
  }

  ghost predicate Numeral(digits: string) {
    digits != "" && forall i :: 0 <= i < |digits| ==> IsDigit(digits[i])
  }

  lemma {:induction false} BlanksIn(w: string)
    requires Blanks(w)
    ensures In(BLANK_RUN, w) && (w != "" ==> In(SPACES, w))
  {
    PlusClass(BLANKS, w);
  }

  lemma {:induction false} NumeralIn(digits: string)
    requires Numeral(digits)
    ensures In(PARAM, "$" + digits)
  {
    DigitsIn(digits);
    ParamJoin(digits);
  }

  lemma {:induction false} DigitsIn(digits: string)
    requires Numeral(digits)
    ensures AllIn(digits, DIGITS)
  {
    forall i | 0 <= i < |digits|
      ensures digits[i] in DIGITS
    {
      assert IsDigit(digits[i]);
      DigitIn(digits[i]);
    }
  }

  lemma DigitIn(c: char)
    requires IsDigit(c)
    ensures c in DIGITS
  {
    var n := c as int - '0' as int;
    assert c == ('0' as int + n) as char;
  }

  /** A run of blanks, of whatever kinds, counts as one space. */
  lemma BlanksMasked(p: string, w: string, s: string)
    requires Blanks(w) && w != ""
    ensures Mask(p + w + s) == Mask(p + " " + s)
  {
    BlanksIn(w);
    BlanksIn(" ");
    SameBlanks(p, w, " ", s);
  }

  /** A parameter counts as $0, whatever its number. */
  lemma NumberMasked(p: string, digits: string, s: string)
    requires Numeral(digits)
    ensures Mask(p + ("$" + digits) + s) == Mask(p + "$0" + s)
  {
    NumeralIn(digits);
    NumeralIn("0");
    assert "$" + "0" == "$0";
    SameNumbers(p, "$" + digits, "$0", s);
  }

  // ---------------------------------------------------------------- parameter lists and rows

  /** A parameter with the blanks around it. */
  datatype Param = Param(before: string, digits: string, after: string)

  ghost predicate Wellformed(ps: seq<Param>) {
    ps != [] && forall i :: 0 <= i < |ps| ==> Blanks(ps[i].before) && Numeral(ps[i].digits) && Blanks(ps[i].after)
  }

  /** What stands behind a parameter: its blanks, and the next ones behind commas. */
  function More(after: string, ps: seq<Param>): string
    decreases |ps|
  {
    if ps == [] then after
    else after + "," + ps[0].before + "$" + ps[0].digits + More(ps[0].after, ps[1..])
  }

  /** The parameters in parentheses, separated by commas. */
  function Printed(ps: seq<Param>): string
    requires ps != []
  {
    "(" + (ps[0].before + "$" + ps[0].digits + More(ps[0].after, ps[1..])) + ")"
  }

  const NEXT: Re := Cat(SEPARATOR, PARAM)

  lemma {:induction false} NextIn(after: string, p: Param)
    requires Blanks(after) && Blanks(p.before) && Numeral(p.digits)
    ensures In(NEXT, Next(after, p))
  {
    SeparatorIn(after, p.before);
    NumeralIn(p.digits);
    CatIn(SEPARATOR, PARAM, after + "," + p.before, "$" + p.digits);
  }

  lemma {:induction false} SeparatorIn(w: string, v: string)
    requires Blanks(w) && Blanks(v)
    ensures In(SEPARATOR, w + "," + v)
  {
    BlanksIn(w);
    BlanksIn(v);
    CatIn(Chr(','), BLANK_RUN, ",", v);
    CatIn(BLANK_RUN, Cat(Chr(','), BLANK_RUN), w, "," + v);
    assert w + ("," + v) == w + "," + v;
  }

  /** The blanks at the end set apart. */
  lemma {:induction false} MoreIn(after: string, ps: seq<Param>) returns (links: string, last: string)
    requires Blanks(after) && (ps != [] ==> Wellformed(ps))
    ensures More(after, ps) == links + last && In(BLANK_RUN, last)
    ensures if ps == [] then links == "" else In(Plus(NEXT), links)
    decreases |ps|
  {
    if ps == [] {
      BlanksIn(after);
      links, last := "", after;
    } else {
      var p, others := ps[0], ps[1..];
      assert others != [] ==> Wellformed(others);
      var more;
      more, last := MoreIn(p.after, others);
      NextIn(after, p);
      links := Next(after, p) + more;
      NextOn(Next(after, p), more);
      MoreOn(after, ps, more, last);
    }
  }

  lemma {:induction false} MoreOn(after: string, ps: seq<Param>, more: string, last: string)
    requires ps != [] && More(ps[0].after, ps[1..]) == more + last
    ensures More(after, ps) == Next(after, ps[0]) + more + last
  {
    assert More(after, ps) == Next(after, ps[0]) + (more + last);
  }

  /** A further parameter, with the blanks behind the one before. */
  function Next(after: string, p: Param): string {
    after + "," + p.before + ("$" + p.digits)
  }

  lemma {:induction false} NextOn(next: string, more: string)
    requires In(NEXT, next) && (more == "" || In(Plus(NEXT), more))
    ensures In(Plus(NEXT), next + more)
  {
    if more == "" {
      assert next + more == next;
    } else {
      PlusJoin(NEXT, next, more);
    }
  }

  lemma {:induction false} BodyIn(re: Re, before: string, param: string, links: string, last: string)
    requires In(BLANK_RUN, before) && In(PARAM, param) && In(re, links) && In(BLANK_RUN, last)
    ensures In(Cat(BLANK_RUN, Cat(PARAM, Cat(re, BLANK_RUN))), before + (param + (links + last)))
  {
    CatIn(re, BLANK_RUN, links, last);
    CatIn(PARAM, Cat(re, BLANK_RUN), param, links + last);
    CatIn(BLANK_RUN, Cat(PARAM, Cat(re, BLANK_RUN)), before, param + (links + last));
  }

  lemma {:induction false} PrintedIn(ps: seq<Param>)
    requires Wellformed(ps)
    ensures In(RAW_ROW, Printed(ps)) && (|ps| >= 2 ==> In(RAW_LIST, Printed(ps)))
  {
    var p, others := ps[0], ps[1..];
    assert others != [] ==> Wellformed(others);
    var links, last := MoreIn(p.after, others);
    var param := "$" + p.digits;
    var body := p.before + (param + (links + last));
    NumeralIn(p.digits);
    BlanksIn(p.before);
    assert p.before + "$" + p.digits + More(p.after, others) == body;
    BodyIn(Star(NEXT), p.before, param, links, last);
    BracketedJoin(RAW_ROW_BODY, body);
    if others != [] {
      BodyIn(Plus(NEXT), p.before, param, links, last);
      BracketedJoin(RAW_BODY, body);
    }
  }

  lemma TwoParams()
    ensures In(RAW_LIST, "($0,$0)")
  {
    var zero := Param("", "0", "");
    PrintedIn([zero, zero]);
    assert [zero, zero][1..] == [zero] && [zero][1..] == [];
    assert More("", [zero]) == ",$0";
    assert Printed([zero, zero]) == "($0,$0)";
  }

  /** A list of at least two parameters, with any blanks, counts as ($0,$0). */
  lemma ListMasked(p: string, ps: seq<Param>, s: string)
    requires Wellformed(ps) && |ps| >= 2
    ensures Mask(p + Printed(ps) + s) == Mask(p + "($0,$0)" + s)
  {
    PrintedIn(ps);
    TwoParams();
    SameLists(p, Printed(ps), "($0,$0)", s);
  }

  /** On its own it is masked to just that. */
  lemma ListAlone(ps: seq<Param>)
    requires Wellformed(ps) && |ps| >= 2
    ensures Mask(Printed(ps)) == "($0,$0)"
  {
    PrintedIn(ps);
    RowMasked(Printed(ps));
    assert "" + Printed(ps) + "" == Printed(ps);
    ListInContext("", Printed(ps), "");
  }

  // ---------------------------------------------------------------- repeated rows

  /** The text ends with a tuple and a separator: a tuple behind it belongs to the same chain. */
  ghost predicate Continues(p: string) {
    exists k :: 0 <= k <= |p| && In(Cat(TUPLE, SEPARATOR), p[k..])
  }

  lemma ContinuesBehind(x: string, p: string)
    ensures Continues(p) ==> Continues(x + p)
  {
    if k :| 0 <= k <= |p| && In(Cat(TUPLE, SEPARATOR), p[k..]) {
      Behind(x, p, k);
    }
  }

  lemma {:induction false} ContinuesHere(a: string, sep: string)
    requires In(TUPLE, a) && In(SEPARATOR, sep)
    ensures Continues(a + sep)
  {
    CatIn(TUPLE, SEPARATOR, a, sep);
    assert (a + sep)[0..] == a + sep;
  }

  lemma {:induction false} PlainStep(c: char, y: string)
    requires c != '('
    ensures MaskChains([c] + y) == [c] + MaskChains(y)
  {
    LongestMatch(CHAIN, [c] + y);
    if MatchLen(CHAIN, [c] + y) > 0 {
      ChainHead(([c] + y)[..MatchLen(CHAIN, [c] + y)]);
    }
    ReplaceMiss(CHAIN, FirstGroup(TUPLE, ",..."), c, y);
  }

  /** Text without an opening parenthesis in front is kept. */
  lemma {:induction false} PlainKept(x: string, y: string)
    requires '(' !in x
    ensures MaskChains(x + y) == x + MaskChains(y)
  {
    if x == "" {
      assert x + y == y;
    } else {
      var c, rest := x[0], x[1..];
      assert c in x && x == [c] + rest;
      Regroup([c], rest, y);
      PlainStep(c, rest + y);
      PlainKept(rest, y);
      Regroup([c], rest, MaskChains(y));
    }
  }

  lemma EnclosedTail(t: string)
    requires Enclosed(t)
    ensures t == "(" + t[1..] && '(' !in t[1..]
  {
    forall i | 0 <= i < |t[1..]|
      ensures t[1..][i] != '('
    {
      assert t[1..][i] == t[i + 1];
    }
  }

  /** A tuple without a link behind it is kept. */
  lemma {:induction false} TupleAlone(t: string, u: string)
    requires In(TUPLE, t) && Links(u) == 0
    ensures MaskChains(t + u) == t + MaskChains(u)
  {
    TupleEnclosed(t);
    EnclosedTail(t);
    ChainLen(t, u);
    var rest := t[1..];
    Regroup("(", rest, u);
    ReplaceMiss(CHAIN, FirstGroup(TUPLE, ",..."), '(', rest + u);
    PlainKept(rest, u);
    Regroup("(", rest, MaskChains(u));
  }

  lemma {:induction false} LinkOpens(l: string)
    requires In(LINK, l)
    ensures '(' in l
  {
    var sep, e := LinkParts(l);
    assert e[0] in e;
  }

  lemma {:induction false} PlainNoLink(sep: string)
    requires '(' !in sep
    ensures Links(sep) == 0
  {
    var l, x := NextLink(sep);
    assert forall c :: c in l ==> c in sep;
    if l != "" {
      LinkOpens(l);
    }
  }

  /** A link that ends with the tuple `t` behind `q` is `q` and `t`: then `q` is a separator. */
  lemma {:induction false} LinkOver(l: string, q: string, t: string)
    requires In(LINK, l) && Enclosed(t) && l == q + t
    ensures In(SEPARATOR, q)
  {
    var sep, e := LinkParts(l);
    assert l[|q|] == '(' && l[|sep|] == '(';
    assert forall i :: |sep| < i < |l| ==> l[i] == e[i - |sep|];
    assert forall i :: 0 <= i < |sep| ==> l[i] == sep[i] && sep[i] in sep;
    assert |q| == |sep|;
    assert q == l[..|q|] == sep;
  }

  /** Without such an end, no chain from before reaches the tuple `t`. */
  lemma {:induction false} LinksStay(a: string, q: string, t: string, y: string)
    requires In(TUPLE, a) && In(TUPLE, t) && !Continues(a + q)
    ensures Links(q + (t + y)) == Links(q) <= |q|
    decreases |q|
  {
    TupleEnclosed(t);
    LinksMatch(q);
    var l, x := NextLink(q + (t + y));
    if l == "" {
      var l', x' := NextLink(q);
      if l' != "" {
        Regroup(l', x', t + y);
        LinkLenIs(l', x' + (t + y));
      }
    } else {
      LinkInside(l, x, q, t, y);
      if |l| <= |q| {
        var q' := CutAtLength(q, t + y, l, x);
        LinksStayOn(a, l, q');
        var sep, e := LinkParts(l);
        LinksStay(e, q', t, y);
        Regroup(l, q', t + y);
        LinksOn(l, q' + (t + y));
        LinksOn(l, q');
      } else {
        LinkOver(l, q, t);
        ContinuesHere(a, q);
      }
    }
  }

  lemma {:induction false} LinksStayOn(a: string, l: string, q: string)
    requires In(LINK, l) && !Continues(a + (l + q))
    ensures forall sep, e :: l == sep + e ==> !Continues(e + q)
  {
    forall sep, e | l == sep + e
      ensures !Continues(e + q)
    {
      ContinuesBehind(a + sep, e + q);
      assert (a + sep) + (e + q) == a + (l + q);
    }
  }

  /** So the texts before and from the tuple on are rewritten independently. */
  lemma {:induction false} SplitAtTuple(p: string, t: string, y: string)
    requires In(TUPLE, t) && !Continues(p)
    ensures MaskChains(p + (t + y)) == MaskChains(p) + MaskChains(t + y)
    decreases |p|
  {
    TupleEnclosed(t);
    if p == "" {
      assert p + (t + y) == t + y;
    } else {
      var a, q := StartOf(p, t, y);
      if a == "" {
        assert p == [p[0]] + p[1..];
        ContinuesBehind([p[0]], p[1..]);
        SplitAtTuple(p[1..], t, y);
        StepOver(p, t, y);
        ReplaceMiss(CHAIN, FirstGroup(TUPLE, ",..."), p[0], p[1..]);
        Regroup([p[0]], MaskChains(p[1..]), MaskChains(t + y));
      } else {
        var v, r := q[..Links(q)], q[Links(q)..];
        assert q == v + r;
        SplitBehind(a, v, r, t, y);
      }
    }
  }

  /** A chain at the start, with the tuple behind or not, starts with the same tuple. */
  lemma {:induction false} StartOf(p: string, t: string, y: string) returns (a: string, q: string)
    requires p != "" && In(TUPLE, t) && Enclosed(t) && !Continues(p)
    ensures a == "" ==> MatchLen(CHAIN, p + (t + y)) == 0 && MatchLen(CHAIN, p) == 0
    ensures a != "" ==> p == a + q && In(TUPLE, a) && Links(q + (t + y)) == Links(q) && 0 < Links(q) <= |q|
  {
    a, q := ChainInside(p, t, y);
    if MatchLen(CHAIN, p + (t + y)) > 0 {
      LinksStay(a, q, t, y);
      Regroup(a, q, t + y);
      ChainLen(a, q + (t + y));
    } else {
      a := "";
      var b, u := ChainNeedsTuple(p);
      if MatchLen(CHAIN, p) > 0 {
        LinksStay(b, u, t, y);
        Regroup(b, u, t + y);
        ChainLen(b, u);
        ChainLen(b, u + (t + y));
      }
    }
  }

  /** Both scans pass the same chain; `v` are its links. */
  lemma {:induction false} SplitBehind(a: string, v: string, r: string, t: string, y: string)
    requires In(TUPLE, a) && a != "" && v != "" && In(TUPLE, t) && !Continues(a + (v + r))
    requires Links((v + r) + (t + y)) == Links(v + r) == |v|
    ensures MaskChains((a + (v + r)) + (t + y)) == MaskChains(a + (v + r)) + MaskChains(t + y)
    decreases |a + (v + r)|, 0
  {
    ChainHit(a, v + r);
    Behind(v, r, 0);
    Regroup(a, v + r, t + y);
    Regroup(v, r, t + y);
    ChainHit(a, v + (r + (t + y)));
    Behind(v, r + (t + y), 0);
    Regroup(a, v, r);
    ContinuesBehind(a + v, r);
    assert r[0..] == r && (r + (t + y))[0..] == r + (t + y);
    SplitAtTuple(r, t, y);
    Joined(a, MaskChains(r), MaskChains(t + y));
  }

  lemma Joined(a: string, x: string, y: string)
    ensures a + (",..." + (x + y)) == (a + (",..." + x)) + y
  {
  }

  /** A tuple and its links in a text: the links, and those that follow, give way to an ellipsis. */
  lemma {:induction false} ChainInContext(p: string, t: string, c: string, s: string)
    requires In(TUPLE, t) && In(Plus(LINK), c) && !Continues(p)
    ensures Links(s) <= |s|
    ensures MaskChains(p + (t + (c + s))) == MaskChains(p) + (t + (",..." + MaskChains(s[Links(s)..])))
  {
    SplitAtTuple(p, t, c + s);
    LinksThrough(c, s);
    RunThrough(t, c, s);
  }

  // ---- the conditions are exact

  lemma {:induction false} FurtherLinks(s: string)
    ensures Links(s) <= |s|
    ensures Links(s) > 0 ==> |MaskChains(s)| > |MaskChains(s[Links(s)..])|
  {
    LinksMatch(s);
    var l, x := NextLink(s);
    if l != "" {
      var sep, e := LinkParts(l);
      Regroup(sep, e, x);
      PlainKept(sep, e + x);
      LinksOn(l, x);
      LinksMatch(x);
      if Links(x) == 0 {
        TupleAlone(e, x);
      } else {
        ChainHit(e, x);
        Behind(l, x, Links(x));
      }
    }
  }

  /** Where a text's last run of tuples begins. */
  lemma {:induction false} RunStart(p: string) returns (q: string, a: string, k: string, sep: string)
    requires Continues(p)
    ensures p == q + (a + (k + sep)) && !Continues(q)
    ensures In(TUPLE, a) && (k == "" || In(Plus(LINK), k)) && In(SEPARATOR, sep)
    decreases |p|
  {
    var i :| 0 <= i <= |p| && In(Cat(TUPLE, SEPARATOR), p[i..]);
    var b;
    b, sep := CatParts(TUPLE, SEPARATOR, p[i..]);
    q := p[..i];
    assert p == q + (b + sep);
    if Continues(q) {
      var k', sep';
      SeparatorChars(sep);
      q, a, k', sep' := RunStart(q);
      LinkOn(k', sep', b);
      k := k' + (sep' + b);
      RunGrows(q, a, k', sep', b, sep);
    } else {
      a, k := b, "";
      assert k + sep == sep;
    }
  }

  lemma RunGrows(q: string, a: string, k: string, sep: string, b: string, more: string)
    ensures q + (a + (k + sep)) + (b + more) == q + (a + (k + (sep + b) + more))
  {
  }

  lemma {:induction false} LinksJoin(x: string, y: string)
    requires In(Plus(LINK), x) && In(Plus(LINK), y)
    ensures In(Plus(LINK), x + y)
    decreases |x|
  {
    var first, rest := PlusFirst(LINK, x);
    LinkLenIs(first, rest);
    if rest == "" {
      assert x == first;
      PlusJoin(LINK, first, y);
    } else {
      LinksJoin(rest, y);
      PlusJoin(LINK, first, rest + y);
      Regroup(first, rest, y);
    }
  }

  lemma {:induction false} LinkOn(k: string, sep: string, b: string)
    requires (k == "" || In(Plus(LINK), k)) && In(SEPARATOR, sep) && In(TUPLE, b)
    ensures In(Plus(LINK), k + (sep + b))
  {
    CatIn(SEPARATOR, TUPLE, sep, b);
    if k == "" {
      assert k + (sep + b) == sep + b;
    } else {
      LinksJoin(k, sep + b);
    }
  }

  /** The text up to the tuple, on its own, keeps the run's first tuple and everything behind the run. */
  lemma {:induction false} RunKept(q: string, a: string, k: string, sep: string)
    requires !Continues(q) && In(TUPLE, a) && (k == "" || In(Plus(LINK), k)) && In(SEPARATOR, sep)
    ensures |MaskChains(q + (a + (k + sep)))| >= |MaskChains(q)| + |a|
  {
    SeparatorPlain(sep);
    PlainNoLink(sep);
    if k == "" {
      assert k + sep == sep;
      SplitAtTuple(q, a, sep);
      TupleAlone(a, sep);
    } else {
      ChainInContext(q, a, k, sep);
    }
  }

  lemma {:induction false} JoinedRun(k: string, sep: string, t: string, c: string)
    requires (k == "" || In(Plus(LINK), k)) && In(SEPARATOR, sep) && In(TUPLE, t) && In(Plus(LINK), c)
    ensures In(Plus(LINK), (k + (sep + t)) + c)
  {
    LinkOn(k, sep, t);
    LinksJoin(k + (sep + t), c);
  }

  lemma {:induction false} ContinuedIsShorter(p: string, t: string, c: string, s: string)
    requires In(TUPLE, t) && In(Plus(LINK), c) && Continues(p)
    ensures |MaskChains(p + (t + (c + s)))| < |MaskChains(p)| + |t| + 4 + |MaskChains(s)|
  {
    var q, a, k, sep := RunStart(p);
    var links := (k + (sep + t)) + c;
    JoinedRun(k, sep, t, c);
    assert p + (t + (c + s)) == q + (a + (links + s));
    ChainInContext(q, a, links, s);
    RunKept(q, a, k, sep);
    FurtherLinks(s);
    TupleEnclosed(t);
    assert s[0..] == s;
  }

  /** The rewritten text is put together from its parts if and only if the run begins and ends where they meet. */
  lemma {:induction false} ChainSplitsIff(p: string, t: string, c: string, s: string)
    requires In(TUPLE, t) && In(Plus(LINK), c)
    ensures MaskChains(p + (t + (c + s))) == MaskChains(p) + (t + (",..." + MaskChains(s)))
       <==> !Continues(p) && Links(s) == 0
  {
    if Continues(p) {
      ContinuedIsShorter(p, t, c, s);
    } else {
      ChainInContext(p, t, c, s);
      FurtherLinks(s);
      assert s[0..] == s;
    }
  }

  /** A link has no dot in front of its parenthesis. */
  lemma {:induction false} LinkOpensAt(l: string) returns (n: nat)
    requires In(LINK, l)
    ensures n < |l| && l[n] == '(' && forall i :: 0 <= i < n ==> l[i] != '.'
  {
    var sep, e := LinkParts(l);
    SeparatorChars(sep);
    n := |sep|;
    forall i | 0 <= i < n
      ensures l[i] != '.'
    {
      assert l[i] == sep[i] && sep[i] in sep;
    }
  }

  lemma {:induction false} EllipsisNoLink(s: string)
    ensures Links(",..." + s) == 0
  {
    var y := ",..." + s;
    var l, x := NextLink(y);
    assert y[0] == ',' && y[1] == '.';
    assert forall i :: 0 <= i < |l| ==> l[i] == y[i];
    if l != "" {
      var n := LinkOpensAt(l);
      assert false;
    }
  }

  lemma {:induction false} EllipsisKept(s: string)
    ensures MaskChains(",..." + s) == ",..." + MaskChains(s)
  {
    PlainKept(",...", s);
  }

  /** The chain written with its ellipsis already, in front of which the run of `p` still ends. */
  lemma {:induction false} ContinuedEllipsis(p: string, t: string, c: string, s: string)
    requires In(TUPLE, t) && In(Plus(LINK), c) && Continues(p)
    ensures |MaskChains(p + (t + (c + s)))| < |MaskChains(p + (t + (",..." + s)))|
  {
    var q, a, k, sep := RunStart(p);
    var links, y := (k + (sep + t)) + c, ",..." + s;
    JoinedRun(k, sep, t, c);
    LinkOn(k, sep, t);
    assert p + (t + (c + s)) == q + (a + (links + s));
    assert p + (t + y) == q + (a + ((k + (sep + t)) + y));
    ChainInContext(q, a, links, s);
    ChainInContext(q, a, k + (sep + t), y);
    EllipsisNoLink(s);
    EllipsisKept(s);
    FurtherLinks(s);
    assert s[0..] == s && y[0..] == y;
  }

  /** A chain counts as its tuple and an ellipsis, if and only if it is a whole run. */
  lemma {:induction false} ChainAsEllipsis(p: string, t: string, c: string, s: string)
    requires In(TUPLE, t) && In(Plus(LINK), c)
    ensures MaskChains(p + (t + (c + s))) == MaskChains(p + (t + (",..." + s))) <==> !Continues(p) && Links(s) == 0
  {
    ChainSplitsIff(p, t, c, s);
    if Continues(p) {
      ContinuedEllipsis(p, t, c, s);
    } else {
      EllipsisNoLink(s);
      EllipsisKept(s);
      SplitAtTuple(p, t, ",..." + s);
      TupleAlone(t, ",..." + s);
    }
  }

  // ---- in the query

  /** A separator and a further row. */
  datatype NextRow = NextRow(before: string, after: string, params: seq<Param>)

  ghost predicate WellformedRows(rows: seq<NextRow>) {
    rows != [] && forall i :: 0 <= i < |rows| ==>
      Blanks(rows[i].before) && Blanks(rows[i].after) && Wellformed(rows[i].params)
  }

  /** `, (..), (..)` with any blanks. */
  function PrintedRows(rows: seq<NextRow>): string
    requires forall i :: 0 <= i < |rows| ==> rows[i].params != []
  {
    if rows == [] then ""
    else rows[0].before + "," + rows[0].after + Printed(rows[0].params) + PrintedRows(rows[1..])
  }

  lemma {:induction false} PrintedRowsIn(rows: seq<NextRow>)
    requires WellformedRows(rows)
    ensures In(Plus(RAW_LINK), PrintedRows(rows))
    decreases |rows|
  {
    var row, others := rows[0], rows[1..];
    var link := row.before + "," + row.after + Printed(row.params);
    SeparatorIn(row.before, row.after);
    PrintedIn(row.params);
    CatIn(SEPARATOR, RAW_ROW, row.before + "," + row.after, Printed(row.params));
    if others == [] {
      assert PrintedRows(rows) == link + "" == link;
    } else {
      assert WellformedRows(others);
      PrintedRowsIn(others);
      PlusJoin(RAW_LINK, link, PrintedRows(others));
    }
  }

  /** A row alone is only tidied. */
  lemma {:induction false} RowMasked(t: string)
    requires In(RAW_ROW, t)
    ensures Mask(t) == Tidy(t)
  {
    RowTidied(t);
    PlainNoLink("");
    TupleAlone(Tidy(t), "");
    assert Tidy(t) + "" == Tidy(t);
  }

  /**
   * Further rows behind a row give way to an ellipsis, and the texts before and after are masked on their own, if
   * and only if no tuple and separator stand directly before, and no further one directly behind.
   */
  lemma {:induction false} RowsMasked(p: string, first: seq<Param>, rows: seq<NextRow>, s: string)
    requires Wellformed(first) && WellformedRows(rows)
    ensures Mask(p + Printed(first) + PrintedRows(rows) + s) == Mask(p) + (Mask(Printed(first)) + (",..." + Mask(s)))
       <==> !Continues(Tidy(p)) && Links(Tidy(s)) == 0
  {
    var t, c := Printed(first), PrintedRows(rows);
    PrintedIn(first);
    PrintedRowsIn(rows);
    RowsInContext(p, t, c, s);
    RowTidied(t);
    RowMasked(t);
    LinksTidied(c);
    ChainSplitsIff(Tidy(p), Tidy(t), Tidy(c), Tidy(s));
  }

  lemma CommaTidied()
    ensures Tidy(",") == "," && Tidy("") == ""
  {
    MaskSpacesIs(",");
    MaskSpacesIs("");
    MaskParamsIs(",");
    MaskParamsIs("");
    assert ","[1..] == "" && "," + "" == ",";
    PlainStays(",");
    PlainStays("");
  }

  lemma DotTidied(s: string)
    ensures Tidy("." + s) == "." + Tidy(s)
  {
    CommaTidied();
    TidyAround("", '.', s);
    assert "" + ['.'] + s == "." + s;
  }

  lemma EllipsisTidied(s: string)
    ensures Tidy(",..." + s) == ",..." + Tidy(s)
  {
    DotTidied(s);
    DotTidied("." + s);
    CommaTidied();
    TidyAround(",", '.', "." + ("." + s));
    assert "," + ['.'] + ("." + ("." + s)) == ",..." + s;
  }

  lemma {:induction false} EllipsisInContext(p: string, t: string, s: string)
    requires In(RAW_ROW, t)
    ensures Tidy(p + t + ",..." + s) == Tidy(p) + (Tidy(t) + (",..." + Tidy(s)))
  {
    RawEnclosed(RAW_ROW_BODY, t);
    TidySplit(p + t, ",..." + s);
    TidySplit(p, t);
    EllipsisTidied(s);
    Regroup(p + t, ",...", s);
    Regroup(Tidy(p), Tidy(t), ",..." + Tidy(s));
  }

  /**
   * In a query, further rows behind a row count as an ellipsis behind it, on the same condition: they are all the
   * rows there are in the run.
   */
  lemma {:induction false} RowsAsEllipsis(p: string, first: seq<Param>, rows: seq<NextRow>, s: string)
    requires Wellformed(first) && WellformedRows(rows)
    ensures Mask(p + Printed(first) + PrintedRows(rows) + s) == Mask(p + Printed(first) + ",..." + s)
       <==> !Continues(Tidy(p)) && Links(Tidy(s)) == 0
  {
    var t, c := Printed(first), PrintedRows(rows);
    PrintedIn(first);
    PrintedRowsIn(rows);
    RowsInContext(p, t, c, s);
    RowTidied(t);
    LinksTidied(c);
    EllipsisInContext(p, t, s);
    ChainAsEllipsis(Tidy(p), Tidy(t), Tidy(c), Tidy(s));
  }
}

/**
 * Regular expressions with the meaning of PostgreSQL's regexp_replace(.., 'g'): the leftmost match
 * of greatest length is replaced, and the search goes on behind it.
 */
module Regex {

  datatype Re =
    | Class(chars: set<char>)
    | Cat(a: Re, b: Re)
    | Plus(a: Re)
    | Optional(a: Re)

  /** a* */
  function Star(a: Re): Re {
    Optional(Plus(a))
  }

  function Chr(c: char): Re {
    Class({c})
  }

  /** The text `t` as a whole matches. */
  predicate In(re: Re, t: string)
    decreases re, |t|
  {
    match re
    case Class(chars) => |t| == 1 && t[0] in chars
    case Cat(a, b) => exists k :: 0 <= k <= |t| && In(a, t[..k]) && In(b, t[k..])
    case Plus(a) => In(a, t) || exists k :: 0 < k < |t| && In(a, t[..k]) && In(Plus(a), t[k..])
    case Optional(a) => t == "" || In(a, t)
  }

  /** Length of the longest non-empty match at the start of `s`, 0 if there is none. */
  function MatchLen(re: Re, s: string): (n: nat)
    ensures n <= |s|
  {
    LongestUpTo(re, s, |s|)
  }

  function LongestUpTo(re: Re, s: string, bound: nat): (n: nat)
    requires bound <= |s|
    ensures n <= bound
  {
    if bound == 0 then 0 else if In(re, s[..bound]) then bound else LongestUpTo(re, s, bound - 1)
  }

  /** A replacement text: literal, or "\1" followed by a literal where \1 is a prefix of the match. */
  datatype Replacement = Literal(text: string) | FirstGroup(group: Re, suffix: string)

  function Apply(rep: Replacement, matched: string): string {
    match rep
    case Literal(text) => text
    case FirstGroup(group, suffix) => matched[..MatchLen(group, matched)] + suffix
  }

  function ReplaceAll(re: Re, rep: Replacement, s: string): string
    decreases |s|
  {
    if s == "" then ""
    else
      var n := MatchLen(re, s);
      if n == 0 then [s[0]] + ReplaceAll(re, rep, s[1..])
      else Apply(rep, s[..n]) + ReplaceAll(re, rep, s[n..])
  }

  // ---- matching

  /** MatchLen is a match, if it is not 0, and no longer prefix matches. */
  lemma {:induction false} LongestMatch(re: Re, s: string)
    ensures MatchLen(re, s) > 0 ==> In(re, s[..MatchLen(re, s)])
    ensures forall m :: MatchLen(re, s) < m <= |s| ==> !In(re, s[..m])
  {
    LongestUpToFacts(re, s, |s|);
  }

  lemma {:induction false} LongestUpToFacts(re: Re, s: string, bound: nat)
    requires bound <= |s|
    ensures LongestUpTo(re, s, bound) > 0 ==> In(re, s[..LongestUpTo(re, s, bound)])
    ensures forall m :: LongestUpTo(re, s, bound) < m <= bound ==> !In(re, s[..m])
  {
    if bound > 0 && !In(re, s[..bound]) {
      LongestUpToFacts(re, s, bound - 1);
    }
  }

  /** A prefix that matches, and behind which no longer one does, is the match. */
  lemma {:induction false} LongestIs(re: Re, s: string, n: nat)
    requires 0 < n <= |s| && In(re, s[..n])
    requires forall m :: n < m <= |s| ==> !In(re, s[..m])
    ensures MatchLen(re, s) == n
  {
    LongestMatch(re, s);
  }

  lemma {:induction false} CatIn(a: Re, b: Re, s: string, t: string)
    requires In(a, s) && In(b, t)
    ensures In(Cat(a, b), s + t)
  {
    assert (s + t)[..|s|] == s && (s + t)[|s|..] == t;
  }

  lemma CatSplit(a: Re, b: Re, t: string) returns (k: nat)
    requires In(Cat(a, b), t)
    ensures k <= |t| && In(a, t[..k]) && In(b, t[k..])
  {
    k :| 0 <= k <= |t| && In(a, t[..k]) && In(b, t[k..]);
  }

  lemma CatParts(a: Re, b: Re, t: string) returns (x: string, y: string)
    requires In(Cat(a, b), t)
    ensures t == x + y && In(a, x) && In(b, y)
  {
    var k := CatSplit(a, b, t);
    x, y := t[..k], t[k..];
  }

  lemma PlusFirst(a: Re, t: string) returns (first: string, rest: string)
    requires In(Plus(a), t)
    ensures t == first + rest && In(a, first) && (rest == "" || In(Plus(a), rest))
  {
    if In(a, t) {
      first, rest := t, "";
    } else {
      var k := PlusSplit(a, t);
      first, rest := t[..k], t[k..];
    }
  }

  lemma PlusSplit(a: Re, t: string) returns (k: nat)
    requires In(Plus(a), t) && !In(a, t)
    ensures 0 < k < |t| && In(a, t[..k]) && In(Plus(a), t[k..])
  {
    k :| 0 < k < |t| && In(a, t[..k]) && In(Plus(a), t[k..]);
  }

  ghost predicate AllIn(t: string, chars: set<char>) {
    forall i :: 0 <= i < |t| ==> t[i] in chars
  }

  /** A repeated class matches exactly the non-empty texts over it. */
  lemma {:induction false} PlusClass(chars: set<char>, t: string)
    ensures In(Plus(Class(chars)), t) <==> t != "" && AllIn(t, chars)
    decreases |t|
  {
    if |t| > 1 {
      PlusClass(chars, t[1..]);
      assert In(Class(chars), t[..1]) <==> t[0] in chars;
      if In(Plus(Class(chars)), t) {
        assert !In(Class(chars), t);
        var k := PlusSplit(Class(chars), t);
        assert |t[..k]| == 1;
      }
      if AllIn(t, chars) {
        assert AllIn(t[1..], chars);
      }
    }
  }

  function Bracketed(body: Re): Re {
    Cat(Chr('('), Cat(body, Chr(')')))
  }

  lemma BracketedSplit(body: Re, t: string) returns (inner: string)
    requires In(Bracketed(body), t)
    ensures t == "(" + inner + ")" && In(body, inner)
  {
    var k := CatSplit(Chr('('), Cat(body, Chr(')')), t);
    var u := t[k..];
    var m := CatSplit(body, Chr(')'), u);
    inner := u[..m];
    assert t == t[..k] + u && u == inner + u[m..];
    assert t[..k] == "(" && u[m..] == ")";
  }

  lemma {:induction false} BracketedJoin(body: Re, inner: string)
    requires In(body, inner)
    ensures In(Bracketed(body), "(" + inner + ")")
  {
    CatIn(body, Chr(')'), inner, ")");
    CatIn(Chr('('), Cat(body, Chr(')')), "(", inner + ")");
    assert "(" + inner + ")" == "(" + (inner + ")");
  }

  /** All characters an expression can match. */
  function Alphabet(re: Re): set<char> {
    match re
    case Class(chars) => chars
    case Cat(a, b) => Alphabet(a) + Alphabet(b)
    case Plus(a) => Alphabet(a)
    case Optional(a) => Alphabet(a)
  }

  lemma AllInBoth(t: string, k: nat, a: set<char>, b: set<char>)
    requires k <= |t| && AllIn(t[..k], a) && AllIn(t[k..], b)
    ensures AllIn(t, a + b)
  {
    forall i | 0 <= i < |t|
      ensures t[i] in a + b
    {
      assert t[i] == if i < k then t[..k][i] else t[k..][i - k];
    }
  }

  lemma {:induction false} InAlphabet(re: Re, t: string)
    requires In(re, t)
    ensures AllIn(t, Alphabet(re))
    decreases re, |t|
  {
    match re
    case Class(chars) =>
    case Cat(a, b) =>
      var k := CatSplit(a, b, t);
      InAlphabet(a, t[..k]);
      InAlphabet(b, t[k..]);
      AllInBoth(t, k, Alphabet(a), Alphabet(b));
    case Plus(a) =>
      if In(a, t) {
        InAlphabet(a, t);
      } else {
        var k := PlusSplit(a, t);
        InAlphabet(a, t[..k]);
        InAlphabet(re, t[k..]);
        AllInBoth(t, k, Alphabet(a), Alphabet(a));
        assert Alphabet(a) + Alphabet(a) == Alphabet(re);
      }
    case Optional(a) =>
      if t != "" {
        InAlphabet(a, t);
      }
  }

  // ---- replacing

  /** Every match that a scan could meet is its own replacement. */
  ghost predicate Normal(re: Re, rep: Replacement, s: string) {
    s == "" ||
    var n := MatchLen(re, s);
    Normal(re, rep, s[1..]) && (n > 0 ==> Apply(rep, s[..n]) == s[..n])
  }

  lemma {:induction false} NormalSuffix(re: Re, rep: Replacement, s: string, n: nat)
    requires Normal(re, rep, s) && n <= |s|
    ensures Normal(re, rep, s[n..])
  {
    if n == 0 {
      assert s[0..] == s;
    } else {
      NormalSuffix(re, rep, s[1..], n - 1);
      assert s[1..][n - 1..] == s[n..];
    }
  }

  /** One step of the scan. */
  lemma {:induction false} ReplaceMiss(re: Re, rep: Replacement, c: char, tail: string)
    requires MatchLen(re, [c] + tail) == 0
    ensures ReplaceAll(re, rep, [c] + tail) == [c] + ReplaceAll(re, rep, tail)
  {
    assert ([c] + tail)[1..] == tail;
  }

  lemma {:induction false} ReplaceHit(re: Re, rep: Replacement, head: string, tail: string)
    requires MatchLen(re, head + tail) == |head| > 0
    ensures ReplaceAll(re, rep, head + tail) == Apply(rep, head) + ReplaceAll(re, rep, tail)
  {
    assert (head + tail)[..|head|] == head && (head + tail)[|head|..] == tail;
  }

  /** The scan's next piece: a match and its replacement, or one character that stays. */
  lemma ScanStep(re: Re, rep: Replacement, s: string) returns (head: string, out: string, tail: string)
    requires s != ""
    ensures s == head + tail && head != "" && tail == s[|head|..]
    ensures ReplaceAll(re, rep, s) == out + ReplaceAll(re, rep, tail)
    ensures if MatchLen(re, s) == 0 then head == out == [s[0]]
            else In(re, head) && |head| == MatchLen(re, s) && head == s[..|head|] && out == Apply(rep, head)
  {
    LongestMatch(re, s);
    var n := if MatchLen(re, s) == 0 then 1 else MatchLen(re, s);
    head, tail := s[..n], s[n..];
    out := if MatchLen(re, s) == 0 then head else Apply(rep, head);
  }

  lemma {:induction false} NormalFixed(re: Re, rep: Replacement, s: string)
    requires Normal(re, rep, s)
    ensures ReplaceAll(re, rep, s) == s
    decreases |s|
  {
    if s != "" {
      var head, out, tail := ScanStep(re, rep, s);
      NormalSuffix(re, rep, s, |head|);
      NormalFixed(re, rep, tail);
    }
  }

  /** A match and its replacement start with the same character. */
  ghost predicate KeepsHead(re: Re, rep: Replacement) {
    forall t :: In(re, t) ==> t != "" && Apply(rep, t) != "" && Apply(rep, t)[0] == t[0]
  }

  lemma {:induction false} HeadKept(re: Re, rep: Replacement, s: string)
    requires KeepsHead(re, rep)
    ensures s == "" <==> ReplaceAll(re, rep, s) == ""
    ensures s != "" ==> ReplaceAll(re, rep, s)[0] == s[0]
  {
    LongestMatch(re, s);
  }

  /** All matches start with `c`. */
  ghost predicate StartsWith(re: Re, c: char) {
    forall t :: In(re, t) ==> t != "" && t[0] == c
  }

  /** As long as the result shows no `c`, nothing has been replaced. */
  lemma {:induction false} UntouchedPrefix(re: Re, rep: Replacement, c: char, s: string, m: nat)
    requires KeepsHead(re, rep) && StartsWith(re, c)
    requires m <= |ReplaceAll(re, rep, s)| && c !in ReplaceAll(re, rep, s)[..m]
    ensures m <= |s| && ReplaceAll(re, rep, s)[..m] == s[..m]
    ensures ReplaceAll(re, rep, s)[m..] == ReplaceAll(re, rep, s[m..])
    decreases m
  {
    if m == 0 {
      assert s[0..] == s && ReplaceAll(re, rep, s)[0..] == ReplaceAll(re, rep, s);
    } else {
      NoMatchBefore(re, rep, c, s, m);
      var tail := s[1..];
      assert s == [s[0]] + tail;
      ReplaceMiss(re, rep, s[0], tail);
      BehindFirst(s[0], ReplaceAll(re, rep, tail), m);
      UntouchedPrefix(re, rep, c, tail, m - 1);
      BehindFirst(s[0], tail, m);
    }
  }

  lemma {:induction false} NoMatchBefore(re: Re, rep: Replacement, c: char, s: string, m: nat)
    requires KeepsHead(re, rep) && StartsWith(re, c)
    requires 0 < m <= |ReplaceAll(re, rep, s)| && c !in ReplaceAll(re, rep, s)[..m]
    ensures s != "" && MatchLen(re, s) == 0
  {
    var out := ReplaceAll(re, rep, s);
    HeadKept(re, rep, s);
    assert out[..m][0] == out[0] && out[0] in out[..m];
    LongestMatch(re, s);
  }

  lemma BehindFirst(c: char, s: string, m: nat)
    requires 0 < m <= |s| + 1
    ensures ([c] + s)[..m] == [c] + s[..m - 1] && ([c] + s)[m..] == s[m - 1..]
  {
  }
}

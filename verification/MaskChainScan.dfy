/**
 * The last rewrite of the mask as a scanner: the number of repeated tuples behind the first one does
 * not matter, whatever stands before and after them.
 */
module MaskChainScan {
  import opened Regex
  import opened Text
  import opened QueryMask

  // \s*,\s*\([$0, ]+\)
  const LINK: Re := Cat(SEPARATOR, TUPLE)

  /** A link is a separator and an enclosed text, so the opening parenthesis tells them apart. */
  lemma LinkParts(l: string) returns (sep: string, e: string)
    requires In(LINK, l)
    ensures l == sep + e && In(SEPARATOR, sep) && In(TUPLE, e) && Enclosed(e) && '(' !in sep
  {
    sep, e := CatParts(SEPARATOR, TUPLE, l);
    TupleEnclosed(e);
    SeparatorPlain(sep);
  }

  lemma PlainNotLonger(sep: string, e: string, x: string, sep': string, y: string)
    requires '(' !in sep' && e != "" && e[0] == '(' && sep + (e + x) == sep' + y
    ensures |sep'| <= |sep|
  {
    assert (sep + (e + x))[|sep|] == '(';
    assert forall i :: 0 <= i < |sep'| ==> (sep' + y)[i] == sep'[i] && sep'[i] in sep';
  }

  /** At most one link starts a text. */
  lemma {:induction false} LinkUnique(l: string, x: string, l': string, x': string)
    requires In(LINK, l) && In(LINK, l') && l + x == l' + x'
    ensures l == l' && x == x'
  {
    var sep, e := LinkParts(l);
    var sep', e' := LinkParts(l');
    Regroup(sep, e, x);
    Regroup(sep', e', x');
    PlainNotLonger(sep, e, x, sep', e' + x');
    PlainNotLonger(sep', e', x', sep, e + x);
    SameSplit(sep, e + x, sep', e' + x');
    EnclosedUnique(e, x, e', x');
  }

  lemma SameSplit(a: string, x: string, b: string, y: string)
    requires a + x == b + y && |a| == |b|
    ensures a == b && x == y
  {
    assert a == (a + x)[..|a|] && b == (b + y)[..|a|];
    assert x == (a + x)[|a|..] && y == (b + y)[|a|..];
  }

  lemma {:induction false} LinkLenIs(l: string, x: string)
    requires In(LINK, l)
    ensures l != "" && MatchLen(LINK, l + x) == |l|
  {
    var sep, e := LinkParts(l);
    var s := l + x;
    assert s[..|l|] == l;
    forall m | |l| < m <= |s|
      ensures !In(LINK, s[..m])
    {
      if In(LINK, s[..m]) {
        assert s == s[..m] + s[m..];
        LinkUnique(l, x, s[..m], s[m..]);
      }
    }
    LongestIs(LINK, s, |l|);
  }

  lemma NextLink(s: string) returns (l: string, x: string)
    ensures s == l + x && |l| == MatchLen(LINK, s) && (l != "" ==> In(LINK, l))
  {
    LongestMatch(LINK, s);
    l, x := s[..MatchLen(LINK, s)], s[MatchLen(LINK, s)..];
  }

  /** Length of the links at the start of `s`, as many as there are. */
  function Links(s: string): nat
    decreases |s|
  {
    var n := MatchLen(LINK, s);
    if n == 0 then 0 else n + Links(s[n..])
  }

  lemma {:induction false} LinksOn(l: string, x: string)
    requires In(LINK, l)
    ensures Links(l + x) == |l| + Links(x)
  {
    LinkLenIs(l, x);
    assert (l + x)[|l|..] == x;
  }

  lemma {:induction false} LinksThrough(c: string, x: string)
    requires In(Plus(LINK), c)
    ensures Links(c + x) == |c| + Links(x) && c != ""
    decreases |c|
  {
    var l, rest := PlusFirst(LINK, c);
    LinkLenIs(l, rest);
    Regroup(l, rest, x);
    LinksOn(l, rest + x);
    if rest != "" {
      LinksThrough(rest, x);
    } else {
      assert rest + x == x;
    }
  }

  lemma {:induction false} LinksMatch(s: string)
    ensures Links(s) <= |s|
    ensures Links(s) > 0 ==> In(Plus(LINK), s[..Links(s)])
    decreases |s|
  {
    var l, x := NextLink(s);
    if l != "" {
      assert s[|l|..] == x;
      LinksMatch(x);
      var more := x[..Links(x)];
      assert s[..Links(s)] == l + more;
      if more != "" {
        PlusCons(LINK, l, more);
      } else {
        assert l + more == l;
      }
    }
  }

  lemma {:induction false} PlusCons(re: Re, l: string, more: string)
    requires In(re, l) && In(Plus(re), more) && l != "" && more != ""
    ensures In(Plus(re), l + more)
  {
    var t := l + more;
    assert t[..|l|] == l && t[|l|..] == more;
  }

  /** The longest chain at a tuple is the tuple and all its links; without a link there is none. */
  lemma {:induction false} ChainLen(a: string, u: string)
    requires In(TUPLE, a)
    ensures MatchLen(CHAIN, a + u) == if Links(u) == 0 then 0 else |a| + Links(u)
  {
    var s := a + u;
    TupleEnclosed(a);
    LinksMatch(u);
    LongestMatch(CHAIN, s);
    forall m | 0 < m <= |s| && In(CHAIN, s[..m])
      ensures m <= |a| + Links(u) && Links(u) > 0
    {
      ChainWithin(a, u, s[..m], s[m..]);
    }
    if Links(u) > 0 {
      var n := |a| + Links(u);
      CatIn(TUPLE, Plus(LINK), a, u[..Links(u)]);
      assert s[..n] == a + u[..Links(u)];
      LongestIs(CHAIN, s, n);
    }
  }

  lemma {:induction false} ChainWithin(a: string, u: string, t: string, y: string)
    requires In(TUPLE, a) && In(CHAIN, t) && a + u == t + y
    ensures |t| <= |a| + Links(u) && Links(u) > 0
  {
    var b, c := CatParts(TUPLE, Plus(LINK), t);
    TupleEnclosed(a);
    TupleEnclosed(b);
    Regroup(b, c, y);
    EnclosedUnique(a, u, b, c + y);
    LinksThrough(c, y);
  }

  /** A chain at the start needs a tuple at the start. */
  lemma ChainNeedsTuple(s: string) returns (a: string, u: string)
    ensures MatchLen(CHAIN, s) > 0 ==> s == a + u && In(TUPLE, a)
  {
    LongestMatch(CHAIN, s);
    if MatchLen(CHAIN, s) > 0 {
      var t := s[..MatchLen(CHAIN, s)];
      var c;
      a, c := CatParts(TUPLE, Plus(LINK), t);
      u := c + s[MatchLen(CHAIN, s)..];
      assert s == t + s[MatchLen(CHAIN, s)..];
    } else {
      a, u := "", s;
    }
  }

  // ---- a tuple in the middle of a text

  /** An enclosed text at the start of q + t + y ends inside q, or q is empty and it is t. */
  lemma EnclosedInside(e: string, x: string, q: string, t: string, y: string)
    requires Enclosed(e) && Enclosed(t) && e + x == q + (t + y)
    ensures |e| <= |q| || (q == "" && e == t)
  {
    if q == "" {
      assert q + (t + y) == t + y;
      EnclosedUnique(e, x, t, y);
    } else {
      assert (q + (t + y))[|q|] == '(';
      assert forall i :: 0 < i < |e| ==> (e + x)[i] == e[i];
    }
  }

  lemma CutAtLength(q: string, y: string, sep: string, z: string) returns (q': string)
    requires q + y == sep + z && |sep| <= |q|
    ensures q == sep + q' && q' + y == z
  {
    q' := q[|sep|..];
    assert q == q[..|sep|] + q';
    Regroup(q[..|sep|], q', y);
    SameSplit(sep, z, q[..|sep|], q' + y);
  }

  lemma PartsInside(sep: string, e: string, x: string, q: string, t: string, y: string)
    requires '(' !in sep && Enclosed(e) && Enclosed(t) && sep + (e + x) == q + (t + y)
    ensures |sep + e| <= |q| || sep + e == q + t
  {
    PlainNotLonger(q, t, y, sep, e + x);
    var q' := CutAtLength(q, t + y, sep, e + x);
    EnclosedInside(e, x, q', t, y);
    if q' == "" {
      assert q == sep;
    }
  }

  /** A link at the start of q + t + y ends inside q, or it is exactly q + t. */
  lemma {:induction false} LinkInside(l: string, x: string, q: string, t: string, y: string)
    requires In(LINK, l) && Enclosed(t) && l + x == q + (t + y)
    ensures |l| <= |q| || l == q + t
  {
    var sep, e := LinkParts(l);
    Regroup(sep, e, x);
    PartsInside(sep, e, x, q, t, y);
  }

  /** What follows the tuple t has no say in the first link. */
  lemma {:induction false} FirstLink(q: string, t: string, y: string, y': string)
    requires In(TUPLE, t) && Enclosed(t)
    ensures MatchLen(LINK, q + (t + y)) == MatchLen(LINK, q + (t + y'))
    ensures MatchLen(LINK, q + (t + y)) <= |q| || MatchLen(LINK, q + (t + y)) == |q + t|
  {
    var l, x := NextLink(q + (t + y));
    if l != "" {
      LinkInside(l, x, q, t, y);
      LinkCarriesOver(l, x, q, t, y, y');
    }
    var l', x' := NextLink(q + (t + y'));
    if l' != "" {
      LinkInside(l', x', q, t, y');
      LinkCarriesOver(l', x', q, t, y', y);
    }
  }

  lemma {:induction false} LinkCarriesOver(l: string, x: string, q: string, t: string, y: string, y': string)
    requires In(LINK, l) && l + x == q + (t + y) && (|l| <= |q| || l == q + t)
    ensures MatchLen(LINK, q + (t + y')) == |l|
  {
    if |l| <= |q| {
      var q' := CutAtLength(q, t + y, l, x);
      Regroup(l, q', t + y');
      LinkLenIs(l, q' + (t + y'));
    } else {
      Regroup(q, t, y');
      LinkLenIs(l, y');
    }
  }

  /** Two numbers of links, with c or with d behind the tuple: equal, or both run through. */
  ghost predicate SameRun(n: nat, n': nat, q: string, t: string, c: string, d: string, s: string) {
    || n == n' <= |q|
    || (n == |q| + |t| + |c| + Links(s) && n' == |q| + |t| + |d| + Links(s))
  }

  lemma {:induction false} LinkRuns(q: string, t: string, c: string, d: string, s: string)
    requires In(TUPLE, t) && In(Plus(LINK), c) && In(Plus(LINK), d)
    ensures SameRun(Links(q + (t + (c + s))), Links(q + (t + (d + s))), q, t, c, d, s)
    decreases |q|
  {
    TupleEnclosed(t);
    FirstLink(q, t, c + s, d + s);
    var l, x := NextLink(q + (t + (c + s)));
    if l == "" {
    } else if |l| <= |q| {
      var q' := CutAtLength(q, t + (c + s), l, x);
      Regroup(l, q', t + (c + s));
      Regroup(l, q', t + (d + s));
      LinksOn(l, q' + (t + (c + s)));
      LinksOn(l, q' + (t + (d + s)));
      LinkRuns(q', t, c, d, s);
    } else {
      LinkInside(l, x, q, t, c + s);
      Regroup(q, t, c + s);
      Regroup(q, t, d + s);
      LinksOn(l, c + s);
      LinksOn(l, d + s);
      LinksThrough(c, s);
      LinksThrough(d, s);
    }
  }

  // ---- the rewrite

  lemma {:induction false} ChainHit(a: string, u: string)
    requires In(TUPLE, a) && Links(u) > 0
    ensures Links(u) <= |u| && MaskChains(a + u) == a + (",..." + MaskChains(u[Links(u)..]))
  {
    ChainLen(a, u);
    LinksMatch(u);
    LongestMatch(CHAIN, a + u);
    var v, tail := u[..Links(u)], u[Links(u)..];
    assert u == v + tail;
    Regroup(a, v, tail);
    assert (a + u)[..|a + v|] == a + v;
    var a', x := ChainReplaced(a + v, tail);
    TupleEnclosed(a);
    EnclosedUnique(a, v, a', x);
  }

  lemma Behind(x: string, s: string, n: nat)
    requires n <= |s|
    ensures (x + s)[|x| + n..] == s[n..]
  {
  }

  /** A tuple with links that run through x into s: what remains is the same whatever x is. */
  lemma {:induction false} RunThrough(a: string, x: string, s: string)
    requires In(TUPLE, a) && x != "" && Links(x + s) == |x| + Links(s)
    ensures Links(s) <= |s| && MaskChains(a + (x + s)) == a + (",..." + MaskChains(s[Links(s)..]))
  {
    LinksMatch(s);
    ChainHit(a, x + s);
    Behind(x, s, Links(s));
  }

  /** From the tuple on. */
  lemma {:induction false} CollapseHere(t: string, c: string, d: string, s: string)
    requires In(TUPLE, t) && In(Plus(LINK), c) && In(Plus(LINK), d)
    ensures MaskChains(t + (c + s)) == MaskChains(t + (d + s))
  {
    LinksThrough(c, s);
    LinksThrough(d, s);
    RunThrough(t, c, s);
    RunThrough(t, d, s);
  }

  /** A chain that starts in the text before. */
  lemma {:induction false} CollapseFrom(a: string, q: string, t: string, c: string, d: string, s: string)
    requires In(TUPLE, a) && t != ""
    requires Links(q + (t + (c + s))) == |q| + |t| + |c| + Links(s)
             && Links(q + (t + (d + s))) == |q| + |t| + |d| + Links(s)
    ensures MaskChains(a + (q + (t + (c + s)))) == MaskChains(a + (q + (t + (d + s))))
  {
    Flatten(q, t, c, s);
    Flatten(q, t, d, s);
    RunThrough(a, q + t + c, s);
    RunThrough(a, q + t + d, s);
  }

  lemma Flatten(q: string, t: string, c: string, s: string)
    ensures q + (t + (c + s)) == (q + t + c) + s
  {
  }

  /**
   * Any number of repeated tuples counts as one: for every text before and after, replacing the links
   * c behind the tuple t by the links d does not change the result.
   */
  lemma {:induction false} Collapse(p: string, t: string, c: string, d: string, s: string)
    requires In(TUPLE, t) && In(Plus(LINK), c) && In(Plus(LINK), d)
    ensures MaskChains(p + (t + (c + s))) == MaskChains(p + (t + (d + s)))
    decreases |p|
  {
    TupleEnclosed(t);
    if p == "" {
      assert p + (t + (c + s)) == t + (c + s) && p + (t + (d + s)) == t + (d + s);
      CollapseHere(t, c, d, s);
    } else {
      var a, q := ChainInside(p, t, c + s);
      var b, r := ChainInside(p, t, d + s);
      if MatchLen(CHAIN, p + (t + (c + s))) > 0 {
        CollapseBehind(a, q, t, c, d, s);
      } else if MatchLen(CHAIN, p + (t + (d + s))) > 0 {
        CollapseBehind(b, r, t, c, d, s);
      } else {
        Collapse(p[1..], t, c, d, s);
        StepOver(p, t, c + s);
        StepOver(p, t, d + s);
      }
    }
  }

  lemma StepOver(p: string, t: string, y: string)
    requires p != "" && MatchLen(CHAIN, p + (t + y)) == 0
    ensures MaskChains(p + (t + y)) == [p[0]] + MaskChains(p[1..] + (t + y))
  {
    assert (p + (t + y))[1..] == p[1..] + (t + y);
  }

  /** A chain at the start of p + t + y starts with a tuple inside p. */
  lemma ChainInside(p: string, t: string, y: string) returns (a: string, q: string)
    requires p != "" && Enclosed(t)
    ensures MatchLen(CHAIN, p + (t + y)) > 0 ==> p == a + q && In(TUPLE, a) && Enclosed(a)
  {
    var u;
    a, u := ChainNeedsTuple(p + (t + y));
    q := "";
    if MatchLen(CHAIN, p + (t + y)) > 0 {
      TupleEnclosed(a);
      EnclosedInside(a, u, p, t, y);
      q := CutAtLength(p, t + y, a, u);
    }
  }

  lemma {:induction false} CollapseBehind(a: string, q: string, t: string, c: string, d: string, s: string)
    requires In(TUPLE, a) && Enclosed(a) && In(TUPLE, t) && In(Plus(LINK), c) && In(Plus(LINK), d)
    ensures MaskChains((a + q) + (t + (c + s))) == MaskChains((a + q) + (t + (d + s)))
    decreases |a + q|, 0
  {
    var y, z := t + (c + s), t + (d + s);
    TupleEnclosed(t);
    Regroup(a, q, y);
    Regroup(a, q, z);
    LinkRuns(q, t, c, d, s);
    var n := Links(q + y);
    if n == Links(q + z) && n <= |q| {
      CollapseSame(a, q, y, z, n);
      Collapse(Ahead(a, q, n), t, c, d, s);
    } else {
      CollapseFrom(a, q, t, c, d, s);
    }
  }

  /** What is left of `a + q` after the scan has passed a chain of `a` and `n` characters, or one character. */
  function Ahead(a: string, q: string, n: nat): (r: string)
    requires a != "" && n <= |q|
    ensures |r| < |a + q|
  {
    if n > 0 then q[n..] else a[1..] + q
  }

  /** A chain that ends before the tuple, or none: the scan goes on with the same text in front of y and z. */
  lemma {:induction false} CollapseSame(a: string, q: string, y: string, z: string, n: nat)
    requires In(TUPLE, a) && Enclosed(a) && n == Links(q + y) == Links(q + z) <= |q|
    ensures MaskChains(Ahead(a, q, n) + y) == MaskChains(Ahead(a, q, n) + z) ==>
            MaskChains(a + (q + y)) == MaskChains(a + (q + z))
  {
    SameScan(a, q, y, n);
    SameScan(a, q, z, n);
  }

  lemma {:induction false} SameScan(a: string, q: string, y: string, n: nat)
    requires In(TUPLE, a) && Enclosed(a) && n == Links(q + y) <= |q|
    ensures MaskChains(a + (q + y)) == if n > 0 then a + (",..." + MaskChains(Ahead(a, q, n) + y))
                                       else [a[0]] + MaskChains(Ahead(a, q, n) + y)
  {
    if n > 0 {
      ChainHit(a, q + y);
      assert (q + y)[n..] == q[n..] + y;
    } else {
      ChainLen(a, q + y);
      assert (a + (q + y))[0] == a[0];
      assert (a + (q + y))[1..] == (a[1..] + q) + y;
    }
  }
}

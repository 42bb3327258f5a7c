/**
 * When exactly one-after-another substitution is safe: a query that is not settled can always be
 * given values for which `run` in dashboards/check_queries.py sends something else than intended.
 */
module SubstitutionExact {
  import opened Text
  import opened Substitution

  function Count(s: string, c: char): nat {
    if s == "" then 0 else (if s[0] == c then 1 else 0) + Count(s[1..], c)
  }

  lemma {:induction false} CountConcat(a: string, b: string, c: char)
    ensures Count(a + b, c) == Count(a, c) + Count(b, c)
  {
    if a == "" {
      assert a + b == b;
    } else {
      assert (a + b)[1..] == a[1..] + b;
      CountConcat(a[1..], b, c);
    }
  }

  lemma {:induction false} CountAbsent(s: string, c: char)
    requires c !in s
    ensures Count(s, c) == 0
  {
    if s != "" {
      CountAbsent(s[1..], c);
    }
  }

  lemma {:induction false} FirstMatchSplit(s: string, a: seq<Binding>, b: seq<Binding>)
    ensures FirstMatch(s, a + b) == if FirstMatch(s, a).Some? then FirstMatch(s, a) else FirstMatch(s, b)
  {
    if a == [] {
      assert a + b == b;
    } else {
      assert (a + b)[1..] == a[1..] + b;
      FirstMatchSplit(s, a[1..], b);
    }
  }

  // ---- values that begin with a character of no name never complete a name

  predicate Free(c: char, bindings: seq<Binding>) {
    c != '$' && forall i :: 0 <= i < |bindings| ==> c !in bindings[i].key
  }

  predicate Fenced(bindings: seq<Binding>, c: char) {
    forall i :: 0 <= i < |bindings| ==>
        bindings[i].value != "" && bindings[i].value[0] == c && NoDollar(bindings[i].value)
  }

  /** Nothing, or a text whose first character cannot continue a name. */
  predicate Barrier(t: string, c: char) {
    t == "" || t[0] == '$' || t[0] == c
  }

  lemma NotPast(key: string, g: string, t: string, c: char)
    requires |key| > 1 && NoDollar(key[1..]) && c !in key && g != "" && Barrier(t, c)
    ensures key <= g + t <==> key <= g
  {
    NoDollarAfter(key);
    assert t != "" ==> (g + t)[|g|] == t[0];
    assert key <= g + t ==> forall i :: 0 <= i < |key| ==> (g + t)[i] == key[i] && (g + t)[i] in key;
  }

  /** The piece `g` means the same in front of any barrier. */
  lemma {:induction false} PieceAtBarrier(g: string, t: string, bindings: seq<Binding>, c: char)
    requires g != "" && g[0] == '$' && NoDollar(g[1..]) && ProperKeys(bindings) && Free(c, bindings) && Barrier(t, c)
    ensures Simultaneous(g + t, bindings) == Piece(g, bindings) + Simultaneous(t, bindings)
  {
    forall j | 0 <= j < |bindings|
      ensures bindings[j].key <= g + t <==> bindings[j].key <= g
    {
      assert ProperKey(bindings[j]);
      NotPast(bindings[j].key, g, t, c);
    }
    SimultaneousSeen(g, t, bindings);
  }

  lemma {:induction false} FencedReplaceOne(s: string, first: Binding, rest: seq<Binding>, c: char)
    requires ProperKey(first) && ProperKeys(rest) && Free(c, rest) && Fenced([first], c)
    ensures Simultaneous(Replace(s, first.key, first.value), rest) == Simultaneous(s, [first] + rest)
    decreases |s|
  {
    var all := [first] + rest;
    if s == "" {
    } else if s[0] != '$' {
      FencedReplaceOne(s[1..], first, rest, c);
      assert s == s[..1] + s[1..];
      ReplaceBehind(s[..1], s[1..], first.key, first.value);
      SimultaneousBehind(s[..1], s[1..], all);
      SimultaneousBehind(s[..1], Replace(s[1..], first.key, first.value), rest);
    } else {
      var g, t := CutAt(s);
      FencedReplaceOne(t, first, rest, c);
      FencedPiece(g, t, first, rest, c);
    }
  }

  lemma {:induction false} FencedPiece(g: string, t: string, first: Binding, rest: seq<Binding>, c: char)
    requires Cut(g, t) && ProperKey(first) && ProperKeys(rest) && Free(c, rest) && Fenced([first], c)
    requires Simultaneous(Replace(t, first.key, first.value), rest) == Simultaneous(t, [first] + rest)
    ensures Simultaneous(Replace(g + t, first.key, first.value), rest) == Simultaneous(g + t, [first] + rest)
  {
    assert [first][0] == first && ([first] + rest)[1..] == rest;
    var t' := Replace(t, first.key, first.value);
    ReplaceCut(g, t, first);
    SimultaneousCut(g, t, [first] + rest);
    if first.key <= g {
      var u := g[|first.key|..];
      assert u == g[1..][|first.key| - 1..];
      SimultaneousBehind(first.value + u, t', rest);
    } else {
      PieceAtBarrier(g, t', rest, c);
    }
  }

  /** With such values, replacing in the given order is replacing at once, whatever the text. */
  lemma {:induction false} FencedIsSimultaneous(s: string, bindings: seq<Binding>, c: char)
    requires ProperKeys(bindings) && Free(c, bindings) && Fenced(bindings, c)
    ensures Sequential(s, bindings) == Simultaneous(s, bindings)
    decreases |bindings|
  {
    if bindings == [] {
      SimultaneousNothing(s);
    } else {
      var first, rest := bindings[0], bindings[1..];
      assert bindings == [first] + rest;
      assert [first][0] == first;
      FencedReplaceOne(s, first, rest, c);
      FencedIsSimultaneous(Replace(s, first.key, first.value), rest, c);
    }
  }

  /** No name is the beginning of another one, and none occurs twice. */
  predicate PrefixFree(bindings: seq<Binding>) {
    forall i, j :: 0 <= i < |bindings| && 0 <= j < |bindings| && i != j ==> !(bindings[i].key <= bindings[j].key)
  }

  ghost predicate SameBindings(a: seq<Binding>, b: seq<Binding>) {
    forall x :: x in a <==> x in b
  }

  lemma OnlyMatch(s: string, bindings: seq<Binding>, x: Binding, y: Binding)
    requires PrefixFree(bindings) && x in bindings && y in bindings && x.key <= s && y.key <= s
    ensures x == y
  {
    assert |x.key| <= |y.key| ==> x.key == s[..|x.key|] == y.key[..|x.key|];
    assert |y.key| <= |x.key| ==> y.key == s[..|y.key|] == x.key[..|y.key|];
    var i :| 0 <= i < |bindings| && bindings[i] == x;
    var j :| 0 <= j < |bindings| && bindings[j] == y;
  }

  lemma {:induction false} MatchIfAny(s: string, bindings: seq<Binding>, x: Binding)
    requires x in bindings && x.key <= s
    ensures FirstMatch(s, bindings).Some?
  {
    var i :| 0 <= i < |bindings| && bindings[i] == x;
  }

  lemma {:induction false} MatchAnyOrder(s: string, a: seq<Binding>, b: seq<Binding>)
    requires PrefixFree(a) && SameBindings(a, b)
    ensures FirstMatch(s, a) == FirstMatch(s, b)
  {
    var x, y := FirstMatch(s, a), FirstMatch(s, b);
    if x.Some? {
      MatchIfAny(s, b, x.value);
      OnlyMatch(s, a, x.value, y.value);
    }
    if y.Some? {
      MatchIfAny(s, a, y.value);
    }
  }

  lemma {:induction false} SimultaneousAnyOrder(s: string, a: seq<Binding>, b: seq<Binding>)
    requires ProperKeys(a) && ProperKeys(b) && PrefixFree(a) && SameBindings(a, b)
    ensures Simultaneous(s, a) == Simultaneous(s, b)
    decreases |s|
  {
    MatchAnyOrder(s, a, b);
    if s != "" {
      var m := FirstMatch(s, a);
      if m.Some? {
        var i :| 0 <= i < |a| && a[i] == m.value;
        SimultaneousAnyOrder(s[|m.value.key|..], a, b);
      } else {
        SimultaneousAnyOrder(s[1..], a, b);
      }
    }
  }

  /** Such values may be replaced in any order if no name is the beginning of another one. */
  lemma {:induction false} FencedAnyOrder(s: string, a: seq<Binding>, b: seq<Binding>, c: char)
    requires ProperKeys(a) && Free(c, a) && Fenced(a, c) && PrefixFree(a) && SameBindings(a, b)
    ensures HasKeys(b) && Sequential(s, a) == Sequential(s, b)
  {
    forall i | 0 <= i < |b|
      ensures ProperKey(b[i]) && c !in b[i].key
      ensures b[i].value != "" && b[i].value[0] == c && NoDollar(b[i].value)
    {
      assert b[i] in a;
      var k :| 0 <= k < |a| && a[k] == b[i];
    }
    FencedIsSimultaneous(s, a, c);
    FencedIsSimultaneous(s, b, c);
    SimultaneousAnyOrder(s, a, b);
  }

  /** If a name is the beginning of another one, the order matters: the shorter name must not come first. */
  lemma FencedOrderMatters()
    ensures var a, b := [Binding("$e", "."), Binding("$en", ".")], [Binding("$en", "."), Binding("$e", ".")];
            && ProperKeys(a) && Free('.', a) && Fenced(a, '.') && SameBindings(a, b) && HasKeys(b)
            && Sequential("$en", a) == ".n" && Sequential("$en", b) == "."
  {
    var e, en := Binding("$e", "."), Binding("$en", ".");
    var a, b := [e, en], [en, e];
    assert a[1..] == [en] && b[1..] == [e] && [en][1..] == [] && [e][1..] == [];
    assert "$e"[1..] == "e" && "$en"[1..] == "en";
    assert "$en"[2..] == "n" && "$en"[3..] == "" && "n"[1..] == "" && ".n"[1..] == "n" && "."[1..] == "";
    assert Replace("n", "$e", ".") == "n" && Replace("n", "$en", ".") == "n";
    assert Replace("$en", "$e", ".") == ".n" && Replace(".n", "$en", ".") == ".n";
    assert Replace("$en", "$en", ".") == "." && Replace(".", "$e", ".") == ".";
  }

  // ---- the colliding values

  /**
   * The piece `g` is the beginning of the later name `late`; `early`, replaced before, brings the rest of
   * that name. Every other value is the free character `c`; that of `late` has it twice.
   */
  datatype Clash = Clash(pre: seq<Binding>, early: Binding, mid: seq<Binding>, late: Binding, post: seq<Binding>,
                         g: string, c: char) {
    function Later(): seq<Binding> { mid + [late] + post }
    function All(): seq<Binding> { pre + [early] + Later() }

    ghost predicate Valid() {
      && ProperKeys(All()) && Free(c, All())
      && (forall b :: b in pre + mid + post ==> b.value == [c]) && late.value == [c, c]
      && (forall b :: b in pre + [early] + mid ==> |b.key| >= |late.key|)
      && g != "" && g[0] == '$' && NoDollar(g[1..])
      && g < late.key && early.value == late.key[|g|..]
      && forall b :: b in mid ==> !(g < b.key)
    }

    /** After `early` has been replaced. */
    function Mid(s: string): string
      requires ProperKeys(pre) && early.key != ""
    {
      Replace(Simultaneous(s, pre), early.key, early.value)
    }
  }

  lemma ClashParts(x: Clash)
    requires x.Valid()
    ensures ProperKeys(x.pre) && Free(x.c, x.pre) && Fenced(x.pre, x.c)
    ensures ProperKey(x.early) && x.c !in x.early.key && NoDollar(x.early.value) && x.c !in x.early.value
    ensures ProperKeys(x.Later()) && Free(x.c, x.Later()) && Fenced(x.Later(), x.c)
  {
    var all, n := x.All(), |x.pre|;
    assert forall i :: 0 <= i < n ==> all[i] == x.pre[i] && x.pre[i] in x.pre + x.mid + x.post;
    assert all[n] == x.early;
    forall i | 0 <= i < |x.Later()|
      ensures ProperKey(x.Later()[i]) && x.c !in x.Later()[i].key
    {
      assert all[n + 1 + i] == x.Later()[i];
    }
    LateTail(x);
  }

  lemma LateTail(x: Clash)
    requires x.Valid()
    ensures ProperKey(x.late) && x.c !in x.late.key
    ensures NoDollar(x.early.value) && x.c !in x.early.value && x.g + x.early.value == x.late.key
  {
    var all, i := x.All(), |x.pre| + 1 + |x.mid|;
    assert all[i] == x.late;
    assert x.early.value == x.late.key[1..][|x.g| - 1..];
  }

  /** What `run` makes of the text: the meaning under `pre`, then `early`, then the meaning under the rest. */
  lemma {:induction false} ClashSequential(s: string, x: Clash)
    requires x.Valid()
    ensures ProperKeys(x.pre) && ProperKeys(x.Later()) && x.early.key != ""
    ensures Sequential(s, x.All()) == Simultaneous(x.Mid(s), x.Later())
  {
    ClashParts(x);
    var first := Sequential(s, x.pre);
    FencedIsSimultaneous(s, x.pre, x.c);
    assert [x.early][1..] == [];
    SequentialSplit(s, x.pre, [x.early]);
    SequentialSplit(s, x.pre + [x.early], x.Later());
    assert Sequential(first, [x.early]) == x.Mid(s);
    FencedIsSimultaneous(x.Mid(s), x.Later(), x.c);
  }

  // ---- piece by piece, `run` writes at least as many `c`

  /** A text without "$" passes through both. */
  lemma {:induction false} PassText(h: string, u: string, x: Clash)
    requires x.Valid() && NoDollar(h)
    ensures ProperKeys(x.pre) && ProperKeys(x.Later()) && x.early.key != ""
    ensures x.Mid(h + u) == h + x.Mid(u)
    ensures Simultaneous(x.Mid(h + u), x.Later()) == h + Simultaneous(x.Mid(u), x.Later())
    ensures Simultaneous(h + u, x.All()) == h + Simultaneous(u, x.All())
  {
    ClashParts(x);
    SimultaneousBehind(h, u, x.pre);
    ReplaceBehind(h, Simultaneous(u, x.pre), x.early.key, x.early.value);
    SimultaneousBehind(h, x.Mid(u), x.Later());
    SimultaneousBehind(h, u, x.All());
  }

  /** The text after `early` has been replaced, from the piece `h` on. */
  lemma {:induction false} MidPiece(h: string, u: string, x: Clash)
    requires x.Valid() && Cut(h, u)
    ensures ProperKeys(x.pre) && x.early.key != ""
    ensures x.Mid(h + u) == (if FirstMatch(h, x.pre).None? && x.early.key <= h then x.early.value + h[|x.early.key|..]
                             else Piece(h, x.pre)) + x.Mid(u)
  {
    ClashParts(x);
    SimultaneousCut(h, u, x.pre);
    var u' := Simultaneous(u, x.pre);
    if FirstMatch(h, x.pre).Some? {
      ReplaceBehind(Piece(h, x.pre), u', x.early.key, x.early.value);
    } else {
      NotPast(x.early.key, h, u', x.c);
      if x.early.key <= h {
        ReplaceHit(h, u', x.early);
      } else {
        ReplaceNone(h, u', x.early);
      }
    }
  }

  /** A piece of a query: begins with "$" and holds no other. */
  predicate IsPiece(h: string) {
    h != "" && h[0] == '$' && NoDollar(h[1..])
  }

  lemma {:induction false} FirstMatchShorter(h: string, m: string, bindings: seq<Binding>)
    ensures var b := FirstMatch(h + m, bindings);
            && (b.None? ==> FirstMatch(h, bindings).None?)
            && (b.Some? && b.value.key <= h ==> FirstMatch(h, bindings) == b)
  {
    if bindings != [] {
      FirstMatchShorter(h, m, bindings[1..]);
      assert bindings[0].key <= h ==> bindings[0].key <= h + m;
    }
  }

  /** How often `c` is written for a piece, whatever follows: a match may reach beyond the piece. */
  function Written(h: string, m: string, bindings: seq<Binding>, c: char): nat {
    match FirstMatch(h + m, bindings)
    case None => Count(h, c)
    case Some(b) => Count(b.value, c) + if |b.key| <= |h| then Count(h[|b.key|..], c) else 0
  }

  lemma {:induction false} WrittenIs(h: string, m: string, bindings: seq<Binding>, c: char)
    requires IsPiece(h) && ProperKeys(bindings) && Free(c, bindings)
    ensures Count(Simultaneous(h + m, bindings), c) == Written(h, m, bindings, c) + Count(Simultaneous(m, bindings), c)
  {
    match FirstMatch(h + m, bindings)
    case None =>
      assert (h + m)[1..] == h[1..] + m && h == [h[0]] + h[1..];
      SimultaneousBehind(h[1..], m, bindings);
      CountConcat([h[0]], h[1..] + Simultaneous(m, bindings), c);
      CountConcat(h[1..], Simultaneous(m, bindings), c);
      CountConcat([h[0]], h[1..], c);
    case Some(b) =>
      var i :| 0 <= i < |bindings| && bindings[i] == b;
      if |b.key| <= |h| {
        ShortMatch(h, m, bindings, b, c);
      } else {
        LongMatch(h, m, bindings, b, c);
      }
  }

  lemma {:induction false} ShortMatch(h: string, m: string, bindings: seq<Binding>, b: Binding, c: char)
    requires IsPiece(h) && ProperKeys(bindings) && ProperKey(b) && FirstMatch(h + m, bindings) == Some(b)
             && |b.key| <= |h|
    ensures Count(Simultaneous(h + m, bindings), c) ==
            Count(b.value, c) + Count(h[|b.key|..], c) + Count(Simultaneous(m, bindings), c)
  {
    var r := h[|b.key|..];
    assert (h + m)[|b.key|..] == r + m;
    assert r == h[1..][|b.key| - 1..];
    SimultaneousBehind(r, m, bindings);
    CountConcat(b.value, r + Simultaneous(m, bindings), c);
    CountConcat(r, Simultaneous(m, bindings), c);
  }

  lemma {:induction false} LongMatch(h: string, m: string, bindings: seq<Binding>, b: Binding, c: char)
    requires IsPiece(h) && ProperKeys(bindings) && ProperKey(b) && c !in b.key
    requires FirstMatch(h + m, bindings) == Some(b) && |b.key| > |h|
    ensures Count(Simultaneous(h + m, bindings), c) == Count(b.value, c) + Count(Simultaneous(m, bindings), c)
  {
    var x, r := b.key[|h|..], (h + m)[|b.key|..];
    assert b.key == (h + m)[..|b.key|];
    assert m == x + r;
    assert x == b.key[1..][|h| - 1..];
    SimultaneousBehind(x, r, bindings);
    CountConcat(x, Simultaneous(r, bindings), c);
    CountConcat(b.value, Simultaneous(r, bindings), c);
    CountAbsent(x, c);
  }

  /** Where `late` matches, nothing behind it is chosen. */
  lemma {:induction false} LateOrMid(s: string, x: Clash)
    requires x.late.key <= s
    ensures FirstMatch(s, x.Later()).Some?
    ensures FirstMatch(s, x.Later()) == Some(x.late) || FirstMatch(s, x.Later()).value in x.mid
  {
    FirstMatchSplit(s, x.mid + [x.late], x.post);
    FirstMatchSplit(s, x.mid, [x.late]);
    assert [x.late][0] == x.late;
  }

  lemma CountsOfValues(x: Clash, b: Binding)
    requires x.Valid() && b in x.Later()
    ensures Count(b.value, x.c) == if b == x.late then 2 else 1
  {
    var one := [x.c];
    assert one[1..] == [] && Count(one, x.c) == 1;
    CountConcat(one, one, x.c);
    assert one + one == [x.c, x.c];
  }

  /** What follows a piece can only bring additional names to it. */
  lemma WrittenAtLeast(h: string, m: string, x: Clash)
    requires x.Valid() && IsPiece(h)
    ensures Written(h, m, x.Later(), x.c) >= Written(h, "", x.Later(), x.c)
  {
    var later := x.Later();
    assert h + "" == h;
    FirstMatchShorter(h, m, later);
    var b, b0 := FirstMatch(h + m, later), FirstMatch(h, later);
    if b.Some? && |b.value.key| > |h| {
      CountsOfValues(x, b.value);
      LongerThanPiece(h, m, x, b.value);
      NoCount(h, b.value.key, x.c);
      assert h[0..] == h;
      if b0.Some? {
        CountsOfValues(x, b0.value);
      }
    }
  }

  /** A piece that is the beginning of a name holds no `c`. */
  lemma {:induction false} NoCount(h: string, key: string, c: char)
    requires h <= key && c !in key
    ensures forall k: nat :: k <= |h| ==> Count(h[k..], c) == 0
  {
    forall k: nat | k <= |h|
      ensures Count(h[k..], c) == 0
    {
      CountAbsent(h[k..], c);
    }
  }

  lemma {:induction false} LongerThanPiece(h: string, m: string, x: Clash, b: Binding)
    requires x.Valid() && FirstMatch(h + m, x.Later()) == Some(b) && |b.key| > |h|
    ensures h < b.key && x.c !in b.key
    ensures !(x.late.key <= h)
  {
    ClashParts(x);
    var i :| 0 <= i < |x.Later()| && x.Later()[i] == b;
    assert h == (h + m)[..|h|] == b.key[..|h|];
    if x.late.key <= h {
      LateReached(h, m, x, b);
    }
  }

  lemma {:induction false} LateReached(h: string, m: string, x: Clash, b: Binding)
    requires x.Valid() && FirstMatch(h + m, x.Later()) == Some(b) && h < b.key
    ensures !(x.late.key <= h)
  {
    assert x.late.key <= h ==> x.late.key <= h + m && x.g < b.key;
    if x.late.key <= h {
      LateOrMid(h + m, x);
    }
  }

  lemma {:induction false} WrittenPiece(h: string, bindings: seq<Binding>, c: char)
    ensures Written(h, "", bindings, c) == Count(Piece(h, bindings), c)
  {
    assert h + "" == h;
    match FirstMatch(h, bindings)
    case None =>
    case Some(b) => CountConcat(b.value, h[|b.key|..], c);
  }

  lemma {:induction false} PieceOfAll(h: string, x: Clash)
    ensures Piece(h, x.All()) == if FirstMatch(h, x.pre).Some? then Piece(h, x.pre)
                                 else if x.early.key <= h then x.early.value + h[|x.early.key|..]
                                 else Piece(h, x.Later())
  {
    FirstMatchSplit(h, x.pre + [x.early], x.Later());
    FirstMatchSplit(h, x.pre, [x.early]);
    assert [x.early][0] == x.early && [x.early][1..] == [];
  }

  // ---- how many `c` too many

  ghost predicate Ready(x: Clash) {
    ProperKeys(x.pre) && x.early.key != "" && ProperKeys(x.Later()) && ProperKeys(x.All())
  }

  ghost function Excess(s: string, x: Clash): int
    requires Ready(x)
  {
    Count(Simultaneous(x.Mid(s), x.Later()), x.c) - Count(Simultaneous(s, x.All()), x.c)
  }

  lemma ExcessText(h: string, u: string, x: Clash)
    requires x.Valid() && Ready(x) && NoDollar(h)
    ensures Excess(h + u, x) == Excess(u, x)
  {
    PassText(h, u, x);
    CountConcat(h, Simultaneous(x.Mid(u), x.Later()), x.c);
    CountConcat(h, Simultaneous(u, x.All()), x.c);
  }

  lemma ExcessReplaced(h: string, u: string, x: Clash, v: string)
    requires x.Valid() && Ready(x) && Cut(h, u)
    requires NoDollar(v) && Piece(h, x.All()) == v && x.Mid(h + u) == v + x.Mid(u)
    ensures Excess(h + u, x) == Excess(u, x)
  {
    SimultaneousBehind(v, x.Mid(u), x.Later());
    SimultaneousCut(h, u, x.All());
    CountConcat(v, Simultaneous(x.Mid(u), x.Later()), x.c);
    CountConcat(v, Simultaneous(u, x.All()), x.c);
  }

  lemma {:induction false} ExcessKept(h: string, u: string, x: Clash)
    requires x.Valid() && Ready(x) && Cut(h, u)
    requires FirstMatch(h, x.pre).None? && !(x.early.key <= h)
    ensures Excess(h + u, x) == Excess(u, x) + Written(h, x.Mid(u), x.Later(), x.c) - Written(h, "", x.Later(), x.c)
  {
    ClashParts(x);
    MidPiece(h, u, x);
    PieceOfAll(h, x);
    WrittenIs(h, x.Mid(u), x.Later(), x.c);
    WrittenPiece(h, x.Later(), x.c);
    SimultaneousCut(h, u, x.All());
    CountConcat(Piece(h, x.All()), Simultaneous(u, x.All()), x.c);
  }

  lemma ExcessPiece(h: string, u: string, x: Clash)
    requires x.Valid() && Ready(x) && Cut(h, u)
    ensures Excess(h + u, x) >= Excess(u, x)
  {
    ClashParts(x);
    MidPiece(h, u, x);
    PieceOfAll(h, x);
    if FirstMatch(h, x.pre).Some? {
      ExcessReplaced(h, u, x, Piece(h, x.pre));
    } else if x.early.key <= h {
      assert h[|x.early.key|..] == h[1..][|x.early.key| - 1..];
      ExcessReplaced(h, u, x, x.early.value + h[|x.early.key|..]);
    } else {
      ExcessKept(h, u, x);
      WrittenAtLeast(h, x.Mid(u), x);
    }
  }

  /** The colliding piece is written as `late`. */
  lemma {:induction false} ExcessClash(u: string, x: Clash)
    requires x.Valid() && Ready(x) && Cut(x.g, u) && FirstMatch(u, x.pre).None? && x.early.key <= u
    ensures Excess(x.g + u, x) > Excess(u, x)
  {
    ClashParts(x);
    LateTail(x);
    ExcessKept(x.g, u, x);
    EarlyBringsLate(u, x);
    LateIsWritten(x.Mid(u), x);
    AtMostOneWritten(x);
  }

  lemma {:induction false} EarlyFirst(u: string, x: Clash)
    requires x.Valid() && Ready(x) && Cut(x.g, u) && FirstMatch(u, x.pre).None? && x.early.key <= u
    ensures x.early.value <= x.Mid(u)
  {
    ClashParts(x);
    var h, w := CutAt(u);
    FirstMatchShorter(h, w, x.pre);
    MatchCut(x.early.key, h, w);
    MidPiece(h, w, x);
  }

  lemma {:induction false} EarlyBringsLate(u: string, x: Clash)
    requires x.Valid() && Ready(x) && Cut(x.g, u) && FirstMatch(u, x.pre).None? && x.early.key <= u
    ensures x.late.key <= x.g + x.Mid(u)
  {
    LateTail(x);
    EarlyFirst(u, x);
  }

  lemma LateIsWritten(m: string, x: Clash)
    requires x.Valid() && x.late.key <= x.g + m
    ensures Written(x.g, m, x.Later(), x.c) == 2
  {
    CountsOfValues(x, x.late);
    forall b | b in x.mid
      ensures !(b.key <= x.g + m)
    {
      assert b in x.pre + [x.early] + x.mid;
      LongerPrefix(b.key, x.g, m);
    }
    LateOrMid(x.g + m, x);
  }

  lemma AtMostOneWritten(x: Clash)
    requires x.Valid()
    ensures Written(x.g, "", x.Later(), x.c) <= 1
  {
    ClashParts(x);
    LateTail(x);
    NoCount(x.g, x.late.key, x.c);
    assert x.g + "" == x.g && x.g[0..] == x.g;
    var b := FirstMatch(x.g, x.Later());
    if b.Some? {
      CountsOfValues(x, b.value);
    }
  }

  lemma {:induction false} ExcessNonNegative(s: string, x: Clash)
    requires x.Valid() && Ready(x)
    ensures Excess(s, x) >= 0
    decreases |s|
  {
    if s == "" {
    } else if s[0] != '$' {
      ExcessNonNegative(s[1..], x);
      assert s == s[..1] + s[1..];
      ExcessText(s[..1], s[1..], x);
    } else {
      var h, u := CutAt(s);
      ExcessNonNegative(u, x);
      ExcessPiece(h, u, x);
    }
  }

  lemma Joined(p: string, h: string, w: string, u: string)
    requires p == h + w && u != "" && u[0] == '$'
    ensures p + u == h + (w + u)
    ensures Cut(h, w) ==> Cut(h, w + u)
  {
  }

  lemma {:induction false} ExcessBehind(p: string, u: string, x: Clash)
    requires x.Valid() && Ready(x) && u != "" && u[0] == '$'
    ensures Excess(p + u, x) >= Excess(u, x)
    decreases |p|
  {
    if p == "" {
      assert p + u == u;
    } else {
      var h, w := p[..1], p[1..];
      if p[0] == '$' {
        h, w := CutAt(p);
      }
      Joined(p, h, w, u);
      ExcessBehind(w, u, x);
      ExcessFront(h, w + u, x);
    }
  }

  lemma ExcessFront(h: string, u: string, x: Clash)
    requires x.Valid() && Ready(x) && (NoDollar(h) || Cut(h, u))
    ensures Excess(h + u, x) >= Excess(u, x)
  {
    if NoDollar(h) {
      ExcessText(h, u, x);
    } else {
      ExcessPiece(h, u, x);
    }
  }

  /** A text with the colliding piece in front of `early` is not sent as intended. */
  lemma {:induction false} ClashDiffers(p: string, u: string, x: Clash)
    requires x.Valid() && Cut(x.g, u) && FirstMatch(u, x.pre).None? && x.early.key <= u
    ensures ProperKeys(x.All())
    ensures Sequential(p + (x.g + u), x.All()) != Simultaneous(p + (x.g + u), x.All())
  {
    ClashParts(x);
    ExcessNonNegative(u, x);
    ExcessClash(u, x);
    ExcessBehind(p, x.g + u, x);
    ClashSequential(p + (x.g + u), x);
  }

  // ---- finding the collision

  lemma {:induction false} FindUnsettled(s: string, bindings: seq<Binding>) returns (p: string, g: string, t: string)
    requires !Settled(s, bindings)
    ensures s == p + (g + t) && Cut(g, t) && !Apart(g, t, bindings)
  {
    if Settled(s[1..], bindings) {
      var n := 1 + ToDollar(s[1..]);
      p, g, t := "", s[..n], s[n..];
      assert g[1..] == s[1..][..n - 1];
      assert t != "" ==> t[0] == s[1..][n - 1];
    } else {
      var q;
      q, g, t := FindUnsettled(s[1..], bindings);
      p := [s[0]] + q;
      assert s == [s[0]] + (q + (g + t));
    }
  }

  lemma {:induction false} FirstLonger(g: string, bindings: seq<Binding>) returns (l: nat)
    requires !BeginsNone(g, bindings)
    ensures l < |bindings| && g < bindings[l].key && forall i :: 0 <= i < l ==> !(g < bindings[i].key)
  {
    if g < bindings[0].key {
      l := 0;
    } else {
      l := FirstLonger(g, bindings[1..]);
      l := l + 1;
    }
  }

  /** The variable that really is replaced behind `g`, and the first later name that `g` begins. */
  lemma {:induction false} FindPair(g: string, t: string, bindings: seq<Binding>) returns (j: nat, l: nat)
    requires !Apart(g, t, bindings)
    ensures j < l < |bindings| && bindings[j].key <= t && g < bindings[l].key
    ensures forall i :: 0 <= i < j ==> !(bindings[i].key <= t)
    ensures forall i :: j < i < l ==> !(g < bindings[i].key)
  {
    var rest := bindings[1..];
    if BeginsNone(g, rest) {
      BeginsNoneApart(g, t, rest);
    }
    if bindings[0].key <= t {
      l := FirstLonger(g, rest);
      j, l := 0, l + 1;
    } else {
      j, l := FindPair(g, t, rest);
      j, l := j + 1, l + 1;
    }
  }

  predicate SameKeys(a: seq<Binding>, b: seq<Binding>) {
    |a| == |b| && forall i :: 0 <= i < |a| ==> a[i].key == b[i].key
  }

  /** The same names with the colliding values. */
  function Colliding(bindings: seq<Binding>, j: nat, l: nat, g: string, c: char): (r: seq<Binding>)
    requires j < l < |bindings| && g < bindings[l].key
    ensures SameKeys(r, bindings)
  {
    seq(|bindings|, i requires 0 <= i < |bindings| =>
      Binding(bindings[i].key, if i == j then bindings[l].key[|g|..] else if i == l then [c, c] else [c]))
  }

  function ClashOf(b: seq<Binding>, j: nat, l: nat, g: string, c: char): (x: Clash)
    requires j < l < |b|
    ensures x.All() == b
  {
    var x := Clash(b[..j], b[j], b[j + 1..l], b[l], b[l + 1..], g, c);
    assert b == b[..j] + [b[j]] + (b[j + 1..l] + [b[l]] + b[l + 1..]);
    x
  }

  lemma PlaceOutside(r: seq<Binding>, j: nat, l: nat, b: Binding) returns (i: nat)
    requires j < l < |r| && b in r[..j] + r[j + 1..l] + r[l + 1..]
    ensures i < |r| && i != j && i != l && r[i] == b
  {
    var a, m := r[..j], r[j + 1..l];
    if b in a {
      i :| 0 <= i < j && a[i] == b;
    } else if b in m {
      var k :| 0 <= k < |m| && m[k] == b;
      i := j + 1 + k;
    } else {
      var z := r[l + 1..];
      var k :| 0 <= k < |z| && z[k] == b;
      i := l + 1 + k;
    }
  }

  lemma OtherValues(bindings: seq<Binding>, j: nat, l: nat, g: string, c: char)
    requires j < l < |bindings| && g < bindings[l].key
    ensures var x := ClashOf(Colliding(bindings, j, l, g, c), j, l, g, c);
            forall b :: b in x.pre + x.mid + x.post ==> b.value == [c]
  {
    var r := Colliding(bindings, j, l, g, c);
    forall b | b in r[..j] + r[j + 1..l] + r[l + 1..]
      ensures b.value == [c]
    {
      var i := PlaceOutside(r, j, l, b);
    }
  }

  lemma CollidingPlain(bindings: seq<Binding>, j: nat, l: nat, g: string, c: char)
    requires j < l < |bindings| && g < bindings[l].key && g != ""
    requires ProperKeys(bindings) && Free(c, bindings)
    ensures ProperKeys(Colliding(bindings, j, l, g, c)) && Free(c, Colliding(bindings, j, l, g, c))
    ensures PlainValues(Colliding(bindings, j, l, g, c))
  {
    var r := Colliding(bindings, j, l, g, c);
    assert forall i :: 0 <= i < |r| ==> ProperKey(bindings[i]) && r[i].key == bindings[i].key;
    assert bindings[l].key[|g|..] == bindings[l].key[1..][|g| - 1..];
  }

  lemma CollidingValid(bindings: seq<Binding>, j: nat, l: nat, g: string, c: char)
    requires j < l < |bindings| && g < bindings[l].key && LongestFirst(bindings)
    requires forall i :: j < i < l ==> !(g < bindings[i].key)
    requires ProperKeys(bindings) && Free(c, bindings) && IsPiece(g)
    ensures ClashOf(Colliding(bindings, j, l, g, c), j, l, g, c).Valid()
    ensures PlainValues(Colliding(bindings, j, l, g, c))
  {
    OtherValues(bindings, j, l, g, c);
    CollidingPlain(bindings, j, l, g, c);
    var r := Colliding(bindings, j, l, g, c);
    assert r[l].value == [c, c] && r[l].key == bindings[l].key;
  }

  /** What is sent is what is intended. */
  predicate Intended(s: string, bindings: seq<Binding>) {
    ProperKeys(bindings) && Sequential(s, bindings) == Simultaneous(s, bindings)
  }

  lemma Collision(s: string, bindings: seq<Binding>, c: char) returns (other: seq<Binding>)
    requires ProperKeys(bindings) && LongestFirst(bindings) && Free(c, bindings) && !Settled(s, bindings)
    ensures SameKeys(other, bindings) && PlainValues(other) && !Intended(s, other)
  {
    var p, g, t := FindUnsettled(s, bindings);
    var j, l := FindPair(g, t, bindings);
    other := Colliding(bindings, j, l, g, c);
    CollidingValid(bindings, j, l, g, c);
    var x := ClashOf(other, j, l, g, c);
    forall b | b in x.pre
      ensures !(b.key <= t)
    {
      var i :| 0 <= i < j && other[i] == b;
      assert other[i].key == bindings[i].key;
    }
    assert x.early.key == bindings[j].key;
    ClashDiffers(p, t, x);
  }

  lemma {:induction false} ApartSameKeys(g: string, t: string, a: seq<Binding>, b: seq<Binding>)
    requires SameKeys(a, b)
    ensures Apart(g, t, a) <==> Apart(g, t, b)
  {
    if a != [] {
      ApartSameKeys(g, t, a[1..], b[1..]);
      assert BeginsNone(g, a[1..]) <==> BeginsNone(g, b[1..]) by {
        assert forall i :: 0 <= i < |a[1..]| ==> a[1..][i].key == b[1..][i].key;
      }
    }
  }

  lemma {:induction false} SettledSameKeys(s: string, a: seq<Binding>, b: seq<Binding>)
    requires SameKeys(a, b)
    ensures Settled(s, a) <==> Settled(s, b)
  {
    if s != "" {
      var n := 1 + ToDollar(s[1..]);
      SettledSameKeys(s[1..], a, b);
      ApartSameKeys(s[..n], s[n..], a, b);
    }
  }

  /**
   * The condition on the query is exact. With the longest name first, whatever values without "$" the
   * variables have, replacing them one after another is replacing them at once - if and only if no variable
   * stands directly behind the beginning of a name that is replaced later. (`c` is any character that is in
   * no name.)
   */
  lemma {:induction false} SettledIsExact(s: string, bindings: seq<Binding>, c: char)
    requires ProperKeys(bindings) && LongestFirst(bindings) && Free(c, bindings)
    ensures Settled(s, bindings) <==>
              forall other: seq<Binding> :: SameKeys(other, bindings) && PlainValues(other) ==> Intended(s, other)
  {
    if Settled(s, bindings) {
      forall other: seq<Binding> | SameKeys(other, bindings) && PlainValues(other)
        ensures Intended(s, other)
      {
        SettledSameKeys(s, other, bindings);
        assert forall i :: 0 <= i < |other| ==> ProperKey(bindings[i]) && other[i].key == bindings[i].key;
        SequentialIsSimultaneous(s, other);
      }
    } else {
      var other := Collision(s, bindings, c);
    }
  }
}

/**
 * Variable substitution by repeated `str.replace`: `run` and the last part of `interpolate` in
 * dashboards/check_queries.py. One variable after another is replaced in the whole text, so the
 * result may depend on the order; `Simultaneous` is what the author means.
 */
module Substitution {
  import opened Text

  /** A variable as it is written in a query ("$env_a", "${env:singlequote}") and its value. */
  datatype Binding = Binding(key: string, value: string)

  predicate HasKeys(bindings: seq<Binding>) {
    forall i :: 0 <= i < |bindings| ==> bindings[i].key != ""
  }

  /** The loop's effect: the bindings are replaced one after another. */
  function Sequential(s: string, bindings: seq<Binding>): string
    requires HasKeys(bindings)
    decreases |bindings|
  {
    if bindings == [] then s
    else Sequential(Replace(s, bindings[0].key, bindings[0].value), bindings[1..])
  }

  /** The intended meaning: one pass, every variable of the original text replaced by its value. */
  function Simultaneous(s: string, bindings: seq<Binding>): string
    requires ProperKeys(bindings)
    decreases |s|
  {
    if s == "" then ""
    else
      match FirstMatch(s, bindings)
      case Some(b) => b.value + Simultaneous(s[|b.key|..], bindings)
      case None => [s[0]] + Simultaneous(s[1..], bindings)
  }

  /** The first binding whose key starts `s`. */
  function FirstMatch(s: string, bindings: seq<Binding>): (r: Option<Binding>)
    ensures r.Some? ==> r.value in bindings && r.value.key <= s
    ensures r.None? ==> forall i :: 0 <= i < |bindings| ==> !(bindings[i].key <= s)
  {
    if bindings == [] then None
    else if bindings[0].key <= s then Some(bindings[0])
    else FirstMatch(s, bindings[1..])
  }

  predicate NoDollar(s: string) {
    '$' !in s
  }

  /** Every key is a "$" followed by something without "$". */
  predicate ProperKeys(bindings: seq<Binding>) {
    forall i :: 0 <= i < |bindings| ==> ProperKey(bindings[i])
  }

  predicate ProperKey(b: Binding) {
    |b.key| > 1 && b.key[0] == '$' && NoDollar(b.key[1..])
  }

  predicate PlainValues(bindings: seq<Binding>) {
    forall i :: 0 <= i < |bindings| ==> NoDollar(bindings[i].value)
  }

  /** Length of the text before the first "$". */
  function ToDollar(s: string): (n: nat)
    ensures n <= |s| && NoDollar(s[..n]) && (n < |s| ==> s[n] == '$')
  {
    if s == "" || s[0] == '$' then 0
    else
      var n := 1 + ToDollar(s[1..]);
      assert s[..n] == [s[0]] + s[1..][..n - 1];
      n
  }

  /** `g` is not the beginning of one of the names. */
  predicate BeginsNone(g: string, bindings: seq<Binding>) {
    forall j :: 0 <= j < |bindings| ==> !(g < bindings[j].key)
  }

  /** If a variable directly follows `g`, then `g` is not the beginning of a name replaced later. */
  predicate Apart(g: string, t: string, bindings: seq<Binding>) {
    bindings == [] || ((bindings[0].key <= t ==> BeginsNone(g, bindings[1..])) && Apart(g, t, bindings[1..]))
  }

  /** No variable stands directly behind the beginning of a longer variable's name. */
  predicate Settled(s: string, bindings: seq<Binding>) {
    s == "" ||
    var n := 1 + ToDollar(s[1..]);
    Settled(s[1..], bindings) && (s[0] == '$' ==> Apart(s[..n], s[n..], bindings))
  }

  lemma {:induction false} SequentialSplit(s: string, a: seq<Binding>, b: seq<Binding>)
    requires HasKeys(a) && HasKeys(b)
    ensures Sequential(s, a + b) == Sequential(Sequential(s, a), b)
    decreases |a|
  {
    if a == [] {
      assert a + b == b;
    } else {
      assert (a + b)[1..] == a[1..] + b;
      SequentialSplit(Replace(s, a[0].key, a[0].value), a[1..], b);
    }
  }

  lemma {:induction false} SequentialOn(s: string, a: seq<Binding>, b: Binding)
    requires HasKeys(a) && b.key != ""
    ensures HasKeys(a + [b]) && Sequential(s, a + [b]) == Replace(Sequential(s, a), b.key, b.value)
  {
    assert [b][1..] == [];
    SequentialSplit(s, a, [b]);
  }

  // ---- texts are cut at their "$": `g` starts with one, `t` is empty or starts with the next one

  ghost predicate Cut(g: string, t: string) {
    g != "" && g[0] == '$' && NoDollar(g[1..]) && (t == "" || t[0] == '$')
  }

  lemma CutAt(s: string) returns (g: string, t: string)
    requires s != "" && s[0] == '$'
    ensures s == g + t && Cut(g, t)
  {
    var n := 1 + ToDollar(s[1..]);
    g, t := s[..n], s[n..];
    assert g[1..] == s[1..][..n - 1];
  }

  lemma {:induction false} ToDollarOf(h: string, t: string)
    requires NoDollar(h) && (t == "" || t[0] == '$')
    ensures ToDollar(h + t) == |h|
  {
    if h == "" {
      assert h + t == t;
    } else {
      assert h[0] in h;
      assert (h + t)[1..] == h[1..] + t;
      ToDollarOf(h[1..], t);
    }
  }

  lemma {:induction false} SettledCut(g: string, t: string, bindings: seq<Binding>)
    requires Cut(g, t)
    ensures Settled(g + t, bindings) <==> Settled(t, bindings) && Apart(g, t, bindings)
  {
    assert (g + t)[1..] == g[1..] + t;
    ToDollarOf(g[1..], t);
    assert (g + t)[..|g|] == g && (g + t)[|g|..] == t;
    SettledBehind(g[1..], t, bindings);
  }

  /** A key matches inside one piece or not at all. */
  lemma MatchCut(k: string, g: string, t: string)
    requires |k| > 1 && NoDollar(k[1..]) && Cut(g, t)
    ensures k <= g + t <==> k <= g
  {
    NoDollarAfter(k);
    assert t != "" ==> (g + t)[|g|] == '$';
    assert k <= g + t ==> forall i :: 0 < i < |k| ==> (g + t)[i] != '$';
  }

  lemma NoDollarAfter(k: string)
    requires k != "" && NoDollar(k[1..])
    ensures forall i :: 0 < i < |k| ==> k[i] != '$'
  {
    forall i | 0 < i < |k|
      ensures k[i] != '$'
    {
      assert k[i] == k[1..][i - 1] && k[i] in k[1..];
    }
  }

  // ---- a text without "$" passes unchanged

  lemma {:induction false} SettledBehind(v: string, s: string, bindings: seq<Binding>)
    requires NoDollar(v)
    ensures Settled(v + s, bindings) <==> Settled(s, bindings)
  {
    if v == "" {
      assert v + s == s;
    } else {
      assert v[0] in v;
      SettledBehind(v[1..], s, bindings);
      assert (v + s)[1..] == v[1..] + s;
    }
  }

  lemma {:induction false} NoMatchHere(s: string, bindings: seq<Binding>)
    requires s != "" && s[0] != '$' && ProperKeys(bindings)
    ensures FirstMatch(s, bindings).None?
  {
    if bindings != [] {
      assert ProperKey(bindings[0]);
      NoMatchHere(s, bindings[1..]);
    }
  }

  lemma {:induction false} SimultaneousBehind(v: string, s: string, bindings: seq<Binding>)
    requires NoDollar(v) && ProperKeys(bindings)
    ensures Simultaneous(v + s, bindings) == v + Simultaneous(s, bindings)
  {
    if v == "" {
      assert v + s == s;
    } else {
      assert v[0] in v;
      assert (v + s)[0] == v[0] && (v + s)[1..] == v[1..] + s;
      NoMatchHere(v + s, bindings);
      SimultaneousBehind(v[1..], s, bindings);
    }
  }

  lemma {:induction false} ReplaceBehind(v: string, s: string, key: string, value: string)
    requires NoDollar(v) && key != "" && key[0] == '$'
    ensures Replace(v + s, key, value) == v + Replace(s, key, value)
  {
    if v == "" {
      assert v + s == s;
    } else {
      assert v[0] in v && (v + s)[0] == v[0];
      ReplaceBehind(v[1..], s, key, value);
      assert (v + s)[1..] == v[1..] + s;
      assert !(key <= v + s);
    }
  }

  // ---- the three functions on a piece starting with "$"

  /** What becomes of a piece: the first matching key of `bindings` gives way to its value. */
  function Piece(g: string, bindings: seq<Binding>): string {
    match FirstMatch(g, bindings)
    case Some(b) => b.value + g[|b.key|..]
    case None => g
  }

  lemma {:induction false} ReplaceNone(h: string, t: string, b: Binding)
    requires h != "" && NoDollar(h[1..]) && ProperKey(b) && !(b.key <= h + t)
    ensures Replace(h + t, b.key, b.value) == h + Replace(t, b.key, b.value)
  {
    assert (h + t)[1..] == h[1..] + t;
    ReplaceBehind(h[1..], t, b.key, b.value);
  }

  lemma {:induction false} ReplaceHit(h: string, t: string, b: Binding)
    requires h != "" && NoDollar(h[1..]) && ProperKey(b) && b.key <= h
    ensures Replace(h + t, b.key, b.value) == b.value + h[|b.key|..] + Replace(t, b.key, b.value)
  {
    var r := h[|b.key|..];
    assert (h + t)[|b.key|..] == r + t;
    assert r == h[1..][|b.key| - 1..];
    ReplaceBehind(r, t, b.key, b.value);
  }

  lemma ReplaceCut(g: string, t: string, b: Binding)
    requires Cut(g, t) && ProperKey(b)
    ensures Replace(g + t, b.key, b.value) ==
            (if b.key <= g then b.value + g[|b.key|..] else g) + Replace(t, b.key, b.value)
  {
    MatchCut(b.key, g, t);
    if b.key <= g {
      ReplaceHit(g, t, b);
    } else {
      ReplaceNone(g, t, b);
    }
  }

  lemma {:induction false} SimultaneousCut(g: string, t: string, bindings: seq<Binding>)
    requires Cut(g, t) && ProperKeys(bindings)
    ensures Simultaneous(g + t, bindings) == Piece(g, bindings) + Simultaneous(t, bindings)
  {
    forall j | 0 <= j < |bindings|
      ensures bindings[j].key <= g + t <==> bindings[j].key <= g
    {
      MatchCut(bindings[j].key, g, t);
    }
    SimultaneousSeen(g, t, bindings);
  }

  /** The same where the text behind the piece may be anything, as long as it completes no key. */
  lemma {:induction false} SimultaneousSeen(g: string, t: string, bindings: seq<Binding>)
    requires g != "" && g[0] == '$' && NoDollar(g[1..]) && ProperKeys(bindings)
    requires forall j :: 0 <= j < |bindings| ==> (bindings[j].key <= g + t <==> bindings[j].key <= g)
    ensures Simultaneous(g + t, bindings) == Piece(g, bindings) + Simultaneous(t, bindings)
  {
    FirstMatchSame(g + t, g, bindings);
    var m := FirstMatch(g, bindings);
    if m.Some? {
      var k := m.value.key;
      var u := g[|k|..];
      assert |k| > 1;
      assert (g + t)[|k|..] == u + t;
      assert NoDollar(u) by { assert u == g[1..][|k| - 1..]; }
      SimultaneousBehind(u, t, bindings);
    } else {
      assert (g + t)[1..] == g[1..] + t;
      SimultaneousBehind(g[1..], t, bindings);
    }
  }

  lemma {:induction false} FirstMatchSame(s: string, s': string, bindings: seq<Binding>)
    requires forall j :: 0 <= j < |bindings| ==> (bindings[j].key <= s <==> bindings[j].key <= s')
    ensures FirstMatch(s, bindings) == FirstMatch(s', bindings)
  {
    if bindings != [] {
      FirstMatchSame(s, s', bindings[1..]);
    }
  }

  // ---- one replacement

  lemma {:induction false} BeginsNoneApart(g: string, t: string, bindings: seq<Binding>)
    requires BeginsNone(g, bindings)
    ensures Apart(g, t, bindings)
  {
    if bindings != [] {
      BeginsNoneApart(g, t, bindings[1..]);
    }
  }

  lemma {:induction false} ApartSame(g: string, t: string, t': string, bindings: seq<Binding>)
    requires Apart(g, t, bindings)
    requires forall j :: 0 <= j < |bindings| ==> (bindings[j].key <= t <==> bindings[j].key <= t')
    ensures Apart(g, t', bindings)
  {
    if bindings != [] {
      ApartSame(g, t, t', bindings[1..]);
    }
  }

  /** The piece in front of a longer piece starts with it. */
  lemma LongerPiece(g: string, t': string, g': string, u: string)
    requires g != "" && g[0] == '$' && NoDollar(g[1..]) && Cut(g', u) && g + t' == g' + u
    ensures g <= g'
  {
    NoDollarAfter(g);
    assert forall i :: 0 < i < |g| ==> (g + t')[i] != '$';
    assert u != "" ==> (g' + u)[|g'|] == '$';
    assert g == (g' + u)[..|g|];
  }

  lemma LongerPrefix(k: string, g: string, t: string)
    ensures k <= g + t ==> k <= g || g < k
  {
    if k <= g + t && |k| > |g| {
      assert g == (g + t)[..|g|] == k[..|g|];
    }
  }

  /** Replacing `first` in the text behind the piece `g` completes no later key in `g`. */
  lemma {:induction false} NothingCompleted(g: string, t: string, first: Binding, k: string)
    requires Cut(g, t) && ProperKey(first) && |k| > 1 && NoDollar(k[1..])
    requires first.key <= t ==> !(g < k)
    ensures k <= g + Replace(t, first.key, first.value) <==> k <= g
  {
    var t' := Replace(t, first.key, first.value);
    LongerPrefix(k, g, t');
    if !(first.key <= t) {
      MatchCut(k, g, t');
    }
  }

  /** The matches at the start of `t` of keys other than `first` survive the replacement of `first`. */
  lemma {:induction false} MatchesKept(t: string, first: Binding, rest: seq<Binding>)
    requires t == "" || t[0] == '$'
    requires ProperKey(first) && ProperKeys(rest) && Settled(t, [first] + rest) && !(first.key <= t)
    ensures forall j :: 0 <= j < |rest| ==> (rest[j].key <= Replace(t, first.key, first.value) <==> rest[j].key <= t)
  {
    if t != "" {
      var h, u := CutAt(t);
      SettledCut(h, u, [first] + rest);
      assert ([first] + rest)[1..] == rest;
      MatchCut(first.key, h, u);
      ReplaceCut(h, u, first);
      forall j | 0 <= j < |rest|
        ensures rest[j].key <= Replace(t, first.key, first.value) <==> rest[j].key <= t
      {
        NothingCompleted(h, u, first, rest[j].key);
        MatchCut(rest[j].key, h, u);
      }
    }
  }

  lemma {:induction false} KeptPieceMeaning(g: string, t: string, first: Binding, rest: seq<Binding>)
    requires Cut(g, t) && ProperKey(first) && ProperKeys(rest)
    requires first.key <= t ==> BeginsNone(g, rest)
    ensures var t' := Replace(t, first.key, first.value);
            Simultaneous(g + t', rest) == Piece(g, rest) + Simultaneous(t', rest)
  {
    var t' := Replace(t, first.key, first.value);
    forall j | 0 <= j < |rest|
      ensures rest[j].key <= g + t' <==> rest[j].key <= g
    {
      NothingCompleted(g, t, first, rest[j].key);
    }
    SimultaneousSeen(g, t', rest);
  }

  /** A piece that begins no name stays settled whatever text follows it. */
  lemma {:induction false} BeginsNoneSettled(g: string, t: string, bindings: seq<Binding>)
    requires g != "" && g[0] == '$' && NoDollar(g[1..]) && BeginsNone(g, bindings) && Settled(t, bindings)
    ensures Settled(g + t, bindings)
  {
    var g', u := CutAt(g + t);
    LongerPiece(g, t, g', u);
    assert BeginsNone(g', bindings);
    BeginsNoneApart(g', u, bindings);
    assert (g + t)[1..] == g[1..] + t;
    assert (g' + u)[1..] == g'[1..] + u;
    SettledBehind(g[1..], t, bindings);
    SettledBehind(g'[1..], u, bindings);
    SettledCut(g', u, bindings);
  }

  lemma {:induction false} KeptPieceSettled(g: string, t: string, first: Binding, rest: seq<Binding>)
    requires Cut(g, t) && ProperKey(first) && ProperKeys(rest)
    requires Settled(t, [first] + rest) && Apart(g, t, [first] + rest)
    requires Settled(Replace(t, first.key, first.value), rest)
    ensures Settled(g + Replace(t, first.key, first.value), rest)
  {
    var t' := Replace(t, first.key, first.value);
    assert ([first] + rest)[1..] == rest;
    if first.key <= t {
      BeginsNoneSettled(g, t', rest);
    } else {
      MatchesKept(t, first, rest);
      ApartSame(g, t, t', rest);
      SettledCut(g, t', rest);
    }
  }

  lemma {:induction false} ReplacedPiece(v: string, u: string, t': string, rest: seq<Binding>)
    requires ProperKeys(rest) && NoDollar(v) && NoDollar(u)
    ensures Simultaneous(v + u + t', rest) == v + u + Simultaneous(t', rest)
    ensures Settled(t', rest) ==> Settled(v + u + t', rest)
  {
    SimultaneousBehind(v + u, t', rest);
    SettledBehind(v + u, t', rest);
  }

  /** One `replace` followed by the intended meaning of the remaining variables is the intended meaning. */
  lemma {:induction false} ReplaceOne(s: string, first: Binding, rest: seq<Binding>)
    requires ProperKey(first) && NoDollar(first.value) && ProperKeys(rest) && Settled(s, [first] + rest)
    ensures Simultaneous(Replace(s, first.key, first.value), rest) == Simultaneous(s, [first] + rest)
    ensures Settled(Replace(s, first.key, first.value), rest)
    decreases |s|
  {
    var bindings := [first] + rest;
    if s == "" {
    } else if s[0] != '$' {
      ReplaceOne(s[1..], first, rest);
      assert s == s[..1] + s[1..];
      PassCharacter(s[..1], s[1..], first, rest);
    } else {
      var g, t := CutAt(s);
      SettledCut(g, t, bindings);
      ReplaceOne(t, first, rest);
      ReplacePiece(g, t, first, rest);
    }
  }

  lemma {:induction false} PassCharacter(h: string, t: string, first: Binding, rest: seq<Binding>)
    requires NoDollar(h) && ProperKey(first) && ProperKeys(rest)
    requires Simultaneous(Replace(t, first.key, first.value), rest) == Simultaneous(t, [first] + rest)
    requires Settled(Replace(t, first.key, first.value), rest)
    ensures Simultaneous(Replace(h + t, first.key, first.value), rest) == Simultaneous(h + t, [first] + rest)
    ensures Settled(Replace(h + t, first.key, first.value), rest)
  {
    ReplaceBehind(h, t, first.key, first.value);
    SimultaneousBehind(h, t, [first] + rest);
    SimultaneousBehind(h, Replace(t, first.key, first.value), rest);
    SettledBehind(h, Replace(t, first.key, first.value), rest);
  }

  lemma {:induction false} ReplacePiece(g: string, t: string, first: Binding, rest: seq<Binding>)
    requires Cut(g, t) && ProperKey(first) && NoDollar(first.value) && ProperKeys(rest)
    requires Settled(t, [first] + rest) && Apart(g, t, [first] + rest)
    requires Simultaneous(Replace(t, first.key, first.value), rest) == Simultaneous(t, [first] + rest)
    requires Settled(Replace(t, first.key, first.value), rest)
    ensures Simultaneous(Replace(g + t, first.key, first.value), rest) == Simultaneous(g + t, [first] + rest)
    ensures Settled(Replace(g + t, first.key, first.value), rest)
  {
    assert ([first] + rest)[1..] == rest;
    ReplaceCut(g, t, first);
    SimultaneousCut(g, t, [first] + rest);
    if first.key <= g {
      var u := g[|first.key|..];
      assert u == g[1..][|first.key| - 1..];
      ReplacedPiece(first.value, u, Replace(t, first.key, first.value), rest);
    } else {
      KeptPieceMeaning(g, t, first, rest);
      KeptPieceSettled(g, t, first, rest);
    }
  }

  /**
   * Replacing one variable after another equals replacing all of them at once, for every text in
   * which no variable stands directly behind the beginning of a variable that is replaced later.
   */
  lemma {:induction false} SequentialIsSimultaneous(s: string, bindings: seq<Binding>)
    requires ProperKeys(bindings) && PlainValues(bindings) && Settled(s, bindings)
    ensures Sequential(s, bindings) == Simultaneous(s, bindings)
    decreases |bindings|
  {
    if bindings == [] {
      SimultaneousNothing(s);
    } else {
      assert bindings == [bindings[0]] + bindings[1..];
      ReplaceOne(s, bindings[0], bindings[1..]);
      SequentialIsSimultaneous(Replace(s, bindings[0].key, bindings[0].value), bindings[1..]);
    }
  }

  lemma {:induction false} SimultaneousNothing(s: string)
    ensures Simultaneous(s, []) == s
  {
    if s != "" {
      SimultaneousNothing(s[1..]);
    }
  }

  // ---- run: longest name first

  predicate LongestFirst(bindings: seq<Binding>) {
    forall i, j :: 0 <= i < j < |bindings| ==> |bindings[i].key| >= |bindings[j].key|
  }

  /** `sorted(values, key=len, reverse=True)`: descending and stable. */
  function SortByLength(values: seq<Binding>): (r: seq<Binding>)
    ensures LongestFirst(r) && multiset(r) == multiset(values)
  {
    if values == [] then []
    else
      assert values == values[..|values| - 1] + [values[|values| - 1]];
      InsertByLength(SortByLength(values[..|values| - 1]), values[|values| - 1])
  }

  function InsertByLength(sorted: seq<Binding>, b: Binding): (r: seq<Binding>)
    requires LongestFirst(sorted)
    ensures LongestFirst(r) && multiset(r) == multiset(sorted) + multiset{b}
    decreases |sorted|, 1
  {
    if sorted == [] || |sorted[|sorted| - 1].key| >= |b.key| then sorted + [b]
    else
      var init, last := sorted[..|sorted| - 1], sorted[|sorted| - 1];
      assert sorted == init + [last];
      InsertLast(init, b, last);
      InsertByLength(init, b) + [last]
  }

  lemma {:induction false} InsertLast(init: seq<Binding>, b: Binding, last: Binding)
    requires LongestFirst(init + [last]) && LongestFirst(init) && |last.key| < |b.key|
    ensures LongestFirst(InsertByLength(init, b) + [last])
    decreases |init|, 2
  {
    var r := InsertByLength(init, b);
    forall x | x in r
      ensures |x.key| >= |last.key|
    {
      assert x in multiset(r);
      if x != b {
        assert x in multiset(init);
        var i :| 0 <= i < |init| && init[i] == x;
        assert (init + [last])[i] == x && (init + [last])[|init|] == last;
      }
    }
  }

  /** With the longest name first, the first match is the longest one: "$env_a" is never read as "$env". */
  lemma {:induction false} FirstMatchIsLongest(s: string, bindings: seq<Binding>, b: Binding)
    requires LongestFirst(bindings) && b in bindings && b.key <= s
    ensures FirstMatch(s, bindings).Some? && |FirstMatch(s, bindings).value.key| >= |b.key|
  {
    if !(bindings[0].key <= s) {
      FirstMatchIsLongest(s, bindings[1..], b);
    }
  }

  lemma {:induction false} SortKeepsMembers(values: seq<Binding>)
    ensures forall b :: b in SortByLength(values) <==> b in values
  {
    assert forall b :: b in SortByLength(values) <==> b in multiset(SortByLength(values));
  }

  lemma {:induction false} SortKeepsKeys(values: seq<Binding>)
    requires ProperKeys(values) && PlainValues(values)
    ensures ProperKeys(SortByLength(values)) && PlainValues(SortByLength(values))
  {
    SortKeepsMembers(values);
    var r := SortByLength(values);
    forall i | 0 <= i < |r|
      ensures ProperKey(r[i]) && NoDollar(r[i].value)
    {
      assert r[i] in r;
      var j :| 0 <= j < |values| && values[j] == r[i];
    }
  }

  /** The loop of `run`: every variable, the longest name first, is replaced in the whole query. */
  method Run(query: string, values: seq<Binding>) returns (r: string)
    requires forall b :: b in values ==> b.key != ""
    ensures forall i :: 0 <= i < |SortByLength(values)| ==> SortByLength(values)[i].key != ""
    ensures r == Sequential(query, SortByLength(values))
  {
    r := query;
    var order := SortByLength(values);
    SortKeepsMembers(values);
    for i := 0 to |order|
      invariant Sequential(r, order[i..]) == Sequential(query, order)
    {
      r := Replace(r, order[i].key, order[i].value);
      assert order[i..][1..] == order[i + 1..];
    }
  }

  /** What `run` sends is the query with every variable replaced once, each by the longest name that fits. */
  lemma {:induction false} RunIsSimultaneous(query: string, values: seq<Binding>)
    requires ProperKeys(values) && PlainValues(values) && Settled(query, SortByLength(values))
    ensures ProperKeys(SortByLength(values))
    ensures Sequential(query, SortByLength(values)) == Simultaneous(query, SortByLength(values))
  {
    SortKeepsKeys(values);
    SequentialIsSimultaneous(query, SortByLength(values));
  }

  // ---- the values of `run`, and a query that they spoil

  /** `d[key] = value` on a dictionary in insertion order. */
  function Put(values: seq<Binding>, key: string, value: string): seq<Binding> {
    if values == [] then [Binding(key, value)]
    else if values[0].key == key then [Binding(key, value)] + values[1..]
    else [values[0]] + Put(values[1..], key, value)
  }

  function PutAll(values: seq<Binding>, overrides: seq<(string, string)>): seq<Binding>
    decreases |overrides|
  {
    if overrides == [] then values
    else PutAll(Put(values, "$" + overrides[0].0, overrides[0].1), overrides[1..])
  }

  function Variable(name: string, value: string): Binding {
    Binding("$" + name, value)
  }

  const VARS: seq<Binding> :=
    [Variable("env", ".*"), Variable("db_instance", ".*"), Variable("datname", ".*"), Variable("usename", ".*"),
     Variable("query_mask_md5", ".*"), Variable("query_md5", ".*"), Variable("queryid", ".*"),
     Variable("schemaname", ".*"), Variable("relname", ".*")]

  /** The dictionary that `run` builds; none of its own three keys is in VARS. */
  function RunValues(envA: string, envB: string, rp: string, overrides: seq<(string, string)>): seq<Binding> {
    PutAll(VARS + [Variable("env_a", envA), Variable("env_b", envB), Variable("rp", rp)], overrides)
  }

  lemma {:induction false} SequentialSkip(s: string, bindings: seq<Binding>)
    requires HasKeys(bindings) && forall i :: 0 <= i < |bindings| ==>
             Replace(s, bindings[i].key, bindings[i].value) == s
    ensures Sequential(s, bindings) == s
    decreases |bindings|
  {
    if bindings != [] {
      SequentialSkip(s, bindings[1..]);
    }
  }

  /** No name is read at the place of $env or $rp but these two. */
  predicate Named(b: Binding) {
    && |b.key| >= 3
    && (b.key <= "$env" ==> b == Binding("$env", "p"))
    && (b.key <= "$rp" ==> b == Binding("$rp", "7d"))
  }

  predicate Names(bindings: seq<Binding>) {
    ProperKeys(bindings) && forall i :: 0 <= i < |bindings| ==> Named(bindings[i])
  }

  lemma {:induction false} ReplaceWhole(t: string, b: Binding)
    requires Cut(t, "") && ProperKey(b)
    ensures b.key == t ==> Replace(t, b.key, b.value) == b.value
    ensures !(b.key <= t) ==> Replace(t, b.key, b.value) == t
  {
    assert t + "" == t;
    ReplaceCut(t, "", b);
  }

  lemma ReplaceInCollision(b: Binding)
    requires ProperKey(b) && |b.key| >= 3
    ensures !(b.key <= "$env") ==> Replace("$r$env", b.key, b.value) == "$r$env"
    ensures b.key == "$env" ==> Replace("$r$env", b.key, b.value) == "$r" + b.value
    ensures !(b.key <= "$rp") ==> Replace("$rp", b.key, b.value) == "$rp"
    ensures b.key == "$rp" ==> Replace("$rp", b.key, b.value) == b.value
    ensures Replace("7d", b.key, b.value) == "7d"
  {
    Pieces();
    ReplaceCut("$r", "$env", b);
    ReplaceWhole("$env", b);
    ReplaceWhole("$rp", b);
    assert "7d" + "" == "7d";
    ReplaceBehind("7d", "", b.key, b.value);
  }

  lemma Pieces()
    ensures Cut("$r", "$env") && Cut("$env", "") && Cut("$rp", "") && "$r" + "$env" == "$r$env"
  {
    assert "$r"[1..] == "r" && "$env"[1..] == "env" && "$rp"[1..] == "rp";
  }

  lemma {:induction false} SkipAll(bindings: seq<Binding>)
    requires Names(bindings)
    ensures (forall i :: 0 <= i < |bindings| ==> bindings[i].key != "$env") ==>
            Sequential("$r$env", bindings) == "$r$env"
    ensures (forall i :: 0 <= i < |bindings| ==> bindings[i].key != "$rp") ==> Sequential("$rp", bindings) == "$rp"
    ensures Sequential("7d", bindings) == "7d"
  {
    forall i | 0 <= i < |bindings|
      ensures bindings[i].key != "$env" ==> Replace("$r$env", bindings[i].key, bindings[i].value) == "$r$env"
      ensures bindings[i].key != "$rp" ==> Replace("$rp", bindings[i].key, bindings[i].value) == "$rp"
      ensures Replace("7d", bindings[i].key, bindings[i].value) == "7d"
    {
      assert ProperKey(bindings[i]) && Named(bindings[i]);
      ReplaceInCollision(bindings[i]);
    }
    if forall i :: 0 <= i < |bindings| ==> bindings[i].key != "$env" {
      SequentialSkip("$r$env", bindings);
    }
    if forall i :: 0 <= i < |bindings| ==> bindings[i].key != "$rp" {
      SequentialSkip("$rp", bindings);
    }
    SequentialSkip("7d", bindings);
  }

  lemma {:induction false} FirstOf(bindings: seq<Binding>, b: Binding) returns (i: nat)
    requires b in bindings
    ensures i < |bindings| && bindings[i] == b && forall k :: 0 <= k < i ==> bindings[k] != b
  {
    if bindings[0] == b {
      i := 0;
    } else {
      i := FirstOf(bindings[1..], b);
      i := i + 1;
    }
  }

  lemma SplitTwice<T>(xs: seq<T>, a: T, b: T, j: nat, l: nat) returns (pre: seq<T>, mid: seq<T>, post: seq<T>)
    requires j < l < |xs| && xs[j] == a && xs[l] == b
    requires (forall k :: 0 <= k < j ==> xs[k] != a) && (forall k :: 0 <= k < l ==> xs[k] != b)
    ensures xs == (pre + [a]) + ((mid + [b]) + post)
    ensures a !in pre && b !in mid
  {
    pre, mid, post := xs[..j], xs[j + 1..l], xs[l + 1..];
  }

  lemma NamesKept(values: seq<Binding>, bindings: seq<Binding>)
    requires Names(values) && forall b :: b in bindings ==> b in values
    ensures Names(bindings)
  {
    forall i | 0 <= i < |bindings|
      ensures ProperKey(bindings[i]) && Named(bindings[i])
    {
      assert bindings[i] in bindings;
      var k :| 0 <= k < |values| && values[k] == bindings[i];
    }
  }

  lemma NamesWithout(bindings: seq<Binding>)
    requires Names(bindings)
    ensures Binding("$env", "p") !in bindings ==> forall i :: 0 <= i < |bindings| ==> bindings[i].key != "$env"
    ensures Binding("$rp", "7d") !in bindings ==> forall i :: 0 <= i < |bindings| ==> bindings[i].key != "$rp"
  {
    assert forall i :: 0 <= i < |bindings| ==> Named(bindings[i]) && bindings[i] in bindings;
  }

  lemma {:induction false} CollisionSequential(bindings: seq<Binding>)
    requires Names(bindings) && LongestFirst(bindings)
    requires Binding("$env", "p") in bindings && Binding("$rp", "7d") in bindings
    ensures Sequential("$r$env", bindings) == "7d"
  {
    var env, rp := Binding("$env", "p"), Binding("$rp", "7d");
    var j := FirstOf(bindings, env);
    var l := FirstOf(bindings, rp);
    assert |bindings[j].key| == 4 && |bindings[l].key| == 3;
    var pre, mid, post := SplitTwice(bindings, env, rp, j, l);
    NamesKept(bindings, pre);
    NamesKept(bindings, mid);
    NamesKept(bindings, post);
    CollisionParts(pre, mid, post);
  }

  lemma {:induction false} EnvStep(pre: seq<Binding>)
    requires Names(pre) && Binding("$env", "p") !in pre
    ensures HasKeys(pre + [Binding("$env", "p")]) && Sequential("$r$env", pre + [Binding("$env", "p")]) == "$rp"
  {
    var b := Binding("$env", "p");
    NamesWithout(pre);
    SkipAll(pre);
    ReplaceInCollision(b);
    assert "$r" + "p" == "$rp";
    SequentialOn("$r$env", pre, b);
  }

  lemma {:induction false} RpStep(mid: seq<Binding>)
    requires Names(mid) && Binding("$rp", "7d") !in mid
    ensures HasKeys(mid + [Binding("$rp", "7d")]) && Sequential("$rp", mid + [Binding("$rp", "7d")]) == "7d"
  {
    var b := Binding("$rp", "7d");
    NamesWithout(mid);
    SkipAll(mid);
    ReplaceInCollision(b);
    SequentialOn("$rp", mid, b);
  }

  lemma CollisionParts(pre: seq<Binding>, mid: seq<Binding>, post: seq<Binding>)
    requires Names(pre) && Names(mid) && Names(post)
    requires Binding("$env", "p") !in pre && Binding("$rp", "7d") !in mid
    ensures var all := (pre + [Binding("$env", "p")]) + ((mid + [Binding("$rp", "7d")]) + post);
            HasKeys(all) && Sequential("$r$env", all) == "7d"
  {
    EnvStep(pre);
    RpStep(mid);
    SkipAll(post);
    SequentialSplit("$r$env", pre + [Binding("$env", "p")], (mid + [Binding("$rp", "7d")]) + post);
    SequentialSplit("$rp", mid + [Binding("$rp", "7d")], post);
  }

  lemma {:induction false} CollisionSimultaneous(bindings: seq<Binding>)
    requires Names(bindings) && Binding("$env", "p") in bindings
    ensures Simultaneous("$r$env", bindings) == "$rp"
  {
    var g, t := "$r", "$env";
    Pieces();
    assert t[4..] == "";
    SimultaneousCut(g, t, bindings);
    NoneOfTwo(bindings);
    FirstMatchEnv(bindings);
    assert Simultaneous(t, bindings) == "p" + "";
  }

  lemma {:induction false} NoneOfTwo(bindings: seq<Binding>)
    requires Names(bindings)
    ensures FirstMatch("$r", bindings).None?
  {
    forall b | b in bindings
      ensures !(b.key <= "$r")
    {
      var k :| 0 <= k < |bindings| && bindings[k] == b;
      assert Named(bindings[k]);
    }
  }

  lemma {:induction false} FirstMatchEnv(bindings: seq<Binding>)
    requires Names(bindings) && Binding("$env", "p") in bindings
    ensures FirstMatch("$env", bindings) == Some(Binding("$env", "p"))
  {
    var m := FirstMatch("$env", bindings);
    var i := FirstOf(bindings, Binding("$env", "p"));
    assert bindings[i].key <= "$env";
    var k :| 0 <= k < |bindings| && bindings[k] == m.value;
    assert Named(bindings[k]);
  }

  lemma NamesOfRun(envA: string, envB: string)
    ensures var values := RunValues(envA, envB, "7d", [("env", "p")]);
            Names(values) && Binding("$env", "p") in values && Binding("$rp", "7d") in values
  {
    var values := RunValues(envA, envB, "7d", [("env", "p")]);
    var own := [Variable("env_a", envA), Variable("env_b", envB), Variable("rp", "7d")];
    assert VARS + own == [VARS[0]] + (VARS[1..] + own);
    assert values == Put(VARS + own, "$env", "p") == [Binding("$env", "p")] + (VARS[1..] + own);
    assert "$" + "env" == "$env" && "$" + "rp" == "$rp";
    assert values[11] == own[2] == Binding("$rp", "7d");
    VarsNamed();
    LongNamed("env_a", envA);
    LongNamed("env_b", envB);
    ShortNamed();
    forall i | 0 <= i < |values|
      ensures ProperKey(values[i]) && Named(values[i])
    {
      assert 0 < i < 9 ==> values[i] == VARS[i];
      assert 9 <= i ==> values[i] == own[i - 9];
    }
  }

  lemma ShortNamed()
    ensures ProperKey(Binding("$env", "p")) && Named(Binding("$env", "p"))
    ensures ProperKey(Binding("$rp", "7d")) && Named(Binding("$rp", "7d"))
  {
    assert "$env"[1..] == "env" && "$rp"[1..] == "rp";
    assert "$env"[1] == 'e' && "$rp"[1] == 'r';
  }

  lemma LongNamed(name: string, value: string)
    requires |name| >= 4 && NoDollar(name)
    ensures ProperKey(Variable(name, value)) && Named(Variable(name, value))
  {
    assert ("$" + name)[1..] == name;
  }

  lemma VarsNamed()
    ensures forall i :: 0 < i < 9 ==> ProperKey(VARS[i]) && Named(VARS[i])
  {
    LongNamed("db_instance", ".*");
    LongNamed("datname", ".*");
    LongNamed("usename", ".*");
    LongNamed("query_mask_md5", ".*");
    LongNamed("query_md5", ".*");
    LongNamed("queryid", ".*");
    LongNamed("schemaname", ".*");
    LongNamed("relname", ".*");
  }

  /**
   * The condition is needed, for the variables of `run` as well: with CHECK_VARS=env=p, "$r$env" is first
   * turned into "$rp", which the retention policy "7d" then replaces.
   */
  lemma AdjacentVariablesCollide(envA: string, envB: string)
    ensures var bindings := SortByLength(RunValues(envA, envB, "7d", [("env", "p")]));
            && ProperKeys(bindings)
            && Sequential("$r$env", bindings) == "7d"
            && Simultaneous("$r$env", bindings) == "$rp"
  {
    var values := RunValues(envA, envB, "7d", [("env", "p")]);
    var bindings := SortByLength(values);
    NamesOfRun(envA, envB);
    SortKeepsMembers(values);
    NamesKept(values, bindings);
    CollisionSequential(bindings);
    CollisionSimultaneous(bindings);
  }

  // ---- what `run` sends for a variable

  predicate DistinctKeys(values: seq<Binding>) {
    forall i, j :: 0 <= i < j < |values| ==> values[i].key != values[j].key
  }

  lemma InFront(first: Binding, rest: seq<Binding>)
    ensures DistinctKeys([first] + rest) <==> DistinctKeys(rest) && forall b :: b in rest ==> b.key != first.key
  {
    var all := [first] + rest;
    assert all[0] == first && forall i :: 0 <= i < |rest| ==> all[i + 1] == rest[i];
    if DistinctKeys(all) {
      forall b | b in rest
        ensures b.key != first.key
      {
        var k :| 0 <= k < |rest| && rest[k] == b;
        assert all[k + 1] == b;
      }
    }
    if DistinctKeys(rest) && forall b :: b in rest ==> b.key != first.key {
      forall i, j | 0 <= i < j < |all|
        ensures all[i].key != all[j].key
      {
        assert all[j] == rest[j - 1] && all[j] in rest;
        assert i > 0 ==> all[i] == rest[i - 1];
      }
    }
  }

  lemma {:induction false} PutFacts(values: seq<Binding>, key: string, value: string)
    requires DistinctKeys(values)
    ensures DistinctKeys(Put(values, key, value))
    ensures forall b :: b in Put(values, key, value) <==> b == Binding(key, value) || (b in values && b.key != key)
  {
    PutMembers(values, key, value);
    if values != [] {
      var first, rest := values[0], values[1..];
      assert values == [first] + rest;
      InFront(first, rest);
      if first.key == key {
        InFront(Binding(key, value), rest);
      } else {
        PutFacts(rest, key, value);
        InFront(first, Put(rest, key, value));
      }
    }
  }

  lemma {:induction false} PutMembers(values: seq<Binding>, key: string, value: string)
    requires DistinctKeys(values)
    ensures forall b :: b in Put(values, key, value) <==> b == Binding(key, value) || (b in values && b.key != key)
  {
    forall b
      ensures b in Put(values, key, value) <==> b == Binding(key, value) || (b in values && b.key != key)
    {
      PutMember(values, key, value, b);
    }
  }

  lemma {:induction false} PutMember(values: seq<Binding>, key: string, value: string, b: Binding)
    requires DistinctKeys(values)
    ensures b in Put(values, key, value) <==> b == Binding(key, value) || (b in values && b.key != key)
  {
    if values != [] {
      var first, rest := values[0], values[1..];
      assert values == [first] + rest;
      InFront(first, rest);
      PutMember(rest, key, value, b);
    }
  }

  /** The overrides are a dictionary. */
  predicate DistinctNames(overrides: seq<(string, string)>) {
    forall i, j :: 0 <= i < j < |overrides| ==> overrides[i].0 != overrides[j].0
  }

  /** The value of a variable: that of its override, or else its own. */
  ghost predicate Gives(values: seq<Binding>, overrides: seq<(string, string)>, name: string, value: string) {
    || (name, value) in overrides
    || ((forall o :: o in overrides ==> o.0 != name) && Binding("$" + name, value) in values)
  }

  lemma NamesTail(first: (string, string), rest: seq<(string, string)>)
    requires DistinctNames([first] + rest)
    ensures DistinctNames(rest) && forall o :: o in rest ==> o.0 != first.0
  {
    var all := [first] + rest;
    assert all[0] == first && forall i :: 0 <= i < |rest| ==> all[i + 1] == rest[i];
  }

  lemma SameName(a: string, b: string)
    ensures "$" + a == "$" + b <==> a == b
  {
    assert ("$" + a)[1..] == a && ("$" + b)[1..] == b;
  }

  lemma {:induction false} GivesOn(values: seq<Binding>, first: (string, string), rest: seq<(string, string)>,
      name: string, value: string)
    requires DistinctKeys(values) && DistinctNames([first] + rest) && Gives(values, [first] + rest, name, value)
    ensures Gives(Put(values, "$" + first.0, first.1), rest, name, value)
  {
    PutFacts(values, "$" + first.0, first.1);
    SameName(first.0, name);
    NamesTail(first, rest);
    if (name, value) !in rest {
      assert first in [first] + rest;
      assert forall o :: o in rest ==> o in [first] + rest;
    }
  }

  lemma {:induction false} PutAllFacts(values: seq<Binding>, overrides: seq<(string, string)>, name: string,
      value: string)
    requires DistinctKeys(values) && DistinctNames(overrides) && Gives(values, overrides, name, value)
    ensures DistinctKeys(PutAll(values, overrides)) && Binding("$" + name, value) in PutAll(values, overrides)
    decreases |overrides|
  {
    if overrides != [] {
      var first, rest := overrides[0], overrides[1..];
      assert overrides == [first] + rest;
      NamesTail(first, rest);
      PutFacts(values, "$" + first.0, first.1);
      GivesOn(values, first, rest, name, value);
      PutAllFacts(Put(values, "$" + first.0, first.1), rest, name, value);
    }
  }

  /** The names that `run` always has a value for. */
  ghost predicate IsDefault(envA: string, envB: string, rp: string, name: string, value: string) {
    || (name == "env_a" && value == envA)
    || (name == "env_b" && value == envB)
    || (name == "rp" && value == rp)
    || (value == ".*" && (name == "env" || name == "db_instance" || name == "datname" || name == "usename"
                          || name == "query_mask_md5" || name == "query_md5" || name == "queryid"
                          || name == "schemaname" || name == "relname"))
  }

  function Base(envA: string, envB: string, rp: string): seq<Binding> {
    VARS + [Variable("env_a", envA), Variable("env_b", envB), Variable("rp", rp)]
  }

  lemma NamesDiffer(i: nat, j: nat)
    requires i < j < 12
    ensures BaseName(i) != BaseName(j)
  {
    assert |BaseName(i)| == |BaseName(j)| ==> BaseName(i)[0] != BaseName(j)[0] || BaseName(i)[4] != BaseName(j)[4];
  }

  function BaseName(i: nat): string
    requires i < 12
  {
    ["env", "db_instance", "datname", "usename", "query_mask_md5", "query_md5", "queryid", "schemaname", "relname",
     "env_a", "env_b", "rp"][i]
  }

  lemma BaseFacts(envA: string, envB: string, rp: string)
    ensures DistinctKeys(Base(envA, envB, rp))
    ensures forall name, value :: IsDefault(envA, envB, rp, name, value) ==>
              Binding("$" + name, value) in Base(envA, envB, rp)
  {
    var base := Base(envA, envB, rp);
    forall i | 0 <= i < 12
      ensures base[i].key == "$" + BaseName(i) && base[i].key[1..] == BaseName(i)
    {
    }
    forall i, j | 0 <= i < j < 12
      ensures base[i].key != base[j].key
    {
      NamesDiffer(i, j);
    }
    forall name, value | IsDefault(envA, envB, rp, name, value)
      ensures Binding("$" + name, value) in base
    {
      DefaultIn(envA, envB, rp, name, value);
    }
  }

  lemma DefaultIn(envA: string, envB: string, rp: string, name: string, value: string)
    requires IsDefault(envA, envB, rp, name, value)
    ensures Binding("$" + name, value) in Base(envA, envB, rp)
  {
    var base := Base(envA, envB, rp);
    assert base[9] == Variable("env_a", envA) && base[10] == Variable("env_b", envB) && base[11] == Variable("rp", rp);
    assert forall i :: 0 <= i < 9 ==> base[i] == VARS[i];
    assert VARS[0] in base && VARS[1] in base && VARS[2] in base && VARS[3] in base && VARS[4] in base;
    assert VARS[5] in base && VARS[6] in base && VARS[7] in base && VARS[8] in base;
  }

  lemma {:induction false} ApartAtEnd(g: string, bindings: seq<Binding>)
    requires HasKeys(bindings)
    ensures Apart(g, "", bindings)
  {
    if bindings != [] {
      ApartAtEnd(g, bindings[1..]);
    }
  }

  lemma {:induction false} NameSettled(name: string, bindings: seq<Binding>)
    requires NoDollar(name) && HasKeys(bindings)
    ensures Settled("$" + name, bindings)
  {
    var s := "$" + name;
    assert s[1..] == name && name + "" == name;
    ToDollarOf(name, "");
    SettledBehind(name, "", bindings);
    assert s[|s|..] == "" && s[..|s|] == s;
    ApartAtEnd(s, bindings);
  }

  /** A text that is a variable's name is replaced by that variable's value, whatever the other names are. */
  lemma {:induction false} NameAlone(values: seq<Binding>, name: string, value: string)
    requires DistinctKeys(values) && ProperKeys(values) && PlainValues(values) && Binding("$" + name, value) in values
    requires NoDollar(name)
    ensures ProperKeys(SortByLength(values)) && Sequential("$" + name, SortByLength(values)) == value
  {
    var s, b, sorted := "$" + name, Binding("$" + name, value), SortByLength(values);
    SortKeepsKeys(values);
    SortKeepsMembers(values);
    NameSettled(name, sorted);
    RunIsSimultaneous(s, values);
    FirstMatchIsLongest(s, sorted, b);
    var m := FirstMatch(s, sorted).value;
    assert m.key == s;
    OneValue(values, m, b);
    assert s[|s|..] == "" && value + "" == value;
  }

  lemma OneValue(values: seq<Binding>, a: Binding, b: Binding)
    requires DistinctKeys(values) && a in values && b in values && a.key == b.key
    ensures a == b
  {
    var i :| 0 <= i < |values| && values[i] == a;
    var j :| 0 <= j < |values| && values[j] == b;
  }

  ghost predicate PlainOverrides(overrides: seq<(string, string)>) {
    forall o :: o in overrides ==> o.0 != "" && NoDollar(o.0) && NoDollar(o.1)
  }

  lemma {:induction false} PutAllPlain(values: seq<Binding>, overrides: seq<(string, string)>)
    requires DistinctKeys(values) && ProperKeys(values) && PlainValues(values) && PlainOverrides(overrides)
    ensures ProperKeys(PutAll(values, overrides)) && PlainValues(PutAll(values, overrides))
    decreases |overrides|
  {
    if overrides != [] {
      var first := overrides[0];
      var next := Put(values, "$" + first.0, first.1);
      PutFacts(values, "$" + first.0, first.1);
      assert first in overrides && ("$" + first.0)[1..] == first.0;
      forall i | 0 <= i < |next|
        ensures ProperKey(next[i]) && NoDollar(next[i].value)
      {
        assert next[i] in next;
        if next[i] != Binding("$" + first.0, first.1) {
          var k :| 0 <= k < |values| && values[k] == next[i];
        }
      }
      assert forall o :: o in overrides[1..] ==> o in overrides;
      PutAllPlain(next, overrides[1..]);
    }
  }

  lemma BasePlain(envA: string, envB: string, rp: string)
    requires NoDollar(envA) && NoDollar(envB) && NoDollar(rp)
    ensures ProperKeys(Base(envA, envB, rp)) && PlainValues(Base(envA, envB, rp))
  {
    var base := Base(envA, envB, rp);
    forall i | 0 <= i < 12
      ensures ProperKey(base[i]) && NoDollar(base[i].value)
    {
      assert base[i].key[1..] == BaseName(i);
      BaseNamePlain(i);
      assert i < 9 ==> base[i].value == ".*";
    }
  }

  lemma BaseNamePlain(i: nat)
    requires i < 12
    ensures NoDollar(BaseName(i)) && BaseName(i) != ""
  {
  }

  /**
   * What `run` sends for a variable: the value of its override, or else the first or second environment, the
   * retention policy, or ".*" for the variables that stand for anything.
   */
  lemma {:induction false} RunSends(envA: string, envB: string, rp: string, overrides: seq<(string, string)>,
      name: string, value: string)
    requires NoDollar(envA) && NoDollar(envB) && NoDollar(rp) && NoDollar(name)
    requires PlainOverrides(overrides) && DistinctNames(overrides)
    requires || (name, value) in overrides
             || (IsDefault(envA, envB, rp, name, value) && forall o :: o in overrides ==> o.0 != name)
    ensures ProperKeys(SortByLength(RunValues(envA, envB, rp, overrides)))
    ensures Sequential("$" + name, SortByLength(RunValues(envA, envB, rp, overrides))) == value
  {
    var base := Base(envA, envB, rp);
    BaseFacts(envA, envB, rp);
    BasePlain(envA, envB, rp);
    PutAllPlain(base, overrides);
    PutAllFacts(base, overrides, name, value);
    NameAlone(RunValues(envA, envB, rp, overrides), name, value);
  }
}

/**
 * Values that are written between two delimiters of which no name holds one, as quoted values are: when
 * replacing one variable after another is replacing all at once, whatever the values hold.
 */
module SubstitutionSealed {
  import opened Text
  import opened Substitution
  import opened SubstitutionExact

  predicate Sealed(v: string, c: char) {
    v != "" && v[0] == c && v[|v| - 1] == c
  }

  predicate AllSealed(bindings: seq<Binding>, c: char) {
    forall i :: 0 <= i < |bindings| ==> Sealed(bindings[i].value, c)
  }

  predicate Holds(s: string, key: string) {
    Find(s, key).Some?
  }

  /** No value that is inserted into `s` holds a name that is replaced later. */
  predicate NoLaterKeyIn(s: string, bindings: seq<Binding>) {
    forall i, j :: 0 <= i < j < |bindings| && Holds(s, bindings[i].key) ==>
        !Holds(bindings[i].value, bindings[j].key)
  }

  /** No value at all does. */
  predicate NoLaterKey(bindings: seq<Binding>) {
    forall i, j :: 0 <= i < j < |bindings| ==> !Holds(bindings[i].value, bindings[j].key)
  }

  ghost predicate HoldsNone(v: string, bindings: seq<Binding>) {
    forall i :: 0 <= i < |bindings| ==> !Holds(v, bindings[i].key)
  }

  // ---- what a text holds

  lemma HoldsSuffix(v: string, key: string)
    requires v != ""
    ensures Holds(v[1..], key) ==> Holds(v, key)
  {
    var m := Find(v[1..], key);
    if m.Some? {
      assert v[1..][m.value..] == v[m.value + 1..];
      assert At(v, m.value + 1, key);
    }
  }

  lemma HoldsTail(s: string, key: string)
    requires s != "" && !(key <= s) && Holds(s, key)
    ensures Holds(s[1..], key)
  {
    var i := Find(s, key).value;
    assert s[0..] == s;
    assert s[1..][i - 1..] == s[i..];
    assert At(s[1..], i - 1, key);
  }

  lemma HoldsFront(x: char, s: string, key: string)
    requires key != ""
    ensures Holds([x] + s, key) <==> key <= [x] + s || Holds(s, key)
  {
    var t := [x] + s;
    assert t[1..] == s && t[0..] == t;
    HoldsSuffix(t, key);
    if Holds(t, key) && !(key <= t) {
      HoldsTail(t, key);
    }
    if key <= t {
      assert At(t, 0, key);
    }
  }

  lemma PrefixApart(a: string, x: char, b: string, key: string)
    requires x !in key
    ensures key <= a + [x] + b <==> key <= a
  {
    var s := a + [x] + b;
    assert s[|a|] == x;
    if |key| > |a| {
      assert key[|a|] in key;
    } else {
      assert s[..|key|] == a[..|key|];
    }
  }

  lemma {:induction false} HoldsApart(a: string, x: char, b: string, key: string)
    requires key != "" && x !in key
    ensures Holds(a + [x] + b, key) <==> Holds(a, key) || Holds(b, key)
  {
    var s := a + [x] + b;
    PrefixApart(a, x, b, key);
    if a == "" {
      assert s == [x] + b;
      HoldsFront(x, b, key);
    } else {
      var rest := a[1..];
      assert a == [a[0]] + rest && s == [a[0]] + (rest + [x] + b);
      HoldsFront(a[0], rest, key);
      HoldsFront(a[0], rest + [x] + b, key);
      HoldsApart(rest, x, b, key);
    }
  }

  /** Inside a name no other name begins. */
  lemma {:induction false} HoldsBehind(h: string, u: string, key: string)
    requires NoDollar(h) && key != "" && key[0] == '$'
    ensures Holds(h + u, key) <==> Holds(u, key)
    decreases |h|
  {
    if h == "" {
      assert h + u == u;
    } else {
      assert h[0] in h && h + u == [h[0]] + (h[1..] + u);
      HoldsBehind(h[1..], u, key);
      HoldsFront(h[0], h[1..] + u, key);
    }
  }

  lemma {:induction false} HoldsBehindName(b: Binding, u: string, key: string)
    requires ProperKey(b) && key != "" && key[0] == '$' && !(key <= b.key + u)
    ensures Holds(b.key + u, key) <==> Holds(u, key)
  {
    var h := b.key[1..];
    assert b.key + u == ['$'] + (h + u);
    HoldsFront('$', h + u, key);
    HoldsBehind(h, u, key);
  }

  // ---- texts that meet at a delimiter are filled in separately

  lemma {:induction false} NoMatch(s: string, bindings: seq<Binding>)
    requires forall i :: 0 <= i < |bindings| ==> !(bindings[i].key <= s)
    ensures FirstMatch(s, bindings).None?
  {
    forall b | b in bindings
      ensures !(b.key <= s)
    {
      var k :| 0 <= k < |bindings| && bindings[k] == b;
    }
  }

  lemma {:induction false} Unmatched(x: char, t: string, bindings: seq<Binding>)
    requires ProperKeys(bindings) && FirstMatch([x] + t, bindings).None?
    ensures Simultaneous([x] + t, bindings) == [x] + Simultaneous(t, bindings)
  {
    assert ([x] + t)[1..] == t;
  }

  lemma {:induction false} SimultaneousApart(a: string, b: string, bindings: seq<Binding>, c: char)
    requires ProperKeys(bindings) && Free(c, bindings) && (b == "" || b[0] == c)
    ensures Simultaneous(a + b, bindings) == Simultaneous(a, bindings) + Simultaneous(b, bindings)
    decreases |a|
  {
    if a == "" {
      assert a + b == b;
    } else {
      SameMatchApart(a, b, bindings, c);
      var m := FirstMatch(a, bindings);
      if m.Some? {
        var k := |m.value.key|;
        assert (a + b)[k..] == a[k..] + b;
        HasProperKey(bindings, m.value);
        SimultaneousApart(a[k..], b, bindings, c);
        Regroup(m.value.value, Simultaneous(a[k..], bindings), Simultaneous(b, bindings));
      } else {
        assert (a + b)[1..] == a[1..] + b;
        SimultaneousApart(a[1..], b, bindings, c);
        Regroup([a[0]], Simultaneous(a[1..], bindings), Simultaneous(b, bindings));
      }
    }
  }

  lemma HasProperKey(bindings: seq<Binding>, b: Binding)
    requires ProperKeys(bindings) && b in bindings
    ensures ProperKey(b)
  {
    var i :| 0 <= i < |bindings| && bindings[i] == b;
  }

  lemma {:induction false} SameMatchApart(a: string, b: string, bindings: seq<Binding>, c: char)
    requires a != "" && Free(c, bindings) && (b == "" || b[0] == c)
    ensures FirstMatch(a + b, bindings) == FirstMatch(a, bindings)
  {
    forall j | 0 <= j < |bindings|
      ensures bindings[j].key <= a + b <==> bindings[j].key <= a
    {
      if b == "" {
        assert a + b == a;
      } else {
        assert a + b == a + [c] + b[1..];
        PrefixApart(a, c, b[1..], bindings[j].key);
      }
    }
    FirstMatchSame(a + b, a, bindings);
  }

  lemma {:induction false} SimultaneousSum(v: string, t: string, bindings: seq<Binding>, c: char)
    requires ProperKeys(bindings) && Free(c, bindings) && v != "" && v[|v| - 1] == c
    ensures Simultaneous(v + t, bindings) == Simultaneous(v, bindings) + Simultaneous(t, bindings)
  {
    var w := v[..|v| - 1];
    assert v == w + [c] && v + t == w + ([c] + t) && [c] + "" == [c];
    SimultaneousApart(w, [c] + t, bindings, c);
    SimultaneousApart(w, [c], bindings, c);
    DelimiterKept(c, t, bindings);
    DelimiterKept(c, "", bindings);
    Regroup(Simultaneous(w, bindings), [c], Simultaneous(t, bindings));
  }

  lemma {:induction false} DelimiterKept(c: char, t: string, bindings: seq<Binding>)
    requires ProperKeys(bindings) && Free(c, bindings)
    ensures Simultaneous([c] + t, bindings) == [c] + Simultaneous(t, bindings)
  {
    forall i | 0 <= i < |bindings|
      ensures !(bindings[i].key <= [c] + t)
    {
      assert ProperKey(bindings[i]);
    }
    NoMatch([c] + t, bindings);
    Unmatched(c, t, bindings);
  }

  /** A text that holds no name is left alone. */
  lemma {:induction false} SimultaneousNone(s: string, bindings: seq<Binding>)
    requires ProperKeys(bindings) && HoldsNone(s, bindings)
    ensures Simultaneous(s, bindings) == s
  {
    if s != "" {
      forall i | 0 <= i < |bindings|
        ensures !(bindings[i].key <= s) && !Holds(s[1..], bindings[i].key)
      {
        HoldsSuffix(s, bindings[i].key);
        NotAtStart(s, bindings[i].key);
      }
      NoMatch(s, bindings);
      SimultaneousNone(s[1..], bindings);
    }
  }

  lemma {:induction false} NotAtStart(s: string, key: string)
    ensures key <= s ==> Holds(s, key)
  {
    assert s[0..] == s;
    assert key <= s ==> At(s, 0, key);
  }

  // ---- one replacement completes and destroys no other name

  lemma {:induction false} PrefixThrough(w: string, t: string, b: Binding, c: char)
    requires ProperKey(b) && b.value != "" && b.value[0] == c && NoDollar(w) && c !in w
    ensures w <= t <==> w <= Replace(t, b.key, b.value)
    decreases |w|
  {
    if w != "" && t != "" {
      assert w[0] in w && w == [w[0]] + w[1..] && t == [t[0]] + t[1..];
      if b.key <= t {
        assert t[0] == '$';
      } else {
        PrefixThrough(w[1..], t[1..], b, c);
        PrefixCons(w, t[0], t[1..]);
        PrefixCons(w, t[0], Replace(t[1..], b.key, b.value));
      }
    }
  }

  lemma PrefixCons(w: string, x: char, t: string)
    requires w != ""
    ensures w <= [x] + t <==> w[0] == x && w[1..] <= t
  {
    assert ([x] + t)[1..] == t;
    if w[0] == x && w[1..] <= t {
      assert w == [x] + w[1..];
    }
  }

  lemma {:induction false} SameMatches(x: char, t: string, b: Binding, key: string, c: char)
    requires ProperKey(b) && b.value != "" && b.value[0] == c && |key| > 1 && NoDollar(key[1..]) && c !in key
    ensures key <= [x] + t <==> key <= [x] + Replace(t, b.key, b.value)
  {
    PrefixCons(key, x, t);
    PrefixCons(key, x, Replace(t, b.key, b.value));
    PrefixThrough(key[1..], t, b, c);
  }

  lemma {:induction false} FirstMatchThrough(s: string, first: Binding, rest: seq<Binding>, c: char)
    requires s != "" && ProperKey(first) && !(first.key <= s)
    requires ProperKeys(rest) && Free(c, rest) && Sealed(first.value, c)
    ensures Replace(s, first.key, first.value) == [s[0]] + Replace(s[1..], first.key, first.value)
    ensures FirstMatch(Replace(s, first.key, first.value), rest) == FirstMatch(s, rest) == FirstMatch(s, [first] + rest)
  {
    var s' := [s[0]] + Replace(s[1..], first.key, first.value);
    assert s == [s[0]] + s[1..];
    forall j | 0 <= j < |rest|
      ensures rest[j].key <= s <==> rest[j].key <= s'
    {
      assert ProperKey(rest[j]);
      SameMatches(s[0], s[1..], first, rest[j].key, c);
    }
    FirstMatchSame(s, s', rest);
    assert ([first] + rest)[1..] == rest;
  }

  /** Behind a matched name the replacement goes on as if the name were not there. */
  lemma {:induction false} ReplaceBehindKey(s: string, first: Binding, b: Binding)
    requires ProperKey(first) && ProperKey(b) && b.key <= s && !(first.key <= s)
    ensures Replace(s, first.key, first.value) == b.key + Replace(s[|b.key|..], first.key, first.value)
  {
    assert s == b.key + s[|b.key|..];
    ReplaceNone(b.key, s[|b.key|..], first);
  }

  // ---- one replacement against filling in at once

  /** Equal, or else with more delimiters. */
  predicate Exceeds(a: string, b: string, same: bool, c: char) {
    if same then a == b else Count(a, c) > Count(b, c)
  }

  lemma ExceedsBehind(p: string, a: string, b: string, same: bool, c: char)
    requires Exceeds(a, b, same, c)
    ensures Exceeds(p + a, p + b, same, c)
  {
    CountConcat(p, a, c);
    CountConcat(p, b, c);
  }

  lemma {:induction false} NameFilled(b: Binding, u: string, filled: string, c: char)
    requires c !in b.key && Sealed(b.value, c) && Count(filled, c) >= Count(u, c)
    ensures Count(b.value + filled, c) > Count(b.key + u, c)
  {
    CountConcat(b.value, filled, c);
    CountConcat(b.key, u, c);
    CountAbsent(b.key, c);
    assert b.value == [c] + b.value[1..];
  }

  lemma {:induction false} StillHeld(v: string, bindings: seq<Binding>)
    requires v != "" && FirstMatch(v, bindings).None? && !HoldsNone(v, bindings)
    ensures !HoldsNone(v[1..], bindings)
  {
    var i :| 0 <= i < |bindings| && Holds(v, bindings[i].key);
    HoldsTail(v, bindings[i].key);
  }

  /** Every name that is filled in brings delimiters. */
  lemma {:induction false} FilledCount(v: string, bindings: seq<Binding>, c: char)
    requires ProperKeys(bindings) && Free(c, bindings) && AllSealed(bindings, c)
    ensures Exceeds(Simultaneous(v, bindings), v, HoldsNone(v, bindings), c)
    decreases |v|
  {
    if HoldsNone(v, bindings) {
      SimultaneousNone(v, bindings);
    } else if v != "" {
      var m := FirstMatch(v, bindings);
      if m.Some? {
        var i :| 0 <= i < |bindings| && bindings[i] == m.value;
        var u := v[|m.value.key|..];
        assert ProperKey(bindings[i]) && v == m.value.key + u;
        FilledCount(u, bindings, c);
        NameFilled(bindings[i], u, Simultaneous(u, bindings), c);
      } else {
        StillHeld(v, bindings);
        FilledCount(v[1..], bindings, c);
        assert v == [v[0]] + v[1..];
        ExceedsBehind([v[0]], Simultaneous(v[1..], bindings), v[1..], false, c);
      }
    }
  }

  /** Nothing that the first replacement inserts into `s` is replaced later. */
  ghost predicate Safe(s: string, first: Binding, rest: seq<Binding>) {
    Holds(s, first.key) ==> HoldsNone(first.value, rest)
  }

  lemma {:induction false} KeyReplaced(v: string, t: string, meant: string, rest: seq<Binding>, c: char)
    requires ProperKeys(rest) && Free(c, rest) && AllSealed(rest, c) && Sealed(v, c)
    requires HoldsNone(v, rest) ==> Simultaneous(t, rest) == meant
    requires Count(Simultaneous(t, rest), c) >= Count(meant, c)
    ensures Exceeds(Simultaneous(v + t, rest), v + meant, HoldsNone(v, rest), c)
  {
    SimultaneousSum(v, t, rest, c);
    FilledCount(v, rest, c);
    CountConcat(Simultaneous(v, rest), Simultaneous(t, rest), c);
    CountConcat(v, meant, c);
  }

  lemma {:induction false} CharacterReplaced(x: char, t: string, first: Binding, rest: seq<Binding>, c: char)
    requires ProperKey(first) && ProperKeys(rest) && FirstMatch([x] + t, [first] + rest).None?
    requires Replace([x] + t, first.key, first.value) == [x] + Replace(t, first.key, first.value)
    requires FirstMatch([x] + Replace(t, first.key, first.value), rest).None?
    requires Exceeds(Simultaneous(Replace(t, first.key, first.value), rest), Simultaneous(t, [first] + rest),
                     Safe(t, first, rest), c)
    ensures Exceeds(Simultaneous(Replace([x] + t, first.key, first.value), rest),
                    Simultaneous([x] + t, [first] + rest), Safe([x] + t, first, rest), c)
  {
    HoldsFront(x, t, first.key);
    assert !(first.key <= [x] + t) by { assert ([first] + rest)[0] == first; }
    Unmatched(x, t, [first] + rest);
    Unmatched(x, Replace(t, first.key, first.value), rest);
    ExceedsBehind([x], Simultaneous(Replace(t, first.key, first.value), rest), Simultaneous(t, [first] + rest),
                  Safe(t, first, rest), c);
  }

  lemma {:induction false} Matched(b: Binding, t: string, bindings: seq<Binding>)
    requires ProperKeys(bindings) && FirstMatch(b.key + t, bindings) == Some(b) && b.key != ""
    ensures Simultaneous(b.key + t, bindings) == b.value + Simultaneous(t, bindings)
  {
    assert (b.key + t)[|b.key|..] == t;
  }

  lemma {:induction false} NameReplaced(b: Binding, t: string, first: Binding, rest: seq<Binding>, c: char)
    requires ProperKey(first) && ProperKeys(rest) && ProperKey(b) && !(first.key <= b.key + t)
    requires FirstMatch(b.key + t, [first] + rest) == Some(b)
    requires Replace(b.key + t, first.key, first.value) == b.key + Replace(t, first.key, first.value)
    requires FirstMatch(b.key + Replace(t, first.key, first.value), rest) == Some(b)
    requires Exceeds(Simultaneous(Replace(t, first.key, first.value), rest), Simultaneous(t, [first] + rest),
                     Safe(t, first, rest), c)
    ensures Exceeds(Simultaneous(Replace(b.key + t, first.key, first.value), rest),
                    Simultaneous(b.key + t, [first] + rest), Safe(b.key + t, first, rest), c)
  {
    HoldsBehindName(b, t, first.key);
    Matched(b, t, [first] + rest);
    Matched(b, Replace(t, first.key, first.value), rest);
    ExceedsBehind(b.value, Simultaneous(Replace(t, first.key, first.value), rest), Simultaneous(t, [first] + rest),
                  Safe(t, first, rest), c);
  }

  lemma {:induction false} SealedReplaceOne(s: string, first: Binding, rest: seq<Binding>, c: char)
    requires ProperKey(first) && Sealed(first.value, c)
    requires ProperKeys(rest) && Free(c, rest) && AllSealed(rest, c)
    ensures Exceeds(Simultaneous(Replace(s, first.key, first.value), rest), Simultaneous(s, [first] + rest),
                    Safe(s, first, rest), c)
    decreases |s|
  {
    if s == "" {
    } else if first.key <= s {
      var u := s[|first.key|..];
      SealedReplaceOne(u, first, rest, c);
      NotAtStart(s, first.key);
      KeyReplaced(first.value, Replace(u, first.key, first.value), Simultaneous(u, [first] + rest), rest, c);
      assert ([first] + rest)[0] == first;
    } else {
      FirstMatchThrough(s, first, rest, c);
      var m := FirstMatch(s, rest);
      if m.None? {
        assert s == [s[0]] + s[1..];
        SealedReplaceOne(s[1..], first, rest, c);
        CharacterReplaced(s[0], s[1..], first, rest, c);
      } else {
        var t := s[|m.value.key|..];
        HasProperKey(rest, m.value);
        assert s == m.value.key + t;
        SealedReplaceOne(t, first, rest, c);
        ReplaceBehindKey(s, first, m.value);
        NameReplaced(m.value, t, first, rest, c);
      }
    }
  }

  // ---- the names that are held after one replacement

  lemma {:induction false} ReplacedFront(s: string, first: Binding, b: Binding, c: char)
    requires ProperKey(first) && Sealed(first.value, c) && ProperKey(b) && c !in b.key
    requires s != "" && !(first.key <= s)
    ensures var after := Replace(s[1..], first.key, first.value);
            && Replace(s, first.key, first.value) == [s[0]] + after
            && (Holds([s[0]] + after, b.key) <==> b.key <= s || Holds(after, b.key))
    ensures Holds(s, b.key) <==> b.key <= s || Holds(s[1..], b.key)
    ensures Holds(s, first.key) <==> Holds(s[1..], first.key)
  {
    var after := Replace(s[1..], first.key, first.value);
    assert s == [s[0]] + s[1..];
    SameMatches(s[0], s[1..], first, b.key, c);
    HoldsFront(s[0], after, b.key);
    HoldsFront(s[0], s[1..], b.key);
    HoldsFront(s[0], s[1..], first.key);
  }

  lemma HoldsAfterValue(v: string, t: string, key: string, c: char)
    requires Sealed(v, c) && key != "" && c !in key
    ensures Holds(v + t, key) <==> Holds(v, key) || Holds(t, key)
  {
    var w := v[..|v| - 1];
    assert v == w + [c] + "" && v + t == w + [c] + t;
    HoldsApart(w, c, t, key);
    HoldsApart(w, c, "", key);
  }

  predicate Unlike(a: string, b: string) {
    !(a <= b) && !(b <= a)
  }

  lemma BothBegin(s: string, a: string, b: string)
    requires a <= s && b <= s
    ensures a <= b || b <= a
  {
    if |a| <= |b| {
      assert a == s[..|a|] == b[..|a|];
    } else {
      assert b == s[..|b|] == a[..|b|];
    }
  }

  /** A name is held afterwards if it was held before, or if the value that was inserted holds it. */
  lemma {:induction false} HoldsReplaced(s: string, first: Binding, b: Binding, c: char)
    requires ProperKey(first) && Sealed(first.value, c) && ProperKey(b) && c !in b.key && Unlike(first.key, b.key)
    ensures Holds(Replace(s, first.key, first.value), b.key) <==>
            Holds(s, b.key) || (Holds(s, first.key) && Holds(first.value, b.key))
    decreases |s|
  {
    if s == "" {
    } else if first.key <= s {
      var u := s[|first.key|..];
      assert s == first.key + u;
      HoldsReplaced(u, first, b, c);
      NotAtStart(s, first.key);
      HoldsAfterValue(first.value, Replace(u, first.key, first.value), b.key, c);
      if b.key <= s {
        BothBegin(s, first.key, b.key);
      } else {
        HoldsBehindName(first, u, b.key);
      }
    } else {
      HoldsReplaced(s[1..], first, b, c);
      ReplacedFront(s, first, b, c);
    }
  }

  lemma {:induction false} ConditionStep(s: string, first: Binding, rest: seq<Binding>, c: char)
    requires ProperKey(first) && ProperKeys([first] + rest) && PrefixFree([first] + rest)
    requires Free(c, [first] + rest) && AllSealed([first] + rest, c)
    ensures NoLaterKeyIn(s, [first] + rest) <==>
            Safe(s, first, rest) && NoLaterKeyIn(Replace(s, first.key, first.value), rest)
  {
    var all, after := [first] + rest, Replace(s, first.key, first.value);
    assert all[0] == first && forall i :: 0 <= i < |rest| ==> all[i + 1] == rest[i];
    if Safe(s, first, rest) {
      forall i | 0 <= i < |rest|
        ensures Holds(after, rest[i].key) <==> Holds(s, rest[i].key)
      {
        HoldsReplaced(s, first, rest[i], c);
      }
    }
  }

  lemma OthersPrefixFree(bindings: seq<Binding>)
    requires bindings != [] && PrefixFree(bindings)
    ensures PrefixFree(bindings[1..])
  {
    var rest := bindings[1..];
    forall i, j | 0 <= i < |rest| && 0 <= j < |rest| && i != j
      ensures !(rest[i].key <= rest[j].key)
    {
      assert rest[i] == bindings[i + 1] && rest[j] == bindings[j + 1];
    }
  }

  // ---- the condition is exact, text by text

  /** The text that is sent is the intended one, or it has more delimiters: whichever the condition says. */
  lemma {:induction false} SealedCompares(s: string, bindings: seq<Binding>, c: char)
    requires ProperKeys(bindings) && Free(c, bindings) && AllSealed(bindings, c) && PrefixFree(bindings)
    ensures Exceeds(Sequential(s, bindings), Simultaneous(s, bindings), NoLaterKeyIn(s, bindings), c)
    decreases |bindings|
  {
    if bindings == [] {
      SimultaneousNothing(s);
    } else {
      var first, rest := bindings[0], bindings[1..];
      assert bindings == [first] + rest;
      assert forall i :: 0 <= i < |rest| ==> rest[i] == bindings[i + 1];
      OthersPrefixFree(bindings);
      SealedReplaceOne(s, first, rest, c);
      ConditionStep(s, first, rest, c);
      SealedCompares(Replace(s, first.key, first.value), rest, c);
    }
  }

  /**
   * For such values and names of which none begins another one: replacing them one after another in a text is
   * replacing them at once if and only if no value that is inserted holds a name that is replaced later.
   */
  lemma SealedIsExact(s: string, bindings: seq<Binding>, c: char)
    requires ProperKeys(bindings) && Free(c, bindings) && AllSealed(bindings, c) && PrefixFree(bindings)
    ensures Intended(s, bindings) <==> NoLaterKeyIn(s, bindings)
  {
    SealedCompares(s, bindings, c);
  }

  /** It is so in every text if and only if no value at all holds a name that is replaced later. */
  lemma SealedEverywhere(bindings: seq<Binding>, c: char)
    requires ProperKeys(bindings) && Free(c, bindings) && AllSealed(bindings, c) && PrefixFree(bindings)
    ensures (forall s :: Intended(s, bindings)) <==> NoLaterKey(bindings)
  {
    forall s
      ensures Intended(s, bindings) <==> NoLaterKeyIn(s, bindings)
    {
      SealedIsExact(s, bindings, c);
    }
    if i, j :| 0 <= i < j < |bindings| && Holds(bindings[i].value, bindings[j].key) {
      NotAtStart(bindings[i].key, bindings[i].key);
      assert !NoLaterKeyIn(bindings[i].key, bindings);
    }
  }

  /** Where no value holds a later name, names may begin other ones and may be listed twice. */
  lemma {:induction false} SealedIsSimultaneous(s: string, bindings: seq<Binding>, c: char)
    requires ProperKeys(bindings) && Free(c, bindings) && AllSealed(bindings, c) && NoLaterKey(bindings)
    ensures Sequential(s, bindings) == Simultaneous(s, bindings)
    decreases |bindings|
  {
    if bindings == [] {
      SimultaneousNothing(s);
    } else {
      var first, rest := bindings[0], bindings[1..];
      assert bindings == [first] + rest;
      assert forall i :: 0 <= i < |rest| ==> rest[i] == bindings[i + 1];
      SealedReplaceOne(s, first, rest, c);
      SealedIsSimultaneous(Replace(s, first.key, first.value), rest, c);
    }
  }

  /** No value holds any of the names. */
  ghost predicate NoKey(bindings: seq<Binding>) {
    forall a, b :: a in bindings && b in bindings ==> !Holds(a.value, b.key)
  }

  /** Then the order of the variables does not matter. */
  lemma {:induction false} SealedAnyOrder(s: string, a: seq<Binding>, b: seq<Binding>, c: char)
    requires ProperKeys(a) && Free(c, a) && AllSealed(a, c) && PrefixFree(a) && NoKey(a) && SameBindings(a, b)
    ensures HasKeys(b) && Sequential(s, a) == Sequential(s, b)
  {
    forall i | 0 <= i < |b|
      ensures ProperKey(b[i]) && c !in b[i].key && Sealed(b[i].value, c) && b[i] in a
    {
      assert b[i] in b;
      var k :| 0 <= k < |a| && a[k] == b[i];
    }
    assert forall i :: 0 <= i < |a| ==> a[i] in a;
    SealedIsSimultaneous(s, a, c);
    SealedIsSimultaneous(s, b, c);
    SimultaneousAnyOrder(s, a, b);
  }
}

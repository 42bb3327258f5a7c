/**
 * The value lists and text boxes as `interpolate` in dashboards/check_queries.py writes them: they stand
 * between two quotes, and they hold a placeholder exactly if a value does.
 */
module WrittenValues {
  import opened Text
  import opened SubstitutionSealed
  import Quoting

  // ---- the written values stand between two quotes

  lemma {:induction false} JoinSealed(parts: seq<string>)
    requires parts != [] && forall i :: 0 <= i < |parts| ==> Sealed(parts[i], '\'')
    ensures Sealed(Join(parts, ","), '\'')
  {
    if |parts| > 1 {
      JoinSealed(parts[..|parts| - 1]);
    }
  }

  lemma ListSealed(vals: seq<string>)
    ensures Sealed(Quoting.QuotedList(vals), '\'')
  {
    if vals != [] {
      JoinSealed(Quoting.Quotes(vals));
    }
  }

  // ---- what a written value holds

  /** The characters that are written around the values occur in no placeholder. */
  predicate Unquoted(key: string) {
    key != "" && '\'' !in key && '\\' !in key && ',' !in key
  }

  lemma HoldsBetween(v: string, key: string)
    requires Unquoted(key)
    ensures Holds("'" + v + "'", key) <==> Holds(v, key)
  {
    assert "'" + v + "'" == "" + ['\''] + (v + "'");
    HoldsApart("", '\'', v + "'", key);
    assert v + "'" == v + ['\''] + "";
    HoldsApart(v, '\'', "", key);
  }

  lemma {:induction false} PrefixWritten(w: string, t: string, escaped: string)
    requires escaped != "" && '\'' !in w && escaped[0] !in w
    ensures w <= Replace(t, "'", escaped) <==> w <= t
    decreases |w|
  {
    if w != "" && t != "" {
      assert w[0] in w && t == [t[0]] + t[1..];
      if t[0] != '\'' {
        PrefixCons(w, t[0], t[1..]);
        PrefixCons(w, t[0], Replace(t[1..], "'", escaped));
        PrefixWritten(w[1..], t[1..], escaped);
      }
    }
  }

  lemma HoldsPast(x: char, s: string, key: string)
    requires key != "" && x !in key
    ensures Holds([x] + s, key) <==> Holds(s, key)
  {
    assert key[0] in key;
    HoldsFront(x, s, key);
  }

  /** Escaping the quotes neither completes nor destroys a placeholder. */
  lemma {:induction false} HoldsWritten(v: string, key: string, x: char)
    requires Unquoted(key) && x !in key
    ensures Holds(Replace(v, "'", [x, '\'']), key) <==> Holds(v, key)
  {
    if v != "" {
      var t := v[1..];
      HoldsWritten(t, key, x);
      assert v == [v[0]] + t;
      if v[0] == '\'' {
        QuoteWritten(t, key, x);
      } else {
        CharacterWritten(v[0], t, key, x);
      }
    }
  }

  lemma {:induction false} QuoteWritten(t: string, key: string, x: char)
    requires Unquoted(key) && x !in key
    ensures var r := Replace(t, "'", [x, '\'']);
            && Replace("'" + t, "'", [x, '\'']) == [x] + (['\''] + r)
            && (Holds([x] + (['\''] + r), key) <==> Holds(r, key))
    ensures Holds("'" + t, key) <==> Holds(t, key)
  {
    var r := Replace(t, "'", [x, '\'']);
    assert ("'" + t)[1..] == t && [x, '\''] + r == [x] + (['\''] + r);
    HoldsPast('\'', r, key);
    HoldsPast(x, ['\''] + r, key);
    HoldsPast('\'', t, key);
  }

  lemma {:induction false} CharacterWritten(c: char, t: string, key: string, x: char)
    requires Unquoted(key) && x !in key && c != '\''
    ensures var r := Replace(t, "'", [x, '\'']);
            && Replace([c] + t, "'", [x, '\'']) == [c] + r
            && (Holds([c] + r, key) <==> key <= [c] + t || Holds(r, key))
    ensures Holds([c] + t, key) <==> key <= [c] + t || Holds(t, key)
  {
    var r := Replace(t, "'", [x, '\'']);
    assert ([c] + t)[1..] == t && "'"[0] != ([c] + t)[0];
    HoldsFront(c, r, key);
    HoldsFront(c, t, key);
    PrefixWritten(key, [c] + t, [x, '\'']);
  }

  lemma QuotesHold(v: string, key: string)
    requires Unquoted(key)
    ensures Holds(Quoting.Quote(v), key) <==> Holds(v, key)
    ensures Holds(Quoting.QuoteText(v), key) <==> Holds(v, key)
  {
    HoldsBetween(Quoting.Escaped(v), key);
    HoldsWritten(v, key, '\\');
    HoldsBetween(Quoting.Doubled(v), key);
    HoldsWritten(v, key, '\'');
  }

  predicate HoldsAny(vals: seq<string>, key: string) {
    exists k :: 0 <= k < |vals| && Holds(vals[k], key)
  }

  lemma HoldsAnyLast(init: seq<string>, last: string, key: string)
    ensures HoldsAny(init + [last], key) <==> HoldsAny(init, key) || Holds(last, key)
  {
    var parts := init + [last];
    assert parts[|init|] == last;
    assert forall k :: 0 <= k < |init| ==> parts[k] == init[k];
  }

  lemma {:induction false} JoinHolds(parts: seq<string>, key: string)
    requires Unquoted(key) && parts != []
    ensures Holds(Join(parts, ","), key) <==> HoldsAny(parts, key)
  {
    var init, last := parts[..|parts| - 1], parts[|parts| - 1];
    assert parts == init + [last];
    HoldsAnyLast(init, last, key);
    if init == [] {
      assert !HoldsAny(init, key);
    } else {
      JoinHolds(init, key);
      HoldsApart(Join(init, ","), ',', last, key);
    }
  }

  lemma ListHolds(vals: seq<string>, key: string)
    requires Unquoted(key)
    ensures Holds(Quoting.QuotedList(vals), key) <==> HoldsAny(vals, key)
  {
    if vals == [] {
      HoldsBetween("", key);
    } else {
      JoinHolds(Quoting.Quotes(vals), key);
      forall k | 0 <= k < |vals|
        ensures Holds(Quoting.Quotes(vals)[k], key) <==> Holds(vals[k], key)
      {
        QuotesHold(vals[k], key);
      }
    }
  }
}

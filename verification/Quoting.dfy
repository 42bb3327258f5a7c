/**
 * The two ways in which `interpolate` of dashboards/check_queries.py writes a value as a string literal,
 * and how ClickHouse reads a literal, and a list of literals, back.
 */
module Quoting {
  import opened Text

  /** A value of a `:singlequote` list. */
  function Quote(v: string): string {
    "'" + Escaped(v) + "'"
  }

  function Escaped(v: string): string {
    Replace(v, "'", "\\'")
  }

  /** A `:sqlstring` text box. */
  function QuoteText(v: string): string {
    "'" + Doubled(v) + "'"
  }

  function Doubled(v: string): string {
    Replace(v, "'", "''")
  }

  function Quotes(vals: seq<string>): (r: seq<string>)
    ensures |r| == |vals| && forall i :: 0 <= i < |r| ==> r[i] == Quote(vals[i])
  {
    seq(|vals|, i requires 0 <= i < |vals| => Quote(vals[i]))
  }

  /** The values of a variable, comma-joined; an empty selection is written as one empty value. */
  function QuotedList(vals: seq<string>): string {
    if vals == [] then "''" else Join(Quotes(vals), ",")
  }

  /** A literal character by character: only a quote is written as two characters. */
  lemma QuotedCharacters(c: char, v: string)
    ensures Quote("") == "''" == QuoteText("")
    ensures Quote([c] + v) == "'" + ((if c == '\'' then "\\'" else [c]) + Quote(v)[1..])
    ensures QuoteText([c] + v) == "'" + ((if c == '\'' then "''" else [c]) + QuoteText(v)[1..])
  {
    var s := [c] + v;
    assert s[1..] == v && s[0] == c;
    assert "'" <= s <==> "'"[0] == c;
    assert Quote(v)[1..] == Escaped(v) + "'" && QuoteText(v)[1..] == Doubled(v) + "'";
  }

  /** The literals of a list stand in its order, with a comma and nothing else between them. */
  lemma ListText(vals: seq<string>, v: string)
    ensures QuotedList([]) == "''" && QuotedList([v]) == Quote(v)
    ensures vals != [] ==> QuotedList(vals + [v]) == QuotedList(vals) + "," + Quote(v)
  {
    assert Quotes([v]) == [Quote(v)];
    if vals != [] {
      var all := Quotes(vals + [v]);
      assert all == Quotes(vals) + [Quote(v)];
      assert all[..|all| - 1] == Quotes(vals);
    }
  }

  /**
   * What a backslash and the next character stand for: a quote for itself, any other character for at
   * most two, for example a control character, or backslash and character unchanged.
   */
  type Escape = e: char -> string | e('\'') == "'" && forall c :: |e(c)| <= 2 witness c => [c]

  /** The literal at the start of `s`: its value and the text behind it. */
  function Read(s: string, escape: Escape): (r: Option<(string, string)>)
    ensures r.Some? ==> |r.value.1| < |s|
  {
    if s != "" && s[0] == '\'' then ReadBody(s[1..], escape) else None
  }

  function ReadBody(s: string, escape: Escape): (r: Option<(string, string)>)
    ensures r.Some? ==> |r.value.1| < |s|
  {
    if s == "" then None
    else if s[0] == '\'' then
      if |s| > 1 && s[1] == '\'' then Front("'", ReadBody(s[2..], escape)) else Some(("", s[1..]))
    else if s[0] == '\\' then
      if |s| > 1 then Front(escape(s[1]), ReadBody(s[2..], escape)) else None
    else Front([s[0]], ReadBody(s[1..], escape))
  }

  function Front(x: string, r: Option<(string, string)>): (f: Option<(string, string)>)
    ensures f.Some? <==> r.Some?
    ensures f.Some? ==> f.value == (x + r.value.0, r.value.1)
  {
    if r.None? then None else Some((x + r.value.0, r.value.1))
  }

  /** A list of literals, separated by commas, up to the end of the text. */
  function ReadList(s: string, escape: Escape): Option<seq<string>>
    decreases |s|
  {
    match Read(s, escape)
    case None => None
    case Some((v, rest)) =>
      if rest == "" then Some([v])
      else if rest[0] != ',' then None
      else
        match ReadList(rest[1..], escape)
        case None => None
        case Some(others) => Some([v] + others)
  }

  /** Read from the left, every backslash stands for itself, together with the character behind it. */
  predicate Harmless(v: string, escape: Escape) {
    if v == "" then true
    else if v[0] != '\\' then Harmless(v[1..], escape)
    else |v| > 1 && v[1] != '\'' && escape(v[1]) == v[..2] && Harmless(v[2..], escape)
  }

  // ---- reading step by step

  lemma EscapedStep(v: string)
    requires v != ""
    ensures Escaped(v) == (if v[0] == '\'' then "\\'" else [v[0]]) + Escaped(v[1..])
    ensures Doubled(v) == (if v[0] == '\'' then "''" else [v[0]]) + Doubled(v[1..])
  {
  }

  lemma {:induction false} ReadSteps(c: char, t: string, escape: Escape)
    ensures c != '\'' && c != '\\' ==> ReadBody([c] + t, escape) == Front([c], ReadBody(t, escape))
    ensures ReadBody(['\\', c] + t, escape) == Front(escape(c), ReadBody(t, escape))
    ensures ReadBody(['\'', '\''] + t, escape) == Front("'", ReadBody(t, escape))
  {
    assert ([c] + t)[1..] == t;
    assert (['\\', c] + t)[2..] == t;
    assert (['\'', '\''] + t)[2..] == t;
  }

  lemma {:induction false} ReadEnd(rest: string, escape: Escape)
    requires rest == "" || rest[0] != '\''
    ensures ReadBody("'" + rest, escape) == Some(("", rest))
  {
    assert ("'" + rest)[1..] == rest;
  }

  lemma {:induction false} HarmlessStep(c: char, t: string, escape: Escape)
    ensures c != '\\' ==> (Harmless([c] + t, escape) <==> Harmless(t, escape))
    ensures c != '\'' ==> (Harmless(['\\', c] + t, escape) <==> escape(c) == ['\\', c] && Harmless(t, escape))
    ensures !Harmless("\\", escape) && !Harmless(['\\', '\''] + t, escape)
  {
    assert ([c] + t)[1..] == t;
    assert (['\\', c] + t)[2..] == t && (['\\', c] + t)[..2] == ['\\', c];
  }

  // ---- one value of a list

  /** A reading that has run into the text behind the literal ends at a quote behind a comma. */
  predicate EndsWithComma(r: Option<(string, string)>) {
    r.Some? ==> r.value.0 != "" && r.value.0[|r.value.0| - 1] == ','
  }

  /** What may follow a value: the end, or text in which a reading that is inside a literal stops behind a comma. */
  predicate Follows(rest: string, escape: Escape) {
    rest == "" || (rest[0] != '\'' && EndsWithComma(ReadBody(rest, escape)))
  }

  /** The reading of a value stops inside it, or runs into the text behind it and then differs at its end. */
  predicate Accounted(r: Option<(string, string)>, v: string, escape: Escape) {
    r.Some? ==>
      || (|r.value.0| <= |v| && (r.value.0 == v ==> Harmless(v, escape)))
      || (EndsWithComma(r) && v != "" && v[|v| - 1] != ',')
  }

  lemma {:induction false} AccountedFront(x: string, r: Option<(string, string)>, c: string, t: string, escape: Escape)
    requires Accounted(r, t, escape) && c != "" && |x| <= |c|
    requires x == c && Harmless(t, escape) ==> Harmless(c + t, escape)
    ensures Accounted(Front(x, r), c + t, escape)
  {
    if r.Some? {
      var val := r.value.0;
      assert t != "" ==> (c + t)[|c + t| - 1] == t[|t| - 1];
      assert val != "" ==> (x + val)[|x + val| - 1] == val[|val| - 1];
      if |val| <= |t| && x + val == c + t {
        assert x == (x + val)[..|x|] && val == (x + val)[|x|..];
        assert c == (c + t)[..|c|] && t == (c + t)[|c|..];
      }
    }
  }

  /** The text behind the opening quote of a value. */
  function Body(v: string, rest: string): string {
    Escaped(v) + ("'" + rest)
  }

  lemma BodyCons(c: char, t: string, rest: string)
    ensures Body([c] + t, rest) == (if c == '\'' then ['\\', '\''] else [c]) + Body(t, rest)
  {
    EscapedStep([c] + t);
    assert ([c] + t)[1..] == t;
  }

  ghost predicate ReadsWell(v: string, rest: string, escape: Escape) {
    var r := ReadBody(Body(v, rest), escape);
    (Harmless(v, escape) ==> r == Some((v, rest))) && Accounted(r, v, escape)
  }

  lemma ReadNothing(rest: string, escape: Escape)
    requires Follows(rest, escape)
    ensures ReadsWell("", rest, escape)
  {
    assert Body("", rest) == "'" + rest;
    ReadEnd(rest, escape);
  }

  lemma ReadPlain(c: char, t: string, rest: string, escape: Escape)
    requires c != '\\' && ReadsWell(t, rest, escape)
    ensures ReadsWell([c] + t, rest, escape)
  {
    var s := Body(t, rest);
    BodyCons(c, t, rest);
    ReadSteps(c, s, escape);
    HarmlessStep(c, t, escape);
    AccountedFront([c], ReadBody(s, escape), [c], t, escape);
  }

  /** A backslash takes the next character of the text with it: another character of the value, ... */
  lemma ReadBackslash(d: char, t: string, rest: string, escape: Escape)
    requires d != '\'' && ReadsWell(t, rest, escape)
    ensures ReadsWell(['\\', d] + t, rest, escape)
  {
    var s := Body(t, rest);
    BodyCons(d, t, rest);
    BodyCons('\\', [d] + t, rest);
    assert ['\\'] + ([d] + t) == ['\\', d] + t && ['\\'] + ([d] + s) == ['\\', d] + s;
    ReadSteps(d, s, escape);
    HarmlessStep(d, t, escape);
    AccountedFront(escape(d), ReadBody(s, escape), ['\\', d], t, escape);
  }

  lemma BackslashQuoteText(t: string, rest: string)
    ensures Body(['\\', '\''] + t, rest) == ['\\', '\\'] + ("'" + Body(t, rest))
  {
    var s := Body(t, rest);
    BodyCons('\'', t, rest);
    BodyCons('\\', ['\''] + t, rest);
    assert ['\\'] + (['\''] + t) == ['\\', '\''] + t;
    assert ['\\'] + (['\\', '\''] + s) == ['\\', '\\'] + ("'" + s);
  }

  /** What is read behind a quote: nothing more, or, if the next character is the closing quote, the text behind it. */
  lemma ReadQuote(t: string, rest: string, escape: Escape)
    requires Follows(rest, escape)
    ensures var r := ReadBody("'" + Body(t, rest), escape);
            r.Some? ==> if t == "" then EndsWithComma(r) else r.value.0 == ""
  {
    var s := Body(t, rest);
    if t == "" {
      assert "'" + s == ['\'', '\''] + rest;
      ReadSteps('\'', rest, escape);
    } else {
      EscapedStep(t);
      assert s[0] != '\'';
      ReadEnd(s, escape);
    }
  }

  /** ... the backslash of a quote, which then ends the literal, ... */
  lemma ReadBackslashQuote(t: string, rest: string, escape: Escape)
    requires Follows(rest, escape)
    ensures ReadsWell(['\\', '\''] + t, rest, escape)
  {
    BackslashQuoteText(t, rest);
    ReadSteps('\\', "'" + Body(t, rest), escape);
    HarmlessStep('\'', t, escape);
    ReadQuote(t, rest, escape);
    var v := ['\\', '\''] + t;
    assert t == "" ==> v[|v| - 1] == '\'';
  }

  /** ... or the closing quote. */
  lemma ReadLastBackslash(rest: string, escape: Escape)
    requires Follows(rest, escape)
    ensures ReadsWell("\\", rest, escape)
  {
    assert "\\" == ['\\'] + "";
    BodyCons('\\', "", rest);
    assert ['\\'] + Body("", rest) == ['\\', '\''] + rest;
    ReadSteps('\'', rest, escape);
    HarmlessStep('\'', "", escape);
  }

  lemma {:induction false} ReadValue(v: string, rest: string, escape: Escape)
    requires Follows(rest, escape)
    ensures ReadsWell(v, rest, escape)
    decreases |v|
  {
    if v == "" {
      ReadNothing(rest, escape);
    } else if v[0] != '\\' {
      ReadValue(v[1..], rest, escape);
      ReadPlain(v[0], v[1..], rest, escape);
      assert v == [v[0]] + v[1..];
    } else if |v| == 1 {
      ReadLastBackslash(rest, escape);
      assert v == "\\";
    } else if v[1] == '\'' {
      ReadBackslashQuote(v[2..], rest, escape);
      assert v == ['\\', '\''] + v[2..];
    } else {
      ReadValue(v[2..], rest, escape);
      ReadBackslash(v[1], v[2..], rest, escape);
      assert v == ['\\', v[1]] + v[2..];
    }
  }

  /** A list value is read back unchanged if and only if each of its backslashes stands for itself. */
  lemma {:induction false} QuoteReadBack(v: string, escape: Escape)
    ensures Read(Quote(v), escape) == Some((v, "")) <==> Harmless(v, escape)
  {
    assert Quote(v)[1..] == Body(v, "");
    ReadValue(v, "", escape);
  }

  // ---- a list of values

  lemma {:induction false} JoinFront(first: string, others: seq<string>, sep: string)
    requires others != []
    ensures Join([first] + others, sep) == first + sep + Join(others, sep)
    decreases |others|
  {
    var n := |others| - 1;
    var all := [first] + others;
    if n == 0 {
      assert all[..1] == [first];
    } else {
      assert all[..n + 1] == [first] + others[..n];
      JoinFront(first, others[..n], sep);
    }
  }

  /** What is written behind the first value. */
  function ListRest(others: seq<string>): string {
    if others == [] then "" else "," + QuotedList(others)
  }

  lemma QuotesCons(first: string, others: seq<string>)
    ensures Quotes([first] + others) == [Quote(first)] + Quotes(others)
  {
    var a, b := Quotes([first] + others), [Quote(first)] + Quotes(others);
    forall i | 0 <= i < |a|
      ensures a[i] == b[i]
    {
      assert i > 0 ==> ([first] + others)[i] == others[i - 1];
    }
  }

  lemma {:induction false} JoinOne(part: string, sep: string)
    ensures Join([part], sep) == part
  {
  }

  lemma OneQuoted(first: string)
    ensures QuotedList([first]) == Quote(first)
  {
    QuotesCons(first, []);
    assert [first] + [] == [first] && [Quote(first)] + Quotes([]) == [Quote(first)];
    JoinOne(Quote(first), ",");
  }

  lemma ManyQuoted(first: string, others: seq<string>)
    requires others != []
    ensures QuotedList([first] + others) == Quote(first) + ListRest(others)
  {
    QuotesCons(first, others);
    JoinComma(Quote(first), Quotes(others));
  }

  lemma {:induction false} JoinComma(part: string, parts: seq<string>)
    requires parts != []
    ensures Join([part] + parts, ",") == part + ("," + Join(parts, ","))
  {
    JoinFront(part, parts, ",");
    Regroup(part, ",", Join(parts, ","));
  }

  lemma QuotedListStep(first: string, others: seq<string>)
    ensures QuotedList([first] + others) == "'" + Body(first, ListRest(others))
  {
    QuoteBody(first, ListRest(others));
    if others == [] {
      OneQuoted(first);
      assert [first] + others == [first] && Quote(first) + "" == Quote(first);
    } else {
      ManyQuoted(first, others);
    }
  }

  lemma QuoteBody(v: string, rest: string)
    ensures Quote(v) + rest == "'" + Body(v, rest)
  {
  }

  lemma {:induction false} ListRestFollows(others: seq<string>, escape: Escape)
    ensures Follows(ListRest(others), escape)
    decreases |others|
  {
    if others != [] {
      var v, rest := others[0], ListRest(others[1..]);
      assert others == [v] + others[1..];
      QuotedListStep(v, others[1..]);
      ListRestFollows(others[1..], escape);
      CommaFollows(v, rest, escape);
    }
  }

  lemma CommaFollows(v: string, rest: string, escape: Escape)
    requires Follows(rest, escape)
    ensures Follows("," + ("'" + Body(v, rest)), escape)
  {
    var s := Body(v, rest);
    assert "," + ("'" + s) == [','] + ("'" + s);
    ReadSteps(',', "'" + s, escape);
    if v == "" {
      assert "'" + s == ['\'', '\''] + rest;
      ReadSteps('\'', rest, escape);
    } else {
      EscapedStep(v);
      assert s[0] != '\'';
      ReadEnd(s, escape);
    }
  }

  ghost predicate AllHarmless(vals: seq<string>, escape: Escape) {
    forall v :: v in vals ==> Harmless(v, escape)
  }

  lemma {:induction false} ValuesReadBack(vals: seq<string>, escape: Escape)
    requires vals != []
    ensures ReadList(QuotedList(vals), escape) == Some(vals) <==> AllHarmless(vals, escape)
    decreases |vals|
  {
    var v, others := vals[0], vals[1..];
    assert vals == [v] + others;
    QuotedListStep(v, others);
    ListRestFollows(others, escape);
    ReadValue(v, ListRest(others), escape);
    ReadFirst(v, others, escape);
    if others != [] {
      ValuesReadBack(others, escape);
    }
    assert AllHarmless(vals, escape) <==> Harmless(v, escape) && AllHarmless(others, escape);
  }

  lemma SameOthers(v: string, a: seq<string>, b: seq<string>)
    ensures [v] + a == [v] + b <==> a == b
  {
    assert ([v] + a)[1..] == a && ([v] + b)[1..] == b;
  }

  lemma {:induction false} ReadOthers(s: string, v: string, u: string, others: seq<string>, escape: Escape)
    requires Read(s, escape) == Some((v, "," + u))
    ensures ReadList(s, escape) == Some([v] + others) <==> ReadList(u, escape) == Some(others)
  {
    assert ("," + u)[1..] == u;
    var r := ReadList(u, escape);
    if r.Some? {
      SameOthers(v, r.value, others);
    }
  }

  lemma {:induction false} FirstLiteral(v: string, others: seq<string>, escape: Escape)
    requires ReadsWell(v, ListRest(others), escape)
    ensures var first := Read(QuotedList([v] + others), escape);
            && (Harmless(v, escape) ==> first == Some((v, ListRest(others))))
            && (first.Some? && first.value.0 == v ==> Harmless(v, escape))
  {
    var s := QuotedList([v] + others);
    QuotedListStep(v, others);
    assert s[1..] == Body(v, ListRest(others));
    AccountedValue(Read(s, escape), v, escape);
  }

  /** Reading the list reads the first value, then the others. */
  lemma {:induction false} ReadFirst(v: string, others: seq<string>, escape: Escape)
    requires ReadsWell(v, ListRest(others), escape)
    ensures var r := ReadList(QuotedList([v] + others), escape);
            && (!Harmless(v, escape) ==> r != Some([v] + others))
            && (Harmless(v, escape) ==>
                  (r == Some([v] + others) <==> others == [] || ReadList(QuotedList(others), escape) == Some(others)))
  {
    var s := QuotedList([v] + others);
    FirstLiteral(v, others, escape);
    if !Harmless(v, escape) {
      HeadOfList(s, v, others, escape);
    } else if others != [] {
      ReadOthers(s, v, QuotedList(others), others, escape);
    } else {
      assert [v] + others == [v];
    }
  }

  lemma {:induction false} AccountedValue(r: Option<(string, string)>, v: string, escape: Escape)
    requires Accounted(r, v, escape)
    ensures r.Some? && r.value.0 == v ==> Harmless(v, escape)
  {
  }

  lemma {:induction false} HeadOfList(s: string, v: string, others: seq<string>, escape: Escape)
    ensures ReadList(s, escape) == Some([v] + others) ==> Read(s, escape).Some? && Read(s, escape).value.0 == v
  {
    var r := ReadList(s, escape);
    if r == Some([v] + others) {
      assert r.value[0] == v;
    }
  }

  /**
   * The written list is read back as the list of the values, an empty one as one empty value, if and only if
   * every backslash of every value stands for itself: then no value ends its literal early or changes its
   * neighbours.
   */
  lemma {:induction false} ListReadBack(vals: seq<string>, escape: Escape)
    ensures ReadList(QuotedList(vals), escape) == Some(if vals == [] then [""] else vals) <==>
            AllHarmless(vals, escape)
  {
    if vals == [] {
      assert "''"[1..] == "'" + "";
      ReadEnd("", escape);
    } else {
      ValuesReadBack(vals, escape);
    }
  }

  // ---- text boxes

  /** The text behind the opening quote of a text box. */
  function TextBody(v: string, rest: string): string {
    Doubled(v) + ("'" + rest)
  }

  lemma TextBodyCons(c: char, t: string, rest: string)
    ensures TextBody([c] + t, rest) == (if c == '\'' then ['\'', '\''] else [c]) + TextBody(t, rest)
  {
    EscapedStep([c] + t);
    assert ([c] + t)[1..] == t;
  }

  /** A reading to the end of the text is never longer than the value, and equal to it only without harm. */
  ghost predicate ReadsText(v: string, escape: Escape) {
    var r := ReadBody(TextBody(v, ""), escape);
    && (Harmless(v, escape) ==> r == Some((v, "")))
    && (r.Some? ==> |r.value.0| <= |v| && (r.value.0 == v ==> Harmless(v, escape)))
  }

  lemma TextPlain(c: char, t: string, escape: Escape)
    requires c != '\\' && ReadsText(t, escape)
    ensures ReadsText([c] + t, escape)
  {
    var s := TextBody(t, "");
    TextBodyCons(c, t, "");
    ReadSteps(c, s, escape);
    HarmlessStep(c, t, escape);
    var r := ReadBody(s, escape);
    if r.Some? {
      assert ([c] + r.value.0)[1..] == r.value.0 && ([c] + t)[1..] == t;
    }
  }

  lemma TextBackslash(d: char, t: string, escape: Escape)
    requires d != '\'' && ReadsText(t, escape)
    ensures ReadsText(['\\', d] + t, escape)
  {
    var s := TextBody(t, "");
    TextBodyCons(d, t, "");
    TextBodyCons('\\', [d] + t, "");
    assert ['\\'] + ([d] + t) == ['\\', d] + t && ['\\'] + ([d] + s) == ['\\', d] + s;
    ReadSteps(d, s, escape);
    HarmlessStep(d, t, escape);
    var r := ReadBody(s, escape);
    if r.Some? {
      SameSplit(escape(d), r.value.0, ['\\', d], t);
    }
  }

  lemma SameSplit(x: string, a: string, y: string, b: string)
    requires |x| <= |y| && |a| <= |b|
    ensures |x + a| <= |y + b| && (x + a == y + b ==> x == y && a == b)
  {
    if x + a == y + b {
      assert x == (x + a)[..|x|] && y == (y + b)[..|y|];
      assert a == (x + a)[|x|..] && b == (y + b)[|y|..];
    }
  }

  /** The first half of a doubled quote has been taken by a backslash. */
  lemma {:induction false} ReadHalfQuote(t: string, escape: Escape)
    ensures var r := ReadBody("'" + TextBody(t, ""), escape); r.Some? ==> |r.value.0| <= |t|
    decreases |t|
  {
    if t == "" {
      assert "'" + TextBody(t, "") == ['\'', '\''] + "";
      ReadSteps('\'', "", escape);
    } else {
      var c, u := t[0], t[1..];
      assert t == [c] + u;
      TextBodyCons(c, u, "");
      if c == '\'' {
        ReadHalfQuote(u, escape);
        assert "'" + TextBody(t, "") == ['\'', '\''] + ("'" + TextBody(u, ""));
        ReadSteps('\'', "'" + TextBody(u, ""), escape);
      } else {
        ReadEnd(TextBody(t, ""), escape);
      }
    }
  }

  lemma TextBackslashQuote(t: string, escape: Escape)
    ensures ReadsText(['\\', '\''] + t, escape)
  {
    var s := "'" + TextBody(t, "");
    TextBodyCons('\'', t, "");
    TextBodyCons('\\', ['\''] + t, "");
    assert ['\\'] + (['\''] + t) == ['\\', '\''] + t;
    assert ['\\'] + (['\'', '\''] + TextBody(t, "")) == ['\\', '\''] + s;
    ReadSteps('\'', s, escape);
    ReadHalfQuote(t, escape);
    HarmlessStep('\'', t, escape);
  }

  lemma TextLastBackslash(escape: Escape)
    ensures ReadsText("\\", escape)
  {
    assert "\\" == ['\\'] + "";
    TextBodyCons('\\', "", "");
    assert ['\\'] + TextBody("", "") == ['\\', '\''] + "";
    ReadSteps('\'', "", escape);
    HarmlessStep('\'', "", escape);
  }

  lemma {:induction false} ReadText(v: string, escape: Escape)
    ensures ReadsText(v, escape)
    decreases |v|
  {
    if v == "" {
      assert TextBody("", "") == "'" + "";
      ReadEnd("", escape);
    } else if v[0] != '\\' {
      ReadText(v[1..], escape);
      TextPlain(v[0], v[1..], escape);
      assert v == [v[0]] + v[1..];
    } else if |v| == 1 {
      TextLastBackslash(escape);
      assert v == "\\";
    } else if v[1] == '\'' {
      TextBackslashQuote(v[2..], escape);
      assert v == ['\\', '\''] + v[2..];
    } else {
      ReadText(v[2..], escape);
      TextBackslash(v[1], v[2..], escape);
      assert v == ['\\', v[1]] + v[2..];
    }
  }

  /** A text box is read back unchanged if and only if each of its backslashes stands for itself. */
  lemma {:induction false} QuoteTextReadBack(v: string, escape: Escape)
    ensures Read(QuoteText(v), escape) == Some((v, "")) <==> Harmless(v, escape)
  {
    assert QuoteText(v)[1..] == TextBody(v, "");
    ReadText(v, escape);
  }

  // ---- which values are harmless

  /** Without a backslash nothing can go wrong. */
  lemma {:induction false} NoBackslashHarmless(v: string, escape: Escape)
    requires '\\' !in v
    ensures Harmless(v, escape)
  {
    if v != "" {
      assert v == [v[0]] + v[1..];
      NoBackslashHarmless(v[1..], escape);
    }
  }

  /**
   * A backslash at the end or in front of a quote is never read back; one in front of a character whose
   * escape keeps it, as in the regular expression \d, is.
   */
  lemma {:induction false} BackslashCases(v: string, d: char, escape: Escape)
    requires '\\' !in v && d != '\''
    ensures !Harmless(v + "\\", escape) && !Harmless(v + "\\'", escape)
    ensures Harmless(v + ['\\', d], escape) <==> escape(d) == ['\\', d]
  {
    HarmlessBehind(v, "\\", escape);
    HarmlessBehind(v, "\\'", escape);
    HarmlessBehind(v, ['\\', d], escape);
    HarmlessStep(d, "", escape);
    assert "\\'" == ['\\', '\''] + "" && ['\\', d] + "" == ['\\', d];
  }

  lemma {:induction false} HarmlessBehind(v: string, t: string, escape: Escape)
    requires '\\' !in v
    ensures Harmless(v + t, escape) <==> Harmless(t, escape)
  {
    if v == "" {
      assert v + t == t;
    } else {
      assert v[0] in v;
      assert v + t == [v[0]] + (v[1..] + t);
      HarmlessBehind(v[1..], t, escape);
      HarmlessStep(v[0], v[1..] + t, escape);
    }
  }
}

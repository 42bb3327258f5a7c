/**
 * One placeholder in a query, as text boxes are used: what `interpolate` of dashboards/check_queries.py makes of
 * it, and exactly when.
 */
module TextBoxes {
  import opened Text
  import opened Interpolation
  import opened Macro
  import opened Substitution
  import opened SubstitutionExact
  import opened SubstitutionSealed
  import opened WrittenValues
  import opened Placeholders
  import Quoting

  lemma {:induction false} NoMacro(p: string, key: string, q: string)
    requires NoDollar(p) && NoDollar(q) && ProperKey(Binding(key, "")) && key[1] == '{'
    ensures Find(p + (key + q), MACRO).None?
  {
    assert MACRO[0] == '$' && MACRO[1] == '_' && (key + q)[1] == '{';
    HoldsBehind(p, key + q, MACRO);
    HoldsBehindName(Binding(key, ""), q, MACRO);
    HoldsPlain(q, MACRO);
  }

  /** Of the placeholders, the text holds just the one that it is made of. */
  lemma HoldsOne(p: string, r: seq<Binding>, i: nat, j: nat, q: string)
    requires ProperKeys(r) && PrefixFree(r) && i < |r| && j < |r| && NoDollar(p) && NoDollar(q)
    ensures Holds(p + (r[i].key + q), r[j].key) <==> i == j
  {
    var key, other := r[i].key, r[j].key;
    assert ProperKey(r[i]) && ProperKey(r[j]);
    HoldsBehind(p, key + q, other);
    if i == j {
      NotAtStart(key + q, key);
    } else {
      if other <= key + q {
        BothBegin(key, other, key + q);
      }
      HoldsBehindName(r[i], q, other);
      HoldsPlain(q, other);
    }
  }

  lemma BothBegin(a: string, b: string, s: string)
    requires a <= s && b <= s
    ensures a <= b || b <= a
  {
  }

  /** The one placeholder becomes its value, exactly if nothing in that value is replaced later. */
  lemma {:induction false} OneFilled(p: string, r: seq<Binding>, texts: seq<seq<string>>, i: nat, q: string)
    requires GoodBindings(r) && WrittenAs(r, texts) && i < |r| && NoDollar(p) && NoDollar(q)
    ensures Sequential(p + (r[i].key + q), r) == p + (r[i].value + q) <==>
            forall j :: i < j < |r| ==> !HoldsAny(texts[i], r[j].key)
  {
    var s := p + (r[i].key + q);
    InsertedIsExact(s, r, texts);
    SimultaneousBehind(p, r[i].key + q, r);
    PlaceholderFilled(r, i, q);
    SimultaneousPlain(q, r);
    forall k | 0 <= k < |r|
      ensures Holds(s, r[k].key) <==> k == i
    {
      HoldsOne(p, r, k, i, q);
      HoldsOne(p, r, i, k, q);
    }
  }

  lemma BoxBinding(values: Selection, boxes: seq<(string, string)>, j: nat)
    requires j < |boxes|
    ensures |Bindings(values, boxes)| == |values| + |boxes|
    ensures Bindings(values, boxes)[|values| + j] ==
            Binding("${" + boxes[j].0 + ":sqlstring}", Quoting.QuoteText(boxes[j].1))
  {
    assert Bindings(values, boxes)[|values| + j] == TextboxBindings(boxes)[j];
  }

  lemma NothingExpanded(p: string, name: string, q: string, values: Selection, boxes: seq<(string, string)>)
    requires IsName(name) && NoDollar(p) && NoDollar(q)
    ensures var s := p + ("${" + name + ":sqlstring}" + q);
            && HasKeys(Bindings(values, boxes))
            && Interpolated(s, values, boxes) == Ok(Sequential(s, Bindings(values, boxes)))
  {
    var key := "${" + name + ":sqlstring}";
    KeyProper(name, "sqlstring", "");
    assert key == Key(name, "sqlstring");
    NoMacro(p, key, q);
  }

  lemma LaterBoxes(values: Selection, boxes: seq<(string, string)>, i: nat)
    requires i < |boxes|
    ensures var r, texts, n := Bindings(values, boxes), Inserted(values, boxes), |values|;
            |r| == |texts| == n + |boxes| &&
            ((forall k :: n + i < k < |r| ==> !HoldsAny(texts[n + i], r[k].key))
             <==> forall j :: i < j < |boxes| ==> !Holds(boxes[i].1, "${" + boxes[j].0 + ":sqlstring}"))
  {
    var r, texts, n := Bindings(values, boxes), Inserted(values, boxes), |values|;
    forall j | 0 <= j < |boxes|
      ensures r[n + j].key == "${" + boxes[j].0 + ":sqlstring}"
    {
      BoxBinding(values, boxes, j);
    }
    HeldLater(boxes, i, r, n, texts);
  }

  /**
   * A text box between texts without "$" becomes its quoted text, if and only if the text holds no placeholder of a
   * later box.
   */
  lemma BoxFilled(p: string, values: Selection, boxes: seq<(string, string)>, i: nat, q: string)
    requires ProperSelection(values) && ProperBoxes(boxes) && i < |boxes| && NoDollar(p) && NoDollar(q)
    ensures Interpolated(p + ("${" + boxes[i].0 + ":sqlstring}" + q), values, boxes)
         == Ok(p + (Quoting.QuoteText(boxes[i].1) + q))
       <==> forall j :: i < j < |boxes| ==> !Holds(boxes[i].1, "${" + boxes[j].0 + ":sqlstring}")
  {
    BindingsFacts(values, boxes);
    NothingExpanded(p, boxes[i].0, q, values, boxes);
    BoxBinding(values, boxes, i);
    OneFilled(p, Bindings(values, boxes), Inserted(values, boxes), |values| + i, q);
    LaterBoxes(values, boxes, i);
  }

  lemma HeldLater(boxes: seq<(string, string)>, i: nat, r: seq<Binding>, n: nat, texts: seq<seq<string>>)
    requires i < |boxes| && |r| == |texts| == n + |boxes| && texts[n + i] == [boxes[i].1]
    requires forall j :: 0 <= j < |boxes| ==> r[n + j].key == "${" + boxes[j].0 + ":sqlstring}"
    ensures (forall k :: n + i < k < |r| ==> !HoldsAny(texts[n + i], r[k].key))
       <==> forall j :: i < j < |boxes| ==> !Holds(boxes[i].1, "${" + boxes[j].0 + ":sqlstring}")
  {
    forall key
      ensures HoldsAny([boxes[i].1], key) <==> Holds(boxes[i].1, key)
    {
      assert [boxes[i].1][0] == boxes[i].1;
    }
    forall k | n + i < k < |r|
      ensures r[k].key == "${" + boxes[k - n].0 + ":sqlstring}"
    {
      assert r[k] == r[n + (k - n)];
    }
    forall j | i < j < |boxes|
      ensures r[n + j].key == "${" + boxes[j].0 + ":sqlstring}"
    {
    }
  }
}

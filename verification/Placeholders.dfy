/**
 * The placeholders that `interpolate` in dashboards/check_queries.py fills in after the macros: value
 * lists `${name:singlequote}` and text boxes `${name:sqlstring}`.
 */
module Placeholders {
  import opened Text
  import opened Interpolation
  import opened Macro
  import opened Substitution
  import opened SubstitutionExact
  import opened SubstitutionSealed
  import opened WrittenValues
  import Quoting

  /** Word-like, different names, as Grafana has them; the values may be any texts. */
  predicate ProperSelection(values: Selection) {
    && (forall i :: 0 <= i < |values| ==> IsName(values[i].0))
    && (forall i, j :: 0 <= i < j < |values| ==> values[i].0 != values[j].0)
  }

  predicate ProperBoxes(boxes: seq<(string, string)>) {
    && (forall i :: 0 <= i < |boxes| ==> IsName(boxes[i].0))
    && (forall i, j :: 0 <= i < j < |boxes| ==> boxes[i].0 != boxes[j].0)
  }

  // ---- the names

  function Key(name: string, kind: string): string {
    "${" + name + ":" + kind + "}"
  }

  predicate IsKind(kind: string) {
    kind == "singlequote" || kind == "sqlstring"
  }

  lemma WordChars(name: string)
    requires IsName(name)
    ensures forall c :: c in name ==> IsWord(c)
  {
  }

  lemma KindChars(kind: string)
    requires IsKind(kind)
    ensures kind != "" && forall c :: c in kind ==> IsWord(c)
  {
  }

  lemma TailLacks(name: string, kind: string, c: char)
    requires IsName(name) && IsKind(kind) && !IsWord(c) && c != '{' && c != ':' && c != '}'
    ensures c !in "{" + name + ":" + kind + "}"
  {
    WordChars(name);
    KindChars(kind);
  }

  lemma KeyTail(name: string, kind: string)
    ensures Key(name, kind) == "$" + ("{" + name + ":" + kind + "}")
    ensures Key(name, kind)[1..] == "{" + name + ":" + kind + "}"
  {
  }

  lemma KeyLacks(name: string, kind: string, c: char)
    requires IsName(name) && IsKind(kind) && !IsWord(c) && c != '{' && c != ':' && c != '}' && c != '$'
    ensures c !in Key(name, kind)
  {
    TailLacks(name, kind, c);
    KeyTail(name, kind);
  }

  /** No character of the surrounding SQL or of a written value's quotes and commas is part of a placeholder. */
  lemma KeyProper(name: string, kind: string, value: string)
    requires IsName(name) && IsKind(kind)
    ensures ProperKey(Binding(Key(name, kind), value)) && Unquoted(Key(name, kind)) && ' ' !in Key(name, kind)
  {
    TailLacks(name, kind, '$');
    KeyTail(name, kind);
    KeyLacks(name, kind, '\'');
    KeyLacks(name, kind, '\\');
    KeyLacks(name, kind, ',');
    KeyLacks(name, kind, ' ');
  }

  /** A placeholder is determined by any text that it begins. */
  lemma KeysPrefixFree(name: string, kind: string, other: string, otherKind: string)
    requires IsName(name) && IsName(other) && IsKind(kind) && IsKind(otherKind)
    requires Key(name, kind) <= Key(other, otherKind)
    ensures name == other && kind == otherKind
  {
    WordChars(name);
    WordChars(other);
    var k, l := Key(name, kind), Key(other, otherKind);
    ColonAt(name, kind);
    ColonAt(other, otherKind);
    assert k[2 + |name|] == l[2 + |name|];
    assert k[2 + |other|] == l[2 + |other|];
    assert name == k[2..2 + |name|] == l[2..2 + |name|] == other;
    assert k[3 + |name|] == kind[0] && l[3 + |name|] == otherKind[0];
    assert k[4 + |name|] == kind[1] && l[4 + |name|] == otherKind[1];
  }

  /** The first colon ends the name. */
  lemma ColonAt(name: string, kind: string)
    requires IsName(name) && IsKind(kind)
    ensures |Key(name, kind)| > 4 + |name| && Key(name, kind)[2 + |name|] == ':'
    ensures forall i :: 0 <= i < 2 + |name| ==> Key(name, kind)[i] != ':'
  {
    WordChars(name);
    var k := Key(name, kind);
    assert forall i :: 2 <= i < 2 + |name| ==> k[i] == name[i - 2] && k[i] in name;
  }

  // ---- the bindings

  function NameOf(values: Selection, boxes: seq<(string, string)>, i: nat): string
    requires i < |values| + |boxes|
  {
    if i < |values| then values[i].0 else boxes[i - |values|].0
  }

  function KindOf(values: Selection, i: nat): string {
    if i < |values| then "singlequote" else "sqlstring"
  }

  /** For each placeholder, the values that are written in its place. */
  function Inserted(values: Selection, boxes: seq<(string, string)>): (r: seq<seq<string>>)
    ensures |r| == |values| + |boxes|
    ensures forall i :: 0 <= i < |values| ==> r[i] == ValuesOf(values[i].1)
    ensures forall i :: |values| <= i < |r| ==> r[i] == [boxes[i - |values|].1]
  {
    seq(|values|, i requires 0 <= i < |values| => ValuesOf(values[i].1))
    + seq(|boxes|, i requires 0 <= i < |boxes| => [boxes[i].1])
  }

  function ValuesOf(selected: Option<seq<string>>): seq<string> {
    if selected.Some? then selected.value else []
  }

  lemma BindingKey(values: Selection, boxes: seq<(string, string)>, i: nat)
    requires i < |values| + |boxes|
    ensures Bindings(values, boxes)[i].key == Key(NameOf(values, boxes, i), KindOf(values, i))
  {
    if i < |values| {
      assert Bindings(values, boxes)[i] == SelectionBindings(values)[i];
    } else {
      assert Bindings(values, boxes)[i] == TextboxBindings(boxes)[i - |values|];
    }
  }

  lemma BindingFacts(values: Selection, boxes: seq<(string, string)>, i: nat)
    requires ProperSelection(values) && ProperBoxes(boxes) && i < |values| + |boxes|
    ensures var b := Bindings(values, boxes)[i];
            ProperKey(b) && Unquoted(b.key) && ' ' !in b.key && Sealed(b.value, '\'')
  {
    BindingKey(values, boxes, i);
    KeyProper(NameOf(values, boxes, i), KindOf(values, i), Bindings(values, boxes)[i].value);
    if i < |values| {
      ListSealed(ValuesOf(values[i].1));
    }
  }

  lemma ValueHolds(values: Selection, boxes: seq<(string, string)>, i: nat, key: string)
    requires i < |values| + |boxes| && Unquoted(key)
    ensures Holds(Bindings(values, boxes)[i].value, key) <==> HoldsAny(Inserted(values, boxes)[i], key)
  {
    if i < |values| {
      ListHolds(ValuesOf(values[i].1), key);
    } else {
      var text := boxes[i - |values|].1;
      QuotesHold(text, key);
      assert [text][0] == text;
    }
  }

  ghost predicate GoodBindings(r: seq<Binding>) {
    ProperKeys(r) && Free('\'', r) && Free(' ', r) && AllSealed(r, '\'') && PrefixFree(r)
  }

  lemma BindingsFacts(values: Selection, boxes: seq<(string, string)>)
    requires ProperSelection(values) && ProperBoxes(boxes)
    ensures GoodBindings(Bindings(values, boxes)) && WrittenAs(Bindings(values, boxes), Inserted(values, boxes))
  {
    var r, texts := Bindings(values, boxes), Inserted(values, boxes);
    forall i | 0 <= i < |r|
      ensures ProperKey(r[i]) && '\'' !in r[i].key && ' ' !in r[i].key && Sealed(r[i].value, '\'')
    {
      BindingFacts(values, boxes, i);
    }
    DistinctPlaceholders(values, boxes);
    forall i, j | 0 <= i < |r| && 0 <= j < |r|
      ensures Holds(r[i].value, r[j].key) <==> HoldsAny(texts[i], r[j].key)
    {
      BindingFacts(values, boxes, j);
      ValueHolds(values, boxes, i, r[j].key);
    }
  }

  lemma DistinctPlaceholders(values: Selection, boxes: seq<(string, string)>)
    requires ProperSelection(values) && ProperBoxes(boxes)
    ensures PrefixFree(Bindings(values, boxes))
  {
    var r := Bindings(values, boxes);
    forall i, j | 0 <= i < |r| && 0 <= j < |r| && i != j
      ensures !(r[i].key <= r[j].key)
    {
      BindingKey(values, boxes, i);
      BindingKey(values, boxes, j);
      if r[i].key <= r[j].key {
        KeysPrefixFree(NameOf(values, boxes, i), KindOf(values, i), NameOf(values, boxes, j), KindOf(values, j));
      }
    }
  }

  // ---- all placeholders are filled in at once

  /** A written value holds a placeholder exactly if one of the texts does from which it is made. */
  ghost predicate WrittenAs(r: seq<Binding>, texts: seq<seq<string>>) {
    |r| == |texts| && forall i, j :: 0 <= i < |r| && 0 <= j < |r| ==>
        (Holds(r[i].value, r[j].key) <==> HoldsAny(texts[i], r[j].key))
  }

  /** No value that is written into `s` holds a placeholder that is filled in later. */
  predicate NoLaterPlaceholder(s: string, r: seq<Binding>, texts: seq<seq<string>>)
    requires |r| == |texts|
  {
    forall i, j :: 0 <= i < j < |r| && Holds(s, r[i].key) ==> !HoldsAny(texts[i], r[j].key)
  }

  /** No value holds any of the placeholders. */
  predicate NoPlaceholder(r: seq<Binding>, texts: seq<seq<string>>)
    requires |r| == |texts|
  {
    forall i, j :: 0 <= i < |r| && 0 <= j < |r| ==> !HoldsAny(texts[i], r[j].key)
  }

  lemma WrittenConditions(s: string, r: seq<Binding>, texts: seq<seq<string>>)
    requires WrittenAs(r, texts)
    ensures NoLaterPlaceholder(s, r, texts) <==> NoLaterKeyIn(s, r)
    ensures NoPlaceholder(r, texts) ==> NoKey(r) && NoLaterPlaceholder(s, r, texts)
  {
    if NoPlaceholder(r, texts) {
      forall a, b | a in r && b in r
        ensures !Holds(a.value, b.key)
      {
        var i :| 0 <= i < |r| && r[i] == a;
        var j :| 0 <= j < |r| && r[j] == b;
      }
    }
  }

  lemma InsertedIsExact(s: string, r: seq<Binding>, texts: seq<seq<string>>)
    requires GoodBindings(r) && WrittenAs(r, texts)
    ensures Intended(s, r) <==> NoLaterPlaceholder(s, r, texts)
  {
    WrittenConditions(s, r, texts);
    SealedIsExact(s, r, '\'');
  }

  /**
   * For word-like, different names and any values: filling one placeholder of a text after another is filling
   * in all at once if and only if no value that is written into it holds a placeholder that is filled in later.
   */
  lemma PlaceholdersAtOnce(s: string, values: Selection, boxes: seq<(string, string)>)
    requires ProperSelection(values) && ProperBoxes(boxes)
    ensures Intended(s, Bindings(values, boxes)) <==>
            NoLaterPlaceholder(s, Bindings(values, boxes), Inserted(values, boxes))
  {
    BindingsFacts(values, boxes);
    InsertedIsExact(s, Bindings(values, boxes), Inserted(values, boxes));
  }

  lemma {:induction false} InsertedAnyOrder(s: string, r: seq<Binding>, texts: seq<seq<string>>, other: seq<Binding>)
    requires GoodBindings(r) && WrittenAs(r, texts) && NoPlaceholder(r, texts) && SameBindings(r, other)
    ensures HasKeys(other) && Intended(s, r) && Sequential(s, other) == Sequential(s, r)
  {
    WrittenConditions(s, r, texts);
    SealedAnyOrder(s, r, other, '\'');
    SealedIsExact(s, r, '\'');
  }

  /** If no value holds a placeholder, the order of the variables does not matter. */
  lemma {:induction false} PlaceholdersAnyOrder(s: string, values: Selection, boxes: seq<(string, string)>,
      other: seq<Binding>)
    requires ProperSelection(values) && ProperBoxes(boxes)
    requires NoPlaceholder(Bindings(values, boxes), Inserted(values, boxes))
    requires SameBindings(Bindings(values, boxes), other)
    ensures HasKeys(other) && Intended(s, Bindings(values, boxes))
    ensures Sequential(s, other) == Sequential(s, Bindings(values, boxes))
  {
    BindingsFacts(values, boxes);
    InsertedAnyOrder(s, Bindings(values, boxes), Inserted(values, boxes), other);
  }

  lemma HoldsBeginning(vals: seq<string>, w: string, key: string)
    requires w <= key
    ensures HoldsAny(vals, key) ==> HoldsAny(vals, w)
  {
    if HoldsAny(vals, key) {
      var k :| 0 <= k < |vals| && Holds(vals[k], key);
      assert At(vals[k], Find(vals[k], key).value, w);
    }
  }

  /** Values without the text "${" hold no placeholder; a single dollar sign does no harm. */
  lemma NoBraceNoPlaceholder(values: Selection, boxes: seq<(string, string)>)
    requires forall i :: 0 <= i < |Inserted(values, boxes)| ==> !HoldsAny(Inserted(values, boxes)[i], "${")
    ensures NoPlaceholder(Bindings(values, boxes), Inserted(values, boxes))
  {
    var r, texts := Bindings(values, boxes), Inserted(values, boxes);
    forall i, j | 0 <= i < |r| && 0 <= j < |r|
      ensures !HoldsAny(texts[i], r[j].key)
    {
      BindingKey(values, boxes, j);
      HoldsBeginning(texts[i], "${", r[j].key);
    }
  }

  // ---- the WHERE clause

  /** What a kept filter compares with, or "1=1" for a variable that is All. */
  function FilledFilter(column: string, selected: Option<seq<string>>): string {
    match selected
    case None => "1=1"
    case Some(vals) => column + " IN (" + Quoting.QuotedList(vals) + ")"
  }

  /** The clause that is sent: every filter with the quoted values of its own variable. */
  function FilledWhere(filters: seq<(string, string)>, values: Selection): string {
    if filters == [] then "$__timeFilter(time)"
    else
      var last := filters[|filters| - 1];
      FilledWhere(filters[..|filters| - 1], values) + " AND " + FilledFilter(last.0, Selected(values, last.1))
  }

  lemma {:induction false} SelectedAt(values: Selection, name: string) returns (i: nat)
    requires Selected(values, name).Some?
    ensures i < |values| && values[i].0 == name && values[i].1 == Selected(values, name)
  {
    if values[0].0 == name {
      i := 0;
    } else {
      i := SelectedAt(values[1..], name);
      i := i + 1;
    }
  }

  /** At its place, a placeholder becomes its value. */
  lemma {:induction false} PlaceholderFilled(r: seq<Binding>, i: nat, rest: string)
    requires ProperKeys(r) && PrefixFree(r) && i < |r|
    ensures Simultaneous(r[i].key + rest, r) == r[i].value + Simultaneous(rest, r)
  {
    var key := r[i].key;
    assert ProperKey(r[i]);
    MatchIfAny(key + rest, r, r[i]);
    OnlyMatch(key + rest, r, r[i], FirstMatch(key + rest, r).value);
    assert (key + rest)[|key|..] == rest;
  }

  lemma FilterText(column: string, name: string)
    ensures Membership(column, name) == (column + " IN (") + (Key(name, "singlequote") + ")")
  {
  }

  lemma {:induction false} SimultaneousPlain(s: string, r: seq<Binding>)
    requires ProperKeys(r) && NoDollar(s)
    ensures Simultaneous(s, r) == s
  {
    SimultaneousBehind(s, "", r);
    assert s + "" == s;
  }

  /** The bindings of the selection come first. */
  ghost predicate Filling(r: seq<Binding>, values: Selection) {
    && GoodBindings(r) && |values| <= |r|
    && (forall i :: 0 <= i < |values| ==>
            r[i] == Binding(Key(values[i].0, "singlequote"), Quoting.QuotedList(ValuesOf(values[i].1))))
    && (forall j :: 0 <= j < |r| ==> Braced(r[j].key))
  }

  predicate Braced(key: string) {
    |key| > 1 && key[1] == '{'
  }

  lemma AllBraced(values: Selection, boxes: seq<(string, string)>)
    ensures var r := Bindings(values, boxes); forall j :: 0 <= j < |r| ==> Braced(r[j].key)
  {
    var r := Bindings(values, boxes);
    forall j | 0 <= j < |r|
      ensures Braced(r[j].key)
    {
      BindingKey(values, boxes, j);
    }
  }

  lemma SelectionFirst(values: Selection, boxes: seq<(string, string)>, i: nat)
    requires i < |values|
    ensures Bindings(values, boxes)[i] ==
            Binding(Key(values[i].0, "singlequote"), Quoting.QuotedList(ValuesOf(values[i].1)))
  {
    BindingKey(values, boxes, i);
    assert Bindings(values, boxes)[i] == SelectionBindings(values)[i];
  }

  lemma FillingFacts(values: Selection, boxes: seq<(string, string)>)
    requires ProperSelection(values) && ProperBoxes(boxes)
    ensures Filling(Bindings(values, boxes), values)
  {
    var r := Bindings(values, boxes);
    BindingsFacts(values, boxes);
    AllBraced(values, boxes);
    forall i | 0 <= i < |values|
      ensures r[i] == Binding(Key(values[i].0, "singlequote"), Quoting.QuotedList(ValuesOf(values[i].1)))
    {
      SelectionFirst(values, boxes, i);
    }
  }

  /** A multi-value filter that is kept becomes a comparison with its own variable's quoted values. */
  lemma {:induction false} FilterFilled(column: string, name: string, values: Selection, r: seq<Binding>)
    requires Filling(r, values) && IsName(column) && Selected(values, name).Some?
    ensures Simultaneous(Membership(column, name), r) == FilledFilter(column, Selected(values, name))
  {
    var i := SelectedAt(values, name);
    FilterText(column, name);
    WordChars(column);
    SimultaneousBehind(column + " IN (", r[i].key + ")", r);
    PlaceholderFilled(r, i, ")");
    SimultaneousPlain(")", r);
    Regroup(column + " IN (", r[i].value, ")");
  }

  lemma TimeFilterText()
    ensures "$__timeFilter(time)" == ['$'] + "__timeFilter(time)" && NoDollar("__timeFilter(time)")
    ensures "$__timeFilter(time)"[1] == '_'
  {
  }

  /** The time filter holds no placeholder. */
  lemma {:induction false} TimeFilterKept(values: Selection, r: seq<Binding>)
    requires Filling(r, values)
    ensures Simultaneous("$__timeFilter(time)", r) == "$__timeFilter(time)"
  {
    TimeFilterText();
    PlainBehindDollar("$__timeFilter(time)", "__timeFilter(time)", r);
  }

  lemma {:induction false} PlainBehindDollar(s: string, t: string, r: seq<Binding>)
    requires ProperKeys(r) && forall j :: 0 <= j < |r| ==> Braced(r[j].key)
    requires s == ['$'] + t && NoDollar(t) && |s| > 1 && s[1] != '{'
    ensures Simultaneous(s, r) == s
  {
    forall j | 0 <= j < |r|
      ensures !(r[j].key <= s)
    {
      assert Braced(r[j].key);
    }
    NoMatch(s, r);
    SimultaneousPlain(t, r);
    Unmatched('$', t, r);
  }

  lemma {:induction false} AndFilled(clause: string, filter: string, r: seq<Binding>)
    requires ProperKeys(r) && Free(' ', r)
    ensures Simultaneous(clause + " AND " + filter, r)
         == Simultaneous(clause, r) + " AND " + Simultaneous(filter, r)
  {
    var and := " AND ";
    Regroup(clause, and, filter);
    SimultaneousApart(clause, and + filter, r, ' ');
    SimultaneousBehind(and, filter, r);
    Regroup(Simultaneous(clause, r), and, Simultaneous(filter, r));
  }

  lemma {:induction false} ClauseFilled(filters: seq<(string, string)>, values: Selection, r: seq<Binding>)
    requires Filling(r, values) && forall i :: 0 <= i < |filters| ==> IsName(filters[i].0)
    ensures Simultaneous(WhereMeaning(filters, values), r) == FilledWhere(filters, values)
  {
    if filters == [] {
      TimeFilterKept(values, r);
    } else {
      var init, last := filters[..|filters| - 1], filters[|filters| - 1];
      ClauseFilled(init, values, r);
      if Selected(values, last.1).None? {
        SimultaneousPlain("1=1", r);
        AndFilled(WhereMeaning(init, values), "1=1", r);
      } else {
        FilterFilled(last.0, last.1, values, r);
        AndFilled(WhereMeaning(init, values), Membership(last.0, last.1), r);
      }
    }
  }

  // ---- the clause, filter by filter

  /** The text that is sent for a filter, by the variable's entry in the selection. */
  ghost predicate Sent(values: Selection, filter: (string, string), text: string) {
    || (exists i :: 0 <= i < |values| && values[i].0 == filter.1 && values[i].1.Some?
                    && text == filter.0 + " IN (" + Quoting.QuotedList(values[i].1.value) + ")")
    || ((forall i :: 0 <= i < |values| && values[i].0 == filter.1 ==> values[i].1.None?) && text == "1=1")
  }

  /** The time filter and the filters' texts. */
  function Clause(parts: seq<string>): string {
    if parts == [] then "$__timeFilter(time)"
    else Clause(parts[..|parts| - 1]) + " AND " + parts[|parts| - 1]
  }

  lemma {:induction false} SelectedEntry(values: Selection, i: nat)
    requires ProperSelection(values) && i < |values|
    ensures Selected(values, values[i].0) == values[i].1
  {
    assert forall j :: 0 <= j < i ==> values[j].0 != values[i].0;
  }

  lemma OneEntry(values: Selection, i: nat, j: nat)
    requires ProperSelection(values) && i < |values| && j < |values| && values[i].0 == values[j].0
    ensures i == j
  {
  }

  lemma {:induction false} SentIs(values: Selection, filter: (string, string), text: string)
    requires ProperSelection(values)
    ensures Sent(values, filter, text) <==> text == FilledFilter(filter.0, Selected(values, filter.1))
  {
    if i :| 0 <= i < |values| && values[i].0 == filter.1 {
      SelectedEntry(values, i);
      forall j | 0 <= j < |values| && values[j].0 == filter.1
        ensures j == i
      {
        OneEntry(values, i, j);
      }
    }
  }

  lemma {:induction false} ClauseIs(filters: seq<(string, string)>, values: Selection, parts: seq<string>)
    requires ProperSelection(values) && |parts| == |filters|
    requires forall k :: 0 <= k < |filters| ==> Sent(values, filters[k], parts[k])
    ensures FilledWhere(filters, values) == Clause(parts)
  {
    if filters != [] {
      var n := |filters| - 1;
      ClauseIs(filters[..n], values, parts[..n]);
      SentIs(values, filters[n], parts[n]);
    }
  }

  // ---- which placeholders the expanded clause holds

  lemma HoldsOnly(name: string, kind: string, key: string)
    requires IsName(name) && IsKind(kind) && key != "" && key[0] == '$'
    ensures Holds(Key(name, kind), key) <==> key <= Key(name, kind)
  {
    var k := Key(name, kind);
    KeyProper(name, kind, "");
    if key <= k {
      NotAtStart(k, key);
    } else {
      assert k + "" == k;
      HoldsBehindName(Binding(k, ""), "", key);
      assert !Holds("", key);
    }
  }

  lemma HoldsPlain(s: string, key: string)
    requires NoDollar(s) && key != "" && key[0] == '$'
    ensures !Holds(s, key)
  {
    assert s + "" == s;
    HoldsBehind(s, "", key);
    assert !Holds("", key);
  }

  lemma KeysEqual(name: string, kind: string, other: string, otherKind: string)
    requires IsName(name) && IsName(other) && IsKind(kind) && IsKind(otherKind)
    ensures Key(name, kind) <= Key(other, otherKind) <==> name == other && kind == otherKind
  {
    if Key(name, kind) <= Key(other, otherKind) {
      KeysPrefixFree(name, kind, other, otherKind);
    }
  }

  /** A filter holds the placeholder of its own variable and no other one. */
  lemma FilterHolds(column: string, variable: string, name: string, kind: string)
    requires IsName(column) && IsName(variable) && IsName(name) && IsKind(kind)
    ensures Holds(Membership(column, variable), Key(name, kind)) <==> name == variable && kind == "singlequote"
  {
    var key, own := Key(name, kind), Key(variable, "singlequote");
    KeyProper(name, kind, "");
    KeyTail(name, kind);
    KeyLacks(name, kind, '(');
    KeyLacks(name, kind, ')');
    WordChars(column);
    HoldsPlain(column + " IN ", key);
    HoldsPlain("", key);
    assert Membership(column, variable) == (column + " IN ") + ['('] + (own + ")");
    HoldsApart(column + " IN ", '(', own + ")", key);
    assert own + ")" == own + [')'] + "";
    HoldsApart(own, ')', "", key);
    HoldsOnly(variable, "singlequote", key);
    KeysEqual(name, kind, variable, "singlequote");
  }

  lemma TimeFilterHolds(name: string, kind: string)
    requires IsName(name) && IsKind(kind)
    ensures !Holds("$__timeFilter(time)", Key(name, kind))
  {
    var key, t := Key(name, kind), "__timeFilter(time)";
    TimeFilterText();
    HoldsFront('$', t, key);
    HoldsPlain(t, key);
    assert key[1] == '{';
  }

  /** One of the filters is about the variable, and it is not All. */
  predicate Used(filters: seq<(string, string)>, values: Selection, name: string) {
    Selected(values, name).Some? && exists k :: 0 <= k < |filters| && filters[k].1 == name
  }

  lemma {:induction false} UsedOn(filters: seq<(string, string)>, values: Selection, name: string)
    requires filters != []
    ensures Used(filters, values, name) <==>
            Used(filters[..|filters| - 1], values, name)
            || (filters[|filters| - 1].1 == name && Selected(values, name).Some?)
  {
    var init, n := filters[..|filters| - 1], |filters| - 1;
    if k :| 0 <= k < |filters| && filters[k].1 == name {
      assert k < n ==> init[k] == filters[k];
    }
    if k :| 0 <= k < |init| && init[k].1 == name {
      assert filters[k] == init[k];
    }
  }

  lemma HoldsAnd(clause: string, filter: string, key: string)
    requires key != "" && key[0] == '$' && ' ' !in key
    ensures Holds(clause + " AND " + filter, key) <==> Holds(clause, key) || Holds(filter, key)
  {
    assert clause + " AND " + filter == clause + [' '] + ("AND" + [' '] + filter);
    HoldsApart(clause, ' ', "AND" + [' '] + filter, key);
    HoldsApart("AND", ' ', filter, key);
    HoldsPlain("AND", key);
  }

  lemma {:induction false} ClauseHolds(filters: seq<(string, string)>, values: Selection, name: string, kind: string)
    requires forall i :: 0 <= i < |filters| ==> IsName(filters[i].0) && IsName(filters[i].1)
    requires IsName(name) && IsKind(kind)
    ensures Holds(WhereMeaning(filters, values), Key(name, kind)) <==>
            kind == "singlequote" && Used(filters, values, name)
  {
    if filters == [] {
      TimeFilterHolds(name, kind);
    } else {
      var init, last := filters[..|filters| - 1], filters[|filters| - 1];
      var filter := if Selected(values, last.1).None? then "1=1" else Membership(last.0, last.1);
      ClauseHolds(init, values, name, kind);
      UsedOn(filters, values, name);
      KeyProper(name, kind, "");
      HoldsAnd(WhereMeaning(init, values), filter, Key(name, kind));
      if Selected(values, last.1).None? {
        HoldsPlain("1=1", Key(name, kind));
      } else {
        FilterHolds(last.0, last.1, name, kind);
      }
    }
  }

  /**
   * No selected value of a variable that a filter is about holds a placeholder that is filled in after the
   * variable's own.
   */
  predicate NoLaterUsed(filters: seq<(string, string)>, values: Selection, boxes: seq<(string, string)>) {
    var r := Bindings(values, boxes);
    forall i, j, k ::
      0 <= i < |values| && values[i].1.Some? && i < j < |r| && 0 <= k < |filters| && filters[k].1 == values[i].0 ==>
        !HoldsAny(values[i].1.value, r[j].key)
  }

  lemma {:induction false} PlaceholderUsed(filters: seq<(string, string)>, values: Selection,
      boxes: seq<(string, string)>, i: nat)
    requires ProperSelection(values) && ProperBoxes(boxes) && i < |values| + |boxes|
    requires forall k :: 0 <= k < |filters| ==> IsName(filters[k].0) && IsName(filters[k].1)
    ensures Holds(WhereMeaning(filters, values), Bindings(values, boxes)[i].key) <==>
            i < |values| && values[i].1.Some? && exists k :: 0 <= k < |filters| && filters[k].1 == values[i].0
  {
    BindingKey(values, boxes, i);
    ClauseHolds(filters, values, NameOf(values, boxes, i), KindOf(values, i));
    if i < |values| {
      SelectedEntry(values, i);
    }
  }

  lemma {:induction false} LaterUsed(filters: seq<(string, string)>, values: Selection, boxes: seq<(string, string)>)
    requires ProperSelection(values) && ProperBoxes(boxes)
    requires forall k :: 0 <= k < |filters| ==> IsName(filters[k].0) && IsName(filters[k].1)
    ensures NoLaterPlaceholder(WhereMeaning(filters, values), Bindings(values, boxes), Inserted(values, boxes))
       <==> NoLaterUsed(filters, values, boxes)
  {
    var s, r, texts := WhereMeaning(filters, values), Bindings(values, boxes), Inserted(values, boxes);
    forall i | 0 <= i < |r|
      ensures Holds(s, r[i].key) <==>
              i < |values| && values[i].1.Some? && exists k :: 0 <= k < |filters| && filters[k].1 == values[i].0
      ensures i < |values| && values[i].1.Some? ==> texts[i] == values[i].1.value
    {
      PlaceholderUsed(filters, values, boxes, i);
    }
  }

  /**
   * The whole path of a panel's WHERE clause: `interpolate` returns the clause in which every filter of a
   * variable with selected values compares with just those values, quoted, and every other filter is 1=1, if and
   * only if no value of a variable that a filter is about holds a placeholder that is filled in later.
   */
  lemma {:induction false} WhereFilled(filters: seq<(string, string)>, values: Selection, boxes: seq<(string, string)>,
      parts: seq<string>)
    requires ProperSelection(values) && ProperBoxes(boxes)
    requires forall k :: 0 <= k < |filters| ==> IsName(filters[k].0) && IsName(filters[k].1)
    requires |parts| == |filters| && forall k :: 0 <= k < |filters| ==> Sent(values, filters[k], parts[k])
    ensures Interpolated(Where(filters), values, boxes) == Ok(Clause(parts)) <==> NoLaterUsed(filters, values, boxes)
  {
    var r := Bindings(values, boxes);
    ClauseIs(filters, values, parts);
    LaterUsed(filters, values, boxes);
    PlaceholdersAtOnce(WhereMeaning(filters, values), values, boxes);
    WhereExpands(filters, values);
    FillingFacts(values, boxes);
    ClauseFilled(filters, values, r);
    assert Interpolated(Where(filters), values, boxes) == Ok(Sequential(WhereMeaning(filters, values), r));
  }
}

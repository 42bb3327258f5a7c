/**
 * Interpolation of a panel query of the ClickHouse boards: `interpolate` in
 * dashboards/check_queries.py, and the filters of dashboards/builder/clickhouse.py it is fed with.
 */
module Interpolation {
  import opened Text
  import opened Macro
  import Quoting
  import Substitution

  const MACRO_NAME := "$__conditionalAll"
  const MACRO := MACRO_NAME + "("

  /** The selected values of a variable; `None` is All. A variable that is not listed is All, too. */
  type Selection = seq<(string, Option<seq<string>>)>

  /** `values.get(name)`: the selection of the first entry with that name. */
  function Selected(values: Selection, name: string): (r: Option<seq<string>>)
    ensures (forall i :: 0 <= i < |values| ==> values[i].0 != name) ==> r.None?
    ensures forall i :: 0 <= i < |values| && values[i].0 == name && (forall j :: 0 <= j < i ==> values[j].0 != name) ==>
              r == values[i].1
  {
    if values == [] then None
    else if values[0].0 == name then values[0].1
    else
      assert forall i :: 0 < i < |values| ==> values[i] == values[1..][i - 1];
      Selected(values[1..], name)
  }

  predicate IsWord(c: char) {
    'a' <= c <= 'z' || 'A' <= c <= 'Z' || '0' <= c <= '9' || c == '_'
  }

  /** The characters from `first` on, in the order of their codes. */
  predicate Consecutive(s: string, first: char) {
    forall i :: 0 <= i < |s| ==> s[i] as int == first as int + i
  }

  lemma InConsecutive(s: string, first: char, c: char)
    requires Consecutive(s, first)
    ensures c in s <==> first as int <= c as int < first as int + |s|
  {
    var i := c as int - first as int;
    if 0 <= i < |s| {
      assert s[i] == c;
    }
  }

  /** The word characters, one by one. */
  lemma WordCharacters(c: char)
    ensures IsWord(c) <==>
              || c in "abcdefghijklmnopqrstuvwxyz" || c in "ABCDEFGHIJKLMNOPQRSTUVWXYZ"
              || c in "0123456789" || c == '_'
  {
    InConsecutive("abcdefghijklmnopqrstuvwxyz", 'a', c);
    InConsecutive("ABCDEFGHIJKLMNOPQRSTUVWXYZ", 'A', c);
    InConsecutive("0123456789", '0', c);
  }

  predicate AllWord(s: string) {
    forall i :: 0 <= i < |s| ==> IsWord(s[i])
  }

  /** The longest prefix of word characters. */
  function Word(s: string): (r: string)
    ensures r <= s && AllWord(r) && (|r| < |s| ==> !IsWord(s[|r|]))
  {
    if s != "" && IsWord(s[0]) then [s[0]] + Word(s[1..]) else ""
  }

  /** The first match of the regular expression \$\{?(\w+): its group. */
  function FirstVariable(s: string): Option<string> {
    if s == "" then None
    else if s[0] == '$' && VariableAt(s[1..]) != "" then Some(VariableAt(s[1..]))
    else FirstVariable(s[1..])
  }

  function VariableAt(s: string): string {
    if s != "" && s[0] == '{' then Word(s[1..]) else Word(s)
  }

  /** `s` starts with "$name" or "${name", and the name cannot be longer. */
  ghost predicate Names(s: string, name: string) {
    && name != "" && AllWord(name)
    && ((("$" + name) <= s && Ends(s, 1 + |name|)) || (("${" + name) <= s && Ends(s, 2 + |name|)))
  }

  predicate Ends(s: string, n: nat) {
    n >= |s| || !IsWord(s[n])
  }

  lemma DollarInFront(name: string, t: string)
    ensures ("$" + name) <= "$" + t <==> name <= t
    ensures ("${" + name) <= "$" + t <==> ("{" + name) <= t
  {
    assert ("$" + t)[1..] == t && "${" + name == "$" + ("{" + name);
    assert name <= t ==> ("$" + name)[1..] == name;
    assert forall x: string :: ("$" + x)[1..] == x;
  }

  lemma BraceInFront(name: string, u: string)
    ensures ("{" + name) <= "{" + u <==> name <= u
  {
    assert ("{" + u)[1..] == u && ("{" + name)[1..] == name;
  }

  lemma FrontOf(name: string, t: string)
    ensures ("{" + name) <= t ==> t != "" && t[0] == '{'
    ensures name != "" && name <= t && AllWord(name) ==> t != "" && IsWord(t[0])
  {
  }

  lemma NamesHere(s: string, name: string)
    ensures Names(s, name) <==> s != "" && s[0] == '$' && name != "" && VariableAt(s[1..]) == name
  {
    if s != "" && s[0] == '$' {
      var t := s[1..];
      assert s == "$" + t;
      DollarInFront(name, t);
      FrontOf(name, t);
      if t != "" && t[0] == '{' {
        var u := t[1..];
        assert t == "{" + u;
        BraceInFront(name, u);
        WordIs(u, name);
      } else {
        WordIs(t, name);
      }
    }
  }

  lemma {:induction false} WordIs(u: string, name: string)
    ensures Word(u) == name <==> name <= u && AllWord(name) && (|name| < |u| ==> !IsWord(u[|name|]))
  {
    if u != "" && IsWord(u[0]) && name != "" {
      WordIs(u[1..], name[1..]);
      assert u == [u[0]] + u[1..] && name == [name[0]] + name[1..];
      AllWordCons(name[0], name[1..]);
      assert name[0] == u[0] ==> (name <= u <==> name[1..] <= u[1..]);
    }
  }

  lemma AllWordCons(c: char, s: string)
    ensures AllWord([c] + s) <==> IsWord(c) && AllWord(s)
  {
    assert ([c] + s)[1..] == s && ([c] + s)[0] == c;
  }

  /** No variable is named in the first `n` places. */
  ghost predicate NoneNamed(s: string, n: nat) {
    forall i: nat, name :: i < n && i <= |s| ==> !Names(s[i..], name)
  }

  lemma {:induction false} NoneNamedTail(s: string, n: nat)
    requires s != "" && n > 0 && NoneNamed(s, n)
    ensures NoneNamed(s[1..], n - 1) && FirstVariable(s) == FirstVariable(s[1..])
  {
    forall i: nat, name | i < n - 1 && i <= |s[1..]|
      ensures !Names(s[1..][i..], name)
    {
      assert s[1..][i..] == s[i + 1..];
    }
    assert s[0..] == s;
    NamesHere(s, VariableAt(s[1..]));
  }

  /** The variable found is the one at the first place where any is named. */
  lemma {:induction false} FirstVariableIs(s: string, i: nat, name: string)
    requires i <= |s| && Names(s[i..], name) && NoneNamed(s, i)
    ensures FirstVariable(s) == Some(name)
  {
    if i == 0 {
      assert s[0..] == s;
      NamesHere(s, name);
    } else {
      NoneNamedTail(s, i);
      assert s[1..][i - 1..] == s[i..];
      FirstVariableIs(s[1..], i - 1, name);
    }
  }

  lemma {:induction false} NoVariableIn(s: string)
    requires NoneNamed(s, |s| + 1)
    ensures FirstVariable(s) == None
  {
    if s != "" {
      NoneNamedTail(s, |s| + 1);
      NoVariableIn(s[1..]);
    }
  }

  /** What replaces one macro call, or why the call cannot be read. */
  function Choice(args: seq<string>, values: Selection): Result<string>
    requires args != []
  {
    if |args| < 2 then Err(MissingArgument)
    else
      match FirstVariable(args[1])
      case None => Err(NoVariable)
      case Some(name) => Ok(if Selected(values, name).None? then "1=1" else args[0])
  }

  lemma ChoiceIsShorter(sql: string, pos: nat, args: seq<string>, end: nat, values: Selection)
    requires At(sql, pos, MACRO) && IsCall(sql, pos + |MACRO| - 1, args, end)
    requires Choice(args, values).Ok?
    ensures |Choice(args, values).value| < end - pos
    ensures pos + |MACRO| <= end <= |sql|
  {
    JoinLongerThanFirst(args);
    assert |sql[pos + |MACRO| - 1..end]| == |Join(args, ",")| + 2;
  }

  lemma {:induction false} JoinLongerThanFirst(args: seq<string>)
    requires args != []
    ensures |args[0]| <= |Join(args, ",")|
  {
    if |args| > 1 {
      JoinLongerThanFirst(args[..|args| - 1]);
    }
  }

  /** The text after all macro calls have been replaced, the leftmost first. Every step shortens it. */
  ghost function Expand(sql: string, values: Selection): (r: Result<string>)
    ensures r.Ok? ==> Find(r.value, MACRO).None?
    decreases |sql|
  {
    match Find(sql, MACRO)
    case None => Ok(sql)
    case Some(pos) =>
      match Call(sql, pos + |MACRO| - 1)
      case Err(e) => Err(e)
      case Ok((args, end)) =>
        match Choice(args, values)
        case Err(e) => Err(e)
        case Ok(text) =>
          ChoiceIsShorter(sql, pos, args, end, values);
          Expand(sql[..pos] + text + sql[end..], values)
  }

  // ---- the values: quoted lists and text boxes

  /** The replacements after the expansion, in the order in which they are made. */
  function Bindings(values: Selection, textboxes: seq<(string, string)>): seq<Substitution.Binding> {
    SelectionBindings(values) + TextboxBindings(textboxes)
  }

  function SelectionBindings(values: Selection): (r: seq<Substitution.Binding>)
    ensures |r| == |values|
    ensures forall i :: 0 <= i < |r| ==> r[i].key == "${" + values[i].0 + ":singlequote}"
  {
    seq(|values|, i requires 0 <= i < |values| =>
      Substitution.Binding("${" + values[i].0 + ":singlequote}",
                           Quoting.QuotedList(if values[i].1.Some? then values[i].1.value else [])))
  }

  function TextboxBindings(textboxes: seq<(string, string)>): (r: seq<Substitution.Binding>)
    ensures |r| == |textboxes|
    ensures forall i :: 0 <= i < |r| ==> r[i].key == "${" + textboxes[i].0 + ":sqlstring}"
  {
    seq(|textboxes|, i requires 0 <= i < |textboxes| =>
      Substitution.Binding("${" + textboxes[i].0 + ":sqlstring}", Quoting.QuoteText(textboxes[i].1)))
  }

  // ---- the three loops

  /** The macro loop. It terminates on every text; every way in which reading a macro can fail is an error here. */
  method ExpandMacros(query: string, values: Selection) returns (r: Result<string>)
    ensures r == Expand(query, values)
  {
    var sql := query;
    while true
      invariant Expand(sql, values) == Expand(query, values)
      decreases |sql|
    {
      var pos := Find(sql, MACRO);
      if pos.None? {
        break;
      }
      var call := MacroArgs(sql, pos.value + |MACRO| - 1);
      if call.Err? {
        return Err(call.error);
      }
      var (args, end) := call.value;
      if |args| < 2 {
        return Err(MissingArgument);
      }
      var name := FirstVariable(args[1]);
      if name.None? {
        return Err(NoVariable);
      }
      ChoiceIsShorter(sql, pos.value, args, end, values);
      sql := sql[..pos.value] + (if Selected(values, name.value).None? then "1=1" else args[0]) + sql[end..];
    }
    return Ok(sql);
  }

  /** Each of the two replacement loops. */
  method ReplaceAll(text: string, bindings: seq<Substitution.Binding>) returns (sql: string)
    requires Substitution.HasKeys(bindings)
    ensures sql == Substitution.Sequential(text, bindings)
  {
    sql := text;
    for i := 0 to |bindings|
      invariant sql == Substitution.Sequential(text, bindings[..i])
    {
      Substitution.SequentialOn(text, bindings[..i], bindings[i]);
      assert bindings[..i + 1] == bindings[..i] + [bindings[i]];
      sql := Replace(sql, bindings[i].key, bindings[i].value);
    }
    assert bindings[..|bindings|] == bindings;
  }

  /** The expanded text with its placeholders replaced, or why a macro cannot be expanded. */
  ghost function Interpolated(query: string, values: Selection, textboxes: seq<(string, string)>): Result<string> {
    match Expand(query, values)
    case Err(e) => Err(e)
    case Ok(s) => Ok(Substitution.Sequential(s, Bindings(values, textboxes)))
  }

  /** The whole function: the macro loop, then the quoted lists, then the text boxes. */
  method Interpolate(query: string, values: Selection, textboxes: seq<(string, string)>) returns (r: Result<string>)
    ensures r == Interpolated(query, values, textboxes)
  {
    var expanded := ExpandMacros(query, values);
    if expanded.Err? {
      return expanded;
    }
    Substitution.SequentialSplit(expanded.value, SelectionBindings(values), TextboxBindings(textboxes));
    var sql := ReplaceAll(expanded.value, SelectionBindings(values));
    sql := ReplaceAll(sql, TextboxBindings(textboxes));
    return Ok(sql);
  }

  // ---- templates: what the author of a query writes, and what it means

  /** A query with conditional filters; the body of a filter may contain further filters. */
  datatype Template =
    | End
    | Literal(text: string, rest: Template)
    | Conditional(body: Template, variable: string, rest: Template)

  function Render(t: Template): string {
    match t
    case End => ""
    case Literal(text, rest) => text + Render(rest)
    case Conditional(body, variable, rest) => MACRO_NAME + Print([Render(body), variable]) + Render(rest)
  }

  /** Every filter is decided by its own variable, independently of the text around it. */
  function Meaning(t: Template, values: Selection): string {
    match t
    case End => ""
    case Literal(text, rest) => text + Meaning(rest, values)
    case Conditional(body, variable, rest) =>
      var name := FirstVariable(variable);
      (if name.Some? && Selected(values, name.value).Some? then Meaning(body, values) else "1=1")
          + Meaning(rest, values)
  }

  /** No suffix of `s` is a macro or the beginning of one. */
  ghost predicate Quiet(s: string) {
    forall i :: 0 <= i < |s| ==> !(s[i..] <= MACRO) && !(MACRO <= s[i..])
  }

  /** Literals are quiet; the two arguments of a filter have no comma of their own. */
  ghost predicate WellFormed(t: Template) {
    match t
    case End => true
    case Literal(text, rest) => Quiet(text) && WellFormed(rest)
    case Conditional(body, variable, rest) =>
      && WellFormed(body) && Plain(Render(body))
      && Plain(variable) && FirstVariable(variable).Some?
      && WellFormed(rest)
  }

  function Append(a: Template, b: Template): Template {
    match a
    case End => b
    case Literal(text, rest) => Literal(text, Append(rest, b))
    case Conditional(body, variable, rest) => Conditional(body, variable, Append(rest, b))
  }

  function Size(t: Template): nat {
    match t
    case End => 0
    case Literal(_, rest) => 1 + Size(rest)
    case Conditional(body, _, rest) => 1 + Size(body) + Size(rest)
  }

  lemma {:induction false} RenderAppend(a: Template, b: Template)
    ensures Render(Append(a, b)) == Render(a) + Render(b)
  {
    match a
    case End =>
    case Literal(text, rest) =>
      RenderAppend(rest, b);
      Regroup(text, Render(rest), Render(b));
    case Conditional(body, variable, rest) =>
      RenderAppend(rest, b);
      Regroup(MACRO_NAME + Print([Render(body), variable]), Render(rest), Render(b));
  }

  lemma {:induction false} AppendFacts(a: Template, b: Template, values: Selection)
    ensures Meaning(Append(a, b), values) == Meaning(a, values) + Meaning(b, values)
    ensures WellFormed(a) && WellFormed(b) ==> WellFormed(Append(a, b))
    ensures Size(Append(a, b)) == Size(a) + Size(b)
  {
    match a
    case End =>
    case Literal(text, rest) =>
      AppendFacts(rest, b, values);
      Regroup(text, Meaning(rest, values), Meaning(b, values));
    case Conditional(body, variable, rest) =>
      AppendFacts(rest, b, values);
      var name := FirstVariable(variable);
      var chosen := if name.Some? && Selected(values, name.value).Some? then Meaning(body, values) else "1=1";
      Regroup(chosen, Meaning(rest, values), Meaning(b, values));
  }

  lemma QuietConcat(a: string, b: string)
    requires Quiet(a) && Quiet(b)
    ensures Quiet(a + b)
  {
    forall i | 0 <= i < |a + b|
      ensures !((a + b)[i..] <= MACRO) && !(MACRO <= (a + b)[i..])
    {
      if i < |a| {
        assert (a + b)[i..] == a[i..] + b;
      } else {
        assert (a + b)[i..] == b[i - |a|..];
      }
    }
  }

  /** The first macro of a text is found behind its quiet part. */
  lemma {:induction false} FindBehind(done: string, rest: string)
    requires Quiet(done)
    ensures MACRO <= rest ==> Find(done + rest, MACRO) == Some(|done|)
    ensures rest == "" ==> Find(done + rest, MACRO) == None
  {
    var s := done + rest;
    forall i: nat | i < |done|
      ensures !At(s, i, MACRO)
    {
      assert s[i..] == done[i..] + rest;
    }
    assert s[|done|..] == rest;
    if MACRO <= rest {
      assert At(s, |done|, MACRO);
    }
  }

  lemma ChosenTextIsQuiet()
    ensures Quiet("1=1")
  {
    assert "1=1"[0] == '1' && "1=1"[1] == '=' && "1=1"[2] == '1';
  }

  /** Behind a quiet text the call is found. */
  lemma {:induction false} FoundMacro(done: string, args: seq<string>, rest: string)
    requires Quiet(done)
    ensures Find(done + MACRO_NAME + Print(args) + rest, MACRO) == Some(|done|)
  {
    Regroup(done + MACRO_NAME, Print(args), rest);
    Regroup(done, MACRO_NAME, Print(args) + rest);
    assert MACRO_NAME + (Print(args) + rest) == MACRO + (Join(args, ",") + ")" + rest);
    FindBehind(done, MACRO_NAME + (Print(args) + rest));
  }

  /** It is read back, whatever stands before and after it. */
  lemma FoundArgs(before: string, args: seq<string>, rest: string)
    requires PlainArgs(args)
    ensures Call(before + Print(args) + rest, |before|) == Ok((args, |before| + |Print(args)|))
  {
    PrintedCallIsCall(before, args, rest);
    CallIs(before + Print(args) + rest, |before|, args, |before| + |Print(args)|);
  }

  lemma AroundCall(done: string, call: string, rest: string)
    ensures (done + MACRO_NAME + call + rest)[..|done|] == done
    ensures (done + MACRO_NAME + call + rest)[|done| + |MACRO_NAME| + |call|..] == rest
  {
  }

  /** One turn of the loop: the call is replaced. */
  lemma {:induction false} ExpandCall(done: string, args: seq<string>, rest: string, values: Selection)
    requires Quiet(done) && PlainArgs(args) && Choice(args, values).Ok?
    ensures Expand(done + MACRO_NAME + Print(args) + rest, values) ==
            Expand(done + Choice(args, values).value + rest, values)
  {
    FoundMacro(done, args, rest);
    FoundArgs(done + MACRO_NAME, args, rest);
    AroundCall(done, Print(args), rest);
  }

  lemma CallIs(sql: string, start: nat, args: seq<string>, end: nat)
    requires IsCall(sql, start, args, end)
    ensures Call(sql, start) == Ok((args, end))
  {
    var c := Call(sql, start);
    CallUnique(sql, start, args, end, c.value.0, c.value.1);
  }

  lemma PrintPair(a: string, b: string)
    ensures Print([a, b]) == "(" + a + "," + b + ")"
  {
    assert [a, b][..1] == [a] && Join([a], ",") == a;
    assert Join([a, b], ",") == a + "," + b;
  }

  lemma {:induction false} ExpandConditional(done: string, body: Template, variable: string, rest: Template,
      values: Selection)
    requires Quiet(done) && Plain(Render(body)) && Plain(variable) && FirstVariable(variable).Some?
    ensures Expand(done + Render(Conditional(body, variable, rest)), values) ==
            Expand(done + (if Selected(values, FirstVariable(variable).value).None? then "1=1" else Render(body))
                + Render(rest),
                   values)
  {
    Regroup(done, MACRO_NAME + Print([Render(body), variable]), Render(rest));
    Regroup(done, MACRO_NAME, Print([Render(body), variable]));
    ExpandCall(done, [Render(body), variable], Render(rest), values);
  }

  /**
   * The meaning is preserved: on every well-formed template, with filters nested to any depth, the
   * textual loop computes the template's meaning. It never fails.
   */
  lemma {:induction false} ExpandMeaning(done: string, t: Template, values: Selection)
    requires Quiet(done) && WellFormed(t)
    ensures Expand(done + Render(t), values) == Ok(done + Meaning(t, values))
    decreases Size(t)
  {
    match t
    case End =>
      FindBehind(done, "");
      assert done + "" == done;
    case Literal(text, rest) =>
      QuietConcat(done, text);
      ExpandMeaning(done + text, rest, values);
      Regroup(done, text, Render(rest));
      Regroup(done, text, Meaning(rest, values));
    case Conditional(body, variable, rest) =>
      ExpandConditional(done, body, variable, rest, values);
      if Selected(values, FirstVariable(variable).value).None? {
        ChosenTextIsQuiet();
        QuietConcat(done, "1=1");
        ExpandMeaning(done + "1=1", rest, values);
        Regroup(done, "1=1", Meaning(rest, values));
      } else {
        AppendFacts(body, rest, values);
        RenderAppend(body, rest);
        ExpandMeaning(done, Append(body, rest), values);
        Regroup(done, Render(body), Render(rest));
      }
  }

  // ---- the multi-value filter and the WHERE clause of the ClickHouse boards

  /** `f_in(column, variable)`. */
  function FilterIn(column: string, variable: string): string {
    "$__conditionalAll(" + column + " IN (${" + variable + ":singlequote}), $" + variable + ")"
  }

  function Membership(column: string, variable: string): string {
    column + " IN (" + ListPlaceholder(variable) + ")"
  }

  function ListPlaceholder(variable: string): string {
    "${" + variable + ":singlequote}"
  }

  /** `where(f_in(...), ...)`. */
  function Where(filters: seq<(string, string)>): string {
    if filters == [] then "$__timeFilter(time)"
    else
      var last := filters[|filters| - 1];
      Where(filters[..|filters| - 1]) + " AND " + FilterIn(last.0, last.1)
  }

  /** The clause the filters stand for: a filter of a variable that is All drops out. */
  function WhereMeaning(filters: seq<(string, string)>, values: Selection): string {
    if filters == [] then "$__timeFilter(time)"
    else
      var last := filters[|filters| - 1];
      WhereMeaning(filters[..|filters| - 1], values) + " AND "
      + (if Selected(values, last.1).None? then "1=1" else Membership(last.0, last.1))
  }

  predicate IsName(s: string) {
    s != "" && forall i :: 0 <= i < |s| ==> IsWord(s[i])
  }

  function FilterTemplate(column: string, variable: string): Template {
    Conditional(Literal(Membership(column, variable), End), " $" + variable, End)
  }

  function WhereTemplate(filters: seq<(string, string)>): Template {
    if filters == [] then Literal("$__timeFilter(time)", End)
    else
      var last := filters[|filters| - 1];
      Append(WhereTemplate(filters[..|filters| - 1]), Literal(" AND ", FilterTemplate(last.0, last.1)))
  }

  lemma {:induction false} PlainConcat(a: string, b: string)
    requires Plain(a) && Plain(b)
    ensures Plain(a + b)
  {
    PlainMeans(a);
    PlainMeans(b);
    DepthConcat(a, b);
    forall k | 0 <= k <= |a + b|
      ensures Depth((a + b)[..k]) >= 0
      ensures k < |a + b| && (a + b)[k] == ',' ==> Depth((a + b)[..k]) > 0
    {
      DepthPrefix(a, b, k);
      if k == |a| {
        assert b[..0] == "" && a[..k] == a;
      }
    }
    PlainMeans(a + b);
  }

  lemma {:induction false} PlainWithoutSyntax(s: string)
    requires forall i :: 0 <= i < |s| ==> s[i] !in "(),"
    ensures Plain(s)
  {
    if s != "" {
      PlainWithoutSyntax(s[..|s| - 1]);
    }
  }

  lemma {:induction false} OpenParenthesis(s: string)
    requires forall i :: 0 <= i < |s| ==> s[i] !in "(),"
    ensures Open("(" + s) && Depth("(" + s) == 1
  {
    var t := "(" + s;
    if s == "" {
      assert t == [] + ['('];
      OpenExtends("", '(');
    } else {
      OpenParenthesis(s[..|s| - 1]);
      assert t[..|t| - 1] == "(" + s[..|s| - 1];
      assert t[|t| - 1] == s[|s| - 1];
    }
  }

  lemma PlainParentheses(s: string)
    requires forall i :: 0 <= i < |s| ==> s[i] !in "(),"
    ensures Plain("(" + s + ")")
  {
    OpenParenthesis(s);
    var t := "(" + s + ")";
    assert t[..|t| - 1] == "(" + s;
  }

  /** The two arguments of a filter over a word-like column and variable have no comma of their own. */
  lemma FilterPlain(column: string, variable: string)
    requires IsName(column) && IsName(variable)
    ensures Plain(Membership(column, variable)) && Plain(" $" + variable)
  {
    assert Membership(column, variable) == column + " IN " + ("(" + ListPlaceholder(variable) + ")");
    PlainWithoutSyntax(column + " IN ");
    PlainParentheses(ListPlaceholder(variable));
    PlainConcat(column + " IN ", "(" + ListPlaceholder(variable) + ")");
    PlainWithoutSyntax(" $" + variable);
  }

  lemma FilterRender(column: string, variable: string)
    ensures Render(FilterTemplate(column, variable)) == FilterIn(column, variable)
  {
    var body := Membership(column, variable);
    PrintPair(body, " $" + variable);
    assert Render(Literal(body, End)) == body;
    assert FilterIn(column, variable) == MACRO_NAME + ("(" + body + "," + (" $" + variable) + ")");
  }

  lemma FilterWellFormed(column: string, variable: string)
    requires IsName(column) && IsName(variable)
    ensures WellFormed(FilterTemplate(column, variable))
  {
    var body := Membership(column, variable);
    FilterPlain(column, variable);
    MembershipQuiet(column, variable);
    FirstVariableOfName(variable);
    assert Render(Literal(body, End)) == body;
  }

  lemma MembershipQuiet(column: string, variable: string)
    requires IsName(column) && IsName(variable)
    ensures Quiet(Membership(column, variable))
  {
    var body := Membership(column, variable);
    var d := |column| + 5;
    assert body[d] == '$' && body[d + 1] == '{';
    forall i | 0 <= i < |body|
      ensures !(body[i..] <= MACRO) && !(MACRO <= body[i..])
    {
      assert i != d ==> body[i] != '$';
      assert MACRO[0] == '$' && MACRO[1] == '_';
      assert body[i..][0] == body[i] && (i == d ==> body[i..][1] == '{');
    }
  }

  lemma {:induction false} WordOfName(s: string)
    requires forall i :: 0 <= i < |s| ==> IsWord(s[i])
    ensures Word(s) == s
  {
    if s != "" {
      WordOfName(s[1..]);
      assert s == [s[0]] + s[1..];
    }
  }

  lemma {:induction false} FirstVariableOfName(variable: string)
    requires IsName(variable)
    ensures FirstVariable(" $" + variable) == Some(variable)
  {
    var s := " $" + variable;
    assert s[1..] == "$" + variable && ("$" + variable)[1..] == variable;
    WordOfName(variable);
  }

  lemma {:induction false} WhereTemplateFacts(filters: seq<(string, string)>, values: Selection)
    requires forall i :: 0 <= i < |filters| ==> IsName(filters[i].0) && IsName(filters[i].1)
    ensures WellFormed(WhereTemplate(filters))
    ensures Render(WhereTemplate(filters)) == Where(filters)
    ensures Meaning(WhereTemplate(filters), values) == WhereMeaning(filters, values)
  {
    if filters == [] {
      var s := "$__timeFilter(time)";
      forall i | 0 <= i < |s|
        ensures !(s[i..] <= MACRO) && !(MACRO <= s[i..])
      {
        assert MACRO[0] == '$' && MACRO[3] == 'c' && s[i..][0] == s[i];
        assert i > 0 ==> s[i] != '$';
        assert i == 0 ==> s[i..][3] == 't';
      }
      assert s + "" == s;
    } else {
      var init, last := filters[..|filters| - 1], filters[|filters| - 1];
      WhereTemplateFacts(init, values);
      AppendFilter(WhereTemplate(init), last.0, last.1, values);
    }
  }

  lemma {:induction false} AppendFilter(t: Template, column: string, variable: string, values: Selection)
    requires WellFormed(t) && IsName(column) && IsName(variable)
    ensures var t' := Append(t, Literal(" AND ", FilterTemplate(column, variable)));
            && WellFormed(t')
            && Render(t') == Render(t) + " AND " + FilterIn(column, variable)
            && Meaning(t', values) == Meaning(t, values) + " AND "
               + (if Selected(values, variable).None? then "1=1" else Membership(column, variable))
  {
    var filter := FilterTemplate(column, variable);
    FilterWellFormed(column, variable);
    FilterRender(column, variable);
    AppendFacts(t, Literal(" AND ", filter), values);
    RenderAppend(t, Literal(" AND ", filter));
    AndQuiet();
    Regroup(Render(t), " AND ", FilterIn(column, variable));
    FilterMeaning(column, variable, values);
    Regroup(Meaning(t, values), " AND ", Meaning(filter, values));
  }

  lemma {:induction false} FilterMeaning(column: string, variable: string, values: Selection)
    requires IsName(column) && IsName(variable)
    ensures Meaning(FilterTemplate(column, variable), values) ==
            if Selected(values, variable).None? then "1=1" else Membership(column, variable)
  {
    FirstVariableOfName(variable);
    assert Membership(column, variable) + "" + "" == Membership(column, variable);
  }

  lemma AndQuiet()
    ensures Quiet(" AND ")
  {
    var s := " AND ";
    forall i | 0 <= i < |s|
      ensures !(s[i..] <= MACRO) && !(MACRO <= s[i..])
    {
      assert MACRO[0] == '$' && s[i..][0] == s[i];
    }
  }

  /** The WHERE clause of a panel, expanded: exactly the filters of the variables that are not All remain. */
  lemma {:induction false} WhereExpands(filters: seq<(string, string)>, values: Selection)
    requires forall i :: 0 <= i < |filters| ==> IsName(filters[i].0) && IsName(filters[i].1)
    ensures Expand(Where(filters), values) == Ok(WhereMeaning(filters, values))
  {
    WhereTemplateFacts(filters, values);
    ExpandMeaning("", WhereTemplate(filters), values);
    assert "" + Where(filters) == Where(filters);
    assert "" + WhereMeaning(filters, values) == WhereMeaning(filters, values);
  }
}

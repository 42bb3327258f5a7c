/** The argument scanner of a macro call: `_macro_args` of dashboards/check_queries.py. */
module Macro {
  import opened Text

  datatype Error = Unbalanced | MissingArgument | NoVariable
  datatype Result<+T> = Ok(value: T) | Err(error: Error)

  /** Parenthesis depth at the end of `s`. */
  function Depth(s: string): int {
    if s == "" then 0 else Depth(s[..|s| - 1]) + Nesting(s[|s| - 1])
  }

  function Nesting(c: char): int {
    if c == '(' then 1 else if c == ')' then -1 else 0
  }

  /** An argument being read: never closes more than it opened, every comma is inside parentheses. */
  ghost predicate Open(a: string) {
    a == "" ||
    var n := |a| - 1;
    Open(a[..n]) && Depth(a) >= 0 && (a[n] == ',' ==> Depth(a[..n]) > 0)
  }

  /** A complete argument: balanced, without a top-level comma. */
  ghost predicate Plain(a: string) {
    Open(a) && Depth(a) == 0
  }

  ghost predicate PlainArgs(args: seq<string>) {
    args != [] && forall i :: 0 <= i < |args| ==> Plain(args[i])
  }

  /** How a call with these arguments is written. */
  function Print(args: seq<string>): string {
    "(" + Join(args, ",") + ")"
  }

  /** `sql[start..end]` is the written form of a call with the arguments `args`. */
  ghost predicate IsCall(sql: string, start: nat, args: seq<string>, end: nat) {
    start < end <= |sql| && PlainArgs(args) && sql[start..end] == Print(args)
  }

  /** The parenthesis at `start` is never closed. */
  ghost predicate Unclosed(sql: string, start: nat)
    requires start <= |sql|
  {
    forall j :: start < j <= |sql| ==> Depth(sql[start..j]) > 0
  }

  lemma {:induction false} JoinGrows(args: seq<string>, last: string, c: char)
    ensures "(" + Join(args + [last + [c]], ",") == "(" + Join(args + [last], ",") + [c]
  {
  }

  // ---- depth

  lemma {:induction false} DepthConcat(a: string, b: string)
    ensures Depth(a + b) == Depth(a) + Depth(b)
  {
    if b == "" {
      assert a + b == a;
    } else {
      assert (a + b)[..|a + b| - 1] == a + b[..|b| - 1];
      DepthConcat(a, b[..|b| - 1]);
    }
  }

  lemma {:induction false} DepthPrefix(a: string, b: string, k: nat)
    requires k <= |a| + |b|
    ensures Depth((a + b)[..k]) == if k <= |a| then Depth(a[..k]) else Depth(a) + Depth(b[..k - |a|])
  {
    if k <= |a| {
      assert (a + b)[..k] == a[..k];
    } else {
      assert (a + b)[..k] == a + b[..k - |a|];
      DepthConcat(a, b[..k - |a|]);
    }
  }

  lemma {:induction false} OpenPrefix(a: string, k: nat)
    requires Open(a) && k <= |a|
    ensures Depth(a[..k]) >= 0 && (k < |a| && a[k] == ',' ==> Depth(a[..k]) > 0)
  {
    if k < |a| - 1 {
      OpenPrefix(a[..|a| - 1], k);
      assert a[..|a| - 1][..k] == a[..k];
    } else if k == |a| {
      assert a[..k] == a;
    } else {
      OpenPrefix(a[..k], k);
      assert a[..k][..k] == a[..k];
    }
  }

  /** What an argument is, character by character: both directions. */
  lemma {:induction false} PlainMeans(a: string)
    ensures Plain(a) <==>
              && Depth(a) == 0
              && (forall k :: 0 <= k <= |a| ==> Depth(a[..k]) >= 0)
              && (forall k :: 0 <= k < |a| && a[k] == ',' ==> Depth(a[..k]) > 0)
  {
    if Open(a) {
      forall k | 0 <= k <= |a|
        ensures Depth(a[..k]) >= 0 && (k < |a| && a[k] == ',' ==> Depth(a[..k]) > 0)
      {
        OpenPrefix(a, k);
      }
    } else {
      var k := NotOpenAt(a);
    }
  }

  lemma {:induction false} NotOpenAt(a: string) returns (k: nat)
    requires !Open(a)
    ensures k <= |a| && (Depth(a[..k]) < 0 || (k < |a| && a[k] == ',' && Depth(a[..k]) <= 0))
  {
    var n := |a| - 1;
    if !Open(a[..n]) {
      k := NotOpenAt(a[..n]);
      assert a[..n][..k] == a[..k];
    } else if Depth(a) < 0 {
      k := |a|;
      assert a[..k] == a;
    } else {
      k := n;
    }
  }

  /** Inside a printed argument list the depth is never negative, and it is 0 at the end. */
  lemma {:induction false} JoinDepth(args: seq<string>, k: nat)
    requires PlainArgs(args) && k <= |Join(args, ",")|
    ensures Depth(Join(args, ",")) == 0 && Depth(Join(args, ",")[..k]) >= 0
  {
    var last := args[|args| - 1];
    if |args| == 1 {
      OpenPrefix(last, k);
    } else {
      var init := Join(args[..|args| - 1], ",");
      JoinDepth(args[..|args| - 1], if k <= |init| then k else 0);
      DepthConcat(init, ",");
      DepthConcat(init + ",", last);
      DepthPrefix(init + ",", last, k);
      if k <= |init| {
        assert (init + ",")[..k] == init[..k];
      } else {
        assert (init + ",")[..|init| + 1] == init + ",";
        OpenPrefix(last, k - |init| - 1);
      }
    }
  }

  /** A printed call is closed at its last character and not before. */
  lemma PrintDepth(args: seq<string>, k: nat)
    requires PlainArgs(args) && 0 < k <= |Print(args)|
    ensures Depth(Print(args)[..k]) == 0 <==> k == |Print(args)|
    ensures Depth(Print(args)[..k]) >= 0
  {
    var body := Join(args, ",");
    JoinDepth(args, if 1 <= k <= 1 + |body| then k - 1 else 0);
    DepthConcat("(", body);
    DepthPrefix("(" + body, ")", k);
    if k <= 1 + |body| {
      DepthPrefix("(", body, k);
      assert "("[..1] == "(";
    }
  }

  // ---- the printed form determines the call

  lemma JoinSplitsAtTopComma(args: seq<string>) returns (p: nat)
    requires PlainArgs(args) && |args| > 1
    ensures p == |Join(args[..|args| - 1], ",")| < |Join(args, ",")|
    ensures Join(args, ",")[p] == ',' && Depth(Join(args, ",")[..p]) == 0
    ensures Join(args, ",")[..p] == Join(args[..|args| - 1], ",")
    ensures Join(args, ",")[p + 1..] == args[|args| - 1]
  {
    JoinDepth(args[..|args| - 1], 0);
    p := |Join(args[..|args| - 1], ",")|;
    assert Join(args, ",")[..p] == Join(args[..|args| - 1], ",");
  }

  /** A plain text after a balanced prefix has no comma at depth 0 of the whole. */
  lemma NoTopCommaAfter(s: string, from: nat, p: nat)
    requires from <= p < |s| && s[p] == ',' && Depth(s[..from]) == 0 && Depth(s[..p]) == 0
    ensures !Plain(s[from..])
  {
    assert s[..p] == s[..from] + s[from..][..p - from];
    DepthConcat(s[..from], s[from..][..p - from]);
    assert s[from..][p - from] == ',';
    if Open(s[from..]) {
      OpenPrefix(s[from..], p - from);
    }
  }

  /** The last top-level comma of a joined list is the one before its last part. */
  lemma LastTopComma(s: string, a: seq<string>, p: nat, b: seq<string>, q: nat)
    requires PlainArgs(a) && |a| > 1 && s == Join(a, ",") && p == |Join(a[..|a| - 1], ",")|
    requires PlainArgs(b) && |b| > 1 && s == Join(b, ",") && q == |Join(b[..|b| - 1], ",")|
    ensures p >= q
  {
    if p < q {
      var p' := JoinSplitsAtTopComma(a);
      var q' := JoinSplitsAtTopComma(b);
      DepthConcat(s[..p], ",");
      assert s[..p + 1] == s[..p] + ",";
      NoTopCommaAfter(s, p + 1, q);
    }
  }

  lemma {:induction false} OneOrMany(a: seq<string>, b: seq<string>)
    requires PlainArgs(a) && PlainArgs(b) && |a| == 1 && |b| > 1
    ensures Join(a, ",") != Join(b, ",")
  {
    var s := Join(b, ",");
    var p := JoinSplitsAtTopComma(b);
    assert s[..0] == "" && s[0..] == s;
    NoTopCommaAfter(s, 0, p);
  }

  lemma {:induction false} SplitSame(a: seq<string>, b: seq<string>)
    requires PlainArgs(a) && PlainArgs(b) && Join(a, ",") == Join(b, ",") && |a| > 1 && |b| > 1
    ensures Join(a[..|a| - 1], ",") == Join(b[..|b| - 1], ",") && a[|a| - 1] == b[|b| - 1]
  {
    var s := Join(a, ",");
    var p := JoinSplitsAtTopComma(a);
    var q := JoinSplitsAtTopComma(b);
    LastTopComma(s, a, p, b, q);
    LastTopComma(s, b, q, a, p);
  }

  lemma {:induction false} JoinInjective(a: seq<string>, b: seq<string>)
    requires PlainArgs(a) && PlainArgs(b) && Join(a, ",") == Join(b, ",")
    ensures a == b
  {
    if |a| == 1 && |b| > 1 {
      OneOrMany(a, b);
    } else if |b| == 1 && |a| > 1 {
      OneOrMany(b, a);
    } else if |a| > 1 {
      SplitSame(a, b);
      JoinInjective(a[..|a| - 1], b[..|b| - 1]);
      assert a == a[..|a| - 1] + [a[|a| - 1]] && b == b[..|b| - 1] + [b[|b| - 1]];
    }
  }

  /** Printing is injective even inside a longer text: a call has one reading and one end. */
  lemma CallUnique(sql: string, start: nat, a: seq<string>, aEnd: nat, b: seq<string>, bEnd: nat)
    requires IsCall(sql, start, a, aEnd) && IsCall(sql, start, b, bEnd)
    ensures a == b && aEnd == bEnd
  {
    if aEnd < bEnd {
      CallEndUnique(sql, start, a, aEnd, b, bEnd);
    } else if bEnd < aEnd {
      CallEndUnique(sql, start, b, bEnd, a, aEnd);
    }
    assert Join(a, ",") == sql[start..aEnd][1..|sql[start..aEnd]| - 1];
    assert Join(b, ",") == sql[start..aEnd][1..|sql[start..aEnd]| - 1];
    JoinInjective(a, b);
  }

  lemma CallEndUnique(sql: string, start: nat, a: seq<string>, aEnd: nat, b: seq<string>, bEnd: nat)
    requires IsCall(sql, start, a, aEnd) && IsCall(sql, start, b, bEnd)
    ensures aEnd >= bEnd
  {
    if aEnd < bEnd {
      var k := aEnd - start;
      assert Print(b)[..k] == sql[start..aEnd] == Print(a)[..k];
      PrintDepth(a, k);
      PrintDepth(b, k);
    }
  }

  /** A call that can be read is closed, so exactly one of the scanner's two outcomes is possible. */
  lemma CallIsClosed(sql: string, start: nat, args: seq<string>, end: nat)
    requires IsCall(sql, start, args, end)
    ensures !Unclosed(sql, start)
  {
    PrintDepth(args, end - start);
    assert Print(args)[..end - start] == sql[start..end];
  }

  /** Any plain argument list, printed between any two texts, is read back unchanged. */
  lemma PrintedCallIsCall(before: string, args: seq<string>, after: string)
    requires PlainArgs(args)
    ensures IsCall(before + Print(args) + after, |before|, args, |before| + |Print(args)|)
  {
    var sql := before + Print(args) + after;
    assert sql[|before|..|before| + |Print(args)|] == Print(args);
  }

  /** The one reading of the call at `start`, if it is closed. */
  ghost function Call(sql: string, start: nat): (r: Result<(seq<string>, nat)>)
    ensures r.Ok? ==> IsCall(sql, start, r.value.0, r.value.1)
    ensures r.Err? ==> r.error == Unbalanced && forall args, end :: !IsCall(sql, start, args, end)
  {
    if exists args, end :: IsCall(sql, start, args, end) then
      var args, end :| IsCall(sql, start, args, end);
      Ok((args, end))
    else
      Err(Unbalanced)
  }

  // ---- the scanner

  lemma {:induction false} OpenExtends(a: string, c: char)
    requires Open(a)
    requires Depth(a) + Nesting(c) >= 0 && (c == ',' ==> Depth(a) > 0)
    ensures Open(a + [c]) && Depth(a + [c]) == Depth(a) + Nesting(c)
  {
    assert (a + [c])[..|a|] == a;
  }

  /** The scanner's state before character `i`: the arguments so far, printed, are the text read. */
  ghost predicate Reading(sql: string, start: nat, i: nat, args: seq<string>, current: string) {
    && start < i <= |sql|
    && (forall k :: 0 <= k < |args| ==> Plain(args[k]))
    && Open(current)
    && sql[start..i] == "(" + Join(args + [current], ",")
    && Depth(sql[start..i]) == 1 + Depth(current)
    && forall j :: start < j <= i ==> Depth(sql[start..j]) > 0
  }

  lemma TextStep(sql: string, start: nat, i: nat)
    requires start <= i < |sql|
    ensures sql[start..i + 1] == sql[start..i] + [sql[i]]
    ensures Depth(sql[start..i + 1]) == Depth(sql[start..i]) + Nesting(sql[i])
  {
    assert sql[start..i + 1][..i - start] == sql[start..i];
  }

  lemma ReadCharacter(sql: string, start: nat, i: nat, args: seq<string>, current: string)
    requires Reading(sql, start, i, args, current) && i < |sql|
    requires Depth(sql[start..i]) + Nesting(sql[i]) > 0
    requires sql[i] == ',' ==> Depth(sql[start..i]) > 1
    ensures Reading(sql, start, i + 1, args, current + [sql[i]])
    ensures Depth(sql[start..i + 1]) == Depth(sql[start..i]) + Nesting(sql[i])
  {
    OpenExtends(current, sql[i]);
    TextStep(sql, start, i);
    JoinGrows(args, current, sql[i]);
  }

  lemma ReadComma(sql: string, start: nat, i: nat, args: seq<string>, current: string)
    requires Reading(sql, start, i, args, current) && i < |sql|
    requires sql[i] == ',' && Depth(sql[start..i]) == 1
    ensures Reading(sql, start, i + 1, args + [current], "")
    ensures Depth(sql[start..i + 1]) == 1
  {
    TextStep(sql, start, i);
    assert (args + [current] + [""])[..|args| + 1] == args + [current];
  }

  lemma ReadClosing(sql: string, start: nat, i: nat, args: seq<string>, current: string)
    requires Reading(sql, start, i, args, current) && i < |sql|
    requires sql[i] == ')' && Depth(sql[start..i]) == 1
    ensures Call(sql, start) == Ok((args + [current], i + 1)) && !Unclosed(sql, start)
  {
    assert sql[start..i + 1] == sql[start..i] + ")";
    assert IsCall(sql, start, args + [current], i + 1);
    CallIsClosed(sql, start, args + [current], i + 1);
    var c := Call(sql, start);
    CallUnique(sql, start, args + [current], i + 1, c.value.0, c.value.1);
  }

  lemma UnclosedIsNoCall(sql: string, start: nat)
    requires start <= |sql| && Unclosed(sql, start)
    ensures Call(sql, start) == Err(Unbalanced)
  {
    var c := Call(sql, start);
    if c.Ok? {
      CallIsClosed(sql, start, c.value.0, c.value.1);
    }
  }

  /**
   * Arguments of the macro call whose "(" is at `start`, and the index after its ")".
   * Returns the unique list whose printed form stands at `start`; fails exactly when the
   * parenthesis is never closed.
   */
  method MacroArgs(sql: string, start: nat) returns (r: Result<(seq<string>, nat)>)
    requires start < |sql| && sql[start] == '('
    ensures r == Call(sql, start)
    ensures r.Ok? ==> IsCall(sql, start, r.value.0, r.value.1)
    ensures r.Err? <==> Unclosed(sql, start)
  {
    var depth, args, current := 0, [], "";
    var i := start;
    while i < |sql|
      invariant start <= i <= |sql|
      invariant depth == Depth(sql[start..i])
      invariant if i == start then args == [] && current == "" else Reading(sql, start, i, args, current)
    {
      var ch := sql[i];
      if ch == '(' {
        depth := depth + 1;
        if depth == 1 {
          i := i + 1;
          continue;
        }
      } else if ch == ')' {
        depth := depth - 1;
        if depth == 0 {
          ReadClosing(sql, start, i, args, current);
          return Ok((args + [current], i + 1));
        }
      } else if ch == ',' && depth == 1 {
        ReadComma(sql, start, i, args, current);
        args := args + [current];
        current := "";
        i := i + 1;
        continue;
      }
      ReadCharacter(sql, start, i, args, current);
      current := current + [ch];
      i := i + 1;
    }
    UnclosedIsNoCall(sql, start);
    return Err(Unbalanced);
  }
}

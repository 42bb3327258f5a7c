/** Strings as the dashboards' Python code uses them: `str.find`, `str.replace`, `sep.join`. */
module Text {

  datatype Option<+T> = None | Some(value: T)

  /** `pat` occurs in `s` at index `i`. */
  predicate At(s: string, i: nat, pat: string) {
    i <= |s| && pat <= s[i..]
  }

  /** `s.find(pat)` with `None` for -1: the first occurrence. */
  function Find(s: string, pat: string): (r: Option<nat>)
    ensures r.Some? ==> At(s, r.value, pat) && forall i: nat :: i < r.value ==> !At(s, i, pat)
    ensures r.None? ==> forall i: nat :: !At(s, i, pat)
  {
    if pat <= s then
      assert s[0..] == s;
      Some(0)
    else if s == "" then
      None
    else
      assert forall i: nat | 0 < i <= |s| :: s[i..] == s[1..][i - 1..];
      assert s[0..] == s;
      var r := Find(s[1..], pat);
      assert forall i: nat | 0 < i :: At(s, i, pat) <==> At(s[1..], i - 1, pat);
      if r.None? then None else Some(r.value + 1)
  }

  /** `s.replace(key, value)` for a non-empty key: leftmost, non-overlapping, never rescanned. */
  function Replace(s: string, key: string, value: string): string
    requires key != ""
  {
    if s == "" then ""
    else if key <= s then value + Replace(s[|key|..], key, value)
    else [s[0]] + Replace(s[1..], key, value)
  }

  /** `sep.join(parts)`, one part at a time from the left. */
  function Join(parts: seq<string>, sep: string): string {
    if |parts| == 0 then ""
    else if |parts| == 1 then parts[0]
    else Join(parts[..|parts| - 1], sep) + sep + parts[|parts| - 1]
  }

  /** Concatenation is associative, for one instance. */
  lemma Regroup(a: string, b: string, c: string)
    ensures a + b + c == a + (b + c)
  {
  }
}

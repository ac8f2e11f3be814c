/**
 * The few JavaScript string built-ins the router relies on, with their
 * JavaScript semantics spelled out: `charAt`, `substring`, `indexOf`,
 * `replace` with a string pattern (first occurrence only), `replace` with a
 * global one-character pattern, `join` and the `\w` character class.
 */
module JsString {
  import opened Wrappers

  /** `\w` without the `u` flag: ASCII letters, digits and underscore. */
  predicate IsWordChar(c: char) {
    ('a' <= c <= 'z') || ('A' <= c <= 'Z') || ('0' <= c <= '9') || c == '_'
  }

  /** `s.charAt(i)`: a one-character string, or "" when `i` is out of range. */
  function CharAt(s: string, i: int): string {
    if 0 <= i < |s| then [s[i]] else []
  }

  function Clamp(x: int, n: nat): nat {
    if x < 0 then 0 else if x > n then n else x
  }

  /** `s.substring(start, end)`: both bounds clamped to the string, swapped if reversed. */
  function Substring(s: string, start: int, end: int): string {
    var a := Clamp(start, |s|);
    var b := Clamp(end, |s|);
    if a <= b then s[a..b] else s[b..a]
  }

  predicate OccursAt(s: string, pat: string, k: int) {
    0 <= k && k + |pat| <= |s| && s[k..k + |pat|] == pat
  }

  /** `s.indexOf(pat, from)`, with `None` for -1. */
  function IndexOfFrom(s: string, pat: string, from: nat): (r: Option<nat>)
    decreases |s| - from
    ensures r.Some? ==> from <= r.value && r.value + |pat| <= |s|
  {
    if from + |pat| > |s| then None
    else if s[from..from + |pat|] == pat then Some(from)
    else IndexOfFrom(s, pat, from + 1)
  }

  /** `indexOf` finds the first occurrence at or after `from`, and -1 only when there is none. */
  lemma {:induction false} IndexOfFromFirst(s: string, pat: string, from: nat)
    decreases |s| - from
    ensures var r := IndexOfFrom(s, pat, from);
            && (r.Some? ==> from <= r.value && OccursAt(s, pat, r.value))
            && (r.Some? ==> forall j :: from <= j < r.value ==> !OccursAt(s, pat, j))
            && (r.None? ==> forall j :: from <= j ==> !OccursAt(s, pat, j))
  {
    if from + |pat| <= |s| && s[from..from + |pat|] != pat {
      IndexOfFromFirst(s, pat, from + 1);
    }
  }

  /**
   * `s.replace(pat, rep)` with a string `pat` and a replacement without `$`:
   * only the first occurrence is replaced; with none, `s` is returned.
   */
  function ReplaceFirst(s: string, pat: string, rep: string): string {
    match IndexOfFrom(s, pat, 0)
    case None => s
    case Some(k) => s[..k] + rep + s[k + |pat|..]
  }

  /** `replace` rewrites the first occurrence of `pat` and keeps the text around it. */
  lemma ReplaceFirstAt(s: string, pat: string, rep: string, k: nat)
    requires OccursAt(s, pat, k)
    requires forall j :: 0 <= j < k ==> !OccursAt(s, pat, j)
    ensures ReplaceFirst(s, pat, rep) == s[..k] + rep + s[k + |pat|..]
  {
    IndexOfFromFirst(s, pat, 0);
  }

  /** Without an occurrence of `pat`, `replace` returns its input. */
  lemma ReplaceFirstAbsent(s: string, pat: string, rep: string)
    requires forall j :: !OccursAt(s, pat, j)
    ensures ReplaceFirst(s, pat, rep) == s
  {
    IndexOfFromFirst(s, pat, 0);
  }

  /** `s.replace(/a/g, b)` for single characters `a` and `b`. */
  function ReplaceAllChar(s: string, a: char, b: char): (r: string) {
    seq(|s|, i requires 0 <= i < |s| => if s[i] == a then b else s[i])
  }

  function CountChar(s: string, c: char): nat {
    if s == [] then 0 else (if s[0] == c then 1 else 0) + CountChar(s[1..], c)
  }

  /** `ws.join(sep)` for a one-character separator. */
  function Join(ws: seq<string>, sep: char): string {
    if |ws| == 0 then ""
    else if |ws| == 1 then ws[0]
    else ws[0] + [sep] + Join(ws[1..], sep)
  }

  lemma {:induction false} CountCharAppend(x: string, y: string, c: char)
    ensures CountChar(x + y, c) == CountChar(x, c) + CountChar(y, c)
  {
    if x != [] {
      assert (x + y)[1..] == x[1..] + y;
      CountCharAppend(x[1..], y, c);
    } else {
      assert x + y == y;
    }
  }

  lemma {:induction false} CountCharAbsent(s: string, c: char)
    requires c !in s
    ensures CountChar(s, c) == 0
  {
    if s != [] {
      CountCharAbsent(s[1..], c);
    }
  }

  lemma {:induction false} CountCharPrefix(s: string, k: nat, c: char)
    requires k <= |s|
    ensures CountChar(s[..k], c) <= CountChar(s, c)
  {
    assert s == s[..k] + s[k..];
    CountCharAppend(s[..k], s[k..], c);
  }

  lemma {:induction false} ReplaceAllCharAppend(x: string, y: string, a: char, b: char)
    ensures ReplaceAllChar(x + y, a, b) == ReplaceAllChar(x, a, b) + ReplaceAllChar(y, a, b)
  {
  }
}

/**
 * The string arithmetic `exec` runs on the combined expression: the
 * alternation of wrapped route patterns, the first defined capture, the
 * literal fallback lookup, and the recovery of a route index by counting
 * capturing `(` and then `|`.
 */
module IndexRecovery {
  import opened Wrappers
  import opened JsString
  import opened RouteCompiler

  /** `'(?:' + pattern + ')'`: one route inside the combined alternation. */
  function Wrap(pattern: string): string {
    "(?:" + pattern + ")"
  }

  // ---------------------------------------------------------------------
  // getSubPatternPosition

  /** The first `j >= i` whose capture is defined, or -1. */
  function FirstDefinedFrom(m: seq<Option<string>>, i: nat): (r: int)
    decreases |m| - i
    ensures r == -1 || (i <= r < |m| && m[r].Some?)
    ensures forall j :: i <= j < |m| && (r == -1 || j < r) ==> m[j].None?
  {
    if i >= |m| then -1
    else if m[i].Some? then i
    else FirstDefinedFrom(m, i + 1)
  }

  /** `getSubPatternPosition`: the least index `>= 1` of a defined capture, or -1 when there is none. */
  function FirstDefined(m: seq<Option<string>>): (r: int)
    ensures r == -1 <==> forall j :: 1 <= j < |m| ==> m[j].None?
    ensures r != -1 ==> 1 <= r < |m| && m[r].Some? && forall j :: 1 <= j < r ==> m[j].None?
  {
    FirstDefinedFrom(m, 1)
  }

  // ---------------------------------------------------------------------
  // getMatchedRouteIndexByPath

  /** The first `j >= i` whose trimmed route text equals `str`, or 0 when none does. */
  function IndexByPathFrom(texts: seq<string>, str: string, i: nat): (r: nat)
    decreases |texts| - i
    ensures || (i <= r < |texts| && TrimChar(texts[r], '/') == str
                && forall j :: i <= j < r ==> TrimChar(texts[j], '/') != str)
            || (r == 0 && forall j :: i <= j < |texts| ==> TrimChar(texts[j], '/') != str)
  {
    if i >= |texts| then 0
    else if str == TrimChar(texts[i], '/') then i
    else IndexByPathFrom(texts, str, i + 1)
  }

  /**
   * `getMatchedRouteIndexByPath`: the first route whose text, trimmed of
   * `/`, equals the trimmed path; 0 when no route does.
   */
  function IndexByPath(texts: seq<string>, path: string): (r: nat)
    ensures var str := TrimChar(path, '/');
            || (r < |texts| && TrimChar(texts[r], '/') == str
                && forall j :: 0 <= j < r ==> TrimChar(texts[j], '/') != str)
            || (r == 0 && forall j :: 0 <= j < |texts| ==> TrimChar(texts[j], '/') != str)
  {
    IndexByPathFrom(texts, TrimChar(path, '/'), 0)
  }

  // ---------------------------------------------------------------------
  // getMatchedRouteIndexBySubPattern

  /** Position `i` opens a group as the source counts it: a `(` not followed by `?`. */
  predicate IsCapOpen(s: string, i: int) {
    0 <= i && i + 1 < |s| && s[i] == '(' && s[i + 1] != '?'
  }

  /** The number of positions of `s` that open a group as the source counts it. */
  function Caps(s: string): nat {
    if |s| < 2 then 0 else (if IsCapOpen(s, 0) then 1 else 0) + Caps(s[1..])
  }

  /**
   * The first loop of `getMatchedRouteIndexBySubPattern`, resumed at
   * position `i` with running count `find`: the first position below
   * `|s| - 1` after whose test the count equals `p`.
   */
  function ScanFrom(s: string, i: nat, find: int, p: int): (r: Option<nat>)
    decreases |s| - i
    ensures r.Some? ==> i <= r.value && r.value + 1 < |s|
  {
    if i + 1 >= |s| then None
    else
      var find' := find + (if IsCapOpen(s, i) then 1 else 0);
      if find' == p then Some(i) else ScanFrom(s, i + 1, find', p)
  }

  /**
   * `getMatchedRouteIndexBySubPattern(p)`: the number of `|` before the
   * position where the group count reaches `p`, and 0 when it never does.
   * It never exceeds the number of `|` in the whole expression.
   */
  function IndexBySubPattern(s: string, p: int): (r: nat)
    ensures r <= CountChar(s, '|')
  {
    match ScanFrom(s, 0, 0, p)
    case None => 0
    case Some(i) =>
      CountCharPrefix(s, i, '|');
      CountChar(s[..i], '|')
  }

  // ---------------------------------------------------------------------
  // The scan over a concatenation.

  function Shift(r: Option<nat>, n: nat): Option<nat> {
    match r
    case None => None
    case Some(t) => Some(t + n)
  }

  /** Scanning the tail of `a + b` is scanning `b`, with positions moved by `|a|`. */
  lemma {:induction false} ScanShift(a: string, b: string, i: nat, find: int, p: int)
    decreases |b| - i
    ensures ScanFrom(a + b, |a| + i, find, p) == Shift(ScanFrom(b, i, find, p), |a|)
  {
    var s := a + b;
    if i + 1 < |b| {
      assert s[|a| + i] == b[i] && s[|a| + i + 1] == b[i + 1];
      assert IsCapOpen(s, |a| + i) == IsCapOpen(b, i);
      var find' := find + (if IsCapOpen(b, i) then 1 else 0);
      if find' != p {
        ScanShift(a, b, i + 1, find', p);
        assert |a| + (i + 1) == |a| + i + 1;
      }
    }
  }

  /** A prefix `a` whose groups keep the count below `p` is passed over, adding its groups to the count. */
  lemma {:induction false} ScanPass(a: string, b: string, i: nat, find: int, p: int)
    requires i <= |a| && b != [] && (a == [] || a[|a| - 1] != '(')
    requires find + Caps(a[i..]) < p
    decreases |a| - i
    ensures ScanFrom(a + b, i, find, p) == ScanFrom(a + b, |a|, find + Caps(a[i..]), p)
  {
    var s := a + b;
    if i < |a| {
      var inc := if IsCapOpen(s, i) then 1 else 0;
      if i + 1 < |a| {
        assert s[i] == a[i] && s[i + 1] == a[i + 1];
        assert a[i..][1..] == a[i + 1..];
        assert IsCapOpen(s, i) == IsCapOpen(a[i..], 0);
      } else {
        assert s[i] == a[i];
        assert a[i + 1..] == [];
      }
      assert Caps(a[i..]) == inc + Caps(a[i + 1..]);
      ScanPass(a, b, i + 1, find + inc, p);
    }
  }

  /** A prefix `a` with enough groups to bring the count from below `p` up to `p` holds the hit. */
  lemma {:induction false} ScanHit(a: string, b: string, i: nat, find: int, p: int)
    requires i <= |a| && find < p <= find + Caps(a[i..])
    decreases |a| - i
    ensures var r := ScanFrom(a + b, i, find, p); r.Some? && r.value + 1 < |a|
  {
    var s := a + b;
    if i + 1 < |a| {
      assert s[i] == a[i] && s[i + 1] == a[i + 1];
      assert a[i..][1..] == a[i + 1..];
      assert IsCapOpen(s, i) == IsCapOpen(a[i..], 0);
      var find' := find + (if IsCapOpen(s, i) then 1 else 0);
      if find' != p {
        ScanHit(a, b, i + 1, find', p);
      }
    }
  }

  // ---------------------------------------------------------------------
  // The alternation of routes.

  /** A wrapped route as it sits in the alternation: non-empty, no `|`, not ending in `(`. */
  predicate Segment(w: string) {
    w != [] && '|' !in w && w[|w| - 1] != '('
  }

  /** The number of groups of the routes before route `k`. */
  function GroupsBefore(ws: seq<string>, k: nat): nat
    requires k <= |ws|
  {
    if k == 0 then 0 else Caps(ws[0]) + GroupsBefore(ws[1..], k - 1)
  }

  lemma CapsBar(w: string)
    requires Segment(w)
    ensures Caps(w + "|") == Caps(w)
  {
    CapsAppend(w, "|");
  }

  /** Appending after a string that does not end in `(` adds the groups of both parts. */
  lemma {:induction false} CapsAppend(x: string, y: string)
    requires x == [] || x[|x| - 1] != '('
    ensures Caps(x + y) == Caps(x) + Caps(y)
  {
    if x == [] {
      assert x + y == y;
    } else if |x| == 1 {
      if |x + y| >= 2 {
        assert (x + y)[1..] == y;
      }
    } else {
      assert (x + y)[1..] == x[1..] + y;
      assert (x + y)[0] == x[0] && (x + y)[1] == x[1];
      CapsAppend(x[1..], y);
    }
  }

  lemma {:induction false} JoinNonEmpty(ws: seq<string>)
    requires |ws| > 0 && forall j :: 0 <= j < |ws| ==> Segment(ws[j])
    ensures Join(ws, '|') != []
  {
    assert Segment(ws[0]);
  }

  /** When route `w` itself holds group `p`, the scan stops inside `w`, before any bar. */
  lemma HitInFirst(w: string, tail: string, find: int, p: int)
    requires Segment(w) && find < p <= find + Caps(w)
    ensures var r := ScanFrom(w + tail, 0, find, p);
            r.Some? && CountChar((w + tail)[..r.value], '|') == 0
  {
    assert w[0..] == w;
    ScanHit(w, tail, 0, find, p);
    var r := ScanFrom(w + tail, 0, find, p);
    assert (w + tail)[..r.value] == w[..r.value];
    CountCharPrefix(w, r.value, '|');
    CountCharAbsent(w, '|');
  }

  /** When route `w` holds too few groups, the scan passes `w` and its bar and continues in the rest. */
  lemma PassFirst(w: string, rest: string, find: int, p: int)
    requires Segment(w) && rest != [] && find + Caps(w) < p
    ensures ScanFrom(w + "|" + rest, 0, find, p) == Shift(ScanFrom(rest, 0, find + Caps(w), p), |w| + 1)
  {
    var a := w + "|";
    CapsBar(w);
    assert a[0..] == a;
    ScanPass(a, rest, 0, find, p);
    ScanShift(a, rest, 0, find + Caps(a), p);
  }

  /** The bars before position `|w| + 1 + t` of `w + "|" + rest` are the one after `w` and those in `rest[..t]`. */
  lemma BarsAfterFirst(w: string, rest: string, t: nat)
    requires Segment(w) && t <= |rest|
    ensures CountChar((w + "|" + rest)[..|w| + 1 + t], '|') == 1 + CountChar(rest[..t], '|')
  {
    var a := w + "|";
    assert (w + "|" + rest)[..|w| + 1 + t] == a + rest[..t];
    CountCharAppend(a, rest[..t], '|');
    CountCharAppend(w, "|", '|');
    CountCharAbsent(w, '|');
  }

  /**
   * The counting argument: when the group count `p` falls among the groups
   * of route `k`, the scan stops inside route `k`, after exactly `k` bars.
   */
  lemma {:induction false} RouteOfCapture(ws: seq<string>, k: nat, find: int, p: int)
    requires forall j :: 0 <= j < |ws| ==> Segment(ws[j])
    requires k < |ws|
    requires find + GroupsBefore(ws, k) < p <= find + GroupsBefore(ws, k) + Caps(ws[k])
    decreases |ws|
    ensures var s := Join(ws, '|');
            var r := ScanFrom(s, 0, find, p);
            r.Some? && CountChar(s[..r.value], '|') == k
  {
    var w := ws[0];
    assert Segment(w);
    if |ws| == 1 {
      assert Join(ws, '|') == w + "";
      HitInFirst(w, "", find, p);
    } else {
      var rest := Join(ws[1..], '|');
      assert Join(ws, '|') == w + "|" + rest;
      if k == 0 {
        assert w + "|" + rest == w + ("|" + rest);
        HitInFirst(w, "|" + rest, find, p);
      } else {
        assert ws[1..][k - 1] == ws[k];
        assert forall j :: 0 <= j < |ws[1..]| ==> ws[1..][j] == ws[j + 1];
        JoinNonEmpty(ws[1..]);
        PassFirst(w, rest, find, p);
        RouteOfCapture(ws[1..], k - 1, find + Caps(w), p);
        BarsAfterFirst(w, rest, ScanFrom(rest, 0, find + Caps(w), p).value);
      }
    }
  }

  /** With no `|` inside any route, the alternation of `n` routes holds exactly `n - 1` bars. */
  lemma {:induction false} JoinBars(ws: seq<string>)
    requires |ws| > 0 && forall j :: 0 <= j < |ws| ==> Segment(ws[j])
    ensures CountChar(Join(ws, '|'), '|') == |ws| - 1
  {
    assert Segment(ws[0]);
    CountCharAbsent(ws[0], '|');
    if |ws| > 1 {
      assert forall j :: 0 <= j < |ws[1..]| ==> ws[1..][j] == ws[j + 1];
      JoinBars(ws[1..]);
      CountCharAppend(ws[0], "|", '|');
      CountCharAppend(ws[0] + "|", Join(ws[1..], '|'), '|');
    }
  }

  /**
   * `getMatchedRouteIndexBySubPattern` recovers route `k` for every group
   * position `p` that belongs to route `k`.
   */
  lemma IndexOfCapture(ws: seq<string>, k: nat, p: int)
    requires forall j :: 0 <= j < |ws| ==> Segment(ws[j])
    requires k < |ws|
    requires GroupsBefore(ws, k) < p <= GroupsBefore(ws, k) + Caps(ws[k])
    ensures IndexBySubPattern(Join(ws, '|'), p) == k
  {
    RouteOfCapture(ws, k, 0, p);
  }
}

/**
 * What the counting in `getMatchedRouteIndexBySubPattern` sees of a
 * compiled route: the wrapped pattern of a route written in the placeholder
 * syntax opens exactly one group per placeholder, and compiling a route
 * without `|` never introduces one.
 */
module GroupCount {
  import opened Wrappers
  import opened JsString
  import opened RouteCompiler
  import opened Placeholders
  import opened IndexRecovery

  // ---------------------------------------------------------------------
  // Counting groups through the compiler's last stages.

  /** Characters other than `(` in front add no group. */
  lemma {:induction false} CapsNoOpen(x: string, y: string)
    requires '(' !in x
    ensures Caps(x + y) == Caps(y)
  {
    if x != [] {
      assert (x + y)[0] == x[0];
      if |x + y| >= 2 {
        assert (x + y)[1..] == x[1..] + y;
      } else {
        assert x[1..] + y == [];
      }
      CapsNoOpen(x[1..], y);
    } else {
      assert x + y == y;
    }
  }

  lemma EscapeHead(s: string)
    requires s != []
    ensures EscapeSlashes(s) != []
    ensures EscapeSlashes(s)[0] == if s[0] == '/' then '\\' else s[0]
  {
  }

  lemma {:induction false} EscapeLast(s: string)
    requires s != []
    ensures EscapeSlashes(s)[|EscapeSlashes(s)| - 1] == s[|s| - 1]
  {
    if |s| > 1 {
      EscapeLast(s[1..]);
    }
  }

  /** Escaping `/` neither adds nor removes a group: `\/` holds no `(`, and `\` after `(` is no `?`. */
  lemma {:induction false} CapsEscape(s: string)
    ensures Caps(EscapeSlashes(s)) == Caps(s)
  {
    if s != [] {
      var rest := EscapeSlashes(s[1..]);
      CapsEscape(s[1..]);
      if s[0] == '/' {
        assert EscapeSlashes(s) == "\\/" + rest;
        CapsNoOpen("\\/", rest);
        CapsNoOpen("/", s[1..]);
        assert s == "/" + s[1..];
      } else if s[0] != '(' {
        assert EscapeSlashes(s) == [s[0]] + rest;
        CapsNoOpen([s[0]], rest);
        CapsNoOpen([s[0]], s[1..]);
        assert s == [s[0]] + s[1..];
      } else if |s| > 1 {
        EscapeHead(s[1..]);
        var e := EscapeSlashes(s);
        assert e == "(" + rest;
        assert e[1..] == rest && e[1] == rest[0];
        assert IsCapOpen(e, 0) == IsCapOpen(s, 0);
      }
    }
  }

  /** Every `(` of `s` opens a group as the source counts it. */
  predicate OpensCapture(s: string) {
    forall i :: 0 <= i < |s| && s[i] == '(' ==> IsCapOpen(s, i)
  }

  /** When every `(` opens a group, the groups are the `(` characters. */
  lemma {:induction false} CapsCountOpens(s: string)
    requires OpensCapture(s)
    ensures Caps(s) == CountChar(s, '(')
  {
    if s != [] {
      if |s| == 1 {
        assert !IsCapOpen(s, 0);
      } else {
        var t := s[1..];
        forall i | 0 <= i < |t| && t[i] == '(' ensures IsCapOpen(t, i) {
          assert s[i + 1] == t[i];
          assert IsCapOpen(s, i + 1);
        }
        CapsCountOpens(t);
      }
    }
  }

  /** Every `(` of `s` is followed by at least two characters, the first of which is not `?`. */
  predicate Roomy(s: string) {
    forall i :: 0 <= i < |s| && s[i] == '(' ==> i + 2 < |s| && s[i + 1] != '?'
  }

  lemma RoomyAppend(x: string, y: string)
    requires Roomy(x) && Roomy(y)
    ensures Roomy(x + y)
  {
    var s := x + y;
    forall i | 0 <= i < |s| && s[i] == '(' ensures i + 2 < |s| && s[i + 1] != '?' {
      if i < |x| {
        assert s[i] == x[i] && s[i + 1] == x[i + 1];
      } else {
        assert s[i] == y[i - |x|] && s[i + 1] == y[i - |x| + 1];
      }
    }
  }

  lemma RoomyPiece(p: Piece)
    requires WellFormedPiece(p)
    ensures Roomy(CompiledPiece(p))
  {
    match p
    case Literal(t) =>
      PlainNoOpen(t);
    case Placeholder(_, c) =>
      var g := GroupBody(c);
      if c.Some? {
        PlainNoOpen(c.value);
      }
      assert '(' !in g && g != [] && g[0] != '?';
      var s := "(" + g + ")";
      assert forall i :: 1 <= i < |s| - 1 ==> s[i] == g[i - 1];
  }

  lemma {:induction false} RoomyBody(ps: seq<Piece>)
    requires WellFormed(ps)
    ensures Roomy(CompiledBody(ps))
  {
    if ps != [] {
      assert WellFormedPiece(ps[0]);
      RoomyPiece(ps[0]);
      RoomyBody(ps[1..]);
      RoomyAppend(CompiledPiece(ps[0]), CompiledBody(ps[1..]));
    }
  }

  /** Trimming one `/` at each end keeps a group after every `(`. */
  lemma TrimCapture(b: string)
    requires Roomy(b)
    ensures OpensCapture(TrimChar(b, '/'))
  {
    var lo := if |b| > 0 && b[0] == '/' then 1 else 0;
    var hi := if |b| > lo && b[|b| - 1] == '/' then |b| - 1 else |b|;
    var t := TrimChar(b, '/');
    assert t == b[lo..hi];
    forall i | 0 <= i < |t| && t[i] == '(' ensures IsCapOpen(t, i) {
      assert t[i] == b[lo + i];
      assert i + 1 < |t|;
      assert t[i + 1] == b[lo + i + 1];
    }
  }

  /** Trimming removes `/` characters only. */
  lemma CountOpenTrim(b: string)
    ensures CountChar(TrimChar(b, '/'), '(') == CountChar(b, '(')
  {
    var lo := if |b| > 0 && b[0] == '/' then 1 else 0;
    var hi := if |b| > lo && b[|b| - 1] == '/' then |b| - 1 else |b|;
    assert b == b[..lo] + b[lo..hi] + b[hi..];
    assert '(' !in b[..lo] && '(' !in b[hi..];
    CountCharAppend(b[..lo] + b[lo..hi], b[hi..], '(');
    CountCharAppend(b[..lo], b[lo..hi], '(');
    CountCharAbsent(b[..lo], '(');
    CountCharAbsent(b[hi..], '(');
  }

  lemma {:induction false} CountOpenBody(ps: seq<Piece>)
    requires WellFormed(ps)
    ensures CountChar(CompiledBody(ps), '(') == |ParamNames(ps)|
  {
    if ps != [] {
      var p := ps[0];
      assert WellFormedPiece(p);
      CountOpenBody(ps[1..]);
      CountCharAppend(CompiledPiece(p), CompiledBody(ps[1..]), '(');
      match p
      case Literal(t) =>
        PlainNoOpen(t);
        CountCharAbsent(t, '(');
      case Placeholder(_, c) =>
        var g := GroupBody(c);
        if c.Some? {
          PlainNoOpen(c.value);
        }
        CountCharAppend("(" + g, ")", '(');
        CountCharAppend("(", g, '(');
        CountCharAbsent(g, '(');
    }
  }

  lemma CapsOfAffixes()
    ensures Caps("^\\/") == 0 && Caps("\\/?$") == 0 && Caps("(?:") == 0 && Caps(")") == 0
  {
  }

  /** A group-free prefix and suffix around `e` add no group. */
  lemma CapsSandwich(p: string, e: string, q: string)
    requires p != [] && p[|p| - 1] != '(' && Caps(p) == 0 && Caps(q) == 0
    requires e == [] || e[|e| - 1] != '('
    requires q != [] && q[|q| - 1] != '('
    ensures Caps(p + e + q) == Caps(e)
    ensures (p + e + q)[|p + e + q| - 1] != '('
  {
    CapsAppend(p, e);
    var pe := p + e;
    assert pe[|pe| - 1] != '(' by {
      if e != [] {
        assert pe[|pe| - 1] == e[|e| - 1];
      } else {
        assert pe == p;
      }
    }
    CapsAppend(pe, q);
    assert (pe + q)[|pe + q| - 1] == q[|q| - 1];
  }

  /** The wrapper `(?:` and the anchors `^\\/` and `\\/?$` add no group. */
  lemma CapsWrapAnchor(e: string)
    requires e == [] || e[|e| - 1] != '('
    ensures Caps(Wrap(Anchor(e))) == Caps(e)
  {
    var a := Anchor(e);
    assert a == "^\\/" + e + "\\/?$";
    assert Wrap(a) == "(?:" + a + ")";
    CapsOfAffixes();
    CapsSandwich("^\\/", e, "\\/?$");
    CapsSandwich("(?:", a, ")");
  }

  /**
   * The wrapped pattern of a route written in the placeholder syntax holds
   * exactly one group, as the source counts them, per placeholder.
   */
  lemma GroupsOfRoute(ps: seq<Piece>)
    requires WellFormed(ps)
    ensures Caps(Wrap(Compile(Render(ps)).pattern)) == |ParamNames(ps)|
  {
    CompileRendered(ps);
    var body := CompiledBody(ps);
    var t := TrimChar(body, '/');
    var e := EscapeSlashes(t);
    RoomyBody(ps);
    TrimCapture(body);
    if t != [] {
      assert !IsCapOpen(t, |t| - 1);
      EscapeLast(t);
    }
    CapsWrapAnchor(e);
    CapsEscape(t);
    CapsCountOpens(t);
    CountOpenTrim(body);
    CountOpenBody(ps);
  }

  // ---------------------------------------------------------------------
  // No `|` comes out of the compiler that did not go in.

  lemma ReplaceAllCharNoBar(s: string, a: char, b: char)
    requires '|' !in s && b != '|'
    ensures '|' !in ReplaceAllChar(s, a, b)
  {
  }

  lemma ReplaceFirstNoBar(s: string, pat: string, rep: string)
    requires '|' !in s && '|' !in rep
    ensures '|' !in ReplaceFirst(s, pat, rep)
  {
    match IndexOfFrom(s, pat, 0)
    case None =>
    case Some(k) =>
      assert '|' !in s[..k] && '|' !in s[k + |pat|..];
  }

  lemma {:induction false} ApplyTokensNoBar(s: string, ts: seq<string>)
    requires '|' !in s
    decreases |ts|
    ensures '|' !in ApplyTokens(s, ts)
  {
    if ts != [] {
      ReplaceFirstNoBar(s, ts[0], "(");
      ReplaceFirstNoBar(ReplaceFirst(s, ts[0], "("), "()", "(\\w+)");
      ApplyTokensNoBar(Step(s, ts[0]), ts[1..]);
    }
  }

  lemma {:induction false} EscapeNoBar(s: string)
    requires '|' !in s
    ensures '|' !in EscapeSlashes(s)
  {
    if s != [] {
      EscapeNoBar(s[1..]);
    }
  }

  /**
   * A route whose text holds no `|` compiles to a pattern without `|`, and
   * its wrapped form is a segment of the alternation.
   */
  lemma SegmentOfRoute(r: string)
    requires '|' !in r
    ensures '|' !in Compile(r).pattern
    ensures Segment(Wrap(Compile(r).pattern))
  {
    var b := Parenthesize(r);
    ReplaceAllCharNoBar(r, '{', '(');
    ReplaceAllCharNoBar(ReplaceAllChar(r, '{', '('), '}', ')');
    ApplyTokensNoBar(b, Tokens(b));
    var body := ApplyTokens(b, Tokens(b));
    var t := TrimChar(body, '/');
    assert '|' !in t;
    EscapeNoBar(t);
  }
}

/**
 * Why `exec` returns the right route: with no `|` in any route it never
 * reads past its lists, the group count of the first defined capture picks
 * the route that owns that capture, and for routes written in the
 * placeholder syntax the capture of the first placeholder of route `k` sits
 * right after the placeholders of the routes before it. The scenario of
 * `test/test.js` is stated as the lemmas `ExecTestUser` and
 * `InOrderTestPosts`.
 */
module ExecTheorems {
  import opened Wrappers
  import opened JsString
  import opened RouteCompiler
  import opened Placeholders
  import opened IndexRecovery
  import opened GroupCount
  import opened Matching

  /** Every wrapped route of a list without `|` is a segment of the alternation. */
  lemma WrappedSegments<H>(routes: seq<Route<H>>)
    requires forall j :: 0 <= j < |routes| ==> '|' !in routes[j].route
    ensures forall j :: 0 <= j < |routes| ==> Segment(Wrapped(routes)[j])
  {
    forall j | 0 <= j < |routes| ensures Segment(Wrapped(routes)[j]) {
      SegmentOfRoute(routes[j].route);
    }
  }

  /**
   * When no route contains `|`, the recovered index always lies inside the
   * route list, so on a non-empty list `exec` never reads past its lists.
   */
  lemma ExecIndexInRange<H>(routes: seq<Route<H>>, engine: Engine, route: string)
    requires |routes| > 0
    requires forall j :: 0 <= j < |routes| ==> '|' !in routes[j].route
    ensures !ExecResult(routes, engine, route).TypeError?
  {
    WrappedSegments(routes);
    JoinBars(Wrapped(routes));
  }

  /**
   * The capture-to-route theorem: if the first defined capture is one of the
   * groups of route `k`, `exec` answers with route `k`'s handler and reads
   * its parameters from that capture on.
   */
  lemma ExecRecoversRoute<H>(routes: seq<Route<H>>, engine: Engine, route: string, m: seq<Option<string>>, k: nat)
    requires forall j :: 0 <= j < |routes| ==> '|' !in routes[j].route
    requires k < |routes|
    requires engine(CombinedPattern(routes), route) == Some(m)
    requires GroupsBefore(Wrapped(routes), k) < FirstDefined(m)
    requires FirstDefined(m) <= GroupsBefore(Wrapped(routes), k) + Caps(Wrapped(routes)[k])
    ensures ExecResult(routes, engine, route)
            == Matched(Match(routes[k].handler,
                             ParametersOf(Compile(routes[k].route).parameters, m, FirstDefined(m))))
  {
    WrappedSegments(routes);
    IndexOfCapture(Wrapped(routes), k, FirstDefined(m));
  }

  /**
   * With no defined capture, `exec` falls back to the path lookup: the
   * answer is the first route whose text equals the path up to a leading
   * and trailing `/`, or route 0 when none does, with names read from
   * `matches[-1 + i]`.
   */
  lemma ExecPathFallback<H>(routes: seq<Route<H>>, engine: Engine, route: string, m: seq<Option<string>>)
    requires |routes| > 0
    requires engine(CombinedPattern(routes), route) == Some(m)
    requires forall j :: 1 <= j < |m| ==> m[j].None?
    ensures var i := IndexByPath(Texts(routes), route);
            && i < |routes|
            && ExecResult(routes, engine, route)
               == Matched(Match(routes[i].handler, ParametersOf(Compile(routes[i].route).parameters, m, -1)))
  {
    assert FirstDefined(m) == -1;
  }

  /**
   * On an empty route list the combined expression is the empty source,
   * and any match of it makes `exec` read past the (empty) parameter list:
   * the source throws.
   */
  lemma ExecEmptyThrows<H>(engine: Engine, route: string)
    requires engine(CombinedPattern<H>([]), route).Some?
    ensures CombinedPattern<H>([]) == ""
    ensures ExecResult<H>([], engine, route) == TypeError
  {
    assert Wrapped<H>([]) == [];
  }

  /** The number of placeholders in the routes before route `k`. */
  function ParamsBefore(pss: seq<seq<Piece>>, k: nat): nat
    requires k <= |pss|
  {
    if k == 0 then 0 else |ParamNames(pss[0])| + ParamsBefore(pss[1..], k - 1)
  }

  lemma {:induction false} GroupsBeforeParams(ws: seq<string>, pss: seq<seq<Piece>>, k: nat)
    requires |ws| == |pss| && k <= |ws|
    requires forall j :: 0 <= j < |ws| ==> Caps(ws[j]) == |ParamNames(pss[j])|
    ensures GroupsBefore(ws, k) == ParamsBefore(pss, k)
  {
    if k > 0 {
      assert Caps(ws[0]) == |ParamNames(pss[0])|;
      assert forall j :: 0 <= j < |ws[1..]| ==> ws[1..][j] == ws[j + 1] && pss[1..][j] == pss[j + 1];
      GroupsBeforeParams(ws[1..], pss[1..], k - 1);
    }
  }

  lemma {:induction false} RenderNoBar(ps: seq<Piece>)
    requires WellFormed(ps)
    ensures '|' !in Render(ps)
  {
    if ps != [] {
      assert WellFormedPiece(ps[0]);
      RenderNoBar(ps[1..]);
      match ps[0]
      case Literal(t) =>
        PlainNoOpen(t);
      case Placeholder(n, c) =>
        assert '|' !in n by {
          assert forall i :: 0 <= i < |n| ==> IsWordChar(n[i]);
        }
        if c.Some? {
          PlainNoOpen(c.value);
        }
    }
  }

  /** Routes whose texts are the renderings of well-formed placeholder routes `pss`. */
  predicate RenderedFrom<H>(routes: seq<Route<H>>, pss: seq<seq<Piece>>) {
    |routes| == |pss| && forall j :: 0 <= j < |pss| ==> WellFormed(pss[j]) && routes[j].route == Render(pss[j])
  }

  /**
   * For routes written in the placeholder syntax: when the captures of all
   * placeholders of the routes before `k` are undefined and the first
   * placeholder of route `k` is captured, `exec` returns route `k`'s handler
   * with `parameters[names[i]] = matches[G + 1 + i]`, `G` being the number of
   * placeholders before route `k`.
   */
  lemma ExecPlaceholderRoute<H>(routes: seq<Route<H>>, pss: seq<seq<Piece>>, engine: Engine, route: string,
                                m: seq<Option<string>>, k: nat)
    requires RenderedFrom(routes, pss)
    requires k < |routes| && ParamNames(pss[k]) != []
    requires engine(CombinedPattern(routes), route) == Some(m)
    requires ParamsBefore(pss, k) + 1 < |m|
    requires forall j :: 1 <= j <= ParamsBefore(pss, k) ==> m[j].None?
    requires m[ParamsBefore(pss, k) + 1].Some?
    ensures ExecResult(routes, engine, route)
            == Matched(Match(routes[k].handler, Some(Bind(ParamNames(pss[k]), m, ParamsBefore(pss, k) + 1))))
  {
    RenderedGroups(routes, pss, k);
    RenderedParameters(routes, pss, k, m, ParamsBefore(pss, k) + 1);
    ExecAfterGroups(routes, engine, route, m, k, ParamsBefore(pss, k), Some(Bind(ParamNames(pss[k]), m, ParamsBefore(pss, k) + 1)));
  }

  /**
   * When the routes before `k` hold `g` groups, none of them captured, and
   * route `k`'s first group is captured, `exec` answers with route `k`.
   */
  lemma ExecAfterGroups<H>(routes: seq<Route<H>>, engine: Engine, route: string, m: seq<Option<string>>, k: nat, g: nat,
                           ps: Option<map<string, Option<string>>>)
    requires forall j :: 0 <= j < |routes| ==> '|' !in routes[j].route
    requires k < |routes| && engine(CombinedPattern(routes), route) == Some(m)
    requires GroupsBefore(Wrapped(routes), k) == g && 0 < Caps(Wrapped(routes)[k])
    requires g + 1 < |m| && m[g + 1].Some? && forall j :: 1 <= j <= g ==> m[j].None?
    requires ParametersOf(Compile(routes[k].route).parameters, m, g + 1) == ps
    ensures ExecResult(routes, engine, route) == Matched(Match(routes[k].handler, ps))
  {
    FirstDefinedAt(m, g);
    ExecRecoversRoute(routes, engine, route, m, k);
  }

  /** The group counts and bar-freedom of rendered routes, as `ExecRecoversRoute` needs them. */
  lemma RenderedGroups<H>(routes: seq<Route<H>>, pss: seq<seq<Piece>>, k: nat)
    requires RenderedFrom(routes, pss) && k < |routes|
    ensures forall j :: 0 <= j < |routes| ==> '|' !in routes[j].route
    ensures GroupsBefore(Wrapped(routes), k) == ParamsBefore(pss, k)
    ensures Caps(Wrapped(routes)[k]) == |ParamNames(pss[k])|
  {
    RoutesOfPieces(routes, pss);
    GroupsBeforeParams(Wrapped(routes), pss, k);
  }

  /** A rendered route with placeholders binds its names from position `pos`. */
  lemma RenderedParameters<H>(routes: seq<Route<H>>, pss: seq<seq<Piece>>, k: nat, m: seq<Option<string>>, pos: int)
    requires RenderedFrom(routes, pss) && k < |routes| && ParamNames(pss[k]) != []
    ensures ParametersOf(Compile(routes[k].route).parameters, m, pos) == Some(Bind(ParamNames(pss[k]), m, pos))
  {
    assert WellFormed(pss[k]) && routes[k].route == Render(pss[k]);
    ParametersOfRendered(routes[k].route, pss[k], m, pos);
  }

  /** The facts about each rendered route that the index recovery needs. */
  lemma RoutesOfPieces<H>(routes: seq<Route<H>>, pss: seq<seq<Piece>>)
    requires RenderedFrom(routes, pss)
    ensures forall j :: 0 <= j < |routes| ==> '|' !in routes[j].route
    ensures forall j :: 0 <= j < |routes| ==> Caps(Wrapped(routes)[j]) == |ParamNames(pss[j])|
  {
    forall j | 0 <= j < |routes|
      ensures '|' !in routes[j].route && Caps(Wrapped(routes)[j]) == |ParamNames(pss[j])|
    {
      RenderNoBar(pss[j]);
      GroupsOfRoute(pss[j]);
    }
  }

  lemma FirstDefinedAt(m: seq<Option<string>>, g: nat)
    requires g + 1 < |m| && m[g + 1].Some?
    requires forall j :: 1 <= j <= g ==> m[j].None?
    ensures FirstDefined(m) == g + 1
  {
  }

  lemma ParametersOfRendered(r: string, ps: seq<Piece>, m: seq<Option<string>>, pos: int)
    requires WellFormed(ps) && r == Render(ps) && ParamNames(ps) != []
    ensures ParametersOf(Compile(r).parameters, m, pos) == Some(Bind(ParamNames(ps), m, pos))
  {
    CompileRendered(ps);
  }

  // ---------------------------------------------------------------------
  // The routes of test/test.js.

  function IndexPieces(): seq<Piece> {
    [Literal("/")]
  }

  function UserPieces(): seq<Piece> {
    [Literal("/user/"), Placeholder("uid", None)]
  }

  function PostsPieces(): seq<Piece> {
    [Literal("/posts/"), Placeholder("id", None)]
  }

  function HomePieces(): seq<Piece> {
    [Literal("/home/"), Placeholder("uid", None), Literal("/"), Placeholder("page", None)]
  }

  function TestRoutes<H>(h0: H, h1: H, h2: H): seq<Route<H>> {
    [Route("/", h0), Route("/user/{uid}", h1), Route("/posts/{id}", h2)]
  }

  /** The pieces of the three test routes. */
  function TestPieces(): seq<seq<Piece>> {
    [IndexPieces(), UserPieces(), PostsPieces()]
  }

  /** A two-piece route renders piece by piece. */
  lemma RenderPair(a: Piece, b: Piece)
    ensures Render([a, b]) == RenderPiece(a) + RenderPiece(b)
    ensures WellFormedPiece(a) && WellFormedPiece(b) ==> WellFormed([a, b])
  {
    assert [a, b][1..] == [b];
    assert [b][1..] == [];
    assert Render([b]) == RenderPiece(b) + "";
    assert RenderPiece(b) + "" == RenderPiece(b);
    if WellFormedPiece(a) && WellFormedPiece(b) {
      forall i | 0 <= i < 2 ensures WellFormedPiece([a, b][i]) {
        assert [a, b][i] == if i == 0 then a else b;
      }
    }
  }

  lemma RenderedPlaceholderRoute(prefix: string, name: string, r: string)
    requires PlainText(prefix) && |name| > 0 && forall i :: 0 <= i < |name| ==> IsWordChar(name[i])
    requires r == prefix + ("{" + name + "}")
    ensures WellFormed([Literal(prefix), Placeholder(name, None)])
    ensures Render([Literal(prefix), Placeholder(name, None)]) == r
  {
    RenderPair(Literal(prefix), Placeholder(name, None));
  }

  /** The route strings of `test/test.js` are the renderings of `TestPieces()`. */
  lemma TestRoutesRendered<H>(h0: H, h1: H, h2: H)
    ensures RenderedFrom(TestRoutes(h0, h1, h2), TestPieces())
  {
    assert Render(IndexPieces()) == "/" && WellFormed(IndexPieces()) by {
      assert WellFormedPiece(IndexPieces()[0]);
    }
    RenderedPlaceholderRoute("/user/", "uid", "/user/{uid}");
    RenderedPlaceholderRoute("/posts/", "id", "/posts/{id}");
  }

  /** `parseRoute('/')` is `{pattern: '^\/\/?$', parameters: null}`. */
  lemma CompileIndexRoute()
    ensures Compile("/") == RegExpRouter("^\\/\\/?$", None)
  {
    var ps := IndexPieces();
    IndexRendered(ps);
    CompileRendered(ps);
    TrimRoot(CompiledBody(ps));
    AnchorEmpty();
  }

  lemma IndexRendered(ps: seq<Piece>)
    requires ps == IndexPieces()
    ensures WellFormed(ps) && Render(ps) == "/" && CompiledBody(ps) == "/" && ParamNames(ps) == []
  {
    assert WellFormedPiece(ps[0]);
  }

  lemma TrimRoot(s: string)
    requires s == "/"
    ensures TrimChar(s, '/') == ""
  {
  }

  lemma AnchorEmpty()
    ensures Anchor(EscapeSlashes("")) == "^\\/\\/?$"
  {
  }

  lemma {:induction false} EscapeAppend(x: string, y: string)
    ensures EscapeSlashes(x + y) == EscapeSlashes(x) + EscapeSlashes(y)
  {
    if x != [] {
      var xy := x + y;
      assert xy[0] == x[0] && xy[1..] == x[1..] + y;
      var head := if x[0] == '/' then "\\/" else [x[0]];
      assert EscapeSlashes(xy) == head + EscapeSlashes(x[1..] + y);
      assert EscapeSlashes(x) == head + EscapeSlashes(x[1..]);
      EscapeAppend(x[1..], y);
      AppendAssoc(head, EscapeSlashes(x[1..]), EscapeSlashes(y));
    } else {
      assert x + y == y;
    }
  }

  lemma HomeRendered()
    ensures WellFormed(HomePieces())
    ensures Render(HomePieces()) == "/home/{uid}/{page}"
    ensures ParamNames(HomePieces()) == ["uid", "page"]
    ensures CompiledBody(HomePieces()) == "/home/(\\w+)/(\\w+)"
  {
    var ps := HomePieces();
    HomeTail(ps);
    HomeWellFormed(ps);
    HomeRender(ps);
    HomeNames(ps);
    HomeCompiledBody(ps);
  }

  lemma HomeTail(ps: seq<Piece>)
    requires ps == HomePieces()
    ensures |ps| == 4 && ps[1..][1..][1..][1..] == []
  {
  }

  lemma HomeWellFormed(ps: seq<Piece>)
    requires ps == HomePieces()
    ensures WellFormed(ps)
  {
    assert WellFormedPiece(ps[0]) && WellFormedPiece(ps[2]);
    assert WellFormedPiece(ps[1]) && WellFormedPiece(ps[3]);
  }

  lemma HomeRender(ps: seq<Piece>)
    requires ps == HomePieces() && ps[1..][1..][1..][1..] == []
    ensures Render(ps) == "/home/{uid}/{page}"
  {
  }

  lemma HomeNames(ps: seq<Piece>)
    requires ps == HomePieces() && ps[1..][1..][1..][1..] == []
    ensures ParamNames(ps) == ["uid", "page"]
  {
  }

  lemma HomeCompiledBody(ps: seq<Piece>)
    requires ps == HomePieces() && ps[1..][1..][1..][1..] == []
    ensures CompiledBody(ps) == "/home/(\\w+)/(\\w+)"
  {
  }

  lemma EscapeRoot()
    ensures EscapeSlashes("/") == "\\/"
  {
  }

  lemma EscapeHome()
    ensures EscapeSlashes("home/") == "home\\/"
  {
  }

  lemma EscapeWord()
    ensures EscapeSlashes("(\\w+)") == "(\\w+)"
  {
  }

  lemma HomeEscapeSplit(a: string, b: string, sl: string)
    ensures EscapeSlashes(a + (b + (sl + b))) == EscapeSlashes(a) + (EscapeSlashes(b) + (EscapeSlashes(sl) + EscapeSlashes(b)))
  {
    EscapeAppend(a, b + (sl + b));
    EscapeAppend(b, sl + b);
    EscapeAppend(sl, b);
  }

  lemma HomeTrim(s: string)
    requires s == "/home/(\\w+)/(\\w+)"
    ensures TrimChar(s, '/') == "home/(\\w+)/(\\w+)"
  {
    assert s[0] == '/' && s[|s| - 1] == ')';
    assert s[1..] == "home/(\\w+)/(\\w+)";
  }

  lemma HomeSplit(s: string)
    requires s == "home/(\\w+)/(\\w+)"
    ensures s == "home/" + ("(\\w+)" + ("/" + "(\\w+)"))
  {
  }

  lemma HomeJoin()
    ensures "home\\/" + ("(\\w+)" + ("\\/" + "(\\w+)")) == "home\\/(\\w+)\\/(\\w+)"
  {
  }

  lemma HomeEscaped(s: string)
    requires s == "home/(\\w+)/(\\w+)"
    ensures EscapeSlashes(s) == "home\\/(\\w+)\\/(\\w+)"
  {
    var h, g, sl := "home/", "(\\w+)", "/";
    HomeSplit(s);
    HomeEscapeSplit(h, g, sl);
    EscapeHome();
    EscapeWord();
    EscapeRoot();
    HomeJoin();
  }

  lemma HomeAnchored()
    ensures Anchor("home\\/(\\w+)\\/(\\w+)") == "^\\/home\\/(\\w+)\\/(\\w+)\\/?$"
  {
  }

  /** `parseRoute('/home/{uid}/{page}')` yields two `(\w+)` groups and the names `uid`, `page`. */
  lemma CompileHomeRoute(r: string)
    requires r == "/home/{uid}/{page}"
    ensures Compile(r) == RegExpRouter("^\\/home\\/(\\w+)\\/(\\w+)\\/?$", Some(["uid", "page"]))
  {
    HomeRendered();
    var ps := HomePieces();
    CompileRendered(ps);
    HomeTrim(CompiledBody(ps));
    HomeEscaped(TrimChar(CompiledBody(ps), '/'));
    HomeAnchored();
  }

  lemma TestPieceCounts()
    ensures ParamNames(IndexPieces()) == [] && ParamNames(UserPieces()) == ["uid"] && ParamNames(PostsPieces()) == ["id"]
  {
  }

  lemma UserCounts(pss: seq<seq<Piece>>)
    requires pss == TestPieces()
    ensures |pss| == 3 && ParamsBefore(pss, 1) == 0 && ParamNames(pss[1]) == ["uid"]
  {
    TestPieceCounts();
    assert ParamsBefore(pss[1..], 0) == 0;
  }

  lemma BindUser(m: seq<Option<string>>)
    requires |m| == 3 && m[1] == Some("123")
    ensures Bind(["uid"], m, 1) == map["uid" := Some("123")]
  {
  }

  lemma BindPosts(m: seq<Option<string>>)
    requires |m| == 2 && m[1] == Some("10")
    ensures BindDefined(["id"], m, 2) == map["id" := Some("10")]
  {
    assert BindDefined(["id"], m, 1) == map[];
  }

  /** `exec(path)` over any route list rendered from the test pieces, when only the `uid` group captures `123`. */
  lemma ExecRenderedUser<H>(routes: seq<Route<H>>, pss: seq<seq<Piece>>, h1: H, engine: Engine, path: string, m: seq<Option<string>>)
    requires RenderedFrom(routes, pss) && |pss| == 3 && ParamsBefore(pss, 1) == 0 && ParamNames(pss[1]) == ["uid"]
    requires routes[1].handler == h1
    requires |m| == 3 && m[0] == Some(path) && m[1] == Some("123") && m[2].None?
    requires engine(CombinedPattern(routes), path) == Some(m)
    ensures ExecResult(routes, engine, path) == Matched(Match(h1, Some(map["uid" := Some("123")])))
  {
    UserCapture(routes, pss, m);
    ExecUserCaptured(routes, h1, engine, path, m);
  }

  lemma ExecUserCaptured<H>(routes: seq<Route<H>>, h1: H, engine: Engine, path: string, m: seq<Option<string>>)
    requires forall j :: 0 <= j < |routes| ==> '|' !in routes[j].route
    requires 1 < |routes| && GroupsBefore(Wrapped(routes), 1) == 0 && 0 < Caps(Wrapped(routes)[1])
    requires 0 + 1 < |m| && m[0 + 1].Some?
    requires ParametersOf(Compile(routes[1].route).parameters, m, 0 + 1) == Some(map["uid" := Some("123")])
    requires routes[1].handler == h1 && engine(CombinedPattern(routes), path) == Some(m)
    ensures ExecResult(routes, engine, path) == Matched(Match(h1, Some(map["uid" := Some("123")])))
  {
    ExecAfterGroups(routes, engine, path, m, 1, 0, Some(map["uid" := Some("123")]));
  }

  /** The conditions of `ExecAfterGroups` for route 1 of the test pieces with capture `'123'`. */
  lemma UserCapture<H>(routes: seq<Route<H>>, pss: seq<seq<Piece>>, m: seq<Option<string>>)
    requires RenderedFrom(routes, pss) && |pss| == 3 && ParamsBefore(pss, 1) == 0 && ParamNames(pss[1]) == ["uid"]
    requires |m| == 3 && m[1] == Some("123")
    ensures forall j :: 0 <= j < |routes| ==> '|' !in routes[j].route
    ensures 1 < |routes| && GroupsBefore(Wrapped(routes), 1) == 0 && 0 < Caps(Wrapped(routes)[1])
    ensures 0 + 1 < |m| && m[0 + 1].Some?
    ensures ParametersOf(Compile(routes[1].route).parameters, m, 0 + 1) == Some(map["uid" := Some("123")])
  {
    RenderedGroups(routes, pss, 1);
    RenderedParameters(routes, pss, 1, m, 1);
    BindUser(m);
  }


  /**
   * `exec('/user/123')` over the three test routes, when the combined
   * expression yields the captures `['123', undefined]`, returns the
   * second handler with `{uid: '123'}`.
   */
  lemma ExecTestUser<H>(routes: seq<Route<H>>, h0: H, h1: H, h2: H, engine: Engine, m: seq<Option<string>>)
    requires routes == TestRoutes(h0, h1, h2)
    requires |m| == 3 && m[0] == Some("/user/123") && m[1] == Some("123") && m[2].None?
    requires engine(CombinedPattern(routes), "/user/123") == Some(m)
    ensures ExecResult(routes, engine, "/user/123") == Matched(Match(h1, Some(map["uid" := Some("123")])))
  {
    TestRoutesRendered(h0, h1, h2);
    UserCounts(TestPieces());
    ExecRenderedUser(routes, TestPieces(), h1, engine, "/user/123", m);
  }

  /** `execInOrder(path)` over any route list rendered from the test pieces, when only the third route matches. */
  lemma InOrderRenderedPosts<H>(routes: seq<Route<H>>, h2: H, engine: Engine, path: string, m: seq<Option<string>>)
    requires RenderedFrom(routes, TestPieces()) && routes[2].handler == h2
    requires |m| == 2 && m[0] == Some(path) && m[1] == Some("10")
    requires engine(PatternOf(routes, 0), path).None?
    requires engine(PatternOf(routes, 1), path).None?
    requires engine(PatternOf(routes, 2), path) == Some(m)
    ensures InOrderResult(routes, engine, path) == Some(Match(h2, Some(map["id" := Some("10")])))
  {
    ThirdMatchesFirst(routes, engine, path);
    PostsMatch(routes, m);
  }

  lemma ThirdMatchesFirst<H>(routes: seq<Route<H>>, engine: Engine, path: string)
    requires |routes| == 3
    requires engine(PatternOf(routes, 0), path).None?
    requires engine(PatternOf(routes, 1), path).None?
    requires engine(PatternOf(routes, 2), path).Some?
    ensures FirstMatchingFrom(routes, engine, path, 0) == 2
  {
    assert FirstMatchingFrom(routes, engine, path, 2) == 2;
  }

  /** Route 2 of the test pieces binds `id` to the one capture `'10'`. */
  lemma PostsMatch<H>(routes: seq<Route<H>>, m: seq<Option<string>>)
    requires RenderedFrom(routes, TestPieces())
    requires |m| == 2 && m[1] == Some("10")
    ensures InOrderMatch(routes, 2, m) == Match(routes[2].handler, Some(map["id" := Some("10")]))
  {
    TestPieceCounts();
    assert routes[2].route == Render(PostsPieces()) && WellFormed(PostsPieces());
    CompileRendered(PostsPieces());
    BindPosts(m);
  }

  /**
   * `execInOrder('/posts/10')` over the three test routes, when only the
   * third route's own expression matches with capture `'10'`, returns the
   * third handler with `{id: '10'}`.
   */
  lemma InOrderTestPosts<H>(routes: seq<Route<H>>, h0: H, h1: H, h2: H, engine: Engine, m: seq<Option<string>>)
    requires routes == TestRoutes(h0, h1, h2)
    requires |m| == 2 && m[0] == Some("/posts/10") && m[1] == Some("10")
    requires engine(PatternOf(routes, 0), "/posts/10").None?
    requires engine(PatternOf(routes, 1), "/posts/10").None?
    requires engine(PatternOf(routes, 2), "/posts/10") == Some(m)
    ensures InOrderResult(routes, engine, "/posts/10") == Some(Match(h2, Some(map["id" := Some("10")])))
  {
    TestRoutesRendered(h0, h1, h2);
    InOrderRenderedPosts(routes, h2, engine, "/posts/10", m);
  }
}

/**
 * The `FastRouter` object: a route list that callers replace or extend, and
 * the combined expression with its parameter lists, which `exec` rebuilds
 * from the route list on every call. `trimChar` is not a method here: the
 * methods call the function `RouteCompiler.TrimChar`. `BindCaptures` and
 * `BindParameters` are the inner loops of `execInOrder` and `exec`. The
 * methods that compute a value, and `CombineRoutes`, are proved equal to
 * the functions that specify them, whose guarantees are proved in the
 * modules they come from and in `ExecTheorems`; the constructor and the
 * setters state the new field values directly.
 */
module Router {
  import opened Wrappers
  import opened JsString
  import opened RouteCompiler
  import opened IndexRecovery
  import opened Matching

  class FastRouter<H> {
    var routeList: seq<Route<H>>
    var combinedRoutePattern: string
    /** `null` until the first `combineRoutes`, then one entry (a name list or `null`) per route. */
    var combinedRouteParameters: Option<seq<Option<seq<string>>>>

    constructor()
      ensures routeList == [] && combinedRoutePattern == "" && combinedRouteParameters == None
    {
      routeList := [];
      combinedRoutePattern := "";
      combinedRouteParameters := None;
    }

    /** `setRoutes(routeList)`: replaces the route list and nothing else. */
    method SetRoutes(routes: seq<Route<H>>)
      modifies this
      ensures routeList == routes
      ensures combinedRoutePattern == old(combinedRoutePattern)
      ensures combinedRouteParameters == old(combinedRouteParameters)
    {
      routeList := routes;
    }

    /** `setRoute(route)`: appends one route and changes nothing else. */
    method SetRoute(r: Route<H>)
      modifies this
      ensures routeList == old(routeList) + [r]
      ensures combinedRoutePattern == old(combinedRoutePattern)
      ensures combinedRouteParameters == old(combinedRouteParameters)
    {
      routeList := routeList + [r];
    }

    /** `setRoute(route, handler)` of the JavaScript version: appends `{route, handler}`. */
    method SetRouteFrom(route: string, handler: H)
      modifies this
      ensures routeList == old(routeList) + [Route(route, handler)]
      ensures combinedRoutePattern == old(combinedRoutePattern)
      ensures combinedRouteParameters == old(combinedRouteParameters)
    {
      routeList := routeList + [Route(route, handler)];
    }

    /**
     * `parseRoute(patternString)`: braces become parentheses, every token
     * `(name` or `(name:` is replaced in turn and its name recorded, then the
     * body is trimmed, escaped and anchored. The result is `Compile`.
     */
    method ParseRoute(patternString: string) returns (r: RegExpRouter)
      ensures r == Compile(patternString)
    {
      var pattern := ReplaceAllChar(ReplaceAllChar(patternString, '{', '('), '}', ')');
      ghost var b := pattern;
      var matchedParams := Tokens(pattern);
      var parameters: Option<seq<string>> := None;
      if matchedParams != [] {
        var names: seq<string> := [];
        var i := 0;
        while i < |matchedParams|
          invariant 0 <= i <= |matchedParams|
          invariant ApplyTokens(pattern, matchedParams[i..]) == ApplyTokens(b, matchedParams)
          invariant names == Names(matchedParams[..i])
        {
          assert matchedParams[i..][1..] == matchedParams[i + 1..];
          pattern := ReplaceFirst(pattern, matchedParams[i], "(");
          pattern := ReplaceFirst(pattern, "()", "(\\w+)");
          var token := ReplaceFirst(matchedParams[i], ":", "");
          names := names + [Substring(token, 1, |token|)];
          assert matchedParams[..i + 1] == matchedParams[..i] + [matchedParams[i]];
          i := i + 1;
        }
        assert matchedParams[i..] == [];
        assert matchedParams[..i] == matchedParams;
        parameters := Some(names);
      }
      pattern := TrimChar(pattern, '/');
      pattern := "^\\/" + EscapeSlashes(pattern) + "\\/?$";
      r := RegExpRouter(pattern, parameters);
    }

    /**
     * `combineRoutes()`: compiles every route, wraps each pattern in
     * `(?:…)`, joins them with `|` and keeps the name lists in route order.
     */
    method CombineRoutes()
      modifies this
      ensures routeList == old(routeList)
      ensures combinedRoutePattern == CombinedPattern(routeList)
      ensures combinedRouteParameters == Some(CombinedParameters(routeList))
    {
      var patterns: seq<string> := [];
      var parameters: seq<Option<seq<string>>> := [];
      var i := 0;
      while i < |routeList|
        invariant routeList == old(routeList)
        invariant 0 <= i <= |routeList|
        invariant |patterns| == i && |parameters| == i
        invariant forall j :: 0 <= j < i ==> patterns[j] == Wrap(Compile(routeList[j].route).pattern)
        invariant forall j :: 0 <= j < i ==> parameters[j] == Compile(routeList[j].route).parameters
      {
        var regExp := ParseRoute(routeList[i].route);
        patterns := patterns + ["(?:" + regExp.pattern + ")"];
        parameters := parameters + [regExp.parameters];
        i := i + 1;
      }
      assert patterns == Wrapped(routeList);
      assert parameters == CombinedParameters(routeList);
      combinedRoutePattern := Join(patterns, '|');
      combinedRouteParameters := Some(parameters);
    }

    /** `getSubPatternPosition(matches)`: the first defined capture after the whole match, or -1. */
    method GetSubPatternPosition(matches: seq<Option<string>>) returns (position: int)
      ensures position == FirstDefined(matches)
    {
      position := -1;
      var i := 1;
      while i < |matches|
        invariant 1 <= i <= |matches| || (|matches| == 0 && i == 1)
        invariant FirstDefinedFrom(matches, i) == FirstDefined(matches)
      {
        if matches[i].Some? {
          position := i;
          break;
        }
        i := i + 1;
      }
    }

    /** `getMatchedRouteIndexByPath(path)`: the first route equal to `path` up to a leading and trailing `/`, else 0. */
    method GetMatchedRouteIndexByPath(path: string) returns (index: nat)
      ensures index == IndexByPath(Texts(routeList), path)
    {
      index := 0;
      var str := TrimChar(path, '/');
      var i := 0;
      while i < |routeList|
        invariant 0 <= i <= |routeList|
        invariant IndexByPathFrom(Texts(routeList), str, i) == IndexByPath(Texts(routeList), path)
      {
        if str == TrimChar(routeList[i].route, '/') {
          index := i;
          break;
        }
        i := i + 1;
      }
    }

    /**
     * `getMatchedRouteIndexBySubPattern(p)`: finds the position where the
     * count of groups reaches `p`, then counts the `|` before it.
     */
    method GetMatchedRouteIndexBySubPattern(subPatternPosition: int) returns (find: nat)
      ensures find == IndexBySubPattern(combinedRoutePattern, subPatternPosition)
    {
      var count := 0;
      var str := "";
      var pattern := combinedRoutePattern;
      var i := 0;
      while i < |pattern| - 1
        invariant 0 <= i
        invariant ScanFrom(pattern, i, count, subPatternPosition) == ScanFrom(pattern, 0, 0, subPatternPosition)
        invariant str == ""
      {
        if pattern[i] == '(' && pattern[i + 1] != '?' {
          count := count + 1;
        }
        if count == subPatternPosition {
          str := pattern[..i];
          break;
        }
        i := i + 1;
      }
      assert str == match ScanFrom(pattern, 0, 0, subPatternPosition)
                    case None => ""
                    case Some(k) => pattern[..k];
      find := 0;
      var j := 0;
      while j < |str|
        invariant 0 <= j <= |str|
        invariant find == CountChar(str[..j], '|')
      {
        assert str[..j + 1] == str[..j] + [str[j]];
        CountCharAppend(str[..j], [str[j]], '|');
        if str[j] == '|' {
          find := find + 1;
        }
        j := j + 1;
      }
      assert str[..j] == str;
    }

    /**
     * The parameters loop of `execInOrder`: for `x` from 1, each defined
     * `matches[x]` is stored under `names[x - 1]`.
     */
    method BindCaptures(names: seq<string>, m: seq<Option<string>>) returns (ps: map<string, Option<string>>)
      ensures ps == BindDefined(names, m, |m|)
    {
      ps := map[];
      if |m| == 0 {
        return;
      }
      var x := 1;
      while x < |m|
        invariant 1 <= x <= |m|
        invariant ps == BindDefined(names, m, x)
      {
        if m[x].Some? {
          ps := ps[KeyAt(names, x - 1) := m[x]];
        }
        x := x + 1;
      }
    }

    /** The parameters loop of `exec`: `parameters[names[i]] = matches[pos + i]` for every name in turn. */
    method BindParameters(names: seq<string>, m: seq<Option<string>>, pos: int) returns (ps: map<string, Option<string>>)
      ensures ps == Bind(names, m, pos)
    {
      ps := map[];
      var i := 0;
      while i < |names|
        invariant 0 <= i <= |names|
        invariant ps == Bind(names[..i], m, pos)
      {
        assert names[..i + 1][..i] == names[..i];
        ps := ps[names[i] := CaptureAt(m, pos + i)];
        i := i + 1;
      }
      assert names[..i] == names;
    }

    /**
     * `execInOrder(route)`: compiles and matches the routes one at a time,
     * in list order, and answers for the first that matches, storing each
     * defined capture under its name. It changes nothing.
     */
    method ExecInOrder(route: string, engine: Engine) returns (ret: Option<Match<H>>)
      ensures ret == InOrderResult(routeList, engine, route)
    {
      ret := None;
      var i := 0;
      while i < |routeList|
        invariant 0 <= i <= |routeList|
        invariant FirstMatchingFrom(routeList, engine, route, i) == FirstMatchingFrom(routeList, engine, route, 0)
        invariant ret == None
      {
        var regExp := ParseRoute(routeList[i].route);
        var matches := engine(regExp.pattern, route);
        if matches.None? {
          i := i + 1;
          continue;
        }
        var m := matches.value;
        var parameters: Option<map<string, Option<string>>> := None;
        if regExp.parameters.Some? {
          var ps := BindCaptures(regExp.parameters.value, m);
          parameters := Some(ps);
        }
        ret := Some(Match(routeList[i].handler, parameters));
        break;
      }
    }

    /**
     * `exec(route)`: rebuilds the combined expression, matches it once,
     * recovers the route index from the first defined capture (or from the
     * path when no capture is defined) and reads that route's parameters
     * from consecutive captures. An index past the route list ends in the
     * `TypeError` the source throws.
     */
    method Exec(route: string, engine: Engine) returns (r: Outcome<H>)
      modifies this
      ensures routeList == old(routeList)
      ensures combinedRoutePattern == CombinedPattern(routeList)
      ensures combinedRouteParameters == Some(CombinedParameters(routeList))
      ensures r == ExecResult(routeList, engine, route)
    {
      CombineRoutes();
      var combined := combinedRouteParameters.value;
      var matches := engine(combinedRoutePattern, route);
      if matches.None? {
        return NoMatch;
      }
      var m := matches.value;
      var subPatternPosition := GetSubPatternPosition(m);
      var routeIndex: nat;
      if subPatternPosition == -1 {
        routeIndex := GetMatchedRouteIndexByPath(route);
      } else {
        routeIndex := GetMatchedRouteIndexBySubPattern(subPatternPosition);
      }
      if routeIndex >= |combined| {
        return TypeError;
      }
      var parameterNames := combined[routeIndex];
      var parameters: Option<map<string, Option<string>>> := None;
      if parameterNames.Some? {
        var ps := BindParameters(parameterNames.value, m, subPatternPosition);
        parameters := Some(ps);
      }
      r := Matched(Match(routeList[routeIndex].handler, parameters));
    }
  }
}

/**
 * What `exec` and `execInOrder` compute, as functions of the route list and
 * of the regular-expression engine. The engine is a parameter: given an
 * expression source and an input it returns `None` for no match, or the
 * match array, whose entry 0 is the whole match and whose `None` entries are
 * groups that took no part in the match (`undefined` in JavaScript).
 */
module Matching {
  import opened Wrappers
  import opened JsString
  import opened RouteCompiler
  import opened IndexRecovery

  /** `{route, handler}`: a route string and the value returned for it. */
  datatype Route<H> = Route(route: string, handler: H)

  /** The object both `exec` methods return: the handler, and the parameters object or `null`. */
  datatype Match<H> = Match(handler: H, parameters: Option<map<string, Option<string>>>)

  /**
   * What `exec` does: returns `null`, returns a match, or throws the
   * `TypeError` of reading `.length` of `combinedRouteParameters[routeIndex]`
   * when the recovered index lies past the route list.
   */
  datatype Outcome<H> = NoMatch | Matched(result: Match<H>) | TypeError

  /** `new RegExp(source).exec(input)`. */
  type Engine = (string, string) -> Option<seq<Option<string>>>

  function Texts<H>(routes: seq<Route<H>>): (r: seq<string>)
    ensures |r| == |routes| && forall i :: 0 <= i < |routes| ==> r[i] == routes[i].route
  {
    seq(|routes|, i requires 0 <= i < |routes| => routes[i].route)
  }

  /** The wrapped compiled pattern of every route, in order. */
  function Wrapped<H>(routes: seq<Route<H>>): (r: seq<string>)
    ensures |r| == |routes| && forall i :: 0 <= i < |routes| ==> r[i] == Wrap(Compile(routes[i].route).pattern)
  {
    seq(|routes|, i requires 0 <= i < |routes| => Wrap(Compile(routes[i].route).pattern))
  }

  /** `combinedRoutePattern`: the wrapped patterns joined with `|`. */
  function CombinedPattern<H>(routes: seq<Route<H>>): string {
    Join(Wrapped(routes), '|')
  }

  /** `combinedRouteParameters`: the parameter names of every route, in order. */
  function CombinedParameters<H>(routes: seq<Route<H>>): (r: seq<Option<seq<string>>>)
    ensures |r| == |routes| && forall i :: 0 <= i < |routes| ==> r[i] == Compile(routes[i].route).parameters
  {
    seq(|routes|, i requires 0 <= i < |routes| => Compile(routes[i].route).parameters)
  }

  /** `matches[j]`, which is `undefined` outside the array. */
  function CaptureAt(m: seq<Option<string>>, j: int): Option<string> {
    if 0 <= j < |m| then m[j] else None
  }

  // ---------------------------------------------------------------------
  // The parameters object of `exec`.

  /**
   * The loop of `exec` that sets `parameters[names[i]] = matches[pos + i]`
   * for every name in turn: its keys are exactly the names.
   */
  function Bind(names: seq<string>, m: seq<Option<string>>, pos: int): (r: map<string, Option<string>>)
    ensures r.Keys == set i | 0 <= i < |names| :: names[i]
  {
    if names == [] then map[]
    else
      var n := |names| - 1;
      var prev := Bind(names[..n], m, pos);
      assert forall i :: 0 <= i < n ==> names[..n][i] == names[i];
      prev[names[n] := CaptureAt(m, pos + n)]
  }

  /** A later name overwrites an earlier equal one: the last occurrence of a name decides its value. */
  lemma {:induction false} BindLastWins(names: seq<string>, m: seq<Option<string>>, pos: int, i: int)
    requires 0 <= i < |names|
    requires forall j :: i < j < |names| ==> names[j] != names[i]
    ensures names[i] in Bind(names, m, pos)
    ensures Bind(names, m, pos)[names[i]] == CaptureAt(m, pos + i)
  {
    var n := |names| - 1;
    if i < n {
      assert forall j :: 0 <= j < n ==> names[..n][j] == names[j];
      BindLastWins(names[..n], m, pos, i);
    }
  }

  // ---------------------------------------------------------------------
  // The parameters object of `execInOrder`.

  /** `regExp.parameters[x - 1]` as an object key: a name, or `"undefined"` past the end of the names. */
  function KeyAt(names: seq<string>, i: int): string {
    if 0 <= i < |names| then names[i] else "undefined"
  }

  /**
   * The loop of `execInOrder` over captures `1 .. x-1`: each defined capture
   * `matches[j]` is stored under `names[j - 1]`. Its keys are the names of
   * the defined captures, and every stored value is defined.
   */
  function BindDefined(names: seq<string>, m: seq<Option<string>>, x: nat): (r: map<string, Option<string>>)
    requires x <= |m|
    ensures r.Keys == set j | 1 <= j < x && m[j].Some? :: KeyAt(names, j - 1)
    ensures forall k :: k in r ==> r[k].Some?
  {
    if x <= 1 then map[]
    else
      var j := x - 1;
      var prev := BindDefined(names, m, j);
      if m[j].Some? then prev[KeyAt(names, j - 1) := m[j]] else prev
  }

  /** The last defined capture stored under a key decides its value. */
  lemma {:induction false} BindDefinedLastWins(names: seq<string>, m: seq<Option<string>>, x: nat, j: int)
    requires x <= |m| && 1 <= j < x && m[j].Some?
    requires forall l :: j < l < x && m[l].Some? ==> KeyAt(names, l - 1) != KeyAt(names, j - 1)
    ensures BindDefined(names, m, x)[KeyAt(names, j - 1)] == m[j]
  {
    if j < x - 1 {
      BindDefinedLastWins(names, m, x - 1, j);
    }
  }

  // ---------------------------------------------------------------------
  // exec

  /** The route index `exec` recovers from the match array `m`. */
  function RecoveredIndex<H>(routes: seq<Route<H>>, m: seq<Option<string>>, route: string): nat {
    var pos := FirstDefined(m);
    if pos == -1 then IndexByPath(Texts(routes), route)
    else IndexBySubPattern(CombinedPattern(routes), pos)
  }

  /** The parameters object for names `names` (or `null`) read from position `pos` of `m`. */
  function ParametersOf(names: Option<seq<string>>, m: seq<Option<string>>, pos: int): Option<map<string, Option<string>>> {
    match names
    case None => None
    case Some(ns) => Some(Bind(ns, m, pos))
  }

  /**
   * `exec(route)` on the route list `routes`: match the combined
   * expression once, recover the route index from the first defined
   * capture (or from the path when there is none), and read that route's
   * parameters from consecutive captures. It returns `null` exactly when
   * the combined expression does not match.
   */
  function ExecResult<H>(routes: seq<Route<H>>, engine: Engine, route: string): (r: Outcome<H>)
    ensures r.NoMatch? <==> engine(CombinedPattern(routes), route).None?
  {
    match engine(CombinedPattern(routes), route)
    case None => NoMatch
    case Some(m) =>
      var idx := RecoveredIndex(routes, m, route);
      if idx >= |routes| then TypeError
      else Matched(Match(routes[idx].handler,
                         ParametersOf(CombinedParameters(routes)[idx], m, FirstDefined(m))))
  }

  // ---------------------------------------------------------------------
  // execInOrder

  /** The expression of route `i` compiled on its own. */
  function PatternOf<H>(routes: seq<Route<H>>, i: nat): string
    requires i < |routes|
  {
    Compile(routes[i].route).pattern
  }

  /** The first route at or after `i` whose own expression matches `route`, or -1. */
  function FirstMatchingFrom<H>(routes: seq<Route<H>>, engine: Engine, route: string, i: nat): (k: int)
    decreases |routes| - i
    ensures k == -1 || (i <= k < |routes| && engine(PatternOf(routes, k), route).Some?)
    ensures forall j :: i <= j < |routes| && (k == -1 || j < k) ==> engine(PatternOf(routes, j), route).None?
  {
    if i >= |routes| then -1
    else if engine(PatternOf(routes, i), route).Some? then i
    else FirstMatchingFrom(routes, engine, route, i + 1)
  }

  /** The result `execInOrder` builds for route `i` from its match array `m`. */
  function InOrderMatch<H>(routes: seq<Route<H>>, i: nat, m: seq<Option<string>>): Match<H>
    requires i < |routes|
  {
    var names := Compile(routes[i].route).parameters;
    Match(routes[i].handler,
          match names
          case None => None
          case Some(ns) => Some(BindDefined(ns, m, |m|)))
  }

  /**
   * `execInOrder(route)`: the result for the first route, in list order,
   * whose own expression matches, and `null` when none does.
   */
  function InOrderResult<H>(routes: seq<Route<H>>, engine: Engine, route: string): (r: Option<Match<H>>)
    ensures r.None? <==> forall j :: 0 <= j < |routes| ==> engine(PatternOf(routes, j), route).None?
  {
    var k := FirstMatchingFrom(routes, engine, route, 0);
    if k == -1 then None
    else Some(InOrderMatch(routes, k, engine(PatternOf(routes, k), route).value))
  }
}

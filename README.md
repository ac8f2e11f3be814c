# FastRouter in Dafny

This project models the `FastRouter` class of fast-regexp-router. The class exists in four near-identical copies: `index.ts`, its compiled `index.js`, `src/FastRouter.ts` and the older `src/index.js`. It is a URL router. Each route such as `/user/{uid}` or `/home/{uid:\d+}` is compiled into an anchored regular-expression source plus its list of parameter names.

Routes can be matched in two ways:
- `execInOrder` tries each route's own expression in list order.
- `exec` joins all routes into one alternation `(?:p0)|(?:p1)|…`, matches it once, and works out which route matched. It takes the first defined capture, counts the capturing `(` and then the `|` in front of that capture. When no capture is defined, it falls back to comparing the path with the route texts.

The project has these modules:
- `JsString`: the JavaScript string built-ins the router relies on, on strings as sequences of characters. These are `charAt`, clamping `substring`, `indexOf`, first-occurrence `replace`, global single-character `replace`, `join` and `\w`.
- `RouteCompiler`: `trimChar`, and `parseRoute` as the function `Compile`.
- `Placeholders`: the route syntax of literal text, `{name}` and `{name:constraint}`. It proves that, for well-formed routes, the compiler's textual replacements amount to a piece-by-piece translation.
- `IndexRecovery`: `getSubPatternPosition`, `getMatchedRouteIndexByPath` and `getMatchedRouteIndexBySubPattern` as functions, together with the counting theorem `IndexOfCapture`.
- `GroupCount`: proves that a compiled well-formed route contributes one counted group per placeholder, and that compiling a route introduces no `|`.
- `Matching`: what `exec` and `execInOrder` return, as functions of the route list and of the regular-expression engine.
- `ExecTheorems`: proves that `exec` answers with the route that owns the first defined capture, that on a non-empty list of routes without `|` it never reads past its lists, and the behaviour of the scenario in `test/test.js`.
- `Router`: the class `FastRouter<H>`. It has the three fields of the source and one method per source method, with the loops of the source, except `trimChar`: the methods call it as the function `RouteCompiler.TrimChar`. `BindCaptures` and `BindParameters` are the inner loops of `execInOrder` and `exec`, written as methods of their own. The methods that compute a value, and `CombineRoutes`, are proved equal to the functions that specify them. The constructor and the setters state the new field values directly.

The regular-expression engine is a parameter of type `Engine`: a function from an expression source and an input to `None` (no match) or the match array. In the match array, entry 0 is the whole match and a `None` entry is an `undefined` capture. The handler is an opaque type parameter `H`.

`exec` has three outcomes, modelled as `Outcome<H>`:
- `NoMatch` is `null`.
- `Matched` carries the result object.
- `TypeError` is the exception JavaScript throws when the recovered index lies past the route list. `combinedRouteParameters[routeIndex]` is then `undefined`, and `exec` reads its `.length`.

`exec` has no precondition. The empty route list is handled as the source handles it: any match of the empty combined expression ends in `TypeError` (`ExecTheorems.ExecEmptyThrows`). `ExecTheorems.ExecIndexInRange` shows that this is the only way to reach that outcome when no route contains `|`.

The null guard of `exec` (index.ts:194-196, index.js:125-127) is not modelled as a branch. `CombineRoutes` always stores `Some(...)` in `combinedRouteParameters`, and `Router.FastRouter.Exec` reads it directly. So the guard can never fire. `src/index.js` has no such guard.

`test/test.js` calls `setRoute` with two arguments, the signature of `setRoute(route, handler)` in `src/index.js`. The file loads `../index`, whose `setRoute` takes one argument (index.js:21-23) and whose class is exported as `default` (index.js:151), so the demonstration matches only the older interface. The model has the two-argument method as `SetRouteFrom`, and the one-argument `setRoute(route)` of the other copies as `SetRoute`.

## Model

| member | source | states |
|---|---|---|
| RouteCompiler.TrimChar | index.ts:20-29 | The result is the slice of the input between at most one leading and at most one trailing occurrence of the character, so the input comes back unchanged when neither end is that character. |
| RouteCompiler.TrimCharUnguarded | src/FastRouter.ts:20-29 | The copy without the `length > 0` test gives the same result as the guarded one on every input. |
| RouteCompiler.EscapeSlashes | index.ts:74 | `replace(/\//g, '\\/')` adds one character per `/`, every `/` of the result is preceded by `\`, and the result never starts with `/`. |
| RouteCompiler.EscapeRoundTrip | index.ts:74 | Escaping loses nothing: reading every `\/` back as `/` returns the original text. |
| RouteCompiler.TokensEmptyIff | index.ts:56-59 | The token scan `match(/\(\w+:?/g)` finds nothing exactly when no `(` is followed by a word character. |
| RouteCompiler.TokensAreTokens | index.ts:56 | Every token the scan returns matches `\(\w+:?`. |
| RouteCompiler.NameOfToken | index.ts:67-69 | The recorded name of a token is the token without `(` and without its trailing `:`, and is a non-empty run of word characters. |
| RouteCompiler.ParametersAbsentIff | index.ts:50-59 | `parseRoute` returns `parameters = null` exactly when the brace-replaced route has no `(` followed by a word character. |
| RouteCompiler.ParametersAreTokenNames | index.ts:56-70 | A non-null parameter list has one entry per token, in left-to-right order, and each entry is the token's name. |
| RouteCompiler.CompileAnchored | index.ts:73-74 | The compiled pattern starts with `^\/` and ends with `\/?$`. Between the anchors is the trimmed, substituted route with every `/` written `\/`, and it reads back exactly. |
| Placeholders.ParenthesizeRender | index.ts:53 | Replacing braces by parentheses turns a rendered placeholder route into its bracketed form, piece by piece. |
| Placeholders.TokensBracketed | index.ts:56 | On a bracketed well-formed route the scan finds exactly one token per placeholder, `(name` or `(name:`, in order. |
| Placeholders.NamesTokenList | index.ts:67-69 | The names recorded for those tokens are the placeholder names, in order. |
| Placeholders.ApplyTokensBracketed | index.ts:62-66 | The replacement loop, with its first-occurrence `replace`, turns each placeholder into `(\w+)`, or into `(constraint)` when a constraint is given, and touches nothing else. |
| Placeholders.CompileRendered | index.ts:49-80 | For a well-formed route, `parseRoute` returns the anchored, trimmed, escaped piecewise translation, and the names of its placeholders, or `null` when it has none. |
| Placeholders.BracketedNoEmptyGroup | index.ts:65 | A bracketed well-formed route contains no `()` that the `'()'` replacement could hit before its own placeholder's. |
| IndexRecovery.FirstDefined | index.ts:97-109 | `getSubPatternPosition` returns -1 exactly when no capture after the whole match is defined. Otherwise it returns the least such index, which lies in `[1, matches.length)`. |
| IndexRecovery.IndexByPath | index.ts:111-123 | `getMatchedRouteIndexByPath` returns the first route whose `/`-trimmed text equals the `/`-trimmed path, and 0 when none does. |
| IndexRecovery.ScanFrom | index.ts:130-139 | The first counting loop stops only at a position whose look-ahead `pattern[i + 1]` lies inside the pattern. |
| IndexRecovery.IndexBySubPattern | index.ts:125-149 | The recovered index never exceeds the number of `\|` in the combined pattern. |
| IndexRecovery.JoinBars | index.ts:93 | When no route holds a `\|`, the alternation of `n` routes holds exactly `n - 1` bars. |
| IndexRecovery.RouteOfCapture | index.ts:130-146 | When the group count `p` falls among the groups of route `k`, the scan stops inside route `k`, with exactly `k` bars before it. |
| IndexRecovery.IndexOfCapture | index.ts:125-149 | `getMatchedRouteIndexBySubPattern(p)` is `k` for every group position `p` that belongs to route `k`. |
| GroupCount.CapsEscape | index.ts:74 | Escaping `/` neither adds nor removes a group as the source counts groups. |
| GroupCount.CountOpenBody | index.ts:62-66 | The compiled body of a well-formed route has one `(` per placeholder. |
| GroupCount.GroupsOfRoute | index.ts:82-95 | The wrapped pattern `(?:…)` of a well-formed route contains exactly one counted group per placeholder. |
| GroupCount.SegmentOfRoute | index.ts:49-95 | A route without `\|` compiles to a pattern without `\|`. Its wrapped form is a non-empty alternative that does not end in `(`. |
| Matching.Bind | index.ts:210-218 | The parameters object of `exec` has exactly the names as its keys. |
| Matching.BindLastWins | index.ts:215-217 | When a name repeats, the last occurrence decides the value stored under it. |
| Matching.BindDefined | index.ts:167-176 | The parameters object of `execInOrder` has, as its keys, the names of the defined captures only. It uses the key `undefined` past the end of the names, and every stored value is defined. |
| Matching.BindDefinedLastWins | index.ts:171-175 | The last defined capture stored under a key decides its value. |
| Matching.ExecResult | index.ts:189-224 | `exec` returns `null` exactly when the combined expression does not match. Otherwise it answers with the recovered route, or throws when the index lies past the list. |
| Matching.FirstMatchingFrom | index.ts:158-165 | The route chosen is the first at or after `i` whose own expression matches, and -1 means none does. |
| Matching.InOrderResult | index.ts:151-187 | `execInOrder` returns `null` exactly when no route's own expression matches. |
| ExecTheorems.ExecIndexInRange | index.ts:205-221 | With at least one route and no `\|` in any route, `exec` never reads past its lists. |
| ExecTheorems.ExecRecoversRoute | index.ts:205-223 | When the first defined capture is one of route `k`'s groups, `exec` returns route `k`'s handler, with its names read from consecutive captures starting at that capture. |
| ExecTheorems.ExecPlaceholderRoute | index.ts:189-224 | For well-formed routes whose placeholder captures before route `k` are undefined, and whose capture of route `k`'s first placeholder is defined, `exec` returns route `k` with `parameters[names[i]] = matches[G + 1 + i]`. Here `G` is the number of placeholders before route `k`. |
| ExecTheorems.ExecPathFallback | index.ts:205-208 | With no defined capture, `exec` answers with the first route whose text equals the path up to `/`, or with route 0 when none does. It reads names from `matches[-1 + i]`. |
| ExecTheorems.ExecEmptyThrows | index.ts:93-94 | On an empty route list the combined pattern is empty, and any match of it makes `exec` throw. |
| ExecTheorems.TestRoutesRendered | test/test.js:3-22 | The three test routes `/`, `/user/{uid}` and `/posts/{id}` are well-formed placeholder routes. |
| ExecTheorems.CompileIndexRoute | src/index.js:86-117 | `toRegExpRouter('/')` is pattern `^\/\/?$` with `parameters = null`. |
| ExecTheorems.CompileHomeRoute | src/index.js:74-117 | `toRegExpRouter('/home/{uid}/{page}')` is `^\/home\/(\w+)\/(\w+)\/?$` with names `uid` and `page`. |
| ExecTheorems.ExecTestUser | test/test.js:35 | `exec('/user/123')` on the test routes with captures `['123', undefined]` returns the second handler with `{uid: '123'}`. |
| ExecTheorems.InOrderTestPosts | test/test.js:41 | `execInOrder('/posts/10')` on the test routes, with only the third route matching with capture `'10'`, returns the third handler with `{id: '10'}`. |
| Router.FastRouter.constructor | index.js:4-8 | A new router has an empty route list, an empty combined pattern and `null` parameters. |
| Router.FastRouter.SetRoutes | index.ts:31-33 | Replaces the route list and changes nothing else. |
| Router.FastRouter.SetRoute | index.ts:35-37 | Appends exactly one route at the end, keeps every earlier entry and changes nothing else. |
| Router.FastRouter.SetRouteFrom | src/index.js:60-65 | Appends `{route, handler}` at the end and changes nothing else. |
| Router.FastRouter.ParseRoute | index.ts:49-80 | The loop that replaces tokens one by one and collects their names computes exactly `Compile`. |
| Router.FastRouter.CombineRoutes | index.ts:82-95 | Sets the combined pattern to the `\|`-join of the wrapped patterns (route `i`'s compiled pattern inside `(?:…)`), and the parameters to one entry per route, in route order, entry `i` being route `i`'s compiled name list or `null`. The route list is untouched, so a second call stores the same values again. |
| Router.FastRouter.GetSubPatternPosition | index.ts:97-109 | The loop with `break` computes `FirstDefined`. |
| Router.FastRouter.GetMatchedRouteIndexByPath | index.ts:111-123 | The loop with `break` computes `IndexByPath` over the current route list. |
| Router.FastRouter.GetMatchedRouteIndexBySubPattern | index.ts:125-149 | The two counting loops compute `IndexBySubPattern` on the current combined pattern. |
| Router.FastRouter.BindCaptures | index.ts:168-176 | The inner loop of `execInOrder` builds `BindDefined` over all captures. |
| Router.FastRouter.BindParameters | index.ts:212-218 | The inner loop of `exec` builds `Bind`. |
| Router.FastRouter.ExecInOrder | index.ts:151-187 | Computes `InOrderResult` over the current route list and changes no field. |
| Router.FastRouter.Exec | index.ts:189-224 | Rebuilds both combined fields from the unchanged route list, then returns `ExecResult`. |

## Left out

- The regular-expression engine (`new RegExp(...).exec` at index.ts:160 and index.ts:198) is a foreign call. It is the `Engine` parameter, so nothing is proved about the numbering of its groups. The theorems of `ExecTheorems` assume that the engine numbers groups as the source counts them, which holds for the `(\w+)` and plain-text constraint groups of well-formed routes.
- The engine is total: `new RegExp(...)` at index.ts:160 and index.ts:198 (src/index.js:148 and src/index.js:186) throws a `SyntaxError` when the compiled source is not a valid expression, and the model has no such outcome. Even routes the compiler theorems accept can produce one: the literal `/c++` compiles to `^\/c++\/?$`, and `/{a:*}` to `^\/(*)\/?$`. `exec` and `execInOrder` would then throw, whereas the model returns whatever the engine parameter gives.
- Strings are sequences of Unicode scalar values, while `charAt`, `substring` and `length` count UTF-16 code units. The two differ only on characters outside the Basic Multilingual Plane, and the router's results do not depend on that difference.
- Agreement between `exec` and `execInOrder` depends on which alternative a regular-expression engine takes, and is not stated.
- Router.FastRouter.SetRoutes: the source stores the caller's array itself, so later changes to that array would show through. The model stores a value, and aliasing is not modelled.
- Placeholders.CompileRendered and GroupCount.GroupsOfRoute require well-formed routes. Constraints holding `(`, `)`, `{`, `}` or `|`, and non-empty constraints that start with a word character or `?`, are excluded. On such routes the first-occurrence replacement can hit an earlier group: `/{a:x+}/{x}` compiles to a pattern containing `(+)`. The model computes what the source does on every input, but the translation and counting theorems are stated only for well-formed routes.
- The `$` substitution patterns of JavaScript `replace` are not modelled, because the replacement strings the source uses (`(`, `(\w+)`, `\/`, the empty string) contain no `$`.
- Object keys: the parameters objects are maps from strings to optional strings. JavaScript property-name quirks such as `__proto__` are not modelled, and an out-of-range name becomes the key `undefined` (`Matching.KeyAt`).
- Calling the handlers and the `console.log` output in `test/test.js` are demonstration I/O. The handler is an opaque type parameter.
- The type aliases and module export wiring (index.ts:1-9, index.js:1-3, index.js:149-151, src/index.js:4) carry no behaviour.

/**
 * The pattern compiler (`parseRoute`, named `toRegExpRouter` in the older
 * copy) and the `trimChar` helper it uses, as specification functions.
 * `Router.FastRouter.ParseRoute` runs the same steps as a loop and is proved
 * equal to `Compile`.
 */
module RouteCompiler {
  import opened Wrappers
  import opened JsString

  /** The compiler's output: an anchored regular-expression source and the parameter names, or `None` for `null`. */
  datatype RegExpRouter = RegExpRouter(pattern: string, parameters: Option<seq<string>>)

  /**
   * `trimChar` as in index.ts: drop one leading `c`, then, if anything is
   * left, one trailing `c`. The result is the contiguous part of `s` between
   * at most one leading and at most one trailing `c`.
   */
  function TrimChar(s: string, c: char): (r: string)
    ensures var lo := if |s| > 0 && s[0] == c then 1 else 0;
            var hi := if |s| > lo && s[|s| - 1] == c then |s| - 1 else |s|;
            lo <= hi && r == s[lo..hi]
  {
    var s1 := if [c] == CharAt(s, 0) then Substring(s, 1, |s|) else s;
    if |s1| > 0 && [c] == CharAt(s1, |s1| - 1) then Substring(s1, 0, |s1| - 1) else s1
  }

  /**
   * `trimChar` as in the older copies, without the `length > 0` test: on an
   * emptied string `charAt(-1)` is "", so it never equals `c`, and the two
   * versions agree everywhere.
   */
  function TrimCharUnguarded(s: string, c: char): (r: string)
    ensures r == TrimChar(s, c)
  {
    var s1 := if [c] == CharAt(s, 0) then Substring(s, 1, |s|) else s;
    if [c] == CharAt(s1, |s1| - 1) then Substring(s1, 0, |s1| - 1) else s1
  }

  /** Step 1 of the compiler: every `{` becomes `(` and every `}` becomes `)`. */
  function Parenthesize(s: string): string {
    ReplaceAllChar(ReplaceAllChar(s, '{', '('), '}', ')')
  }

  /** `s.replace(/\//g, '\\/')`: every `/` becomes the two characters `\/`. */
  function EscapeSlashes(s: string): (r: string)
    ensures |r| == |s| + CountChar(s, '/')
    ensures forall i :: 0 <= i < |r| && r[i] == '/' ==> 0 < i && r[i - 1] == '\\'
    ensures r != [] ==> r[0] != '/'
  {
    if s == [] then []
    else
      var rest := EscapeSlashes(s[1..]);
      var head := if s[0] == '/' then "\\/" else [s[0]];
      assert forall i :: |head| <= i < |head + rest| ==> (head + rest)[i] == rest[i - |head|];
      head + rest
  }

  /** Reads `\/` back as `/`; every other character is kept. */
  function UnescapeSlashes(s: string): string {
    if |s| >= 2 && s[0] == '\\' && s[1] == '/' then "/" + UnescapeSlashes(s[2..])
    else if s == [] then []
    else [s[0]] + UnescapeSlashes(s[1..])
  }

  /** Escaping loses nothing: every escaped `/` is read back, and no other character is disturbed. */
  lemma {:induction false} EscapeRoundTrip(s: string)
    ensures UnescapeSlashes(EscapeSlashes(s)) == s
  {
    if s != [] {
      var rest := EscapeSlashes(s[1..]);
      EscapeRoundTrip(s[1..]);
      if s[0] == '/' {
        assert EscapeSlashes(s) == "\\/" + rest;
        assert ("\\/" + rest)[2..] == rest;
      } else {
        assert EscapeSlashes(s) == [s[0]] + rest;
        assert ([s[0]] + rest)[1..] == rest;
      }
    }
  }

  /** The anchors of the compiled expression: start of input and a mandatory `/`; an optional `/` and end of input. */
  function Anchor(body: string): string {
    "^\\/" + body + "\\/?$"
  }

  /** Length of the longest prefix of `s` made of word characters (the greedy `\w+`). */
  function WordRun(s: string): (n: nat)
    ensures n <= |s|
    ensures forall i :: 0 <= i < n ==> IsWordChar(s[i])
    ensures n < |s| ==> !IsWordChar(s[n])
  {
    if s != [] && IsWordChar(s[0]) then 1 + WordRun(s[1..]) else 0
  }

  /** Some `(` is directly followed by a word character. */
  predicate HasParamStart(s: string) {
    exists i :: 0 <= i < |s| - 1 && s[i] == '(' && IsWordChar(s[i + 1])
  }

  /**
   * `s.match(/\(\w+:?/g)`: the non-overlapping matches, left to right; the
   * empty sequence stands for `null`.
   */
  function Tokens(s: string): seq<string>
    decreases |s|
  {
    if |s| < 2 then []
    else if s[0] == '(' && IsWordChar(s[1]) then
      var e := 1 + WordRun(s[1..]);
      var e' := if e < |s| && s[e] == ':' then e + 1 else e;
      [s[..e']] + Tokens(s[e'..])
    else Tokens(s[1..])
  }

  /** A match of `\(\w+:?`: an opening parenthesis, a run of word characters, perhaps a colon. */
  predicate IsToken(t: string) {
    && |t| >= 2 && t[0] == '(' && IsWordChar(t[1])
    && (forall i :: 1 <= i < |t| - 1 ==> IsWordChar(t[i]))
    && (IsWordChar(t[|t| - 1]) || t[|t| - 1] == ':')
  }

  /** The parameter name recorded for a token: `token.replace(':', '').substring(1)`. */
  function NameOf(token: string): string {
    var u := ReplaceFirst(token, ":", "");
    Substring(u, 1, |u|)
  }

  function Names(tokens: seq<string>): seq<string> {
    seq(|tokens|, i requires 0 <= i < |tokens| => NameOf(tokens[i]))
  }

  /** One round of the replacement loop: the token becomes `(`, then the first `()` becomes `(\w+)`. */
  function Step(pattern: string, token: string): string {
    ReplaceFirst(ReplaceFirst(pattern, token, "("), "()", "(\\w+)")
  }

  function ApplyTokens(pattern: string, tokens: seq<string>): string
    decreases |tokens|
  {
    if tokens == [] then pattern else ApplyTokens(Step(pattern, tokens[0]), tokens[1..])
  }

  /** `parseRoute(patternString)`. */
  function Compile(patternString: string): RegExpRouter {
    var b := Parenthesize(patternString);
    var tokens := Tokens(b);
    var body := ApplyTokens(b, tokens);
    RegExpRouter(Anchor(EscapeSlashes(TrimChar(body, '/'))),
                 if tokens == [] then None else Some(Names(tokens)))
  }

  /** The compiler finds no token exactly when no `(` is followed by a word character. */
  lemma {:induction false} TokensEmptyIff(s: string)
    ensures Tokens(s) == [] <==> !HasParamStart(s)
    decreases |s|
  {
    if |s| >= 2 && !(s[0] == '(' && IsWordChar(s[1])) {
      TokensEmptyIff(s[1..]);
      if HasParamStart(s) {
        var i :| 0 <= i < |s| - 1 && s[i] == '(' && IsWordChar(s[i + 1]);
        assert s[1..][i - 1] == s[i] && s[1..][i] == s[i + 1];
      }
      if HasParamStart(s[1..]) {
        var i :| 0 <= i < |s[1..]| - 1 && s[1..][i] == '(' && IsWordChar(s[1..][i + 1]);
        assert s[i + 1] == '(' && IsWordChar(s[i + 2]);
      }
    }
  }

  /** Every token the scan returns is a match of `\(\w+:?`. */
  lemma {:induction false} TokensAreTokens(s: string)
    ensures forall t :: t in Tokens(s) ==> IsToken(t)
    decreases |s|
  {
    if |s| >= 2 {
      if s[0] == '(' && IsWordChar(s[1]) {
        var e := 1 + WordRun(s[1..]);
        var e' := if e < |s| && s[e] == ':' then e + 1 else e;
        var t := s[..e'];
        forall i | 1 <= i < e ensures IsWordChar(s[i]) {
          assert s[i] == s[1..][i - 1];
        }
        assert IsToken(t);
        TokensAreTokens(s[e'..]);
      } else {
        TokensAreTokens(s[1..]);
      }
    }
  }

  lemma OccursAtChar(s: string, c: char, k: int)
    ensures OccursAt(s, [c], k) <==> 0 <= k < |s| && s[k] == c
  {
    if 0 <= k < |s| {
      assert s[k..k + 1] == [s[k]];
    }
  }

  /** A token ending in `:` has no other colon, so `replace(':', '')` removes exactly the last character. */
  lemma DropColon(t: string)
    requires IsToken(t) && t[|t| - 1] == ':'
    ensures ReplaceFirst(t, ":", "") == t[..|t| - 1]
  {
    var last := |t| - 1;
    forall k | 0 <= k < last ensures !OccursAt(t, ":", k) {
      OccursAtChar(t, ':', k);
      assert k == 0 || IsWordChar(t[k]);
    }
    OccursAtChar(t, ':', last);
    ReplaceFirstAt(t, ":", "", last);
    assert t[..last] + "" + t[last + 1..] == t[..last];
  }

  /** A token without a trailing `:` has no colon at all, so `replace(':', '')` leaves it unchanged. */
  lemma KeepNoColon(t: string)
    requires IsToken(t) && t[|t| - 1] != ':'
    ensures ReplaceFirst(t, ":", "") == t
  {
    forall k ensures !OccursAt(t, ":", k) {
      OccursAtChar(t, ':', k);
      assert 0 <= k < |t| ==> k == 0 || IsWordChar(t[k]);
    }
    ReplaceFirstAbsent(t, ":", "");
  }

  /** The name of a token is the token without its `(` and its trailing `:`: a non-empty run of word characters. */
  lemma NameOfToken(t: string)
    requires IsToken(t)
    ensures var n := NameOf(t);
            && |n| > 0 && (forall i :: 0 <= i < |n| ==> IsWordChar(n[i]))
            && t == "(" + n + (if t[|t| - 1] == ':' then ":" else "")
  {
    var last := |t| - 1;
    var u := ReplaceFirst(t, ":", "");
    if t[last] == ':' {
      DropColon(t);
      assert u == t[..last];
    } else {
      KeepNoColon(t);
    }
    var n := u[1..];
    assert Substring(u, 1, |u|) == n;
    assert forall i :: 0 <= i < |n| ==> n[i] == t[i + 1];
    if t[last] == ':' {
      assert t == "(" + n + ":";
    } else {
      assert t == "(" + n;
    }
  }

  /**
   * `parseRoute` yields `parameters = null` exactly when the brace-replaced
   * pattern has no `(` followed by a word character.
   */
  lemma ParametersAbsentIff(patternString: string)
    ensures Compile(patternString).parameters.None? <==> !HasParamStart(Parenthesize(patternString))
  {
    TokensEmptyIff(Parenthesize(patternString));
  }

  /**
   * When present, the parameter list has one entry per token of
   * `\(\w+:?`, in order; each entry is that token without `(` and `:`, a
   * non-empty run of word characters.
   */
  lemma ParametersAreTokenNames(patternString: string)
    ensures var tokens := Tokens(Parenthesize(patternString));
            var ps := Compile(patternString).parameters;
            ps.Some? ==>
              && |ps.value| == |tokens|
              && forall i :: 0 <= i < |tokens| ==>
                   && |ps.value[i]| > 0
                   && (forall k :: 0 <= k < |ps.value[i]| ==> IsWordChar(ps.value[i][k]))
                   && tokens[i] == "(" + ps.value[i] + (if tokens[i][|tokens[i]| - 1] == ':' then ":" else "")
  {
    var tokens := Tokens(Parenthesize(patternString));
    TokensAreTokens(Parenthesize(patternString));
    forall i | 0 <= i < |tokens| ensures IsToken(tokens[i]) {
      assert tokens[i] in tokens;
    }
    forall i | 0 <= i < |tokens| {
      NameOfToken(tokens[i]);
    }
  }

  /**
   * The compiled expression starts with `^\/` and ends with `\/?$`; between
   * them is the trimmed, substituted pattern with every `/` written `\/`.
   */
  lemma CompileAnchored(patternString: string)
    ensures var p := Compile(patternString).pattern;
            var b := Parenthesize(patternString);
            && |p| >= 7 && p[..3] == "^\\/" && p[|p| - 4..] == "\\/?$"
            && UnescapeSlashes(p[3..|p| - 4]) == TrimChar(ApplyTokens(b, Tokens(b)), '/')
            && forall i :: 3 <= i < |p| - 4 && p[i] == '/' ==> 3 < i && p[i - 1] == '\\'
  {
    var b := Parenthesize(patternString);
    var m := EscapeSlashes(TrimChar(ApplyTokens(b, Tokens(b)), '/'));
    var p := Compile(patternString).pattern;
    assert p == "^\\/" + m + "\\/?$";
    assert p[3..|p| - 4] == m;
    EscapeRoundTrip(TrimChar(ApplyTokens(b, Tokens(b)), '/'));
    forall i | 3 <= i < |p| - 4 && p[i] == '/' ensures 3 < i && p[i - 1] == '\\' {
      assert m[i - 3] == '/';
    }
  }
}

/**
 * The route syntax the compiler is written for: literal path text and
 * placeholders `{name}` or `{name:constraint}`. For routes written in this
 * syntax the textual replacements of `parseRoute` amount to a direct
 * translation, piece by piece, which `CompileRendered` proves.
 */
module Placeholders {
  import opened Wrappers
  import opened JsString
  import opened RouteCompiler

  datatype Piece = Literal(text: string) | Placeholder(name: string, constraint: Option<string>)

  function RenderPiece(p: Piece): string {
    match p
    case Literal(t) => t
    case Placeholder(n, None) => "{" + n + "}"
    case Placeholder(n, Some(c)) => "{" + n + ":" + c + "}"
  }

  /** The route string a caller writes, e.g. `/home/{uid:\d+}`. */
  function Render(ps: seq<Piece>): string {
    if ps == [] then "" else RenderPiece(ps[0]) + Render(ps[1..])
  }

  /** A piece after the braces became parentheses. */
  function BracketPiece(p: Piece): string {
    match p
    case Literal(t) => t
    case Placeholder(n, None) => "(" + n + ")"
    case Placeholder(n, Some(c)) => "(" + n + ":" + c + ")"
  }

  function Bracketed(ps: seq<Piece>): string {
    if ps == [] then "" else BracketPiece(ps[0]) + Bracketed(ps[1..])
  }

  /** The token the scan finds for a placeholder: `(name` or `(name:`. */
  function TokenOf(p: Piece): string
    requires p.Placeholder?
  {
    "(" + p.name + (if p.constraint.Some? then ":" else "")
  }

  function TokenList(ps: seq<Piece>): seq<string> {
    if ps == [] then []
    else (if ps[0].Placeholder? then [TokenOf(ps[0])] else []) + TokenList(ps[1..])
  }

  /** The placeholder names, left to right. */
  function ParamNames(ps: seq<Piece>): seq<string> {
    if ps == [] then []
    else (if ps[0].Placeholder? then [ps[0].name] else []) + ParamNames(ps[1..])
  }

  /** The capture a placeholder compiles to: its constraint verbatim, or `\w+` when it has none (or an empty one). */
  function GroupBody(constraint: Option<string>): string {
    if constraint.None? || constraint.value == "" then "\\w+" else constraint.value
  }

  function CompiledPiece(p: Piece): string {
    match p
    case Literal(t) => t
    case Placeholder(_, c) => "(" + GroupBody(c) + ")"
  }

  /** The expression body, before trimming and escaping. */
  function CompiledBody(ps: seq<Piece>): string {
    if ps == [] then "" else CompiledPiece(ps[0]) + CompiledBody(ps[1..])
  }

  /** Text that contains no brace, no parenthesis and no `|`. */
  predicate PlainText(s: string) {
    forall i :: 0 <= i < |s| ==> s[i] != '{' && s[i] != '}' && s[i] != '(' && s[i] != ')' && s[i] != '|'
  }

  /**
   * The pattern syntax the compiler and the index recovery are built for:
   * literal text and constraints are plain text, names are non-empty runs of
   * word characters, and a non-empty constraint does not start with a word
   * character or `?`.
   */
  predicate WellFormedPiece(p: Piece) {
    match p
    case Literal(t) => PlainText(t)
    case Placeholder(n, c) =>
      && |n| > 0 && (forall i :: 0 <= i < |n| ==> IsWordChar(n[i]))
      && (c.Some? ==> PlainText(c.value) && (c.value != [] ==> !IsWordChar(c.value[0]) && c.value[0] != '?'))
  }

  predicate WellFormed(ps: seq<Piece>) {
    forall i :: 0 <= i < |ps| ==> WellFormedPiece(ps[i])
  }

  // ---------------------------------------------------------------------
  // Step 1: braces become parentheses.

  lemma ParenthesizeAppend(x: string, y: string)
    ensures Parenthesize(x + y) == Parenthesize(x) + Parenthesize(y)
  {
    ReplaceAllCharAppend(x, y, '{', '(');
    ReplaceAllCharAppend(ReplaceAllChar(x, '{', '('), ReplaceAllChar(y, '{', '('), '}', ')');
  }

  lemma ParenthesizePlain(s: string)
    requires forall i :: 0 <= i < |s| ==> s[i] != '{' && s[i] != '}'
    ensures Parenthesize(s) == s
  {
  }

  lemma ParenthesizeChar(a: char)
    requires a != '{' && a != '}'
    ensures Parenthesize([a]) == [a]
    ensures Parenthesize("{") == "(" && Parenthesize("}") == ")"
  {
  }

  lemma ParenthesizeBare(n: string)
    requires forall i :: 0 <= i < |n| ==> n[i] != '{' && n[i] != '}'
    ensures Parenthesize("{" + n + "}") == "(" + n + ")"
  {
    ParenthesizePlain(n);
    ParenthesizeChar(':');
    ParenthesizeAppend("{" + n, "}");
    ParenthesizeAppend("{", n);
  }

  lemma ParenthesizeConstrained(n: string, c: string)
    requires forall i :: 0 <= i < |n| ==> n[i] != '{' && n[i] != '}'
    requires forall i :: 0 <= i < |c| ==> c[i] != '{' && c[i] != '}'
    ensures Parenthesize("{" + n + ":" + c + "}") == "(" + n + ":" + c + ")"
  {
    ParenthesizePlain(n);
    ParenthesizePlain(c);
    ParenthesizeChar(':');
    ParenthesizeAppend("{" + n + ":" + c, "}");
    ParenthesizeAppend("{" + n + ":", c);
    ParenthesizeAppend("{" + n, ":");
    ParenthesizeAppend("{", n);
  }

  lemma ParenthesizePiece(p: Piece)
    requires WellFormedPiece(p)
    ensures Parenthesize(RenderPiece(p)) == BracketPiece(p)
  {
    match p
    case Literal(t) =>
      ParenthesizePlain(t);
    case Placeholder(n, None) =>
      ParenthesizeBare(n);
    case Placeholder(n, Some(c)) =>
      ParenthesizeConstrained(n, c);
  }

  lemma {:induction false} ParenthesizeRender(ps: seq<Piece>)
    requires WellFormed(ps)
    ensures Parenthesize(Render(ps)) == Bracketed(ps)
  {
    if ps != [] {
      assert WellFormedPiece(ps[0]);
      ParenthesizeAppend(RenderPiece(ps[0]), Render(ps[1..]));
      ParenthesizeRender(ps[1..]);
      ParenthesizePiece(ps[0]);
    }
  }

  // ---------------------------------------------------------------------
  // Step 2: the token scan finds exactly the placeholders.

  lemma {:induction false} TokensSkip(x: string, y: string)
    requires forall i :: 0 <= i < |x| ==> x[i] != '('
    ensures Tokens(x + y) == Tokens(y)
    decreases |x|
  {
    if x != [] {
      assert (x + y)[1..] == x[1..] + y;
      TokensSkip(x[1..], y);
      if |x + y| < 2 {
        assert y == [];
      }
    } else {
      assert x + y == y;
    }
  }

  lemma {:induction false} WordRunAppend(n: string, rest: string)
    requires forall i :: 0 <= i < |n| ==> IsWordChar(n[i])
    requires rest != [] && !IsWordChar(rest[0])
    ensures WordRun(n + rest) == |n|
  {
    if n != [] {
      assert (n + rest)[1..] == n[1..] + rest;
      WordRunAppend(n[1..], rest);
    } else {
      assert n + rest == rest;
    }
  }

  /** The scan at `(name` followed by `after`, which starts with `:` or `)`, takes `(name` plus the colon if there is one. */
  lemma TokensAtName(n: string, after: string, y: string)
    requires |n| > 0 && forall i :: 0 <= i < |n| ==> IsWordChar(n[i])
    requires after != [] && (after[0] == ':' || after[0] == ')')
    requires forall i :: 1 <= i < |after| ==> after[i] != '('
    ensures var k := if after[0] == ':' then 1 else 0;
            Tokens("(" + n + after + y) == ["(" + n + after[..k]] + Tokens(y)
  {
    var s := "(" + n + after + y;
    var k := if after[0] == ':' then 1 else 0;
    assert s[1..] == n + (after + y);
    WordRunAppend(n, after + y);
    var e := 1 + |n|;
    assert s[e] == after[0];
    assert s[0] == '(' && IsWordChar(s[1]);
    assert Tokens(s) == [s[..e + k]] + Tokens(s[e + k..]);
    assert s[..e + k] == "(" + n + after[..k];
    assert s[e + k..] == after[k..] + y;
    TokensSkip(after[k..], y);
  }

  lemma TokensPlaceholder(p: Piece, y: string)
    requires p.Placeholder? && WellFormedPiece(p)
    ensures Tokens(BracketPiece(p) + y) == [TokenOf(p)] + Tokens(y)
  {
    var n := p.name;
    if p.constraint.Some? {
      var c := p.constraint.value;
      var after := ":" + c + ")";
      assert BracketPiece(p) == "(" + n + after;
      forall i | 1 <= i < |after| ensures after[i] != '(' {
        if i <= |c| {
          assert after[i] == c[i - 1];
        }
      }
      TokensAtName(n, after, y);
      assert after[..1] == ":";
    } else {
      TokensAtName(n, ")", y);
      assert ")"[..0] == "";
    }
  }

  lemma {:induction false} TokensBracketed(ps: seq<Piece>)
    requires WellFormed(ps)
    ensures Tokens(Bracketed(ps)) == TokenList(ps)
  {
    if ps != [] {
      assert WellFormedPiece(ps[0]);
      TokensBracketed(ps[1..]);
      if ps[0].Placeholder? {
        TokensPlaceholder(ps[0], Bracketed(ps[1..]));
      } else {
        TokensSkip(ps[0].text, Bracketed(ps[1..]));
      }
    }
  }

  lemma NameOfTokenOf(p: Piece)
    requires p.Placeholder? && WellFormedPiece(p)
    ensures NameOf(TokenOf(p)) == p.name
  {
    var t := TokenOf(p);
    var suffix := if p.constraint.Some? then ":" else "";
    assert t == "(" + p.name + suffix;
    assert IsToken(t) by {
      assert forall i :: 1 <= i < 1 + |p.name| ==> t[i] == p.name[i - 1];
    }
    NameOfToken(t);
    assert t[|t| - 1] == ':' <==> p.constraint.Some?;
    assert t == "(" + NameOf(t) + suffix;
    assert NameOf(t) == t[1..|t| - |suffix|];
  }

  lemma NamesCons(t: string, rest: seq<string>)
    ensures Names([t] + rest) == [NameOf(t)] + Names(rest)
  {
    var l := [t] + rest;
    assert forall i :: 1 <= i < |l| ==> l[i] == rest[i - 1];
  }

  lemma {:induction false} NamesTokenList(ps: seq<Piece>)
    requires WellFormed(ps)
    ensures Names(TokenList(ps)) == ParamNames(ps)
  {
    if ps != [] {
      assert WellFormedPiece(ps[0]);
      NamesTokenList(ps[1..]);
      var rest := TokenList(ps[1..]);
      if ps[0].Placeholder? {
        assert TokenList(ps) == [TokenOf(ps[0])] + rest;
        assert ParamNames(ps) == [ps[0].name] + ParamNames(ps[1..]);
        NameOfTokenOf(ps[0]);
        NamesCons(TokenOf(ps[0]), rest);
      } else {
        assert TokenList(ps) == rest;
        assert ParamNames(ps) == ParamNames(ps[1..]);
      }
    }
  }

  // ---------------------------------------------------------------------
  // Step 3: the replacement loop compiles one placeholder per round.

  /** Every `(` in `s` that is followed by a character is followed by one satisfying `ok`. */
  predicate OpensFollowedBy(s: string, ok: char -> bool) {
    forall i :: 0 <= i < |s| - 1 && OpenAt(s, i) ==> ok(s[i + 1])
  }

  /** Position `i` of `s` holds a `(`. */
  predicate OpenAt(s: string, i: int)
    requires 0 <= i < |s|
  {
    s[i] == '('
  }

  lemma SafeIsNotClose(s: string)
    requires OpensFollowedBy(s, SafeAfterOpen)
    ensures OpensFollowedBy(s, NotClose)
  {
    forall i | 0 <= i < |s| - 1 && OpenAt(s, i) ensures NotClose(s[i + 1]) {
      OpenFollowed(s, SafeAfterOpen, i);
    }
  }

  lemma OpenFollowed(s: string, ok: char -> bool, i: int)
    requires OpensFollowedBy(s, ok) && 0 <= i < |s| - 1 && s[i] == '('
    ensures ok(s[i + 1])
  {
    assert OpenAt(s, i);
  }

  predicate SafeAfterOpen(c: char) {
    !IsWordChar(c) && c != ')'
  }

  predicate NotClose(c: char) {
    c != ')'
  }

  /** Text the loop has already compiled: no token and no `()` can start in it, and it does not end with `(`. */
  predicate Done(d: string) {
    OpensFollowedBy(d, SafeAfterOpen) && (d != [] ==> d[|d| - 1] != '(')
  }

  lemma OpensFollowedByAppend(x: string, y: string, ok: char -> bool)
    requires OpensFollowedBy(x, ok) && OpensFollowedBy(y, ok)
    requires x != [] && y != [] && x[|x| - 1] == '(' ==> ok(y[0])
    ensures OpensFollowedBy(x + y, ok)
  {
    var s := x + y;
    forall i | 0 <= i < |s| - 1 && OpenAt(s, i) ensures ok(s[i + 1]) {
      if i < |x| - 1 {
        assert s[i] == x[i] && s[i + 1] == x[i + 1];
        OpenFollowed(x, ok, i);
      } else if i == |x| - 1 {
        assert s[i + 1] == y[0];
      } else {
        assert s[i] == y[i - |x|] && s[i + 1] == y[i - |x| + 1];
        OpenFollowed(y, ok, i - |x|);
      }
    }
  }

  /** A string whose only `(` is its first character satisfies `OpensFollowedBy` when its second does. */
  lemma OpensOnlyAtHead(rest: string, ok: char -> bool)
    requires '(' !in rest
    requires rest != [] ==> ok(rest[0])
    ensures OpensFollowedBy("(" + rest, ok)
  {
    var g := "(" + rest;
    assert forall i :: 1 <= i < |g| ==> g[i] == rest[i - 1];
  }

  lemma PlainNoOpen(t: string)
    requires PlainText(t)
    ensures '(' !in t && ')' !in t && '|' !in t
  {
  }

  lemma NameNoOpen(n: string)
    requires forall i :: 0 <= i < |n| ==> IsWordChar(n[i])
    ensures '(' !in n
  {
  }

  lemma BracketPieceNoEmptyGroup(p: Piece)
    requires WellFormedPiece(p)
    ensures OpensFollowedBy(BracketPiece(p), NotClose)
    ensures BracketPiece(p) != [] ==> BracketPiece(p)[|BracketPiece(p)| - 1] != '('
  {
    match p
    case Literal(t) =>
      PlainNoOpen(t);
      assert t != [] ==> t[|t| - 1] in t;
    case Placeholder(n, c) =>
      NameNoOpen(n);
      var tail := if c.Some? then ":" + c.value + ")" else ")";
      if c.Some? {
        PlainNoOpen(c.value);
      }
      assert BracketPiece(p) == "(" + (n + tail);
      OpensOnlyAtHead(n + tail, NotClose);
  }

  lemma {:induction false} BracketedNoEmptyGroup(ps: seq<Piece>)
    requires WellFormed(ps)
    ensures OpensFollowedBy(Bracketed(ps), NotClose)
    ensures Bracketed(ps) != [] ==> Bracketed(ps)[|Bracketed(ps)| - 1] != '('
  {
    if ps != [] {
      assert WellFormedPiece(ps[0]);
      BracketedNoEmptyGroup(ps[1..]);
      var b := BracketPiece(ps[0]);
      var rest := Bracketed(ps[1..]);
      BracketPieceNoEmptyGroup(ps[0]);
      OpensFollowedByAppend(b, rest, NotClose);
      assert Bracketed(ps) == b + rest;
      if rest != [] {
        assert (b + rest)[|b + rest| - 1] == rest[|rest| - 1];
      }
    }
  }

  lemma OccursAtHead(s: string, pat: string, j: int)
    requires OccursAt(s, pat, j) && |pat| >= 2
    ensures s[j] == pat[0] && s[j + 1] == pat[1]
  {
    assert s[j..j + |pat|][0] == s[j] && s[j..j + |pat|][1] == s[j + 1];
  }

  /** No occurrence of `()` in a string whose every `(` is followed by something other than `)`. */
  lemma NoEmptyGroupIn(s: string)
    requires OpensFollowedBy(s, NotClose)
    ensures forall j :: !OccursAt(s, "()", j)
  {
    forall j | OccursAt(s, "()", j) ensures false {
      OccursAtHead(s, "()", j);
      OpenFollowed(s, NotClose, j);
    }
  }

  lemma PlainIsDone(t: string)
    requires PlainText(t)
    ensures Done(t)
  {
    PlainNoOpen(t);
    assert t != [] ==> t[|t| - 1] in t;
  }

  lemma GroupIsDone(c: Option<string>)
    requires c.Some? ==> PlainText(c.value) && (c.value != [] ==> !IsWordChar(c.value[0]) && c.value[0] != '?')
    ensures Done("(" + GroupBody(c) + ")")
  {
    var body := GroupBody(c);
    if c.Some? {
      PlainNoOpen(c.value);
    }
    assert '(' !in body;
    assert SafeAfterOpen(body[0]);
    OpensOnlyAtHead(body + ")", SafeAfterOpen);
    assert "(" + body + ")" == "(" + (body + ")");
  }

  /** A `(` inside done text `d` is followed, in any extension of `d`, by a safe character. */
  lemma NoOpenBeforeEnd(d: string, s: string, j: int)
    requires Done(d) && |d| < |s| && s[..|d|] == d && 0 <= j < |d| && s[j] == '('
    ensures SafeAfterOpen(s[j + 1])
  {
    assert s[j] == d[j];
    if j < |d| - 1 {
      assert s[j + 1] == d[j + 1];
      OpenFollowed(d, SafeAfterOpen, j);
    }
  }

  /** In `d + tok + tail` with `d` done, the first occurrence of the token `tok` is the one right after `d`. */
  lemma ReplaceTokenAfterDone(d: string, tok: string, tail: string)
    requires Done(d) && |tok| >= 2 && tok[0] == '(' && IsWordChar(tok[1])
    ensures ReplaceFirst(d + tok + tail, tok, "(") == d + "(" + tail
  {
    var s := d + tok + tail;
    assert s[|d|..|d| + |tok|] == tok;
    forall j | 0 <= j < |d| && OccursAt(s, tok, j) ensures false {
      OccursAtHead(s, tok, j);
      NoOpenBeforeEnd(d, s, j);
    }
    ReplaceFirstAt(s, tok, "(", |d|);
    assert s[..|d|] == d && s[|d| + |tok|..] == tail;
  }

  /** In `d + "()" + tail` with `d` done, the first `()` is the one right after `d`. */
  lemma ReplaceEmptyGroupAfterDone(d: string, tail: string)
    requires Done(d)
    ensures ReplaceFirst(d + "()" + tail, "()", "(\\w+)") == d + "(\\w+)" + tail
  {
    var s := d + "()" + tail;
    assert s[|d|..|d| + 2] == "()";
    forall j | 0 <= j < |d| && OccursAt(s, "()", j) ensures false {
      OccursAtHead(s, "()", j);
      NoOpenBeforeEnd(d, s, j);
    }
    ReplaceFirstAt(s, "()", "(\\w+)", |d|);
    assert s[..|d|] == d && s[|d| + 2..] == tail;
  }

  /** A constrained group leaves no `()` behind, so the second replacement changes nothing. */
  lemma NoEmptyGroupAfterConstraint(d: string, g: string, c: string, br: string)
    requires Done(d) && PlainText(c) && c != [] && g == "(" + (c + ")")
    requires OpensFollowedBy(br, NotClose)
    ensures ReplaceFirst(d + g + br, "()", "(\\w+)") == d + g + br
  {
    PlainNoOpen(c);
    assert NotClose(c[0]) by {
      assert c[0] in c;
    }
    OpensOnlyAtHead(c + ")", NotClose);
    SafeIsNotClose(d);
    OpensFollowedByAppend(d, g, NotClose);
    OpensFollowedByAppend(d + g, br, NotClose);
    NoEmptyGroupIn(d + g + br);
    ReplaceFirstAbsent(d + g + br, "()", "(\\w+)");
  }

  /** A round of the loop, given the results of its two replacements. */
  lemma StepThrough(s: string, tok: string, mid: string, r: string)
    requires ReplaceFirst(s, tok, "(") == mid
    requires ReplaceFirst(mid, "()", "(\\w+)") == r
    ensures Step(s, tok) == r
  {
  }

  /** The round for a placeholder without a constraint (or with an empty one). */
  lemma StepBareGroup(s: string, d: string, bp: string, tok: string, br: string)
    requires Done(d) && |tok| >= 2 && tok[0] == '(' && IsWordChar(tok[1])
    requires s == d + bp + br && bp == tok + ")"
    ensures Step(s, tok) == d + "(\\w+)" + br
  {
    var t := ")" + br;
    assert s == d + tok + t;
    ReplaceTokenAfterDone(d, tok, t);
    assert d + "(" + t == d + "()" + br;
    ReplaceEmptyGroupAfterDone(d, br);
    StepThrough(s, tok, d + "()" + br, d + "(\\w+)" + br);
  }

  /** The round for a placeholder with a non-empty constraint `c`. */
  lemma StepConstrainedGroup(s: string, d: string, bp: string, tok: string, c: string, br: string)
    requires Done(d) && |tok| >= 2 && tok[0] == '(' && IsWordChar(tok[1])
    requires PlainText(c) && c != [] && OpensFollowedBy(br, NotClose)
    requires s == d + bp + br && bp == tok + (c + ")")
    ensures Step(s, tok) == d + ("(" + (c + ")")) + br
  {
    var x := c + ")";
    var t := x + br;
    var g := "(" + x;
    AppendAssoc(tok, x, br);
    AppendAssoc(d, bp, br);
    AppendAssoc(d, tok, t);
    assert s == d + tok + t;
    ReplaceTokenAfterDone(d, tok, t);
    AppendAssoc(d + "(", x, br);
    AppendAssoc(d, "(", x);
    assert d + "(" + t == d + g + br;
    NoEmptyGroupAfterConstraint(d, g, c, br);
    StepThrough(s, tok, d + g + br, d + g + br);
  }

  /** The round for a placeholder: its token becomes `(`, and a bare `()` becomes `(\w+)`. */
  lemma StepPlaceholder(d: string, p: Piece, rest: seq<Piece>)
    requires Done(d) && p.Placeholder? && WellFormedPiece(p) && WellFormed(rest)
    ensures Step(d + BracketPiece(p) + Bracketed(rest), TokenOf(p)) == d + CompiledPiece(p) + Bracketed(rest)
  {
    var tok := TokenOf(p);
    var br := Bracketed(rest);
    assert tok[1] == p.name[0];
    BracketedNoEmptyGroup(rest);
    if p.constraint.None? || p.constraint.value == [] {
      BracketBare(p);
      StepBareGroup(d + BracketPiece(p) + br, d, BracketPiece(p), tok, br);
    } else {
      var c := p.constraint.value;
      BracketConstrained(p);
      StepConstrainedGroup(d + BracketPiece(p) + br, d, BracketPiece(p), tok, c, br);
    }
  }

  lemma BracketBare(p: Piece)
    requires p.Placeholder? && (p.constraint.None? || p.constraint.value == [])
    ensures BracketPiece(p) == TokenOf(p) + ")" && CompiledPiece(p) == "(\\w+)"
  {
  }

  lemma BracketConstrained(p: Piece)
    requires p.Placeholder? && p.constraint.Some? && p.constraint.value != []
    ensures BracketPiece(p) == TokenOf(p) + (p.constraint.value + ")")
    ensures CompiledPiece(p) == "(" + (p.constraint.value + ")")
  {
    AppendAssoc("(", p.constraint.value, ")");
  }

  /** Appending the compiled form of a well-formed piece keeps the text done. */
  lemma DoneAppendPiece(d: string, p: Piece)
    requires Done(d) && WellFormedPiece(p)
    ensures Done(d + CompiledPiece(p))
  {
    var d' := d + CompiledPiece(p);
    match p
    case Literal(t) =>
      PlainIsDone(t);
      OpensFollowedByAppend(d, t, SafeAfterOpen);
      assert t != [] ==> d'[|d'| - 1] == t[|t| - 1];
    case Placeholder(_, c) =>
      GroupIsDone(c);
      OpensFollowedByAppend(d, CompiledPiece(p), SafeAfterOpen);
  }

  /** One round of the loop: the first piece is compiled and the rest is left bracketed. */
  lemma ApplyHead(d: string, ps: seq<Piece>)
    requires Done(d) && WellFormed(ps) && ps != []
    ensures ApplyTokens(d + Bracketed(ps), TokenList(ps))
              == ApplyTokens(d + CompiledPiece(ps[0]) + Bracketed(ps[1..]), TokenList(ps[1..]))
  {
    var p := ps[0];
    assert WellFormedPiece(p);
    assert d + Bracketed(ps) == d + BracketPiece(p) + Bracketed(ps[1..]);
    if p.Placeholder? {
      StepPlaceholder(d, p, ps[1..]);
      assert TokenList(ps) == [TokenOf(p)] + TokenList(ps[1..]);
    } else {
      assert TokenList(ps) == TokenList(ps[1..]);
    }
  }

  lemma {:induction false} ApplyTokensBracketed(d: string, ps: seq<Piece>)
    requires Done(d) && WellFormed(ps)
    ensures ApplyTokens(d + Bracketed(ps), TokenList(ps)) == d + CompiledBody(ps)
    decreases ps
  {
    if ps == [] {
      assert d + "" == d;
    } else {
      var x := CompiledPiece(ps[0]);
      var y := CompiledBody(ps[1..]);
      assert WellFormedPiece(ps[0]);
      DoneAppendPiece(d, ps[0]);
      ApplyHead(d, ps);
      ApplyTokensBracketed(d + x, ps[1..]);
      assert CompiledBody(ps) == x + y;
      AppendAssoc(d, x, y);
    }
  }

  lemma AppendAssoc(a: string, b: string, c: string)
    ensures a + b + c == a + (b + c)
  {
  }

  lemma {:induction false} TokenListLength(ps: seq<Piece>)
    ensures |TokenList(ps)| == |ParamNames(ps)|
  {
    if ps != [] {
      TokenListLength(ps[1..]);
    }
  }

  /**
   * For a route written in the placeholder syntax, `parseRoute` produces the
   * anchored, trimmed, escaped translation in which `{name}` becomes `(\w+)`
   * and `{name:constraint}` becomes `(constraint)`, and the parameter list is
   * the placeholder names in order (`null` when there are none).
   */
  lemma CompileRendered(ps: seq<Piece>)
    requires WellFormed(ps)
    ensures Compile(Render(ps)) ==
              RegExpRouter(Anchor(EscapeSlashes(TrimChar(CompiledBody(ps), '/'))),
                           if ParamNames(ps) == [] then None else Some(ParamNames(ps)))
  {
    ParenthesizeRender(ps);
    TokensBracketed(ps);
    assert "" + Bracketed(ps) == Bracketed(ps);
    ApplyTokensBracketed("", ps);
    assert "" + CompiledBody(ps) == CompiledBody(ps);
    NamesTokenList(ps);
    TokenListLength(ps);
  }
}

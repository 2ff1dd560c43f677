/** Template substitution (cosai_mcp/catalog/template.py:18-70). The dictionary of
    variables is the sequence of its items, because the program replaces one
    variable after another in that order. */
module Template {
  import opened Wrappers
  import opened Strings

  const OPEN := "{{"
  const CLOSE := "}}"

  /** The closed allowlist, without and with braces. */
  const NAMES: set<string> := {"target_url", "session_id", "tool_name", "canary"}
  const ALLOWED: set<string> := set n | n in NAMES :: Token(n)

  datatype TemplateError = UnknownVariable | Injection

  type Items = seq<(string, string)>

  function Token(name: string): string { OPEN + name + CLOSE }

  // ---------------------------------------------------------------------------
  // The program
  // ---------------------------------------------------------------------------

  /** All `{{...}}` tokens, left to right. */
  function Tokens(s: string): seq<string>
    decreases |s|
  {
    var k := Find(s, OPEN, 0);
    if k < 0 then []
    else
      var c := Find(s, CLOSE, k + 2);
      if c < 0 then [] else [s[k..c + 2]] + Tokens(s[c + 2..])
  }

  method FindTemplates(value: string) returns (tokens: seq<string>)
    ensures tokens == Tokens(value)
  {
    tokens := [];
    var start: nat := 0;
    var more := true;
    ghost var expected := Tokens(value);
    assert value[0..] == value;
    while more
      invariant start <= |value|
      invariant if more then tokens + Tokens(value[start..]) == expected else tokens == expected
      decreases more, |value| - start
    {
      var found := NextToken(value, start, tokens, expected);
      match found
      case None =>
        more := false;
      case Some(span) =>
        tokens := tokens + [value[span.0..span.1]];
        start := span.1;
    }
  }

  /** One round of the loop: the next token from `start`, if any. */
  method NextToken(value: string, start: nat, ghost tokens: seq<string>, ghost expected: seq<string>)
    returns (span: Option<(nat, nat)>)
    requires start <= |value| && tokens + Tokens(value[start..]) == expected
    ensures span.None? ==> tokens == expected
    ensures span.Some? ==>
              var (k, n) := span.value;
              start <= k < n <= |value| && tokens + [value[k..n]] + Tokens(value[n..]) == expected
  {
    hide At;
    var openPos := Find(value, OPEN, start);
    if openPos == -1 {
      NoMoreTokens(value, start, tokens);
      return None;
    }
    var closePos := Find(value, CLOSE, openPos + 2);
    if closePos == -1 {
      NoMoreTokens(value, start, tokens);
      return None;
    }
    OneMoreToken(value, start, openPos, closePos, tokens);
    return Some((openPos, closePos + 2));
  }

  lemma {:induction false} OneMoreToken(s: string, start: nat, k: nat, c: nat, tokens: seq<string>)
    requires start <= |s| && Find(s, OPEN, start) == k && Find(s, CLOSE, k + 2) == c
    ensures c + 2 <= |s|
    ensures tokens + Tokens(s[start..]) == (tokens + [s[k..c + 2]]) + Tokens(s[c + 2..])
  {
    TokensOfSuffix(s, start, k, c);
    AppendOne(tokens, s[k..c + 2], Tokens(s[c + 2..]));
  }

  lemma {:induction false} AppendOne(a: seq<string>, x: string, b: seq<string>)
    ensures a + ([x] + b) == (a + [x]) + b
  {
  }

  lemma {:induction false} NoMoreTokens(s: string, start: nat, tokens: seq<string>)
    requires start <= |s|
    requires var k := Find(s, OPEN, start); k < 0 || Find(s, CLOSE, k + 2) < 0
    ensures tokens + Tokens(s[start..]) == tokens
  {
    FindInSuffix(s, OPEN, start, start);
    var k := Find(s, OPEN, start);
    if k >= 0 {
      FindInSuffix(s, CLOSE, start, k + 2);
    }
    assert Tokens(s[start..]) == [];
  }

  lemma {:induction false} SliceOfSuffix(s: string, start: nat, k: nat, n: nat)
    requires start <= k <= n <= |s|
    ensures s[start..][k - start..n - start] == s[k..n]
    ensures s[start..][n - start..] == s[n..]
  {
  }

  lemma {:induction false} TokensOfSuffix(s: string, start: nat, k: nat, c: nat)
    requires start <= |s| && Find(s, OPEN, start) == k && Find(s, CLOSE, k + 2) == c
    ensures c + 2 <= |s| && Tokens(s[start..]) == [s[k..c + 2]] + Tokens(s[c + 2..])
  {
    hide Find, Tokens, At;
    FindInSuffix(s, OPEN, start, start);
    FindInSuffix(s, CLOSE, start, k + 2);
    SliceOfSuffix(s, start, k, c + 2);
    TokensFrom(s[start..], k - start, c - start, s[k..c + 2], s[c + 2..]);
  }

  lemma {:induction false} TokensFrom(s: string, k: nat, c: nat, token: string, tail: string)
    requires Find(s, OPEN, 0) == k && Find(s, CLOSE, k + 2) == c && c + 2 <= |s|
    requires token == s[k..c + 2] && tail == s[c + 2..]
    ensures Tokens(s) == [token] + Tokens(tail)
  {
  }

  lemma {:induction false} AtInSuffix(s: string, t: string, start: nat, i: nat)
    requires start <= |s|
    ensures At(s[start..], t, i) <==> At(s, t, i + start)
  {
    if i + start + |t| <= |s| {
      assert s[start..][i..i + |t|] == s[i + start..i + start + |t|];
    }
  }

  lemma {:induction false} FindLifts(s: string, t: string, start: nat, from: nat, i: nat)
    requires start <= from <= i && start <= |s| && At(s, t, i)
    ensures 0 <= Find(s[start..], t, from - start) <= i - start
  {
    AtInSuffix(s, t, start, i - start);
    FindIsLeast(s[start..], t, from - start, i - start);
  }

  lemma {:induction false} FindLowers(s: string, t: string, start: nat, from: nat, i: nat)
    requires start <= from <= i && start <= |s| && At(s[start..], t, i - start)
    ensures 0 <= Find(s, t, from) <= i
  {
    AtInSuffix(s, t, start, i - start);
    FindIsLeast(s, t, from, i);
  }

  lemma {:induction false} FindInSuffix(s: string, t: string, start: nat, from: nat)
    requires start <= from && start <= |s|
    ensures Find(s[start..], t, from - start) ==
            if Find(s, t, from) < 0 then -1 else Find(s, t, from) - start
  {
    var a, b := Find(s[start..], t, from - start), Find(s, t, from);
    if b >= 0 {
      FindLifts(s, t, start, from, b);
    }
    if a >= 0 {
      FindLowers(s, t, start, from, a + start);
    }
  }

  predicate AllAllowed(tokens: seq<string>) {
    forall i :: 0 <= i < |tokens| ==> tokens[i] in ALLOWED
  }

  predicate ValueRejected(v: string) { Contains(v, OPEN) || Contains(v, CLOSE) }

  predicate AnyRejected(items: Items) {
    exists i :: 0 <= i < |items| && ValueRejected(items[i].1)
  }

  /** The replace loop, one variable after another. */
  function Sequential(s: string, items: Items): string {
    if items == [] then s
    else
      var last := items[|items| - 1];
      Replace(Sequential(s, items[..|items| - 1]), Token(last.0), last.1)
  }

  function Finish(s: string, items: Items, result: string): Result<string, TemplateError> {
    if !AllAllowed(Tokens(s)) then Err(UnknownVariable)
    else if AnyRejected(items) then Err(Injection)
    else if Contains(result, OPEN) then Err(Injection)
    else Ok(result)
  }

  function Substitute(s: string, items: Items): Result<string, TemplateError> {
    Finish(s, items, Sequential(s, items))
  }

  method SubstituteStr(s: string, variables: Items) returns (r: Result<string, TemplateError>)
    ensures r == Substitute(s, variables)
  {
    var tokens := FindTemplates(s);
    for i := 0 to |tokens|
      invariant forall j :: 0 <= j < i ==> tokens[j] in ALLOWED
    {
      if tokens[i] !in ALLOWED {
        return Err(UnknownVariable);
      }
    }
    for i := 0 to |variables|
      invariant forall j :: 0 <= j < i ==> !ValueRejected(variables[j].1)
    {
      var v := variables[i].1;
      if Contains(v, OPEN) || Contains(v, CLOSE) {
        assert ValueRejected(variables[i].1);
        return Err(Injection);
      }
    }
    var result := s;
    for i := 0 to |variables|
      invariant result == Sequential(s, variables[..i])
    {
      assert variables[..i + 1][..i] == variables[..i];
      result := Replace(result, Token(variables[i].0), variables[i].1);
    }
    assert variables[..|variables|] == variables;
    if Contains(result, OPEN) {
      return Err(Injection);
    }
    return Ok(result);
  }

  // ---------------------------------------------------------------------------
  // What it should mean: one pass over the template, all variables at once
  // ---------------------------------------------------------------------------

  /** What stands for `{{name}}`: its value, or itself. */
  function Slot(name: string, vars: map<string, string>): string {
    if name in vars then vars[name] else Token(name)
  }

  function Simultaneous(s: string, vars: map<string, string>): string
    decreases |s|
  {
    var k := Find(s, OPEN, 0);
    if k < 0 then s
    else
      var c := Find(s, CLOSE, k + 2);
      if c < 0 then s
      else s[..k] + (Slot(s[k + 2..c], vars) + Simultaneous(s[c + 2..], vars))
  }

  function Dict(items: Items): map<string, string> {
    if items == [] then map[]
    else Dict(items[..|items| - 1])[items[|items| - 1].0 := items[|items| - 1].1]
  }

  function SubstituteAtOnce(s: string, items: Items): Result<string, TemplateError> {
    Finish(s, items, Simultaneous(s, Dict(items)))
  }

  // ---------------------------------------------------------------------------
  // Occurrences stay where they are
  // ---------------------------------------------------------------------------

  lemma {:induction false} OpenChars(s: string, i: nat)
    ensures At(s, OPEN, i) <==> i + 2 <= |s| && s[i] == '{' && s[i + 1] == '{'
    ensures At(s, CLOSE, i) <==> i + 2 <= |s| && s[i] == '}' && s[i + 1] == '}'
  {
    if i + 2 <= |s| {
      assert s[i..i + 2] == [s[i], s[i + 1]];
    }
  }

  /** No `{{` begins inside `x`, whatever follows. */
  predicate Clean(x: string) {
    !Contains(x, OPEN) && (x == "" || x[|x| - 1] != '{')
  }

  lemma {:induction false} CleanStart(x: string, rest: string, i: nat)
    requires Clean(x) && i < |x|
    ensures !At(x + rest, OPEN, i)
  {
    OpenChars(x + rest, i);
    OpenChars(x, i);
    if At(x, OPEN, i) {
      FindIsLeast(x, OPEN, 0, i);
    }
  }

  lemma {:induction false} OpensWith(s: string, t: string, i: nat)
    requires At(t, OPEN, 0) && At(s, t, i)
    ensures At(s, OPEN, i)
  {
    assert s[i..i + |t|][..2] == s[i..i + 2];
  }

  /** Searching passes over text in which no occurrence begins. */
  lemma {:induction false} FindPast(x: string, rest: string, t: string)
    requires forall i: nat :: i < |x| ==> !At(x + rest, t, i)
    ensures Find(x + rest, t, 0) == if Find(rest, t, 0) < 0 then -1 else Find(rest, t, 0) + |x|
  {
    hide At;
    var s := x + rest;
    assert s[|x|..] == rest;
    FindInSuffix(s, t, |x|, |x|);
    SkipTo(s, t, 0, |x|);
  }

  lemma {:induction false} SkipTo(s: string, t: string, from: nat, n: nat)
    requires from <= n <= |s| && forall i: nat :: from <= i < n ==> !At(s, t, i)
    ensures Find(s, t, from) == Find(s, t, n)
    decreases n - from
  {
    if from < n {
      SkipTo(s, t, from + 1, n);
    }
  }

  lemma {:induction false} SliceConcat(x: string, rest: string, k: nat, n: nat)
    requires k <= n <= |rest|
    ensures (x + rest)[k + |x|..n + |x|] == rest[k..n]
    ensures (x + rest)[..k + |x|] == x + rest[..k]
    ensures (x + rest)[n + |x|..] == rest[n..]
  {
  }

  lemma {:induction false} ReplaceUnfold(s: string, t: string, v: string, k: nat, tail: string)
    requires t != "" && Find(s, t, 0) == k && tail == s[k + |t|..]
    ensures Replace(s, t, v) == s[..k] + v + Replace(tail, t, v)
  {
  }

  lemma {:induction false} Reassociate(a: string, b: string, c: string, d: string)
    ensures (a + b) + c + d == a + (b + c + d)
  {
  }

  lemma {:induction false} ReplacePast(x: string, rest: string, t: string, v: string)
    requires t != "" && forall i: nat :: i < |x| ==> !At(x + rest, t, i)
    ensures Replace(x + rest, t, v) == x + Replace(rest, t, v)
  {
    FindPast(x, rest, t);
    if Find(rest, t, 0) >= 0 {
      ReplaceShift(x, rest, t, v, Find(rest, t, 0));
    }
  }

  lemma {:induction false} ReplaceShift(x: string, rest: string, t: string, v: string, k: nat)
    requires t != "" && Find(rest, t, 0) == k && Find(x + rest, t, 0) == k + |x|
    ensures Replace(x + rest, t, v) == x + Replace(rest, t, v)
  {
    var tail := rest[k + |t|..];
    SliceConcat(x, rest, k, k + |t|);
    ReplaceUnfold(rest, t, v, k, tail);
    ReplaceUnfold(x + rest, t, v, k + |x|, tail);
    Reassociate(x, rest[..k], v, Replace(tail, t, v));
  }

  lemma {:induction false} ReplacePastClean(x: string, rest: string, t: string, v: string)
    requires At(t, OPEN, 0) && Clean(x)
    ensures Replace(x + rest, t, v) == x + Replace(rest, t, v)
  {
    forall i: nat | i < |x|
      ensures !At(x + rest, t, i)
    {
      CleanStart(x, rest, i);
      if At(x + rest, t, i) {
        OpensWith(x + rest, t, i);
      }
    }
    ReplacePast(x, rest, t, v);
  }

  lemma {:induction false} TokensUnfold(s: string, k: nat, c: nat, tail: string)
    requires Find(s, OPEN, 0) == k && Find(s, CLOSE, k + 2) == c && c + 2 <= |s| && tail == s[c + 2..]
    ensures Tokens(s) == [s[k..c + 2]] + Tokens(tail)
  {
  }

  lemma {:induction false} TokensPastClean(x: string, rest: string)
    requires Clean(x)
    ensures Tokens(x + rest) == Tokens(rest)
  {
    hide At;
    FindOpenPastClean(x, rest);
    if Find(rest, OPEN, 0) >= 0 {
      TokensPast(x, rest, Find(rest, OPEN, 0));
    }
  }

  lemma {:induction false} TokensPast(x: string, rest: string, k: nat)
    requires Find(rest, OPEN, 0) == k && Find(x + rest, OPEN, 0) == k + |x|
    ensures Tokens(x + rest) == Tokens(rest)
  {
    hide At;
    FindClosePast(x, rest, k + 2);
    var c := Find(rest, CLOSE, k + 2);
    if c >= 0 {
      TokensShift(x, rest, k, c);
    }
  }

  lemma {:induction false} TokensShift(x: string, rest: string, k: nat, c: nat)
    requires Find(rest, OPEN, 0) == k && Find(x + rest, OPEN, 0) == k + |x|
    requires Find(rest, CLOSE, k + 2) == c && Find(x + rest, CLOSE, k + |x| + 2) == c + |x|
    ensures Tokens(x + rest) == Tokens(rest)
  {
    hide At, Find, Tokens;
    SliceConcat(x, rest, k, c + 2);
    SameTokens(x + rest, k + |x|, c + |x|, rest, k, c);
  }

  lemma {:induction false} SameTokens(a: string, k: nat, c: nat, b: string, k': nat, c': nat)
    requires Find(a, OPEN, 0) == k && Find(a, CLOSE, k + 2) == c
    requires Find(b, OPEN, 0) == k' && Find(b, CLOSE, k' + 2) == c'
    requires a[k..c + 2] == b[k'..c' + 2] && a[c + 2..] == b[c' + 2..]
    ensures Tokens(a) == Tokens(b)
  {
    var tail := a[c + 2..];
    TokensUnfold(a, k, c, tail);
    TokensUnfold(b, k', c', tail);
  }

  lemma {:induction false} FindOpenPastClean(x: string, rest: string)
    requires Clean(x)
    ensures Find(x + rest, OPEN, 0) == if Find(rest, OPEN, 0) < 0 then -1 else Find(rest, OPEN, 0) + |x|
  {
    forall i: nat | i < |x|
      ensures !At(x + rest, OPEN, i)
    {
      CleanStart(x, rest, i);
    }
    FindPast(x, rest, OPEN);
  }

  lemma {:induction false} FindClosePast(x: string, rest: string, from: nat)
    requires from <= |rest|
    ensures Find(x + rest, CLOSE, from + |x|) ==
            if Find(rest, CLOSE, from) < 0 then -1 else Find(rest, CLOSE, from) + |x|
  {
    FindInSuffix(x + rest, CLOSE, |x|, from + |x|);
    assert (x + rest)[|x|..] == rest;
  }

  // ---------------------------------------------------------------------------
  // Allowed names
  // ---------------------------------------------------------------------------

  predicate BraceFree(s: string) { forall i :: 0 <= i < |s| ==> s[i] != '{' && s[i] != '}' }

  lemma {:induction false} TokenName(name: string)
    ensures Token(name)[2..|Token(name)| - 2] == name
    ensures At(Token(name), OPEN, 0)
  {
    assert Token(name)[0..2] == OPEN;
  }

  lemma {:induction false} SameToken(a: string, b: string)
    requires Token(a) == Token(b)
    ensures a == b
  {
    TokenName(a);
    TokenName(b);
  }

  lemma {:induction false} TargetUrl()
    ensures BraceFree("target_url")
  {
  }

  lemma {:induction false} SessionId()
    ensures BraceFree("session_id")
  {
  }

  lemma {:induction false} ToolName()
    ensures BraceFree("tool_name")
  {
  }

  lemma {:induction false} Canary()
    ensures BraceFree("canary")
  {
  }

  lemma {:induction false} NamesAreBraceFree(name: string)
    requires name in NAMES
    ensures name != "" && BraceFree(name)
  {
    hide BraceFree;
    TargetUrl();
    SessionId();
    ToolName();
    Canary();
  }

  lemma {:induction false} AllowedName(name: string)
    ensures Token(name) in ALLOWED <==> name in NAMES
    ensures name in NAMES ==> name != "" && BraceFree(name)
  {
    hide Token, BraceFree;
    if Token(name) in ALLOWED {
      var n :| n in NAMES && Token(n) == Token(name);
      SameToken(n, name);
    }
    if name in NAMES {
      NamesAreBraceFree(name);
    }
  }

  /** Inside a token of the template nothing else begins with `{{`. */
  lemma {:induction false} TokenInterior(name: string, rest: string, i: nat)
    requires name != "" && BraceFree(name) && 0 < i < |Token(name)|
    ensures !At(Token(name) + rest, OPEN, i)
  {
    var s := Token(name) + rest;
    OpenChars(s, i);
    assert s[2] == name[0];
    assert i >= 2 ==> s[i] == (name + CLOSE)[i - 2];
  }

  lemma {:induction false} TokenClose(name: string, rest: string)
    requires BraceFree(name)
    ensures Find(Token(name) + rest, OPEN, 0) == 0
    ensures Find(Token(name) + rest, CLOSE, 2) == |name| + 2
  {
    var s := Token(name) + rest;
    OpenChars(s, 0);
    OpenChars(s, |name| + 2);
    FindIsLeast(s, CLOSE, 2, |name| + 2);
    var c := Find(s, CLOSE, 2);
    OpenChars(s, c);
    assert forall j: nat :: 2 <= j < |name| + 2 ==> s[j] == name[j - 2];
  }
}

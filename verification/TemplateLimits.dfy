/** When the replace loop of cosai_mcp/catalog/template.py:39-70 does not mean one
    simultaneous substitution: exactly which variable names and which values break it. */
module TemplateLimits {
  import opened Wrappers
  import opened Strings
  import opened Template
  import opened TemplateMeaning

  // ---------------------------------------------------------------------------
  // Names
  // ---------------------------------------------------------------------------

  /** Beside allowed names and brace-free values, the key never changes the meaning. */
  ghost predicate KeyHarmless(key: string) {
    forall s, items :: Substitute(s, items) == SubstituteAtOnce(s, items) || !OnlyOddKey(items, key)
  }

  ghost predicate OnlyOddKey(items: Items, key: string) {
    && DistinctKeys(items)
    && (forall i :: 0 <= i < |items| ==>
          BraceFree(items[i].1) && (items[i].0 == key || items[i].0 in NAMES))
  }

  lemma {:induction false} BraceFreeValues(items: Items, key: string)
    requires OnlyOddKey(items, key)
    ensures !AnyRejected(items) && forall i :: 0 <= i < |items| ==> !EndsOpen(items[i].1)
  {
    forall i | 0 <= i < |items|
      ensures !ValueRejected(items[i].1)
    {
      NotRejected(items[i].1);
    }
  }

  lemma {:induction false} NotRejected(v: string)
    requires BraceFree(v)
    ensures !ValueRejected(v)
  {
    if Contains(v, OPEN) {
      OpenChars(v, Find(v, OPEN, 0));
    }
    if Contains(v, CLOSE) {
      OpenChars(v, Find(v, CLOSE, 0));
    }
  }

  /** A name that is not allowed but whose token consists of allowed tokens is replaced by
      the loop although the template has no such token. */
  lemma {:induction false} OddKeyIsReplaced(key: string, v: string)
    requires !KeySafe(key) && BraceFree(v)
    ensures Substitute(Token(key), [(key, v)]) == Ok(v)
    ensures SubstituteAtOnce(Token(key), [(key, v)]) == Err(Injection)
  {
    var s, items := Token(key), [(key, v)];
    assert items[..0] == [];
    NotRejected(v);
    assert Sequential(s, []) == s;
    ReplaceAtStart(s, "", v);
    assert s + "" == s && Replace("", s, v) == "" && v + "" == v;
    assert Sequential(s, items) == v;
    assert Dict(items) == map[key := v];
    SimultaneousNothing(s, Dict(items));
    TokenName(key);
    FindIsLeast(s, OPEN, 0, 0);
  }

  /** `key.strip("{}")`, which the caller applies to every name, leaves this one alone. */
  predicate Stripped(key: string) {
    key == "" || (key[0] !in {'{', '}'} && key[|key| - 1] !in {'{', '}'})
  }

  const TWO_IN_ONE := "tool_name}}{{canary"

  lemma {:induction false} TwoInOneIsTwo()
    ensures Token(TWO_IN_ONE) == Token("tool_name") + Token("canary")
  {
  }

  lemma {:induction false} NoTokensInNothing()
    ensures Tokens("") == []
  {
  }

  /** A name that the caller passes on and that is not safe. */
  lemma {:induction false} TwoInOneIsUnsafe()
    ensures Stripped(TWO_IN_ONE) && TWO_IN_ONE !in NAMES && !KeySafe(TWO_IN_ONE)
  {
    hide Find, At, Tokens;
    TwoInOneIsTwo();
    NoTokensInNothing();
    assert Token("canary") + "" == Token("canary");
    TokensAfterToken("canary", "");
    TokensAfterToken("tool_name", Token("canary"));
    AllowedName("canary");
    AllowedName("tool_name");
    AllowedFirst(Token("canary"), []);
    AllowedFirst(Token("tool_name"), Tokens(Token("canary")));
  }

  /** The template has two tokens, neither with a value; the loop replaces both at once by
      the value of this one variable. */
  lemma {:induction false} TwoInOneIsReplaced(v: string)
    requires BraceFree(v)
    ensures var s := Token("tool_name") + Token("canary");
            && Substitute(s, [(TWO_IN_ONE, v)]) == Ok(v)
            && SubstituteAtOnce(s, [(TWO_IN_ONE, v)]) == Err(Injection)
  {
    TwoInOneIsTwo();
    TwoInOneIsUnsafe();
    OddKeyIsReplaced(TWO_IN_ONE, v);
  }

  /** Exactly the safe names are harmless. */
  lemma {:induction false} HarmlessIffSafe(key: string)
    ensures KeyHarmless(key) <==> KeySafe(key)
  {
    if KeySafe(key) {
      forall s, items | OnlyOddKey(items, key)
        ensures Substitute(s, items) == SubstituteAtOnce(s, items)
      {
        BraceFreeValues(items, key);
        SubstitutionIsSimultaneous(s, items);
      }
    } else {
      var items := [(key, "x")];
      OddKeyIsReplaced(key, "x");
      assert OnlyOddKey(items, key);
      assert Substitute(Token(key), items) != SubstituteAtOnce(Token(key), items);
    }
  }

  // ---------------------------------------------------------------------------
  // Values
  // ---------------------------------------------------------------------------

  /** `items'` is the same dictionary, filled in another order. */
  ghost predicate Reordered(items: Items, items': Items) {
    DistinctKeys(items') && Dict(items') == Dict(items)
  }

  /** Whatever the template and the order, the loop means one substitution. */
  ghost predicate OrderSafe(items: Items) {
    forall s, items' :: Reordered(items, items') ==> Substitute(s, items') == SubstituteAtOnce(s, items)
  }

  function ToFront(items: Items, i: nat): Items
    requires i < |items|
  {
    [items[i]] + items[..i] + items[i + 1..]
  }

  lemma {:induction false} FrontItem(items: Items, i: nat, k: nat)
    requires i < |items| && k < |items|
    ensures ToFront(items, i)[k] == if k == 0 then items[i] else if k <= i then items[k - 1] else items[k]
  {
  }

  lemma {:induction false} ToFrontReorders(items: Items, i: nat)
    requires i < |items| && DistinctKeys(items)
    ensures Reordered(items, ToFront(items, i)) && |ToFront(items, i)| == |items|
  {
    var r := ToFront(items, i);
    forall k | 0 <= k < |items|
      ensures r[k] == if k == 0 then items[i] else if k <= i then items[k - 1] else items[k]
    {
      FrontItem(items, i, k);
    }
    assert DistinctKeys(r);
    assert items == items[..i] + [items[i]] + items[i + 1..];
    SameMembersSameDict(items, r);
  }

  lemma {:induction false} SameMembersSameDict(items: Items, r: Items)
    requires DistinctKeys(items) && DistinctKeys(r) && forall x :: x in items <==> x in r
    ensures Dict(r) == Dict(items)
  {
    forall k
      ensures k in Dict(r) <==> k in Dict(items)
      ensures k in Dict(r) && k in Dict(items) ==> Dict(r)[k] == Dict(items)[k]
    {
      DictMember(items, k);
      DictMember(r, k);
      if k in Dict(items) {
        MemberInDict(r, (k, Dict(items)[k]));
      }
      if k in Dict(r) {
        MemberInDict(items, (k, Dict(r)[k]));
      }
    }
  }

  lemma {:induction false} DictMember(items: Items, k: string)
    requires DistinctKeys(items)
    ensures k in Dict(items) ==> (k, Dict(items)[k]) in items
  {
    DictKeys(items);
    if k in Dict(items) {
      var j :| 0 <= j < |items| && items[j].0 == k;
      assert items[j] == (k, Dict(items)[k]);
    }
  }

  lemma {:induction false} MemberInDict(items: Items, x: (string, string))
    requires DistinctKeys(items) && x in items
    ensures x.0 in Dict(items) && Dict(items)[x.0] == x.1
  {
    DictKeys(items);
    var j :| 0 <= j < |items| && items[j] == x;
  }

  lemma {:induction false} NothingLeft(s: string, items: Items, n: nat)
    requires n <= |items| && !Contains(Sequential(s, items[..n]), OPEN)
    ensures Sequential(s, items) == Sequential(s, items[..n])
    decreases |items|
  {
    if n < |items| {
      var m := |items| - 1;
      assert items[..m][..n] == items[..n];
      NothingLeft(s, items[..m], n);
      ReplaceNothing(Sequential(s, items[..m]), items[m].0, items[m].1);
    } else {
      assert items[..n] == items;
    }
  }

  /** The template that a value ending in an open brace completes: after the first
      variable is replaced, `{` meets `{name}}`, and a token appears that the
      template did not have. */
  function Trap(first: string, second: string): string { Token(first) + "{" + second + CLOSE }

  lemma {:induction false} TrapTail(second: string)
    requires BraceFree(second)
    ensures !Contains("{" + second + CLOSE, OPEN)
  {
    var w := "{" + second + CLOSE;
    assert forall j: nat :: 1 <= j < |w| ==> w[j] == (second + CLOSE)[j - 1];
    assert forall j: nat :: j < |second| + 2 ==> (second + CLOSE)[j] != '{';
    var i := Find(w, OPEN, 0);
    if i >= 0 {
      OpenChars(w, i);
    }
  }

  lemma {:induction false} OpenBraceMeets(p: string, second: string)
    ensures p + "{" + ("{" + second + CLOSE) == p + Token(second)
  {
    assert "{" + "{" == OPEN;
  }

  lemma {:induction false} PrefixOfOpen(v: string)
    requires EndsOpen(v) && !Contains(v, OPEN)
    ensures v == v[..|v| - 1] + "{" && Clean(v[..|v| - 1])
  {
    var p := v[..|v| - 1];
    var i := Find(p, OPEN, 0);
    if i >= 0 {
      OpenChars(p, i);
      OpenChars(v, i);
      FindIsLeast(v, OPEN, 0, i);
    }
    if p != "" && p[|p| - 1] == '{' {
      OpenChars(v, |v| - 2);
      FindIsLeast(v, OPEN, 0, |v| - 2);
    }
  }

  lemma {:induction false} TrapFirstStep(first: string, second: string, v1: string)
    requires first in NAMES && BraceFree(second) && EndsOpen(v1) && !Contains(v1, OPEN)
    ensures Replace(Trap(first, second), Token(first), v1) == v1[..|v1| - 1] + Token(second)
  {
    var w := "{" + second + CLOSE;
    assert Trap(first, second) == Token(first) + w;
    ReplaceAtStart(Token(first), w, v1);
    TrapTail(second);
    ReplaceNothing(w, first, v1);
    PrefixOfOpen(v1);
    OpenBraceMeets(v1[..|v1| - 1], second);
  }

  lemma {:induction false} TrapSecondStep(p: string, second: string, v2: string)
    requires Clean(p) && !Contains(v2, OPEN)
    ensures Replace(p + Token(second), Token(second), v2) == p + v2
    ensures !Contains(p + v2, OPEN)
  {
    TokenName(second);
    ReplacePastClean(p, Token(second), Token(second), v2);
    ReplaceAtStart(Token(second), "", v2);
    assert Token(second) + "" == Token(second) && Replace("", Token(second), v2) == "" && v2 + "" == v2;
    FindOpenPastClean(p, v2);
  }

  lemma {:induction false} TrapShape(first: string, second: string)
    ensures var w, s := "{" + second + CLOSE, Trap(first, second);
            s == Token(first) + w && s[2..|first| + 2] == first && s[|first| + 4..] == w
  {
  }

  lemma {:induction false} TrapParts(first: string, second: string)
    requires first in NAMES && BraceFree(second)
    ensures var w, s := "{" + second + CLOSE, Trap(first, second);
            && s == Token(first) + w && Tokens(w) == [] && AllAllowed(Tokens(s))
            && Find(s, OPEN, 0) == 0 && Find(s, CLOSE, 2) == |first| + 2
            && s[2..|first| + 2] == first && s[|first| + 4..] == w
  {
    var w := "{" + second + CLOSE;
    TrapShape(first, second);
    TrapTail(second);
    AllowedName(first);
    TokensAfterToken(first, w);
    AllowedFirst(Token(first), []);
    TokenClose(first, w);
  }

  lemma {:induction false} OpensAcross(v: string, w: string)
    requires EndsOpen(v) && w != "" && w[0] == '{'
    ensures Contains(v + w, OPEN)
  {
    OpenChars(v + w, |v| - 1);
    FindIsLeast(v + w, OPEN, 0, |v| - 1);
  }

  lemma {:induction false} TrapMeans(first: string, second: string, vars: map<string, string>)
    requires first in NAMES && BraceFree(second) && first in vars
    ensures Simultaneous(Trap(first, second), vars) == vars[first] + ("{" + second + CLOSE)
  {
    hide At, Find, Tokens;
    var w, s := "{" + second + CLOSE, Trap(first, second);
    TrapParts(first, second);
    SimultaneousUnfold(s, 0, |first| + 2, vars);
    NoOpenMeansItself(w, vars, second);
    assert s[..0] == "";
  }

  lemma {:induction false} NoOpenMeansItself(w: string, vars: map<string, string>, second: string)
    requires BraceFree(second) && w == "{" + second + CLOSE
    ensures Simultaneous(w, vars) == w
  {
    TrapTail(second);
  }

  lemma {:induction false} TrapAtOnce(first: string, second: string, items: Items, v1: string)
    requires first in NAMES && BraceFree(second) && EndsOpen(v1)
    requires first in Dict(items) && Dict(items)[first] == v1
    ensures AllAllowed(Tokens(Trap(first, second)))
    ensures Contains(Simultaneous(Trap(first, second), Dict(items)), OPEN)
  {
    TrapParts(first, second);
    TrapMeans(first, second, Dict(items));
    OpensAcross(v1, "{" + second + CLOSE);
  }

  /** With `first`, whose value ends in an open brace, placed before `second`, the
      loop accepts a template that the simultaneous substitution refuses. */
  lemma {:induction false} TrapSprings(items: Items)
    requires |items| >= 2 && DistinctKeys(items) && !AnyRejected(items)
    requires items[0].0 in NAMES && EndsOpen(items[0].1) && BraceFree(items[1].0)
    ensures var s := Trap(items[0].0, items[1].0);
            Substitute(s, items).Ok? && SubstituteAtOnce(s, items) == Err(Injection)
  {
    var first, v1, second, v2 := items[0].0, items[0].1, items[1].0, items[1].1;
    var s := Trap(first, second);
    AcceptedValue(items, 0);
    AcceptedValue(items, 1);
    DictKeys(items);
    TrapAtOnce(first, second, items, v1);
    TrapFirstStep(first, second, v1);
    PrefixOfOpen(v1);
    TrapSecondStep(v1[..|v1| - 1], second, v2);
    TwoSteps(s, items);
    NothingLeft(s, items, 2);
  }

  lemma {:induction false} TwoSteps(s: string, items: Items)
    requires |items| >= 2
    ensures Sequential(s, items[..2]) ==
            Replace(Replace(s, Token(items[0].0), items[0].1), Token(items[1].0), items[1].1)
  {
    assert items[..2][..1] == items[..1] && items[..1][..0] == [];
    assert Sequential(s, items[..1]) == Replace(s, Token(items[0].0), items[0].1);
  }

  lemma {:induction false} ReorderedAccepted(items: Items, items': Items)
    requires DistinctKeys(items) && Reordered(items, items') && !AnyRejected(items)
    ensures !AnyRejected(items')
  {
    DictKeys(items);
    DictKeys(items');
    forall i | 0 <= i < |items'|
      ensures !ValueRejected(items'[i].1)
    {
      var k := items'[i].0;
      var j :| 0 <= j < |items| && items[j].0 == k;
      assert items'[i].1 == items[j].1;
    }
  }

  /** For values the loop accepts and brace-free names, the loop means a simultaneous
      substitution, in every order and for every template, exactly when there is at
      most one variable or no allowed variable's value ends in an open brace. Single
      braces elsewhere are harmless. */
  lemma {:induction false} OrderSafeIffNoOpenEnd(items: Items)
    requires DistinctKeys(items) && !AnyRejected(items)
    requires forall i :: 0 <= i < |items| ==> BraceFree(items[i].0)
    ensures OrderSafe(items) <==>
              |items| <= 1 || forall i :: 0 <= i < |items| && items[i].0 in NAMES ==> !EndsOpen(items[i].1)
  {
    if |items| <= 1 || forall i :: 0 <= i < |items| && items[i].0 in NAMES ==> !EndsOpen(items[i].1) {
      forall s, items' | Reordered(items, items')
        ensures Substitute(s, items') == SubstituteAtOnce(s, items)
      {
        ReorderedIsSafe(s, items, items');
      }
    } else {
      var i :| 0 <= i < |items| && items[i].0 in NAMES && EndsOpen(items[i].1);
      OpenEndBreaks(items, i);
    }
  }

  lemma {:induction false} ReorderedIsSafe(s: string, items: Items, items': Items)
    requires DistinctKeys(items) && !AnyRejected(items) && Reordered(items, items')
    requires forall i :: 0 <= i < |items| ==> BraceFree(items[i].0)
    requires |items| <= 1 || forall i :: 0 <= i < |items| && items[i].0 in NAMES ==> !EndsOpen(items[i].1)
    ensures Substitute(s, items') == SubstituteAtOnce(s, items)
  {
    DictKeys(items);
    DictKeys(items');
    ReorderedAccepted(items, items');
    SameLength(items, items');
    forall i | 0 <= i < |items'|
      ensures KeySafe(items'[i].0) && (|items| > 1 && items'[i].0 in NAMES ==> !EndsOpen(items'[i].1))
    {
      var k := items'[i].0;
      var j :| 0 <= j < |items| && items[j].0 == k;
      assert items'[i].1 == items[j].1;
      BraceFreeIsSafe(k);
    }
    SubstitutionIsSimultaneous(s, items');
  }

  lemma {:induction false} SameLength(items: Items, items': Items)
    requires DistinctKeys(items) && Reordered(items, items')
    ensures |items'| == |items|
  {
    DictSize(items);
    DictSize(items');
  }

  lemma {:induction false} DictSize(items: Items)
    requires DistinctKeys(items)
    ensures |Dict(items)| == |items|
  {
    if items != [] {
      var n := |items| - 1;
      DictSize(items[..n]);
      DictKeys(items[..n]);
    }
  }

  lemma {:induction false} OpenEndBreaks(items: Items, i: nat)
    requires DistinctKeys(items) && !AnyRejected(items) && |items| > 1
    requires forall k :: 0 <= k < |items| ==> BraceFree(items[k].0)
    requires i < |items| && items[i].0 in NAMES && EndsOpen(items[i].1)
    ensures !OrderSafe(items)
  {
    var r := ToFront(items, i);
    ToFrontReorders(items, i);
    FrontItem(items, i, 0);
    FrontItem(items, i, 1);
    ReorderedAccepted(items, r);
    TrapSprings(r);
    var s := Trap(r[0].0, r[1].0);
    assert Substitute(s, r) != SubstituteAtOnce(s, items) by {
      ReorderedAccepted(items, r);
      assert SubstituteAtOnce(s, items) == SubstituteAtOnce(s, r);
    }
  }
}

/** The replace loop of cosai_mcp/catalog/template.py:39-70 means one simultaneous
    substitution, for exactly the variables for which it should. */
module TemplateMeaning {
  import opened Wrappers
  import opened Strings
  import opened Template

  // ---------------------------------------------------------------------------
  // Taking a template apart at its first token
  // ---------------------------------------------------------------------------

  lemma {:induction false} CleanPrefix(s: string, k: nat)
    requires Find(s, OPEN, 0) == k
    ensures Clean(s[..k])
  {
    var x := s[..k];
    var i := Find(x, OPEN, 0);
    OpenChars(s, k);
    if i >= 0 {
      OpenChars(x, i);
      OpenChars(s, i);
      FindIsLeast(s, OPEN, 0, i);
    }
    if k > 0 {
      OpenChars(s, k - 1);
      if s[k - 1] == '{' {
        FindIsLeast(s, OPEN, 0, k - 1);
      }
    }
  }

  lemma {:induction false} SplitInThree(s: string, a: nat, b: nat, c: nat, d: nat)
    requires a <= b <= c <= d <= |s|
    ensures s[a..d] == s[a..b] + s[b..c] + s[c..d]
  {
  }

  lemma {:induction false} PairAt(s: string, t: string, i: nat)
    requires At(s, t, i) && |t| == 2
    ensures i + 2 <= |s| && s[i..i + 2] == t
  {
  }

  lemma {:induction false} FirstTokenText(s: string, k: nat, c: nat)
    requires Find(s, OPEN, 0) == k && Find(s, CLOSE, k + 2) == c
    ensures k + 2 <= c && c + 2 <= |s|
    ensures s[k..c + 2] == Token(s[k + 2..c])
  {
    hide At;
    assert At(s, OPEN, k) && At(s, CLOSE, c);
    PairAt(s, OPEN, k);
    PairAt(s, CLOSE, c);
    SplitInThree(s, k, k + 2, c, c + 2);
  }

  lemma {:induction false} FirstToken(s: string, k: nat, c: nat)
    requires Find(s, OPEN, 0) == k && Find(s, CLOSE, k + 2) == c
    ensures k + 2 <= c && c + 2 <= |s|
    ensures s[k..c + 2] == Token(s[k + 2..c])
    ensures Tokens(s) == [Token(s[k + 2..c])] + Tokens(s[c + 2..])
  {
    FirstTokenText(s, k, c);
    TokensUnfold(s, k, c, s[c + 2..]);
  }

  lemma {:induction false} RestAllowed(x: string, rest: seq<string>)
    requires AllAllowed([x] + rest)
    ensures x in ALLOWED && AllAllowed(rest)
  {
    assert ([x] + rest)[0] == x;
    forall i | 0 <= i < |rest|
      ensures rest[i] in ALLOWED
    {
      assert ([x] + rest)[i + 1] == rest[i];
    }
  }

  lemma {:induction false} AllowedFirst(x: string, rest: seq<string>)
    requires x in ALLOWED && AllAllowed(rest)
    ensures AllAllowed([x] + rest)
  {
  }

  lemma {:induction false} SimultaneousUnfold(s: string, k: nat, c: nat, vars: map<string, string>)
    requires Find(s, OPEN, 0) == k && Find(s, CLOSE, k + 2) == c
    ensures k + 2 <= c && c + 2 <= |s|
    ensures Simultaneous(s, vars) == s[..k] + (Slot(s[k + 2..c], vars) + Simultaneous(s[c + 2..], vars))
  {
    hide At;
  }

  // ---------------------------------------------------------------------------
  // Which tokens a partly substituted template can still have
  // ---------------------------------------------------------------------------

  /** Values that leave every later `{{` where it was. */
  ghost predicate CleanValues(vars: map<string, string>) {
    forall n :: n in vars && n in NAMES ==> Clean(vars[n])
  }

  lemma {:induction false} TokensAfterToken(name: string, rest: string)
    requires name in NAMES
    ensures Tokens(Token(name) + rest) == [Token(name)] + Tokens(rest)
  {
    hide At;
    AllowedName(name);
    TokenClose(name, rest);
    var s := Token(name) + rest;
    FirstToken(s, 0, |name| + 2);
    assert s[2..|name| + 2] == name;
    assert s[|name| + 4..] == rest;
  }

  lemma {:induction false} SimultaneousTokens(s: string, vars: map<string, string>)
    requires AllAllowed(Tokens(s)) && CleanValues(vars)
    ensures AllAllowed(Tokens(Simultaneous(s, vars)))
    decreases |s|
  {
    var k := Find(s, OPEN, 0);
    if k >= 0 {
      var c := Find(s, CLOSE, k + 2);
      if c >= 0 {
        var name, rest := s[k + 2..c], s[c + 2..];
        FirstToken(s, k, c);
        RestAllowed(Token(name), Tokens(rest));
        AllowedName(name);
        SimultaneousTokens(rest, vars);
        CleanPrefix(s, k);
        SimultaneousUnfold(s, k, c, vars);
        var r := Simultaneous(rest, vars);
        TokensPastClean(s[..k], Slot(name, vars) + r);
        SlotTokens(name, vars, r);
      }
    }
  }

  lemma {:induction false} SlotTokens(name: string, vars: map<string, string>, r: string)
    requires name in NAMES && CleanValues(vars) && AllAllowed(Tokens(r))
    ensures AllAllowed(Tokens(Slot(name, vars) + r))
  {
    if name in vars {
      TokensPastClean(vars[name], r);
    } else {
      TokensAfterToken(name, r);
      AllowedName(name);
      AllowedFirst(Token(name), Tokens(r));
    }
  }

  lemma {:induction false} FindInPrefix(s: string, n: nat, t: string, from: nat)
    requires n <= |s| && Find(s[..n], t, from) >= 0
    ensures Find(s, t, from) == Find(s[..n], t, from)
  {
    hide At, Find;
    var k := Find(s[..n], t, from);
    AtInPrefix(s, n, t, k);
    FindIsLeast(s, t, from, k);
    var j := Find(s, t, from);
    AtInPrefix(s, n, t, j);
    FindIsLeast(s[..n], t, from, j);
  }

  lemma {:induction false} AtInPrefix(s: string, n: nat, t: string, i: nat)
    requires n <= |s|
    ensures At(s[..n], t, i) <==> At(s, t, i) && i + |t| <= n
  {
    if i + |t| <= n {
      assert s[..n][i..i + |t|] == s[i..i + |t|];
    }
  }

  lemma {:induction false} PrefixSlices(s: string, n: nat, k: nat, m: nat)
    requires k <= m <= n <= |s|
    ensures s[..n][k..m] == s[k..m] && s[..n][m..] == s[m..][..n - m]
  {
  }

  /** The tokens of a prefix are tokens of the whole. */
  lemma {:induction false} PrefixTokens(s: string, n: nat)
    requires n <= |s| && AllAllowed(Tokens(s))
    ensures AllAllowed(Tokens(s[..n]))
    decreases |s|
  {
    hide At;
    var k := Find(s[..n], OPEN, 0);
    if k >= 0 {
      var c := Find(s[..n], CLOSE, k + 2);
      if c >= 0 {
        FindInPrefix(s, n, OPEN, 0);
        FindInPrefix(s, n, CLOSE, k + 2);
        TokensUnfold(s, k, c, s[c + 2..]);
        RestAllowed(s[k..c + 2], Tokens(s[c + 2..]));
        PrefixTokens(s[c + 2..], n - (c + 2));
        PrefixUnfold(s, n, k, c);
      }
    }
  }

  lemma {:induction false} PrefixUnfold(s: string, n: nat, k: nat, c: nat)
    requires n <= |s| && Find(s[..n], OPEN, 0) == k && Find(s[..n], CLOSE, k + 2) == c
    requires c + 2 <= n && s[k..c + 2] in ALLOWED && AllAllowed(Tokens(s[c + 2..][..n - (c + 2)]))
    ensures AllAllowed(Tokens(s[..n]))
  {
    PrefixSlices(s, n, k, c + 2);
    TokensUnfold(s[..n], k, c, s[c + 2..][..n - (c + 2)]);
    AllowedFirst(s[k..c + 2], Tokens(s[c + 2..][..n - (c + 2)]));
  }

  // ---------------------------------------------------------------------------
  // Variable names
  // ---------------------------------------------------------------------------

  /** Can occurrences of this variable's token be told from those of the allowed
      tokens? Either it is an allowed name, or its own token does not pass as one or
      several allowed tokens. */
  predicate KeySafe(key: string) {
    key in NAMES || !AllAllowed(Tokens(Token(key)))
  }

  lemma {:induction false} BraceFreeIsSafe(key: string)
    requires BraceFree(key)
    ensures KeySafe(key)
  {
    AllowedName(key);
    var t := Token(key);
    TokenClose(key, "");
    assert t + "" == t;
    FirstToken(t, 0, |key| + 2);
    assert t[2..|key| + 2] == key;
    if key !in NAMES {
      assert Tokens(t)[0] == Token(key);
    }
  }

  lemma {:induction false} SameBraceFreeName(name: string, key: string, rest: string)
    requires BraceFree(name) && BraceFree(key)
    requires At(Token(name) + rest, Token(key), 0)
    ensures name == key
  {
    var s := Token(name) + rest;
    var after := s[|Token(key)|..];
    assert s == Token(key) + after;
    TokenClose(name, rest);
    TokenClose(key, after);
    assert name == s[2..|name| + 2];
    assert key == s[2..|key| + 2];
  }

  lemma {:induction false} TokenAtStart(name: string, key: string, rest: string)
    requires name in NAMES && AllAllowed(Tokens(rest)) && At(Token(name) + rest, Token(key), 0)
    ensures AllAllowed(Tokens(Token(key)))
  {
    var s := Token(name) + rest;
    AllowedName(name);
    TokensAfterToken(name, rest);
    AllowedFirst(Token(name), Tokens(rest));
    PrefixTokens(s, |Token(key)|);
    assert s[..|Token(key)|] == Token(key);
  }

  /** The token of a safe variable occurs at the start of an allowed one only if the
      two are the same. */
  lemma {:induction false} NotAtOtherToken(name: string, key: string, rest: string)
    requires name in NAMES && KeySafe(key) && AllAllowed(Tokens(rest))
    ensures At(Token(name) + rest, Token(key), 0) ==> name == key
  {
    AllowedName(name);
    AllowedName(key);
    var s := Token(name) + rest;
    if At(s, Token(key), 0) {
      if key in NAMES {
        SameBraceFreeName(name, key, rest);
      } else {
        TokenAtStart(name, key, rest);
      }
    }
  }

  // ---------------------------------------------------------------------------
  // One replacement
  // ---------------------------------------------------------------------------

  lemma {:induction false} ReplaceAtStart(t: string, rest: string, v: string)
    requires t != ""
    ensures Replace(t + rest, t, v) == v + Replace(rest, t, v)
  {
    var s := t + rest;
    assert s[0..|t|] == t;
    assert Find(s, t, 0) == 0;
    assert s[|t|..] == rest;
    ReplaceUnfold(s, t, v, 0, rest);
    assert s[..0] + v == v;
  }

  lemma {:induction false} ReplaceToken(name: string, key: string, rest: string, v: string)
    requires name in NAMES && KeySafe(key) && AllAllowed(Tokens(rest))
    ensures Replace(Token(name) + rest, Token(key), v) ==
            (if name == key then v else Token(name)) + Replace(rest, Token(key), v)
  {
    if name == key {
      ReplaceAtStart(Token(key), rest, v);
    } else {
      AllowedName(name);
      NotAtOtherToken(name, key, rest);
      TokenName(key);
      forall i: nat | i < |Token(name)|
        ensures !At(Token(name) + rest, Token(key), i)
      {
        if i > 0 {
          TokenInterior(name, rest, i);
          if At(Token(name) + rest, Token(key), i) {
            OpensWith(Token(name) + rest, Token(key), i);
          }
        }
      }
      ReplacePast(Token(name), rest, Token(key), v);
    }
  }

  /** An occurrence of any token needs an opening and then a closing pair. */
  lemma {:induction false} TokenNeedsBraces(s: string, key: string, i: nat)
    requires At(s, Token(key), i)
    ensures var k := Find(s, OPEN, 0); k >= 0 && Find(s, CLOSE, k + 2) >= 0
  {
    TokenName(key);
    OpensWith(s, Token(key), i);
    FindIsLeast(s, OPEN, 0, i);
    var e := i + |key| + 2;
    ClosesAt(s, key, i);
    FindIsLeast(s, CLOSE, Find(s, OPEN, 0) + 2, e);
  }

  lemma {:induction false} ClosesAt(s: string, key: string, i: nat)
    requires At(s, Token(key), i)
    ensures At(s, CLOSE, i + |key| + 2)
  {
    var n := |key| + 2;
    assert Token(key)[n] == '}' && Token(key)[n + 1] == '}';
    assert s[i + n] == s[i..i + |Token(key)|][n] && s[i + n + 1] == s[i..i + |Token(key)|][n + 1];
    OpenChars(s, i + n);
  }

  lemma {:induction false} ReplaceNothing(s: string, key: string, v: string)
    requires var k := Find(s, OPEN, 0); k < 0 || Find(s, CLOSE, k + 2) < 0
    ensures Replace(s, Token(key), v) == s
  {
    var i := Find(s, Token(key), 0);
    if i >= 0 {
      TokenNeedsBraces(s, key, i);
    }
  }

  lemma {:induction false} ReplaceSlot(name: string, done: map<string, string>, key: string, v: string, r: string)
    requires name in NAMES && KeySafe(key) && key !in done && CleanValues(done) && AllAllowed(Tokens(r))
    ensures Replace(Slot(name, done) + r, Token(key), v) ==
            Slot(name, done[key := v]) + Replace(r, Token(key), v)
  {
    TokenName(key);
    if name in done {
      ReplacePastClean(done[name], r, Token(key), v);
    } else {
      ReplaceToken(name, key, r, v);
    }
  }

  /** Replacing one more variable in a partly substituted template is substituting
      that variable too: no new token ever appears. */
  lemma {:induction false} ReplaceStep(s: string, done: map<string, string>, key: string, v: string)
    requires AllAllowed(Tokens(s)) && CleanValues(done) && key !in done && KeySafe(key)
    ensures Replace(Simultaneous(s, done), Token(key), v) == Simultaneous(s, done[key := v])
    decreases |s|
  {
    var k := Find(s, OPEN, 0);
    if k < 0 || Find(s, CLOSE, k + 2) < 0 {
      ReplaceNothing(s, key, v);
    } else {
      var c := Find(s, CLOSE, k + 2);
      var name, rest := s[k + 2..c], s[c + 2..];
      FirstToken(s, k, c);
      RestAllowed(Token(name), Tokens(rest));
      AllowedName(name);
      ReplaceStep(rest, done, key, v);
      var r := Simultaneous(rest, done);
      SimultaneousTokens(rest, done);
      SimultaneousUnfold(s, k, c, done);
      SimultaneousUnfold(s, k, c, done[key := v]);
      CleanPrefix(s, k);
      TokenName(key);
      ReplacePastClean(s[..k], Slot(name, done) + r, Token(key), v);
      ReplaceSlot(name, done, key, v, r);
    }
  }

  // ---------------------------------------------------------------------------
  // The loop
  // ---------------------------------------------------------------------------

  ghost predicate DistinctKeys(items: Items) {
    forall i, j :: 0 <= i < j < |items| ==> items[i].0 != items[j].0
  }

  predicate EndsOpen(v: string) { v != "" && v[|v| - 1] == '{' }

  lemma {:induction false} DictKeys(items: Items)
    requires DistinctKeys(items)
    ensures forall i :: 0 <= i < |items| ==> items[i].0 in Dict(items) && Dict(items)[items[i].0] == items[i].1
    ensures forall k :: k in Dict(items) ==> exists i :: 0 <= i < |items| && items[i].0 == k
  {
    if items != [] {
      var n := |items| - 1;
      DictKeys(items[..n]);
      forall k | k in Dict(items)
        ensures exists i :: 0 <= i < |items| && items[i].0 == k
      {
        if k == items[n].0 {
        } else {
          var i :| 0 <= i < n && items[..n][i].0 == k;
          assert items[i].0 == k;
        }
      }
    }
  }

  /** Nothing to substitute: every token's name is unbound. */
  lemma {:induction false} SimultaneousNothing(s: string, vars: map<string, string>)
    requires AllAllowed(Tokens(s)) && forall n :: n in NAMES ==> n !in vars
    ensures Simultaneous(s, vars) == s
    decreases |s|
  {
    var k := Find(s, OPEN, 0);
    if k >= 0 {
      var c := Find(s, CLOSE, k + 2);
      if c >= 0 {
        var name, rest := s[k + 2..c], s[c + 2..];
        FirstToken(s, k, c);
        RestAllowed(Token(name), Tokens(rest));
        AllowedName(name);
        SimultaneousNothing(rest, vars);
        UnboundToken(s, k, c, vars);
      }
    }
  }

  lemma {:induction false} UnboundToken(s: string, k: nat, c: nat, vars: map<string, string>)
    requires Find(s, OPEN, 0) == k && Find(s, CLOSE, k + 2) == c
    requires k + 2 <= c && c + 2 <= |s|
    requires s[k + 2..c] !in vars && Simultaneous(s[c + 2..], vars) == s[c + 2..]
    ensures Simultaneous(s, vars) == s
  {
    SimultaneousUnfold(s, k, c, vars);
    FirstToken(s, k, c);
    Rejoin(s, k, c + 2);
  }

  lemma {:induction false} Rejoin(s: string, k: nat, m: nat)
    requires k <= m <= |s|
    ensures s[..k] + (s[k..m] + s[m..]) == s
  {
  }

  ghost predicate SafeKeys(items: Items) { forall i :: 0 <= i < |items| ==> KeySafe(items[i].0) }

  /** No value but the last one's leaves an open brace at its end. */
  ghost predicate CleanEarlier(items: Items) {
    forall i :: 0 <= i < |items| - 1 && items[i].0 in NAMES ==> Clean(items[i].1)
  }

  lemma {:induction false} InitOfItems(items: Items)
    requires items != [] && DistinctKeys(items) && SafeKeys(items) && CleanEarlier(items)
    ensures var n := |items| - 1;
            && DistinctKeys(items[..n]) && SafeKeys(items[..n]) && CleanEarlier(items[..n])
            && CleanValues(Dict(items[..n]))
            && items[n].0 !in Dict(items[..n])
  {
    var n := |items| - 1;
    var init := items[..n];
    assert forall i :: 0 <= i < n ==> init[i] == items[i];
    DictKeys(init);
    forall m | m in Dict(init) && m in NAMES
      ensures Clean(Dict(init)[m])
    {
      var i :| 0 <= i < n && init[i].0 == m;
      assert items[i] == init[i];
    }
  }

  lemma {:induction false} SequentialIsSimultaneous(s: string, items: Items)
    requires AllAllowed(Tokens(s)) && DistinctKeys(items) && SafeKeys(items) && CleanEarlier(items)
    ensures Sequential(s, items) == Simultaneous(s, Dict(items))
  {
    if items == [] {
      SimultaneousNothing(s, map[]);
    } else {
      var n := |items| - 1;
      InitOfItems(items);
      SequentialIsSimultaneous(s, items[..n]);
      ReplaceStep(s, Dict(items[..n]), items[n].0, items[n].1);
    }
  }

  lemma {:induction false} AcceptedValue(items: Items, i: nat)
    requires !AnyRejected(items) && i < |items|
    ensures !Contains(items[i].1, OPEN) && !Contains(items[i].1, CLOSE)
  {
    assert !ValueRejected(items[i].1);
  }

  /** The main result. With safe names, and values that do not end in an open brace,
      the loop fails or returns the simultaneous substitution of all tokens, so
      neither the order of the variables nor the substituted text matters. */
  lemma {:induction false} SubstitutionIsSimultaneous(s: string, items: Items)
    requires DistinctKeys(items) && SafeKeys(items)
    requires |items| <= 1 || forall i :: 0 <= i < |items| && items[i].0 in NAMES ==> !EndsOpen(items[i].1)
    ensures Substitute(s, items) == SubstituteAtOnce(s, items)
  {
    if AllAllowed(Tokens(s)) && !AnyRejected(items) {
      forall i | 0 <= i < |items| - 1 && items[i].0 in NAMES
        ensures Clean(items[i].1)
      {
        AcceptedValue(items, i);
      }
      SequentialIsSimultaneous(s, items);
    }
  }

  /** In particular: brace-free names and values, in any order. */
  lemma {:induction false} OrderDoesNotMatter(s: string, items: Items, items': Items)
    requires DistinctKeys(items) && DistinctKeys(items') && Dict(items) == Dict(items')
    requires forall k :: k in Dict(items) ==> BraceFree(k) && BraceFree(Dict(items)[k])
    ensures Substitute(s, items) == Substitute(s, items') == SubstituteAtOnce(s, items)
  {
    BraceFreeItems(items);
    BraceFreeItems(items');
    SubstitutionIsSimultaneous(s, items);
    SubstitutionIsSimultaneous(s, items');
  }

  lemma {:induction false} BraceFreeItems(items: Items)
    requires DistinctKeys(items)
    requires forall k :: k in Dict(items) ==> BraceFree(k) && BraceFree(Dict(items)[k])
    ensures SafeKeys(items) && !AnyRejected(items)
    ensures forall i :: 0 <= i < |items| ==> !EndsOpen(items[i].1)
  {
    DictKeys(items);
    forall i | 0 <= i < |items|
      ensures KeySafe(items[i].0) && !EndsOpen(items[i].1) && !ValueRejected(items[i].1)
    {
      BraceFreeIsSafe(items[i].0);
      var v := items[i].1;
      assert BraceFree(v);
      if Contains(v, OPEN) {
        OpenChars(v, Find(v, OPEN, 0));
      }
      if Contains(v, CLOSE) {
        OpenChars(v, Find(v, CLOSE, 0));
      }
    }
  }
}

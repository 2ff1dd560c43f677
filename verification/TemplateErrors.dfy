/** When substitution fails, in terms of the braces of the template and of the values
    (cosai_mcp/catalog/template.py:18-70). */
module TemplateErrors {
  import opened Wrappers
  import opened Strings
  import opened Template

  /** The character `b` stands twice at `i`. */
  predicate Pair(s: string, b: char, i: nat) { i + 2 <= |s| && s[i] == b && s[i + 1] == b }

  ghost predicate HasPair(s: string, b: char) { exists i: nat :: Pair(s, b, i) }

  /** The first `{{` from `from` on is at `k`, and the first `}}` behind it at `c`. */
  ghost predicate NextSpan(s: string, from: nat, k: nat, c: nat) {
    && from <= k && Pair(s, '{', k) && (forall i: nat :: from <= i < k ==> !Pair(s, '{', i))
    && k + 2 <= c && Pair(s, '}', c) && (forall i: nat :: k + 2 <= i < c ==> !Pair(s, '}', i))
  }

  /** A token of the template runs from `k` to `c + 2`: it is the next one, or it comes after it. */
  ghost predicate TokenSpan(s: string, from: nat, k: nat, c: nat)
    decreases |s| + 1 - from
  {
    || NextSpan(s, from, k, c)
    || exists k': nat, c': nat :: NextSpan(s, from, k', c') && TokenSpan(s, c' + 2, k, c)
  }

  ghost predicate HasToken(s: string, from: nat, t: string) {
    exists k: nat, c: nat :: TokenSpan(s, from, k, c) && c + 2 <= |s| && k <= c && t == s[k..c + 2]
  }

  lemma {:induction false} PairIsAt(s: string, i: nat)
    ensures Pair(s, '{', i) <==> At(s, OPEN, i)
    ensures Pair(s, '}', i) <==> At(s, CLOSE, i)
  {
    OpenChars(s, i);
  }

  lemma {:induction false} HasPairIff(s: string)
    ensures HasPair(s, '{') <==> Contains(s, OPEN)
    ensures HasPair(s, '}') <==> Contains(s, CLOSE)
  {
    hide At, Pair;
    if i: nat :| Pair(s, '{', i) {
      PairIsAt(s, i);
      FindIsLeast(s, OPEN, 0, i);
    }
    if i: nat :| Pair(s, '}', i) {
      PairIsAt(s, i);
      FindIsLeast(s, CLOSE, 0, i);
    }
    if Contains(s, OPEN) {
      PairIsAt(s, Find(s, OPEN, 0));
    }
    if Contains(s, CLOSE) {
      PairIsAt(s, Find(s, CLOSE, 0));
    }
  }

  lemma {:induction false} OpenFound(s: string, from: nat, k: nat)
    ensures Find(s, OPEN, from) == k <==>
              from <= k && Pair(s, '{', k) && forall i: nat :: from <= i < k ==> !Pair(s, '{', i)
  {
    hide At, Pair;
    if Find(s, OPEN, from) == k {
      PairIsAt(s, k);
      forall i: nat | from <= i < k
        ensures !Pair(s, '{', i)
      {
        PairIsAt(s, i);
        if At(s, OPEN, i) {
          FindIsLeast(s, OPEN, from, i);
        }
      }
    }
    if from <= k && Pair(s, '{', k) {
      PairIsAt(s, k);
      FindIsLeast(s, OPEN, from, k);
      PairIsAt(s, Find(s, OPEN, from));
    }
  }

  lemma {:induction false} CloseFound(s: string, from: nat, c: nat)
    ensures Find(s, CLOSE, from) == c <==>
              from <= c && Pair(s, '}', c) && forall i: nat :: from <= i < c ==> !Pair(s, '}', i)
  {
    hide At, Pair;
    if Find(s, CLOSE, from) == c {
      PairIsAt(s, c);
      forall i: nat | from <= i < c
        ensures !Pair(s, '}', i)
      {
        PairIsAt(s, i);
        if At(s, CLOSE, i) {
          FindIsLeast(s, CLOSE, from, i);
        }
      }
    }
    if from <= c && Pair(s, '}', c) {
      PairIsAt(s, c);
      FindIsLeast(s, CLOSE, from, c);
      PairIsAt(s, Find(s, CLOSE, from));
    }
  }

  lemma {:induction false} SpanFound(s: string, from: nat, k: nat, c: nat)
    ensures NextSpan(s, from, k, c) <==> Find(s, OPEN, from) == k && Find(s, CLOSE, k + 2) == c
  {
    hide Pair, Find;
    OpenFound(s, from, k);
    CloseFound(s, k + 2, c);
  }

  /** The tokens that the search finds are the spans of the template. */
  lemma {:induction false} TokensAre(s: string, from: nat, t: string)
    requires from <= |s|
    ensures t in Tokens(s[from..]) <==> HasToken(s, from, t)
    decreases |s| - from
  {
    hide Find, Tokens, NextSpan, At;
    var k := Find(s, OPEN, from);
    var c := if k < 0 then -1 else Find(s, CLOSE, k + 2);
    if k < 0 || c < 0 {
      NoMoreTokens(s, from, []);
      forall k': nat, c': nat
        ensures !NextSpan(s, from, k', c')
      {
        SpanFound(s, from, k', c');
      }
    } else {
      TokensOfSuffix(s, from, k, c);
      SpanFound(s, from, k, c);
      TokensAre(s, c + 2, t);
      NextOrLater(s, from, k, c, t);
    }
  }

  lemma {:induction false} NextOrLater(s: string, from: nat, k: nat, c: nat, t: string)
    requires NextSpan(s, from, k, c) && c + 2 <= |s| && k <= c
    ensures HasToken(s, from, t) <==> t == s[k..c + 2] || HasToken(s, c + 2, t)
  {
    hide NextSpan;
    forall k': nat, c': nat
      ensures NextSpan(s, from, k', c') <==> k' == k && c' == c
    {
      SpanFound(s, from, k, c);
      SpanFound(s, from, k', c');
    }
    forall k': nat, c': nat
      ensures TokenSpan(s, from, k', c') <==> (k' == k && c' == c) || TokenSpan(s, c + 2, k', c')
    {
    }
    assert TokenSpan(s, from, k, c);
    if HasToken(s, c + 2, t) {
      var k': nat, c': nat :| TokenSpan(s, c + 2, k', c') && c' + 2 <= |s| && k' <= c' && t == s[k'..c' + 2];
      assert TokenSpan(s, from, k', c');
    }
    if HasToken(s, from, t) {
      var k': nat, c': nat :| TokenSpan(s, from, k', c') && c' + 2 <= |s| && k' <= c' && t == s[k'..c' + 2];
      assert (k' == k && c' == c) || TokenSpan(s, c + 2, k', c');
    }
  }

  predicate IsAllowed(t: string) {
    t == "{{target_url}}" || t == "{{session_id}}" || t == "{{tool_name}}" || t == "{{canary}}"
  }

  lemma {:induction false} AllowedIs(t: string)
    ensures t in ALLOWED <==> IsAllowed(t)
  {
    assert Token("target_url") == "{{target_url}}" && Token("session_id") == "{{session_id}}";
    assert Token("tool_name") == "{{tool_name}}" && Token("canary") == "{{canary}}";
    assert "target_url" in NAMES && "session_id" in NAMES && "tool_name" in NAMES && "canary" in NAMES;
  }

  ghost predicate UnknownToken(s: string) { exists t :: HasToken(s, 0, t) && !IsAllowed(t) }

  ghost predicate BadValue(items: Items) {
    exists i :: 0 <= i < |items| && (HasPair(items[i].1, '{') || HasPair(items[i].1, '}'))
  }

  /** An unknown token is refused first, then a value with a double brace, then a result
      in which a double brace opens; nothing else is refused. */
  lemma {:induction false} SubstituteDecides(s: string, items: Items)
    ensures Substitute(s, items) ==
              if UnknownToken(s) then Err(UnknownVariable)
              else if BadValue(items) || HasPair(Sequential(s, items), '{') then Err(Injection)
              else Ok(Sequential(s, items))
  {
    hide Tokens, HasToken, IsAllowed, Contains, HasPair, Sequential;
    UnknownIff(s);
    BadIff(items);
    HasPairIff(Sequential(s, items));
  }

  lemma {:induction false} UnknownIff(s: string)
    ensures UnknownToken(s) <==> !AllAllowed(Tokens(s))
  {
    hide Tokens, HasToken, IsAllowed;
    var ts := Tokens(s);
    assert s[0..] == s;
    if UnknownToken(s) {
      var t :| HasToken(s, 0, t) && !IsAllowed(t);
      TokensAre(s, 0, t);
      AllowedIs(t);
      var i :| 0 <= i < |ts| && ts[i] == t;
    }
    if !AllAllowed(ts) {
      var i :| 0 <= i < |ts| && ts[i] !in ALLOWED;
      TokensAre(s, 0, ts[i]);
      AllowedIs(ts[i]);
    }
  }

  lemma {:induction false} BadIff(items: Items)
    ensures BadValue(items) <==> AnyRejected(items)
  {
    hide HasPair, Contains;
    forall i | 0 <= i < |items|
      ensures ValueRejected(items[i].1) <==> HasPair(items[i].1, '{') || HasPair(items[i].1, '}')
    {
      HasPairIff(items[i].1);
    }
  }
}

/** Redaction after pattern matching (cosai_mcp/middleware/protection.py:166-210).
    The regular-expression matches are an argument. */
module Scrubber {
  import opened Lists
  import Luhn

  datatype Match = Match(start: nat, end: nat, kind: string)

  datatype ScrubResult = ScrubResult(text: string, redactedCount: nat, findings: seq<Match>)

  ghost predicate InText(all: seq<Match>, text: string) {
    forall m :: m in all ==> m.start <= m.end <= |text|
  }

  /** A match of a corroborated type is a candidate only if its validator passes. */
  predicate Corroborated(m: Match, text: string)
    requires m.start <= m.end <= |text|
  {
    m.kind == "pan" ==> Luhn.Valid(Luhn.Digits(text[m.start..m.end]))
  }

  // ---------------------------------------------------------------------------
  // Sorting: by start, longest first
  // ---------------------------------------------------------------------------

  predicate Before(a: Match, b: Match) {
    a.start < b.start || (a.start == b.start && a.end >= b.end)
  }

  function InsertMatch(sorted: seq<Match>, m: Match): seq<Match> {
    if sorted == [] || Before(sorted[|sorted| - 1], m) then sorted + [m]
    else InsertMatch(sorted[..|sorted| - 1], m) + [sorted[|sorted| - 1]]
  }

  function Sort(all: seq<Match>): seq<Match> {
    if all == [] then [] else InsertMatch(Sort(all[..|all| - 1]), all[|all| - 1])
  }

  ghost predicate Sorted(s: seq<Match>) {
    forall i, j :: 0 <= i < j < |s| ==> Before(s[i], s[j])
  }

  lemma {:induction false} InsertSorts(s: seq<Match>, m: Match)
    requires Sorted(s)
    ensures Sorted(InsertMatch(s, m))
    ensures multiset(InsertMatch(s, m)) == multiset(s) + multiset{m}
  {
    if s != [] && !Before(s[|s| - 1], m) {
      var n := |s| - 1;
      InsertSorts(s[..n], m);
      assert s == s[..n] + [s[n]];
      var r := InsertMatch(s[..n], m);
      InsertedBefore(s[..n], m, r, s[n]);
      SortedSnoc(r, s[n]);
    }
  }

  lemma {:induction false} SortedSnoc(s: seq<Match>, m: Match)
    requires Sorted(s) && forall i :: 0 <= i < |s| ==> Before(s[i], m)
    ensures Sorted(s + [m])
  {
  }

  lemma {:induction false} InsertedBefore(s: seq<Match>, m: Match, r: seq<Match>, last: Match)
    requires multiset(r) == multiset(s) + multiset{m}
    requires Before(m, last) && forall i :: 0 <= i < |s| ==> Before(s[i], last)
    ensures forall i :: 0 <= i < |r| ==> Before(r[i], last)
  {
    hide Before;
    forall i | 0 <= i < |r|
      ensures Before(r[i], last)
    {
      assert r[i] in multiset(r);
      if r[i] != m {
        assert r[i] in multiset(s);
        var k :| 0 <= k < |s| && s[k] == r[i];
      }
    }
  }

  lemma {:induction false} SortSorts(all: seq<Match>)
    ensures Sorted(Sort(all)) && multiset(Sort(all)) == multiset(all)
  {
    if all != [] {
      var n := |all| - 1;
      assert all == all[..n] + [all[n]];
      SortSorts(all[..n]);
      InsertSorts(Sort(all[..n]), all[n]);
    }
  }

  lemma {:induction false} SameMembers(all: seq<Match>)
    ensures forall m :: m in Sort(all) <==> m in all
  {
    SortSorts(all);
    forall m
      ensures m in Sort(all) <==> m in all
    {
      assert m in all <==> m in multiset(all);
      assert m in Sort(all) <==> m in multiset(Sort(all));
    }
  }

  predicate SameInterval(a: Match, b: Match) { a.start == b.start && a.end == b.end }

  function SameAs(m: Match): Match -> bool { (c: Match) => SameInterval(c, m) }

  lemma {:induction false} InsertIsStable(sorted: seq<Match>, m: Match, x: Match)
    ensures Keep(InsertMatch(sorted, m), SameAs(x)) == Keep(sorted + [m], SameAs(x))
  {
    var p := SameAs(x);
    if sorted != [] && !Before(sorted[|sorted| - 1], m) {
      var n := |sorted| - 1;
      var init, last := sorted[..n], sorted[n];
      assert InsertMatch(sorted, m) == InsertMatch(init, m) + [last];
      assert !(p(m) && p(last));
      assert sorted == init + [last];
      hide Keep, InsertMatch;
      InsertIsStable(init, m, x);
      KeepSnoc(InsertMatch(init, m), last, p);
      KeepTwo(init, last, m, p);
      KeepTwo(init, m, last, p);
    }
  }

  lemma {:induction false} KeepTwo(s: seq<Match>, a: Match, b: Match, p: Match -> bool)
    requires !(p(a) && p(b))
    ensures Keep(s + [a] + [b], p) == Keep(s, p) + (if p(a) then [a] else if p(b) then [b] else [])
  {
    KeepSnoc(s, a, p);
    KeepSnoc(s + [a], b, p);
  }

  /** Matches of the same interval keep the order in which they were found. */
  lemma {:induction false} SortIsStable(all: seq<Match>, x: Match)
    ensures Keep(Sort(all), SameAs(x)) == Keep(all, SameAs(x))
  {
    if all != [] {
      var n := |all| - 1;
      assert all == all[..n] + [all[n]];
      SortIsStable(all[..n], x);
      InsertIsStable(Sort(all[..n]), all[n], x);
      KeepSnoc(Sort(all[..n]), all[n], SameAs(x));
      KeepSnoc(all[..n], all[n], SameAs(x));
    }
  }

  // ---------------------------------------------------------------------------
  // The greedy selection
  // ---------------------------------------------------------------------------

  predicate Inside(m: Match, s: Match) { s.start <= m.start < s.end }

  ghost predicate CoveredBy(m: Match, selected: seq<Match>) {
    exists k :: 0 <= k < |selected| && Inside(m, selected[k])
  }

  /** The selected matches are candidates in order and pairwise disjoint, each is the
      longest at its start, and every other candidate starts inside a selected one. */
  ghost predicate GreedyChoice(all: seq<Match>, selected: seq<Match>) {
    && (forall s :: s in selected ==> s in all)
    && (forall i, j :: 0 <= i < j < |selected| ==> selected[i].end <= selected[j].start)
    && (forall s, c :: s in selected && c in all && c.start == s.start ==> c.end <= s.end)
    && (forall c :: c in all ==> c in selected || CoveredBy(c, selected))
  }

  /** The loop's state after the candidates `seen`: `cursor` is the end of the last
      selected match, and whatever was passed over starts before it. */
  ghost predicate SoFar(seen: seq<Match>, selected: seq<Match>, cursor: nat) {
    && GreedyChoice(seen, selected)
    && cursor == (if selected == [] then 0 else selected[|selected| - 1].end)
    && (forall s :: s in selected ==> s.end <= cursor)
    && (forall c :: c in seen && c !in selected ==> c.start < cursor)
  }

  lemma {:induction false} CoveredByMore(m: Match, selected: seq<Match>, x: Match)
    requires CoveredBy(m, selected)
    ensures CoveredBy(m, selected + [x])
  {
    var k :| 0 <= k < |selected| && Inside(m, selected[k]);
    assert (selected + [x])[k] == selected[k];
  }

  lemma {:induction false} TakeStep(seen: seq<Match>, selected: seq<Match>, cursor: nat, m: Match)
    requires SoFar(seen, selected, cursor) && cursor <= m.start <= m.end
    requires forall c :: c in seen ==> Before(c, m) && c.start <= c.end
    ensures SoFar(seen + [m], selected + [m], m.end)
  {
    var more := selected + [m];
    forall c | c in seen + [m]
      ensures c in more || CoveredBy(c, more)
    {
      if c !in more {
        CoveredByMore(c, selected, m);
      }
    }
    forall s, c | s in more && c in seen + [m] && c.start == s.start
      ensures c.end <= s.end
    {
      if s == m && c != m {
        // `c` is empty and comes first, so `m` is empty too
        assert c in selected;
      } else if s != m && c == m {
        assert s in seen && Before(s, m);
      }
    }
    forall i, j | 0 <= i < j < |more|
      ensures more[i].end <= more[j].start
    {
      if j == |selected| {
        assert selected[i] in selected;
      }
    }
  }

  lemma {:induction false} SkipStep(seen: seq<Match>, selected: seq<Match>, cursor: nat, m: Match)
    requires SoFar(seen, selected, cursor) && m.start < cursor
    requires forall c :: c in seen ==> Before(c, m)
    ensures SoFar(seen + [m], selected, cursor)
  {
    var last := selected[|selected| - 1];
    assert last in selected && last in seen;
    assert Inside(m, selected[|selected| - 1]);
    forall s, c | s in selected && c in seen + [m] && c.start == s.start
      ensures c.end <= s.end
    {
      if c == m {
        assert s in seen && Before(s, m);
      }
    }
  }

  /** Of several patterns that match one and the same text, the first found labels it. */
  ghost predicate FirstLabels(all: seq<Match>, selected: seq<Match>) {
    forall s :: s in selected && s.start < s.end ==> IsFirst(all, s)
  }

  predicate IsFirst(all: seq<Match>, s: Match) {
    var same := Keep(all, SameAs(s));
    same != [] && same[0] == s
  }

  lemma {:induction false} FirstStays(seen: seq<Match>, s: Match, m: Match)
    requires IsFirst(seen, s)
    ensures IsFirst(seen + [m], s)
  {
    KeepSnoc(seen, m, SameAs(s));
  }

  lemma {:induction false} TakenIsFirst(seen: seq<Match>, selected: seq<Match>, cursor: nat, m: Match)
    requires SoFar(seen, selected, cursor) && cursor <= m.start < m.end
    ensures IsFirst(seen + [m], m)
  {
    KeepSnoc(seen, m, SameAs(m));
    forall c | c in seen
      ensures !SameInterval(c, m)
    {
      assert c in selected ==> c.end <= cursor;
    }
    KeepNone(seen, SameAs(m));
  }

  lemma {:induction false} LabelStep(seen: seq<Match>, selected: seq<Match>, cursor: nat, m: Match, take: bool)
    requires SoFar(seen, selected, cursor) && FirstLabels(seen, selected) && (take ==> cursor <= m.start <= m.end)
    ensures FirstLabels(seen + [m], if take then selected + [m] else selected)
  {
    forall s | s in (if take then selected + [m] else selected) && s.start < s.end
      ensures IsFirst(seen + [m], s)
    {
      if s in selected {
        FirstStays(seen, s, m);
      } else {
        TakenIsFirst(seen, selected, cursor, m);
      }
    }
  }

  method Select(all: seq<Match>) returns (selected: seq<Match>)
    requires Sorted(all) && forall m :: m in all ==> m.start <= m.end
    ensures GreedyChoice(all, selected) && FirstLabels(all, selected)
  {
    selected := [];
    var cursor := 0;
    assert SoFar(all[..0], selected, cursor) && FirstLabels(all[..0], selected);
    hide SoFar, FirstLabels, GreedyChoice, Sorted;
    for i := 0 to |all|
      invariant SoFar(all[..i], selected, cursor) && FirstLabels(all[..i], selected)
    {
      LabelStep(all[..i], selected, cursor, all[i], all[i].start >= cursor);
      var m := all[i];
      PrefixGrows(all, i);
      EarlierBefore(all, i);
      if m.start >= cursor {
        TakeStep(all[..i], selected, cursor, m);
        selected := selected + [m];
        cursor := m.end;
      } else {
        SkipStep(all[..i], selected, cursor, m);
      }
    }
    assert all[..|all|] == all;
    SoFarIsGreedy(all, selected, cursor);
  }

  lemma {:induction false} PrefixGrows(all: seq<Match>, i: nat)
    requires i < |all|
    ensures all[..i + 1] == all[..i] + [all[i]]
  {
  }

  lemma {:induction false} EarlierBefore(all: seq<Match>, i: nat)
    requires Sorted(all) && i < |all|
    ensures forall c :: c in all[..i] ==> Before(c, all[i])
  {
  }

  lemma {:induction false} SoFarIsGreedy(all: seq<Match>, selected: seq<Match>, cursor: nat)
    requires SoFar(all, selected, cursor)
    ensures GreedyChoice(all, selected)
  {
  }

  ghost predicate AgreeUpTo(s1: seq<Match>, s2: seq<Match>, k: nat) {
    k <= |s1| && k <= |s2| && forall i :: 0 <= i < k ==> SameInterval(s1[i], s2[i])
  }

  /** Every candidate is selected or starts inside a selected one. */
  lemma {:induction false} Reached(all: seq<Match>, s2: seq<Match>, s: Match) returns (i: nat)
    requires GreedyChoice(all, s2) && s in all
    ensures i < |s2| && (s2[i] == s || Inside(s, s2[i]))
  {
    if s in s2 {
      i :| 0 <= i < |s2| && s2[i] == s;
    } else {
      assert CoveredBy(s, s2);
      i :| 0 <= i < |s2| && Inside(s, s2[i]);
    }
  }

  lemma {:induction false} FirstDifference(all: seq<Match>, s1: seq<Match>, s2: seq<Match>, k: nat)
    requires GreedyChoice(all, s1) && GreedyChoice(all, s2)
    requires forall m :: m in all ==> m.start < m.end
    requires AgreeUpTo(s1, s2, k) && k < |s1|
    ensures k < |s2| && s2[k].start <= s1[k].start
  {
    var s := s1[k];
    assert s in s1 && s in all;
    forall i | 0 <= i < k
      ensures s2[i].end <= s.start
    {
      assert s1[i].end <= s1[k].start && SameInterval(s1[i], s2[i]);
    }
    var i := Reached(all, s2, s);
    assert k <= i;
    if k < i {
      assert s2[k] in s2 && s2[k].end <= s2[i].start;
    }
  }

  /** The selected intervals are determined by the set of candidates: the order in
      which the patterns were tried only decides the label of equal intervals. */
  lemma {:induction false} SelectionIsUnique(all: seq<Match>, s1: seq<Match>, s2: seq<Match>, k: nat)
    requires GreedyChoice(all, s1) && GreedyChoice(all, s2)
    requires forall m :: m in all ==> m.start < m.end
    requires AgreeUpTo(s1, s2, k)
    ensures |s1| == |s2| && AgreeUpTo(s1, s2, |s1|)
    decreases |s1| - k
  {
    if k < |s1| {
      FirstDifference(all, s1, s2, k);
      FirstDifference(all, s2, s1, k);
      SameStartSameEnd(all, s1, s2, k);
      SelectionIsUnique(all, s1, s2, k + 1);
    } else if k < |s2| {
      FirstDifference(all, s2, s1, k);
    }
  }

  lemma {:induction false} SameStartSameEnd(all: seq<Match>, s1: seq<Match>, s2: seq<Match>, k: nat)
    requires GreedyChoice(all, s1) && GreedyChoice(all, s2)
    requires k < |s1| && k < |s2| && s1[k].start == s2[k].start
    ensures SameInterval(s1[k], s2[k])
  {
    assert s1[k] in s1 && s2[k] in s2;
    assert s1[k] in all && s2[k] in all;
  }

  // ---------------------------------------------------------------------------
  // "Longest match wins on overlap"
  // ---------------------------------------------------------------------------

  function Length(m: Match): int { m.end - m.start }

  predicate Overlap(a: Match, b: Match) { a.start < b.end && b.start < a.end }

  /** What the comment on `scrub` promises: a match is passed over only for one that
      overlaps it and is at least as long. */
  ghost predicate LongestWins(all: seq<Match>, selected: seq<Match>) {
    forall c :: c in all && c !in selected ==> exists k :: 0 <= k < |selected| && Beats(selected[k], c)
  }

  predicate Beats(s: Match, c: Match) { Overlap(s, c) && Length(s) >= Length(c) }

  /** A longer match `b` starts strictly inside `a`. */
  predicate Outgrown(a: Match, b: Match) {
    a.start < b.start < a.end && Length(b) > Length(a)
  }

  ghost predicate NoneOutgrown(all: seq<Match>) {
    forall a, b :: a in all && b in all ==> !Outgrown(a, b)
  }

  ghost predicate NonEmpty(all: seq<Match>) { forall m :: m in all ==> m.start < m.end }

  /** On whichever of the matches are found, every choice `scrub` can make keeps the promise. */
  ghost predicate PromiseKept(all: seq<Match>) {
    forall some, selected :: Among(some, all) && GreedyChoice(some, selected) ==> LongestWins(some, selected)
  }

  ghost predicate Among(some: seq<Match>, all: seq<Match>) { forall m :: m in some ==> m in all }

  lemma {:induction false} NoneOutgrownSuffices(all: seq<Match>, selected: seq<Match>)
    requires NonEmpty(all) && NoneOutgrown(all) && GreedyChoice(all, selected)
    ensures LongestWins(all, selected)
  {
    forall c | c in all && c !in selected
      ensures exists k :: 0 <= k < |selected| && Beats(selected[k], c)
    {
      assert CoveredBy(c, selected);
      var k :| 0 <= k < |selected| && Inside(c, selected[k]);
      assert selected[k] in selected && selected[k] in all;
      assert !Outgrown(selected[k], c);
      assert Beats(selected[k], c);
    }
  }

  lemma {:induction false} OutgrownLoses(a: Match, b: Match)
    requires Outgrown(a, b)
    ensures GreedyChoice([a, b], [a]) && !LongestWins([a, b], [a])
  {
    assert Inside(b, [a][0]);
    assert b in [a, b] && b !in [a];
  }

  /** The promise is kept exactly when no match has a longer one starting strictly inside it. */
  lemma {:induction false} LongestWinsIffNoneOutgrown(all: seq<Match>)
    requires NonEmpty(all)
    ensures PromiseKept(all) <==> NoneOutgrown(all)
  {
    if NoneOutgrown(all) {
      forall some, selected | Among(some, all) && GreedyChoice(some, selected)
        ensures LongestWins(some, selected)
      {
        NoneOutgrownSuffices(some, selected);
      }
    } else {
      var a, b :| a in all && b in all && Outgrown(a, b);
      OutgrownLoses(a, b);
      assert Among([a, b], all);
    }
  }

  const OVERLAPPING := "a@b.eyJab.eyJcd.____________"
  const EMAIL := Match(0, 15, "email")
  const JWT := Match(4, 28, "jwt")

  /** An e-mail address whose domain runs into a token: the shorter, earlier address is
      masked, and the last part of the longer token stays in the output. */
  lemma {:induction false} LongestDoesNotWin()
    ensures InText([EMAIL, JWT], OVERLAPPING)
    ensures OVERLAPPING[EMAIL.start..EMAIL.end] == "a@b.eyJab.eyJcd"
    ensures OVERLAPPING[JWT.start..JWT.end] == "eyJab.eyJcd.____________"
    ensures Outgrown(EMAIL, JWT)
    ensures GreedyChoice([EMAIL, JWT], [EMAIL]) && !LongestWins([EMAIL, JWT], [EMAIL])
    ensures Spaced(OVERLAPPING, [EMAIL], 0)
    ensures Redacted(OVERLAPPING, [EMAIL], 0) == "[REDACTED:email].____________"
  {
    assert |OVERLAPPING| == 28;
    OutgrownLoses(EMAIL, JWT);
    OverlappingTexts();
    TokenTailStays();
  }

  lemma {:induction false} OverlappingTexts()
    ensures |OVERLAPPING| == 28
    ensures OVERLAPPING[EMAIL.start..EMAIL.end] == "a@b.eyJab.eyJcd"
    ensures OVERLAPPING[JWT.start..JWT.end] == "eyJab.eyJcd.____________"
  {
    var token := "eyJab.eyJcd.____________";
    assert OVERLAPPING == "a@b." + token;
    assert ("a@b." + token)[4..28] == token;
  }

  lemma {:induction false} OverlappingTail()
    ensures |OVERLAPPING| == 28 && OVERLAPPING[15..] == ".____________"
  {
    assert OVERLAPPING == "a@b.eyJab.eyJcd" + ".____________";
  }

  lemma {:induction false} EmailMarker()
    ensures Marker("email") + ".____________" == "[REDACTED:email].____________"
  {
  }

  lemma {:induction false} OneRedacted(text: string, m: Match)
    requires m.start == 0 && m.end <= |text|
    ensures Spaced(text, [m], 0) && Redacted(text, [m], 0) == Marker(m.kind) + text[m.end..]
  {
    hide Marker;
    assert [m][1..] == [];
    assert Spaced(text, [m][1..], m.end);
    assert text[0..0] + Marker(m.kind) == Marker(m.kind);
  }

  lemma {:induction false} TokenTailStays()
    ensures Spaced(OVERLAPPING, [EMAIL], 0)
    ensures Redacted(OVERLAPPING, [EMAIL], 0) == "[REDACTED:email].____________"
  {
    hide Marker, Redacted, Spaced;
    OverlappingTail();
    OneRedacted(OVERLAPPING, EMAIL);
    EmailMarker();
  }

  // ---------------------------------------------------------------------------
  // Rebuilding the text
  // ---------------------------------------------------------------------------

  function Marker(kind: string): string { "[REDACTED:" + kind + "]" }

  /** The selected matches lie in the text from `from` on, one after another. */
  ghost predicate Spaced(text: string, selected: seq<Match>, from: nat)
    decreases |selected|
  {
    from <= |text|
    && (selected != [] ==> from <= selected[0].start <= selected[0].end
                           && Spaced(text, selected[1..], selected[0].end))
  }

  function Redacted(text: string, selected: seq<Match>, from: nat): string
    requires Spaced(text, selected, from)
    decreases |selected|
  {
    if selected == [] then text[from..]
    else
      SpacedBounds(text, selected, from);
      text[from..selected[0].start] + Marker(selected[0].kind) + Redacted(text, selected[1..], selected[0].end)
  }

  lemma {:induction false} SpacedBounds(text: string, selected: seq<Match>, from: nat)
    requires Spaced(text, selected, from) && selected != []
    ensures selected[0].end <= |text|
  {
  }

  lemma {:induction false} SelectedAreSpaced(text: string, selected: seq<Match>, from: nat)
    requires InText(selected, text) && from <= |text|
    requires forall i, j :: 0 <= i < j < |selected| ==> selected[i].end <= selected[j].start
    requires selected != [] ==> from <= selected[0].start
    ensures Spaced(text, selected, from)
    decreases |selected|
  {
    if selected != [] {
      var rest := selected[1..];
      assert forall i :: 0 <= i < |rest| ==> rest[i] == selected[i + 1];
      assert selected[0] in selected;
      SelectedAreSpaced(text, rest, selected[0].end);
    }
  }

  /** The text cut at the selected matches: kept stretches and redacted stretches. */
  datatype Piece = Kept(s: string) | Cut(s: string, kind: string)

  function Pieces(text: string, selected: seq<Match>, from: nat): seq<Piece>
    requires Spaced(text, selected, from)
    decreases |selected|
  {
    if selected == [] then [Kept(text[from..])]
    else
      SpacedBounds(text, selected, from);
      [Kept(text[from..selected[0].start]),
       Cut(text[selected[0].start..selected[0].end], selected[0].kind)]
      + Pieces(text, selected[1..], selected[0].end)
  }

  function Original(ps: seq<Piece>): string {
    if ps == [] then "" else ps[0].s + Original(ps[1..])
  }

  function Masked(ps: seq<Piece>): string {
    if ps == [] then ""
    else (match ps[0] case Kept(s) => s case Cut(_, kind) => "[REDACTED:" + kind + "]") + Masked(ps[1..])
  }

  /** Reading the pieces as they were gives the input; replacing exactly the cut ones
      by their markers gives the output: nothing else changes and nothing moves. */
  lemma {:induction false} OnlySelectedIsReplaced(text: string, selected: seq<Match>, from: nat)
    requires Spaced(text, selected, from)
    ensures Original(Pieces(text, selected, from)) == text[from..]
    ensures Masked(Pieces(text, selected, from)) == Redacted(text, selected, from)
    decreases |selected|
  {
    var ps := Pieces(text, selected, from);
    if selected == [] {
      assert ps[1..] == [];
    } else {
      var m := selected[0];
      SpacedBounds(text, selected, from);
      OnlySelectedIsReplaced(text, selected[1..], m.end);
      var rest := Pieces(text, selected[1..], m.end);
      assert ps[1..][1..] == rest;
      assert ps[1..][0] == Cut(text[m.start..m.end], m.kind);
      assert text[from..] == text[from..m.start] + (text[m.start..m.end] + text[m.end..]);
      assert Original(ps[1..]) == text[m.start..m.end] + Original(rest);
      assert Masked(ps[1..]) == Marker(m.kind) + Masked(rest);
    }
  }

  method Rebuild(text: string, selected: seq<Match>) returns (r: string)
    requires Spaced(text, selected, 0)
    ensures r == Redacted(text, selected, 0)
  {
    var parts := "";
    var prev: nat := 0;
    assert selected[0..] == selected;
    for i := 0 to |selected|
      invariant Spaced(text, selected[i..], prev)
      invariant Redacted(text, selected, 0) == parts + Redacted(text, selected[i..], prev)
    {
      var m := selected[i];
      assert selected[i..][0] == m && selected[i..][1..] == selected[i + 1..];
      SpacedBounds(text, selected[i..], prev);
      parts := parts + text[prev..m.start] + Marker(m.kind);
      prev := m.end;
    }
    r := parts + text[prev..];
  }

  function CandidateIn(text: string): Match -> bool {
    (m: Match) => m.start <= m.end <= |text| && Corroborated(m, text)
  }

  lemma {:induction false} FirstInSorted(all: seq<Match>, selected: seq<Match>)
    requires FirstLabels(Sort(all), selected)
    ensures FirstLabels(all, selected)
  {
    forall s | s in selected && s.start < s.end
      ensures IsFirst(all, s)
    {
      assert IsFirst(Sort(all), s);
      SortIsStable(all, s);
    }
  }

  /** The text is a card number: 13 to 19 digits whose checksum is a multiple of ten. */
  predicate IsCard(text: string) {
    13 <= |Luhn.Digits(text)| <= 19 && Luhn.RightSum(Luhn.Digits(text), false) % 10 == 0
  }

  /** The match stands on its own, or is a card number. */
  predicate Genuine(m: Match, text: string)
    requires m.start <= m.end <= |text|
  {
    m.kind == "pan" ==> IsCard(text[m.start..m.end])
  }

  /** Only genuine matches are redacted, and of those every one is redacted or starts
      inside one that is. */
  ghost predicate Covers(text: string, found: seq<Match>, findings: seq<Match>)
    requires InText(found, text)
  {
    && (forall s :: s in findings ==> s in found && Genuine(s, text))
    && (forall m :: m in found && Genuine(m, text) && m !in findings ==>
          exists s :: s in findings && s.start <= m.start < s.end)
  }

  lemma {:induction false} GenuineIff(m: Match, text: string)
    requires m.start <= m.end <= |text|
    ensures CandidateIn(text)(m) <==> Genuine(m, text)
  {
    hide Luhn.Valid, Luhn.RightSum;
    Luhn.ValidIff(Luhn.Digits(text[m.start..m.end]));
  }

  lemma {:induction false} ChoiceCovers(text: string, found: seq<Match>, selected: seq<Match>)
    requires InText(found, text) && GreedyChoice(Keep(found, CandidateIn(text)), selected)
    ensures Covers(text, found, selected)
  {
    hide Genuine;
    var all := Keep(found, CandidateIn(text));
    forall m | m in found
      ensures m in all <==> Genuine(m, text)
    {
      GenuineIff(m, text);
    }
    forall m | m in all && m !in selected
      ensures exists s :: s in selected && s.start <= m.start < s.end
    {
      assert CoveredBy(m, selected);
      var k :| 0 <= k < |selected| && Inside(m, selected[k]);
      assert selected[k] in selected;
    }
  }

  lemma {:induction false} NothingFound(text: string)
    ensures GreedyChoice([], []) && FirstLabels([], []) && Spaced(text, [], 0) && Redacted(text, [], 0) == text
  {
  }

  /** `found`: the matches in the order in which the patterns report them. */
  method Scrub(text: string, found: seq<Match>) returns (r: ScrubResult)
    requires InText(found, text)
    ensures exists selected ::
              && GreedyChoice(Keep(found, CandidateIn(text)), selected)
              && FirstLabels(Keep(found, CandidateIn(text)), selected)
              && Spaced(text, selected, 0)
              && r == ScrubResult(Redacted(text, selected, 0), |selected|, selected)
    ensures Covers(text, found, r.findings)
  {
    hide Covers, GreedyChoice, FirstLabels, Keep, Redacted, Spaced;
    ghost var p := CandidateIn(text);
    KeepEmpty(found[..0], p);
    var all: seq<Match> := [];
    for i := 0 to |found|
      invariant all == Keep(found[..i], p)
    {
      assert found[..i + 1] == found[..i] + [found[i]];
      assert found[i] in found;
      KeepSnoc(found[..i], found[i], p);
      if found[i].kind == "pan" {
        var ok := Luhn.LuhnValid(text[found[i].start..found[i].end]);
        if !ok {
          continue;
        }
      }
      all := all + [found[i]];
    }
    assert found[..|found|] == found;
    if all == [] {
      NothingFound(text);
      ChoiceCovers(text, found, []);
      return ScrubResult(text, 0, []);
    }
    var selected := SelectFrom(all, text);
    var out := Rebuild(text, selected);
    ChoiceCovers(text, found, selected);
    r := ScrubResult(out, |selected|, selected);
  }

  /** Sort, then select. */
  method SelectFrom(all: seq<Match>, text: string) returns (selected: seq<Match>)
    requires InText(all, text)
    ensures GreedyChoice(all, selected) && FirstLabels(all, selected) && Spaced(text, selected, 0)
  {
    SameMembers(all);
    SortSorts(all);
    selected := Select(Sort(all));
    FirstInSorted(all, selected);
    SelectedAreSpaced(text, selected, 0);
  }
}

/** Levenshtein distance and the closest-match loop of the typosquat detector
    (cosai_mcp/middleware/integrity.py).

    The two-row dynamic program is proved against edit scripts: lists of single
    insertions, deletions and substitutions applied one after another. */
module EditDistance {
  import opened Wrappers

  datatype Edit =
    | Insert(pos: nat, c: char)
    | Delete(pos: nat)
    | Substitute(pos: nat, c: char)

  predicate Applicable(e: Edit, s: string) {
    match e
    case Insert(p, _) => p <= |s|
    case Delete(p) => p < |s|
    case Substitute(p, _) => p < |s|
  }

  function Apply(e: Edit, s: string): string
    requires Applicable(e, s)
  {
    match e
    case Insert(p, c) => s[..p] + [c] + s[p..]
    case Delete(p) => s[..p] + s[p + 1..]
    case Substitute(p, c) => s[..p] + [c] + s[p + 1..]
  }

  /** `script` rewrites `a` into `b`, one edit at a time. */
  predicate Rewrites(script: seq<Edit>, a: string, b: string)
    decreases |script|
  {
    if script == [] then a == b
    else Applicable(script[0], a) && Rewrites(script[1..], Apply(script[0], a), b)
  }

  function Min(x: int, y: int): int { if x <= y then x else y }

  function Init(s: string): string
    requires s != ""
  {
    s[..|s| - 1]
  }

  function Last(s: string): char
    requires s != ""
  {
    s[|s| - 1]
  }

  /** The recurrence the rows tabulate, on prefixes. */
  function Dist(a: string, b: string): (d: nat)
    decreases |a| + |b|
  {
    if a == "" then |b|
    else if b == "" then |a|
    else Min(Min(Dist(Init(a), b) + 1, Dist(a, Init(b)) + 1),
             Dist(Init(a), Init(b)) + (if Last(a) == Last(b) then 0 else 1))
  }

  // ---------------------------------------------------------------------------
  // No script is shorter: one edit changes the distance to any string by at most 1
  // ---------------------------------------------------------------------------

  lemma {:induction false} SnocParts(s: string, c: char)
    ensures s + [c] != "" && Init(s + [c]) == s && Last(s + [c]) == c
  {
  }

  /** Appending one character to the left string adds at most one. */
  lemma {:induction false} AppendLeft(p: string, x: char, c: string)
    ensures Dist(p + [x], c) <= Dist(p, c) + 1
  {
    SnocParts(p, x);
  }

  lemma {:induction false} AppendRight(p: string, c: string)
    requires c != ""
    ensures Dist(p, c) <= Dist(p, Init(c)) + 1
  {
  }

  /** Removing the last character of the left string adds at most one. */
  lemma {:induction false} DropLeft(p: string, y: char, c: string)
    ensures Dist(p, c) <= Dist(p + [y], c) + 1
    decreases |c|
  {
    SnocParts(p, y);
    if c != "" {
      DropLeft(p, y, Init(c));
      AppendRight(p, c);
    }
  }

  lemma {:induction false} SwapLast(p: string, x: char, y: char, c: string)
    ensures Dist(p + [x], c) <= Dist(p + [y], c) + 1
    decreases |c|
  {
    SnocParts(p, x);
    SnocParts(p, y);
    if c != "" {
      SwapLast(p, x, y, Init(c));
      AppendLeft(p, x, c);
      AppendRight(p + [x], c);
    }
  }

  /** Replacing the middle piece `v` (at most one character) by `u` (at most one
      character) adds at most one, whatever surrounds it. */
  lemma {:induction false} MiddleEdit(p: string, u: string, v: string, s: string, c: string)
    requires |u| <= 1 && |v| <= 1
    ensures Dist(p + u + s, c) <= Dist(p + v + s, c) + 1
    decreases |s| + |c|
  {
    if s == "" {
      assert p + u + s == p + u && p + v + s == p + v;
      if u == "" && v == "" {
      } else if u == "" {
        assert p + u == p && v == [v[0]];
        DropLeft(p, v[0], c);
      } else if v == "" {
        assert p + v == p && u == [u[0]];
        AppendLeft(p, u[0], c);
      } else {
        assert u == [u[0]] && v == [v[0]];
        SwapLast(p, u[0], v[0], c);
      }
    } else if c != "" {
      var l, r := p + u + s, p + v + s;
      assert Init(l) == p + u + Init(s) && Last(l) == Last(s);
      assert Init(r) == p + v + Init(s) && Last(r) == Last(s);
      MiddleEdit(p, u, v, Init(s), c);
      MiddleEdit(p, u, v, s, Init(c));
      MiddleEdit(p, u, v, Init(s), Init(c));
    }
  }

  lemma {:induction false} OneEdit(e: Edit, a: string, c: string)
    requires Applicable(e, a)
    ensures Dist(a, c) <= Dist(Apply(e, a), c) + 1
  {
    match e
    case Insert(p, x) =>
      assert a == a[..p] + "" + a[p..];
      MiddleEdit(a[..p], "", [x], a[p..], c);
    case Delete(p) =>
      assert a == a[..p] + [a[p]] + a[p + 1..];
      assert Apply(e, a) == a[..p] + "" + a[p + 1..];
      MiddleEdit(a[..p], [a[p]], "", a[p + 1..], c);
    case Substitute(p, x) =>
      assert a == a[..p] + [a[p]] + a[p + 1..];
      MiddleEdit(a[..p], [a[p]], [x], a[p + 1..], c);
  }

  lemma {:induction false} DistSelf(a: string)
    ensures Dist(a, a) == 0
    decreases |a|
  {
    if a != "" {
      DistSelf(Init(a));
    }
  }

  lemma {:induction false} NoShorterScript(script: seq<Edit>, a: string, b: string)
    requires Rewrites(script, a, b)
    ensures Dist(a, b) <= |script|
    decreases |script|
  {
    if script == [] {
      DistSelf(a);
    } else {
      NoShorterScript(script[1..], Apply(script[0], a), b);
      OneEdit(script[0], a, b);
    }
  }

  // ---------------------------------------------------------------------------
  // A script of exactly that length exists
  // ---------------------------------------------------------------------------

  lemma {:induction false} ApplyBefore(e: Edit, a: string, s: string)
    requires Applicable(e, a)
    ensures Applicable(e, a + s) && Apply(e, a + s) == Apply(e, a) + s
  {
    SlicesBefore(a, s, e.pos);
    if !e.Insert? {
      SlicesBefore(a, s, e.pos + 1);
    }
  }

  lemma {:induction false} SlicesBefore(a: string, s: string, p: nat)
    requires p <= |a|
    ensures (a + s)[..p] == a[..p] && (a + s)[p..] == a[p..] + s
  {
  }

  /** Scripts act the same in front of an untouched suffix. */
  lemma {:induction false} RewritesBefore(script: seq<Edit>, a: string, b: string, s: string)
    requires Rewrites(script, a, b)
    ensures Rewrites(script, a + s, b + s)
    decreases |script|
  {
    if script != [] {
      ApplyBefore(script[0], a, s);
      hide Apply, Applicable;
      RewritesBefore(script[1..], Apply(script[0], a), b, s);
    }
  }

  lemma {:induction false} RewritesConcat(s1: seq<Edit>, s2: seq<Edit>, a: string, b: string, c: string)
    requires Rewrites(s1, a, b) && Rewrites(s2, b, c)
    ensures Rewrites(s1 + s2, a, c)
    decreases |s1|
  {
    if s1 == [] {
      assert s1 + s2 == s2;
    } else {
      RewritesConcat(s1[1..], s2, Apply(s1[0], a), b, c);
      assert (s1 + s2)[1..] == s1[1..] + s2;
    }
  }

  lemma {:induction false} OneStep(e: Edit, a: string)
    requires Applicable(e, a)
    ensures Rewrites([e], a, Apply(e, a))
  {
    assert Rewrites([e][1..], Apply(e, a), Apply(e, a));
  }

  function Deletions(n: nat): (r: seq<Edit>)
    ensures |r| == n
  {
    if n == 0 then [] else [Delete(n - 1)] + Deletions(n - 1)
  }

  lemma {:induction false} DeletionsRewrite(a: string)
    ensures Rewrites(Deletions(|a|), a, "")
    decreases |a|
  {
    if a != "" {
      assert Apply(Delete(|a| - 1), a) == Init(a);
      assert Deletions(|a|)[1..] == Deletions(|a| - 1);
      DeletionsRewrite(Init(a));
    }
  }

  function Insertions(b: string): (r: seq<Edit>)
    ensures |r| == |b|
  {
    if b == "" then [] else Insertions(Init(b)) + [Insert(|b| - 1, Last(b))]
  }

  lemma {:induction false} AppendLast(b: string)
    requires b != ""
    ensures var e := Insert(|b| - 1, Last(b));
            Applicable(e, Init(b)) && Apply(e, Init(b)) == b && Rewrites([e], Init(b), b)
  {
    var e := Insert(|b| - 1, Last(b));
    assert Apply(e, Init(b)) == b;
    OneStep(e, Init(b));
  }

  lemma {:induction false} InsertionsRewrite(b: string)
    ensures Rewrites(Insertions(b), "", b)
    decreases |b|
  {
    if b != "" {
      InsertionsRewrite(Init(b));
      AppendLast(b);
      InsertionsSnoc(b);
    }
  }

  lemma {:induction false} InsertionsSnoc(b: string)
    requires b != "" && Rewrites(Insertions(Init(b)), "", Init(b))
    requires Rewrites([Insert(|b| - 1, Last(b))], Init(b), b)
    ensures Rewrites(Insertions(b), "", b)
  {
    hide Rewrites;
    RewritesConcat(Insertions(Init(b)), [Insert(|b| - 1, Last(b))], "", Init(b), b);
  }

  lemma {:induction false} ShortestScript(a: string, b: string) returns (script: seq<Edit>)
    ensures Rewrites(script, a, b) && |script| == Dist(a, b)
    decreases |a| + |b|
  {
    if a == "" {
      InsertionsRewrite(b);
      script := Insertions(b);
    } else if b == "" {
      DeletionsRewrite(a);
      script := Deletions(|a|);
    } else {
      var a', b' := Init(a), Init(b);
      assert a == a' + [Last(a)] && b == b' + [Last(b)];
      if Dist(a, b) == Dist(a', b) + 1 {
        var e := Delete(|a| - 1);
        var rest := ShortestScript(a', b);
        assert Apply(e, a) == a';
        hide Apply, Rewrites;
        script := [e] + rest;
        OneStep(e, a);
        RewritesConcat([e], rest, a, a', b);
      } else if Dist(a, b) == Dist(a, b') + 1 {
        var e := Insert(|b| - 1, Last(b));
        var rest := ShortestScript(a, b');
        assert Apply(e, b') == b;
        hide Apply, Rewrites;
        script := rest + [e];
        OneStep(e, b');
        RewritesConcat(rest, [e], a, b', b);
      } else {
        var rest := ShortestScript(a', b');
        RewritesBefore(rest, a', b', [Last(a)]);
        var mid := b' + [Last(a)];
        if Last(a) == Last(b) {
          script := rest;
        } else {
          var e := Substitute(|b| - 1, Last(b));
          assert Apply(e, mid) == b;
          script := rest + [e];
          OneStep(e, mid);
          RewritesConcat(rest, [e], a, mid, b);
        }
      }
    }
  }

  /** The main result: the distance is the length of a shortest edit script. */
  lemma {:induction false} DistIsShortestScript(a: string, b: string)
    ensures exists script :: Rewrites(script, a, b) && |script| == Dist(a, b)
    ensures forall script :: Rewrites(script, a, b) ==> Dist(a, b) <= |script|
  {
    var s := ShortestScript(a, b);
    forall script | Rewrites(script, a, b)
      ensures Dist(a, b) <= |script|
    {
      NoShorterScript(script, a, b);
    }
  }

  // ---------------------------------------------------------------------------
  // Metric laws
  // ---------------------------------------------------------------------------

  lemma {:induction false} ZeroIffEqual(a: string, b: string)
    ensures Dist(a, b) == 0 <==> a == b
  {
    if Dist(a, b) == 0 {
      var s := ShortestScript(a, b);
    } else if a == b {
      DistSelf(a);
    }
  }

  lemma {:induction false} Symmetric(a: string, b: string)
    ensures Dist(a, b) == Dist(b, a)
    decreases |a| + |b|
  {
    if a != "" && b != "" {
      Symmetric(Init(a), b);
      Symmetric(a, Init(b));
      Symmetric(Init(a), Init(b));
    }
  }

  lemma {:induction false} Triangle(a: string, b: string, c: string)
    ensures Dist(a, c) <= Dist(a, b) + Dist(b, c)
  {
    var s1 := ShortestScript(a, b);
    var s2 := ShortestScript(b, c);
    RewritesConcat(s1, s2, a, b, c);
    NoShorterScript(s1 + s2, a, c);
  }

  // ---------------------------------------------------------------------------
  // The two-row program
  // ---------------------------------------------------------------------------

  /** The first `k` cells of row `i` of the table. */
  ghost predicate Row(cells: seq<nat>, a: string, b: string, i: nat, k: nat)
    requires i <= |a| && k <= |cells| && k <= |b| + 1
  {
    forall j :: 0 <= j < k ==> cells[j] == Dist(a[..i], b[..j])
  }

  lemma {:induction false} DistUnfold(a: string, b: string)
    requires a != "" && b != ""
    ensures Dist(a, b) == Min(Min(Dist(Init(a), b) + 1, Dist(a, Init(b)) + 1),
                              Dist(Init(a), Init(b)) + (if Last(a) == Last(b) then 0 else 1))
  {
  }

  lemma {:induction false} Cell(a: string, b: string, i: nat, j: nat)
    requires 0 < i <= |a| && 0 < j <= |b|
    ensures Dist(a[..i], b[..j]) ==
            Min(Min(Dist(a[..i - 1], b[..j]) + 1, Dist(a[..i], b[..j - 1]) + 1),
                Dist(a[..i - 1], b[..j - 1]) + (if a[i - 1] == b[j - 1] then 0 else 1))
  {
    hide Dist, Min;
    DistUnfold(a[..i], b[..j]);
    assert Init(a[..i]) == a[..i - 1] && Init(b[..j]) == b[..j - 1];
    assert Last(a[..i]) == a[i - 1] && Last(b[..j]) == b[j - 1];
  }

  method Levenshtein(a: string, b: string) returns (d: nat)
    ensures d == Dist(a, b)
    ensures exists script :: Rewrites(script, a, b) && |script| == d
    ensures forall script :: Rewrites(script, a, b) ==> d <= |script|
  {
    DistIsShortestScript(a, b);
    if a == b {
      DistSelf(a);
      return 0;
    }
    var m, n := |a|, |b|;
    if a == "" {
      return n;
    }
    if b == "" {
      return m;
    }
    d := LastRow(a, b);
  }

  /** The inner loop: row `i` of the table from row `i - 1`. */
  method NextRow(a: string, b: string, i: nat, prev: array<nat>) returns (curr: array<nat>)
    requires 0 < i <= |a| && prev.Length == |b| + 1
    requires Row(prev[..], a, b, i - 1, |b| + 1)
    ensures fresh(curr) && curr.Length == |b| + 1
    ensures Row(curr[..], a, b, i, |b| + 1)
  {
    assert b[..0] == "" && Dist(a[..i], b[..0]) == i;
    hide Dist;
    var n := |b|;
    curr := new nat[n + 1](j => if j == 0 then i else 0);
    ghost var above := prev[..];
    for j := 1 to n + 1
      invariant prev[..] == above
      invariant Row(curr[..], a, b, i, j)
    {
      ghost var before := curr[..];
      curr[j] := Min(Min(prev[j] + 1, curr[j - 1] + 1),
                     prev[j - 1] + (if a[i - 1] == b[j - 1] then 0 else 1));
      NextCell(above, before, a, b, i, j);
      assert curr[..] == before[j := curr[j]];
    }
  }

  lemma {:induction false} NextCell(above: seq<nat>, row: seq<nat>, a: string, b: string, i: nat, j: nat)
    requires 0 < i <= |a| && 0 < j <= |b| && |above| == |row| == |b| + 1
    requires Row(above, a, b, i - 1, |b| + 1) && Row(row, a, b, i, j)
    ensures var value := Min(Min(above[j] + 1, row[j - 1] + 1),
                             above[j - 1] + (if a[i - 1] == b[j - 1] then 0 else 1));
            Row(row[j := value], a, b, i, j + 1)
  {
    hide Dist;
    Cell(a, b, i, j);
  }

  /** The outer loop. */
  method LastRow(a: string, b: string) returns (d: nat)
    ensures d == Dist(a, b)
  {
    var m, n := |a|, |b|;
    var prev := new nat[n + 1](j => j);
    for i := 1 to m + 1
      invariant prev.Length == n + 1
      invariant Row(prev[..], a, b, i - 1, n + 1)
    {
      prev := NextRow(a, b, i, prev);
    }
    assert a[..m] == a && b[..n] == b;
    assert prev[..][n] == Dist(a[..m], b[..n]);
    return prev[n];
  }

  // ---------------------------------------------------------------------------
  // TyposquatDetector.check_tools
  // ---------------------------------------------------------------------------

  datatype Severity = High | Medium

  datatype Finding = Finding(toolName: string, closestMatch: string, distance: nat, severity: Severity)

  /** Index of the first name at the least folded distance. */
  function Closest(name: string, active: seq<string>, fold: string -> string): (k: nat)
    requires active != []
    ensures k < |active|
    decreases |active|
  {
    var n := |active| - 1;
    if n == 0 then 0
    else
      var k := Closest(name, active[..n], fold);
      if Dist(fold(name), fold(active[n])) < Dist(fold(name), fold(active[k])) then n else k
  }

  /** No name is nearer, and none before it is as near. */
  lemma {:induction false} ClosestIsNearest(name: string, active: seq<string>, fold: string -> string)
    requires active != []
    ensures var k := Closest(name, active, fold);
            && (forall i :: 0 <= i < |active| ==>
                  Dist(fold(name), fold(active[k])) <= Dist(fold(name), fold(active[i])))
            && (forall i :: 0 <= i < k ==>
                  Dist(fold(name), fold(active[k])) < Dist(fold(name), fold(active[i])))
    decreases |active|
  {
    hide Dist;
    var n := |active| - 1;
    if n > 0 {
      ClosestIsNearest(name, active[..n], fold);
      assert forall i :: 0 <= i < n ==> active[..n][i] == active[i];
    }
  }

  predicate Within(name: string, allowed: string, maxDistance: int, fold: string -> string) {
    Dist(fold(name), fold(allowed)) <= maxDistance
  }

  /** What the detector says about one tool name. */
  function Report(name: string, active: seq<string>, maxDistance: int, fold: string -> string): Option<Finding>
    requires active != []
  {
    if name in active then None
    else
      var k := Closest(name, active, fold);
      var d := Dist(fold(name), fold(active[k]));
      if d <= maxDistance && active[k] != ""
      then Some(Finding(name, active[k], d, if d <= 1 then High else Medium))
      else None
  }

  function Reports(names: seq<string>, active: seq<string>, maxDistance: int, fold: string -> string): seq<Finding>
    requires active != []
  {
    if names == [] then []
    else
      var n := |names| - 1;
      Reports(names[..n], active, maxDistance, fold)
      + (match Report(names[n], active, maxDistance, fold) case Some(f) => [f] case None => [])
  }

  /** A reported match is a true minimum over the whole allowlist, and a tool name
      is reported exactly when it is not allowlisted, some name is near enough,
      and the first nearest name is not the empty one. */
  lemma {:induction false} ReportIsTrueMinimum(name: string, active: seq<string>, maxDistance: int,
                                               fold: string -> string)
    requires active != []
    ensures var r := Report(name, active, maxDistance, fold);
            r.Some? ==>
              && name !in active && r.value.toolName == name
              && r.value.closestMatch in active && r.value.closestMatch != ""
              && r.value.distance == Dist(fold(name), fold(r.value.closestMatch)) <= maxDistance
              && (forall n :: n in active ==> r.value.distance <= Dist(fold(name), fold(n)))
              && (r.value.severity == High <==> r.value.distance <= 1)
    ensures Report(name, active, maxDistance, fold).Some? <==>
              && name !in active
              && (exists n :: n in active && Within(name, n, maxDistance, fold))
              && active[Closest(name, active, fold)] != ""
  {
    var k := Closest(name, active, fold);
    ClosestIsNearest(name, active, fold);
    assert active[k] in active;
    if exists n :: n in active && Within(name, n, maxDistance, fold) {
      var n :| n in active && Within(name, n, maxDistance, fold);
      var i :| 0 <= i < |active| && active[i] == n;
      assert Dist(fold(name), fold(active[k])) <= Dist(fold(name), fold(active[i]));
      assert Within(name, active[k], maxDistance, fold);
    }
    if Report(name, active, maxDistance, fold).Some? {
      assert Within(name, active[k], maxDistance, fold);
      forall n | n in active
        ensures Dist(fold(name), fold(active[k])) <= Dist(fold(name), fold(n))
      {
        var i :| 0 <= i < |active| && active[i] == n;
      }
    }
  }

  /** The detector has something to say about this name. */
  predicate Reported(name: string, active: seq<string>, maxDistance: int, fold: string -> string)
    requires active != []
  {
    Report(name, active, maxDistance, fold).Some?
  }

  /** The positions of the tools that are reported. */
  ghost function ReportedUpTo(names: seq<string>, n: nat, active: seq<string>, maxDistance: int,
                              fold: string -> string): set<nat>
    requires active != [] && n <= |names|
  {
    set i: nat | i < n && Reported(names[i], active, maxDistance, fold)
  }

  lemma {:induction false} ReportedPrefix(names: seq<string>, n: nat, i: nat, active: seq<string>, maxDistance: int,
                                          fold: string -> string)
    requires active != [] && i <= n <= |names|
    ensures ReportedUpTo(names[..n], i, active, maxDistance, fold) == ReportedUpTo(names, i, active, maxDistance, fold)
  {
    hide Reported;
  }

  lemma {:induction false} ReportedNext(names: seq<string>, n: nat, active: seq<string>, maxDistance: int,
                                        fold: string -> string)
    requires active != [] && n < |names|
    ensures |ReportedUpTo(names, n + 1, active, maxDistance, fold)|
         == |ReportedUpTo(names, n, active, maxDistance, fold)|
            + (if Reported(names[n], active, maxDistance, fold) then 1 else 0)
  {
    hide Reported;
    var before := ReportedUpTo(names, n, active, maxDistance, fold);
    assert n !in before;
    assert ReportedUpTo(names, n + 1, active, maxDistance, fold)
        == before + (if Reported(names[n], active, maxDistance, fold) then {n} else {});
  }

  lemma {:induction false} ReportsSnoc(names: seq<string>, active: seq<string>, maxDistance: int,
                                       fold: string -> string) returns (more: seq<Finding>)
    requires active != [] && names != []
    ensures var n := |names| - 1;
            && Reports(names, active, maxDistance, fold) == Reports(names[..n], active, maxDistance, fold) + more
            && |more| == (if Reported(names[n], active, maxDistance, fold) then 1 else 0)
            && (more != [] ==> Report(names[n], active, maxDistance, fold) == Some(more[0]))
  {
    hide Closest, Dist;
    match Report(names[|names| - 1], active, maxDistance, fold)
    case Some(f) => more := [f];
    case None => more := [];
  }

  /** There is one finding for each reported tool, in the order of the tools: the finding on
      tool `i` comes after as many findings as there are reported tools before it. */
  lemma {:induction false} OneFindingEach(names: seq<string>, active: seq<string>, maxDistance: int,
                                          fold: string -> string)
    requires active != []
    ensures var findings := Reports(names, active, maxDistance, fold);
            && |findings| == |ReportedUpTo(names, |names|, active, maxDistance, fold)|
            && forall i: nat :: i < |names| && Reported(names[i], active, maxDistance, fold) ==>
                 FindingAt(findings, |ReportedUpTo(names, i, active, maxDistance, fold)|,
                           Report(names[i], active, maxDistance, fold))
  {
    hide Reports, Reported, ReportedUpTo, Report;
    if names == [] {
      NoFindings(active, maxDistance, fold);
    } else {
      var n: nat := |names| - 1;
      OneFindingEach(names[..n], active, maxDistance, fold);
      ReportedPrefix(names, n, n, active, maxDistance, fold);
      ReportedNext(names, n, active, maxDistance, fold);
      var more := ReportsSnoc(names, active, maxDistance, fold);
      forall i: nat | i < |names| && Reported(names[i], active, maxDistance, fold)
        ensures FindingAt(Reports(names, active, maxDistance, fold),
                          |ReportedUpTo(names, i, active, maxDistance, fold)|,
                          Report(names[i], active, maxDistance, fold))
      {
        if i < n {
          assert names[..n][i] == names[i];
          ReportedPrefix(names, n, i, active, maxDistance, fold);
        }
      }
    }
  }

  predicate FindingAt(findings: seq<Finding>, k: nat, report: Option<Finding>) {
    k < |findings| && report == Some(findings[k])
  }

  lemma {:induction false} NoFindings(active: seq<string>, maxDistance: int, fold: string -> string)
    requires active != []
    ensures Reports([], active, maxDistance, fold) == []
    ensures ReportedUpTo([], 0, active, maxDistance, fold) == {}
  {
  }

  /** With no empty name in the allowlist nothing near enough is ever missed. */
  lemma {:induction false} NothingMissedWithoutEmptyName(name: string, active: seq<string>, maxDistance: int,
                                                         fold: string -> string)
    requires active != [] && "" !in active
    ensures Report(name, active, maxDistance, fold).Some? <==>
              name !in active && exists n :: n in active && Within(name, n, maxDistance, fold)
  {
    ReportIsTrueMinimum(name, active, maxDistance, fold);
    assert active[Closest(name, active, fold)] in active;
  }

  /** An empty allowlist entry can hide a near name: "x" is two edits from "ab"
      but one from "", so with "" listed "x" goes unreported. */
  lemma {:induction false} EmptyNameHidesMatch()
    ensures var active := ["", "ab"];
            && Within("x", "ab", 2, s => s)
            && Report("x", active, 2, s => s) == None
  {
    var f: string -> string := s => s;
    var active := ["", "ab"];
    assert Init("ab") == "a" && Init("a") == "" && Init("x") == "";
    assert Dist("x", "a") == 1;
    assert Dist("x", "ab") == 2 && Dist("x", "") == 1;
    assert Closest("x", active, f) == 0;
  }

  // ---------------------------------------------------------------------------
  // Which allowlists hide a near name
  // ---------------------------------------------------------------------------

  /** A tool name that should be reported and is not. */
  ghost predicate Missed(name: string, active: seq<string>, maxDistance: int, fold: string -> string)
    requires active != []
  {
    && name !in active && (exists n :: n in active && Within(name, n, maxDistance, fold))
    && Report(name, active, maxDistance, fold) == None
  }

  /** There is an empty entry, and no one-character entry comes before the first one. */
  predicate EmptyFirst(active: seq<string>) {
    "" in active && forall i :: 0 <= i < |active| && |active[i]| == 1 ==> "" in active[..i]
  }

  lemma {:induction false} DistToEmpty(s: string)
    ensures Dist(s, "") == |s|
  {
  }

  lemma {:induction false} OneCharacterIsNear(s: string, x: string)
    requires s != "" && |x| == 1
    ensures Dist(s, x) <= |s|
    decreases |s|
  {
    if |s| > 1 {
      OneCharacterIsNear(Init(s), x);
    }
  }

  lemma {:induction false} StrangerIsFar(c: string, n: string)
    requires |c| == 1 && n != "" && c[0] !in n
    ensures Dist(c, n) == |n|
    decreases |n|
  {
    assert Init(c) == "" && Last(n) in n && Last(c) == c[0];
    if |n| > 1 {
      assert forall x :: x in Init(n) ==> x in n;
      StrangerIsFar(c, Init(n));
    }
  }

  lemma {:induction false} MissedNeedsEmptyFirst(name: string, active: seq<string>, maxDistance: int,
                                                 fold: string -> string)
    requires active != [] && forall s :: |fold(s)| == |s|
    requires Missed(name, active, maxDistance, fold)
    ensures maxDistance >= 1 && EmptyFirst(active)
  {
    hide Dist, Closest, Report;
    DistToEmpty(fold(name));
    ReportIsTrueMinimum(name, active, maxDistance, fold);
    ClosestIsNearest(name, active, fold);
    var k := Closest(name, active, fold);
    assert active[k] == "" && fold(active[k]) == "";
    assert active[k] in active && name != "";
    var n :| n in active && Within(name, n, maxDistance, fold);
    var j :| 0 <= j < |active| && active[j] == n;
    assert Dist(fold(name), "") == |name| <= Dist(fold(name), fold(active[j]));
    forall i | 0 <= i < |active| && |active[i]| == 1
      ensures "" in active[..i]
    {
      OneCharacterIsNear(fold(name), fold(active[i]));
      assert k < i;
      assert active[..i][k] == "";
    }
  }

  lemma {:induction false} EmptyFirstHides(c: string, active: seq<string>, maxDistance: int, fold: string -> string)
    requires active != [] && forall s :: |fold(s)| == |s|
    requires |c| == 1 && forall n :: n in active ==> fold(c)[0] !in fold(n)
    requires maxDistance >= 1 && EmptyFirst(active)
    ensures Missed(c, active, maxDistance, fold)
  {
    assert c !in active;
    assert fold("") == "" && Dist(fold(c), "") == 1;
    assert Within(c, "", maxDistance, fold);
    var e :| 0 <= e < |active| && active[e] == "";
    var k := Closest(c, active, fold);
    forall i | 0 <= i < |active| && active[i] != ""
      ensures Dist(fold(c), fold(active[i])) == |active[i]|
    {
      assert active[i] in active;
      StrangerIsFar(fold(c), fold(active[i]));
    }
    ClosestIsNearest(c, active, fold);
    EmptyBeforeOne(active, k);
    assert active[k] == "";
  }

  lemma {:induction false} EmptyBeforeOne(active: seq<string>, k: nat)
    requires EmptyFirst(active) && k < |active|
    ensures |active[k]| == 1 ==> exists j :: 0 <= j < k && active[j] == ""
  {
    if |active[k]| == 1 {
      var j :| 0 <= j < k && active[..k][j] == "";
      assert active[j] == "";
    }
  }

  /** An allowlist hides some near tool name exactly when the distance limit is positive
      and it has an empty entry with no one-character entry before it. Folding maps each
      character to one, and some character looks like none of the allowlist. */
  lemma {:induction false} HidesIffEmptyFirst(active: seq<string>, maxDistance: int, fold: string -> string, c: string)
    requires active != [] && forall s :: |fold(s)| == |s|
    requires |c| == 1 && forall n :: n in active ==> fold(c)[0] !in fold(n)
    ensures (exists name :: Missed(name, active, maxDistance, fold)) <==> maxDistance >= 1 && EmptyFirst(active)
  {
    if maxDistance >= 1 && EmptyFirst(active) {
      EmptyFirstHides(c, active, maxDistance, fold);
    }
    if name :| Missed(name, active, maxDistance, fold) {
      MissedNeedsEmptyFirst(name, active, maxDistance, fold);
    }
  }

  lemma {:induction false} ClosestSnoc(name: string, active: seq<string>, i: nat, fold: string -> string)
    requires i < |active|
    ensures Closest(name, active[..i + 1], fold) ==
              if i == 0 then 0
              else
                var k := Closest(name, active[..i], fold);
                if Dist(fold(name), fold(active[i])) < Dist(fold(name), fold(active[k])) then i else k
  {
    assert active[..i + 1][..i] == active[..i];
  }

  /** The inner loop: the nearest allowlist name within `maxDistance`, the first on ties. */
  method ClosestMatch(name: string, active: seq<string>, maxDistance: int, fold: string -> string)
    returns (bestDist: int, bestMatch: string)
    requires active != []
    ensures var k := Closest(name, active, fold);
            if Within(name, active[k], maxDistance, fold)
            then bestMatch == active[k] && bestDist == Dist(fold(name), fold(active[k]))
            else bestMatch == "" && bestDist == maxDistance + 1
  {
    hide Dist, Closest;
    var foldedName := fold(name);
    bestDist := maxDistance + 1;
    bestMatch := "";
    for i := 0 to |active|
      invariant i == 0 ==> bestMatch == "" && bestDist == maxDistance + 1
      invariant i > 0 ==>
                  var k := Closest(name, active[..i], fold);
                  if Within(name, active[k], maxDistance, fold)
                  then bestMatch == active[k] && bestDist == Dist(foldedName, fold(active[k]))
                  else bestMatch == "" && bestDist == maxDistance + 1
    {
      ClosestSnoc(name, active, i, fold);
      var d := Levenshtein(foldedName, fold(active[i]));
      if d <= maxDistance && d < bestDist {
        bestDist := d;
        bestMatch := active[i];
      }
    }
    assert active[..|active|] == active;
  }

  method CheckTools(tools: seq<Option<string>>, allowlist: seq<string>, maxDistance: int,
                    useReference: bool, reference: seq<string>, fold: string -> string)
    returns (findings: seq<Finding>)
    ensures var active := if allowlist != [] then allowlist else if useReference then reference else [];
            findings == if active == [] then [] else Reports(ToolNames(tools), active, maxDistance, fold)
  {
    hide Dist, Closest;
    var active := allowlist;
    findings := [];
    if active == [] {
      if useReference {
        active := reference;
      }
      if active == [] {
        return;
      }
    }
    findings := CheckAgainst(tools, active, maxDistance, fold);
  }

  function ToolNames(tools: seq<Option<string>>): seq<string> {
    seq(|tools|, i requires 0 <= i < |tools| => tools[i].GetOr(""))
  }

  /** The loop over the tools, with a non-empty allowlist. */
  method CheckAgainst(tools: seq<Option<string>>, active: seq<string>, maxDistance: int, fold: string -> string)
    returns (findings: seq<Finding>)
    requires active != []
    ensures findings == Reports(ToolNames(tools), active, maxDistance, fold)
  {
    hide Dist, Closest;
    findings := [];
    ghost var names := ToolNames(tools);
    for t := 0 to |tools|
      invariant findings == Reports(names[..t], active, maxDistance, fold)
    {
      var toolName := tools[t].GetOr("");
      assert names[..t + 1][..t] == names[..t] && names[..t + 1][t] == toolName;
      if toolName !in active {
        var bestDist, bestMatch := ClosestMatch(toolName, active, maxDistance, fold);
        if bestMatch != "" {
          findings := findings + [Finding(toolName, bestMatch, bestDist, if bestDist <= 1 then High else Medium)];
        }
      }
    }
    assert names[..|tools|] == names;
  }
}

/** Parent chains and the recursion guard (cosai_mcp/middleware/resources.py:55-99). */
module LoopDetection {
  import opened Wrappers

  type Parents = map<string, Option<string>>

  /** `self._parents.get(id)`: a missing id and a root both have no parent. */
  function ParentOf(parents: Parents, id: string): Option<string> {
    if id in parents then parents[id] else None
  }

  /** The k-th ancestor of `id`; `id` itself is the 0-th. */
  function Ancestor(parents: Parents, id: string, k: nat): Option<string> {
    if k == 0 then Some(id)
    else
      match Ancestor(parents, id, k - 1)
      case None => None
      case Some(a) => ParentOf(parents, a)
  }

  /** The chain of `id` is finite and has exactly `n` members. */
  ghost predicate Ends(parents: Parents, id: string, n: nat) {
    n > 0 && Ancestor(parents, id, n - 1).Some? && Ancestor(parents, id, n).None?
  }

  ghost predicate Distinct(parents: Parents, id: string, m: nat) {
    forall i: nat, k: nat :: i < k < m ==> Ancestor(parents, id, i) != Ancestor(parents, id, k)
  }

  /** The chain of `id` runs into itself: `m` different members, then the j-th again. */
  ghost predicate Repeats(parents: Parents, id: string, m: nat, j: nat) {
    && j < m && Distinct(parents, id, m)
    && Ancestor(parents, id, m).Some? && Ancestor(parents, id, m) == Ancestor(parents, id, j)
  }

  // ---------------------------------------------------------------------------
  // A chain either ends or repeats, and in one way only
  // ---------------------------------------------------------------------------

  lemma {:induction false} NoneAfterNone(parents: Parents, id: string, k: nat, l: nat)
    requires k <= l && Ancestor(parents, id, k).None?
    ensures Ancestor(parents, id, l).None?
    decreases l
  {
    if k < l {
      NoneAfterNone(parents, id, k, l - 1);
    }
  }

  lemma {:induction false} EndsOnce(parents: Parents, id: string, n: nat, n': nat)
    requires Ends(parents, id, n) && Ends(parents, id, n')
    ensures n == n'
  {
    if n < n' {
      NoneAfterNone(parents, id, n, n' - 1);
    } else if n' < n {
      NoneAfterNone(parents, id, n', n - 1);
    }
  }

  /** Once around the cycle changes nothing. */
  lemma {:induction false} Periodic(parents: Parents, id: string, m: nat, j: nat, k: nat)
    requires Repeats(parents, id, m, j) && j <= k
    ensures Ancestor(parents, id, k + (m - j)) == Ancestor(parents, id, k)
    decreases k
  {
    if j < k {
      Periodic(parents, id, m, j, k - 1);
    }
  }

  lemma {:induction false} CycleNeverEnds(parents: Parents, id: string, m: nat, j: nat, k: nat)
    requires Repeats(parents, id, m, j)
    ensures Ancestor(parents, id, k).Some?
    decreases k
  {
    if k >= m {
      Periodic(parents, id, m, j, k - (m - j));
      CycleNeverEnds(parents, id, m, j, k - (m - j));
    } else if Ancestor(parents, id, k).None? {
      NoneAfterNone(parents, id, k, m);
    }
  }

  lemma {:induction false} RepeatsOnce(parents: Parents, id: string, m: nat, j: nat, m': nat, j': nat)
    requires Repeats(parents, id, m, j) && Repeats(parents, id, m', j')
    ensures m == m' && j == j'
  {
  }

  /** What the walk returns: the length of a chain that ends; on a cycle, the number of
      different members, with a self-parent counted twice. */
  ghost predicate IsDepth(parents: Parents, id: string, depth: nat) {
    || Ends(parents, id, depth)
    || (exists m: nat, j: nat :: Repeats(parents, id, m, j) && depth == m + (if j == m - 1 then 1 else 0))
  }

  /** The depth is determined by the parent map. */
  lemma {:induction false} DepthIsUnique(parents: Parents, id: string, d: nat, d': nat)
    requires IsDepth(parents, id, d) && IsDepth(parents, id, d')
    ensures d == d'
  {
    if Ends(parents, id, d) && Ends(parents, id, d') {
      EndsOnce(parents, id, d, d');
    } else if Ends(parents, id, d) {
      var m: nat, j: nat :| Repeats(parents, id, m, j) && d' == m + (if j == m - 1 then 1 else 0);
      CycleNeverEnds(parents, id, m, j, d);
    } else if Ends(parents, id, d') {
      var m: nat, j: nat :| Repeats(parents, id, m, j) && d == m + (if j == m - 1 then 1 else 0);
      CycleNeverEnds(parents, id, m, j, d');
    } else {
      var m: nat, j: nat :| Repeats(parents, id, m, j) && d == m + (if j == m - 1 then 1 else 0);
      var m': nat, j': nat :| Repeats(parents, id, m', j') && d' == m' + (if j' == m' - 1 then 1 else 0);
      RepeatsOnce(parents, id, m, j, m', j');
    }
  }

  function FirstAncestors(parents: Parents, id: string, k: nat): set<string>
    requires forall i: nat :: i < k ==> Ancestor(parents, id, i).Some?
  {
    set i: nat | i < k :: Ancestor(parents, id, i).value
  }

  lemma {:induction false} DistinctCount(parents: Parents, id: string, k: nat)
    requires Distinct(parents, id, k)
    requires forall i: nat :: i < k ==> Ancestor(parents, id, i).Some?
    ensures |FirstAncestors(parents, id, k)| == k
  {
    hide Ancestor, FirstAncestors;
    if k == 0 {
      NoAncestorsYet(parents, id);
    } else {
      DistinctCount(parents, id, k - 1);
      NewAncestor(parents, id, k - 1);
      OneMoreAncestor(parents, id, k - 1);
    }
  }

  lemma {:induction false} NoAncestorsYet(parents: Parents, id: string)
    ensures FirstAncestors(parents, id, 0) == {}
  {
  }

  lemma {:induction false} NewAncestor(parents: Parents, id: string, k: nat)
    requires Distinct(parents, id, k + 1)
    requires forall i: nat :: i < k + 1 ==> Ancestor(parents, id, i).Some?
    ensures Ancestor(parents, id, k).value !in FirstAncestors(parents, id, k)
  {
    hide Ancestor;
  }

  lemma {:induction false} OneMoreAncestor(parents: Parents, id: string, k: nat)
    requires forall i: nat :: i < k + 1 ==> Ancestor(parents, id, i).Some?
    ensures FirstAncestors(parents, id, k + 1) == FirstAncestors(parents, id, k) + {Ancestor(parents, id, k).value}
  {
    hide Ancestor;
    var older := FirstAncestors(parents, id, k) + {Ancestor(parents, id, k).value};
    forall x | x in FirstAncestors(parents, id, k + 1)
      ensures x in older
    {
      var i: nat :| i < k + 1 && Ancestor(parents, id, i).value == x;
    }
  }

  lemma {:induction false} SubsetSize<T>(a: set<T>, b: set<T>)
    requires a <= b
    ensures |a| <= |b|
  {
    assert b == a + (b - a);
  }

  lemma {:induction false} NextAncestor(parents: Parents, id: string, k: nat, current: string)
    requires Ancestor(parents, id, k) == Some(current)
    ensures Ancestor(parents, id, k + 1) == ParentOf(parents, current)
  {
  }

  lemma {:induction false} StillDistinct(parents: Parents, id: string, k: nat, current: string)
    requires forall i: nat :: i < k ==> Ancestor(parents, id, i).Some?
    requires Distinct(parents, id, k) && Ancestor(parents, id, k) == Some(current)
    requires current !in FirstAncestors(parents, id, k)
    ensures Distinct(parents, id, k + 1)
  {
    hide Ancestor;
    forall i: nat | i < k
      ensures Ancestor(parents, id, i) != Some(current)
    {
      assert Ancestor(parents, id, i).value in FirstAncestors(parents, id, k);
    }
  }

  class LoopDetector {
    const maxDepth: int
    var parents: Parents

    constructor (maxDepth: int)
      ensures this.maxDepth == maxDepth && parents == map[]
    {
      this.maxDepth := maxDepth;
      parents := map[];
    }

    /** `Err(depth)`: the recursive-loop error. The edge stays recorded either way. */
    method RecordCall(entryId: string, parentId: Option<string>) returns (r: Result<nat, nat>)
      modifies this
      ensures parents == old(parents)[entryId := parentId]
      ensures var depth := if r.Ok? then r.value else r.error;
              IsDepth(parents, entryId, depth) && depth <= |parents| + 1 && (r.Err? <==> depth > maxDepth)
    {
      parents := parents[entryId := parentId];
      var depth := ComputeDepth(entryId);
      if depth > maxDepth {
        return Err(depth);
      }
      return Ok(depth);
    }

    /** Terminates on every parent map, cyclic or not. */
    method ComputeDepth(entryId: string) returns (depth: nat)
      ensures IsDepth(parents, entryId, depth)
      ensures 1 <= depth <= |parents| + 1
    {
      hide Ancestor, Distinct, FirstAncestors, IsDepth;
      depth := 1;
      var current := entryId;
      var seen: set<string> := {};
      WalkStart(parents, entryId);
      while true
        invariant depth >= 1 && Ancestor(parents, entryId, depth - 1) == Some(current)
        invariant forall i: nat :: i < depth - 1 ==> Ancestor(parents, entryId, i).Some?
        invariant seen == FirstAncestors(parents, entryId, depth - 1)
        invariant seen <= parents.Keys && Distinct(parents, entryId, depth - 1)
        invariant current in seen ==> depth >= 2 && Ancestor(parents, entryId, depth - 2) == Some(current)
        decreases parents.Keys - seen
      {
        DistinctCount(parents, entryId, depth - 1);
        SubsetSize(seen, parents.Keys);
        NextAncestor(parents, entryId, depth - 1, current);
        var parent := ParentOf(parents, current);
        if parent.None? {
          EndFound(parents, entryId, depth);
          break;
        }
        if parent.value in seen {
          CycleFound(parents, entryId, depth, current);
          break;
        }
        NotYetSeen(parents, entryId, depth, current);
        StillDistinct(parents, entryId, depth - 1, current);
        OneMoreAncestor(parents, entryId, depth - 1);
        seen := seen + {current};
        current := parent.value;
        depth := depth + 1;
      }
    }
  }

  lemma {:induction false} WalkStart(parents: Parents, id: string)
    ensures Ancestor(parents, id, 0) == Some(id) && FirstAncestors(parents, id, 0) == {} && Distinct(parents, id, 0)
  {
  }

  lemma {:induction false} EndFound(parents: Parents, id: string, depth: nat)
    requires depth >= 1 && Ancestor(parents, id, depth - 1).Some? && Ancestor(parents, id, depth).None?
    ensures IsDepth(parents, id, depth)
  {
    assert Ends(parents, id, depth);
  }

  /** If the current member was seen, so was its parent: it is its own parent. */
  lemma {:induction false} NotYetSeen(parents: Parents, id: string, depth: nat, current: string)
    requires depth >= 1 && Ancestor(parents, id, depth - 1) == Some(current)
    requires forall i: nat :: i < depth - 1 ==> Ancestor(parents, id, i).Some?
    requires var seen := FirstAncestors(parents, id, depth - 1);
             && ParentOf(parents, current).Some? && ParentOf(parents, current).value !in seen
             && (current in seen ==> depth >= 2 && Ancestor(parents, id, depth - 2) == Some(current))
    ensures current !in FirstAncestors(parents, id, depth - 1)
  {
    hide Ancestor;
    if depth >= 2 && Ancestor(parents, id, depth - 2) == Some(current) {
      NextAncestor(parents, id, depth - 2, current);
    }
  }

  lemma {:induction false} CycleFound(parents: Parents, id: string, depth: nat, current: string)
    requires depth >= 1 && Ancestor(parents, id, depth - 1) == Some(current)
    requires forall i: nat :: i < depth - 1 ==> Ancestor(parents, id, i).Some?
    requires Distinct(parents, id, depth - 1)
    requires var seen := FirstAncestors(parents, id, depth - 1);
             && ParentOf(parents, current).Some? && ParentOf(parents, current).value in seen
             && (current in seen ==> depth >= 2 && Ancestor(parents, id, depth - 2) == Some(current))
    ensures IsDepth(parents, id, depth)
  {
    var seen := FirstAncestors(parents, id, depth - 1);
    var p := ParentOf(parents, current).value;
    var j: nat :| j < depth - 1 && Ancestor(parents, id, j).value == p;
    assert Ancestor(parents, id, depth) == Some(p);
    if current in seen {
      // a self-parent: the repeated member is the last different one
      assert Repeats(parents, id, depth - 1, depth - 2);
    } else {
      forall i: nat | i < depth - 1
        ensures Ancestor(parents, id, i) != Some(current)
      {
        assert Ancestor(parents, id, i).value in seen;
      }
      assert Repeats(parents, id, depth, j);
    }
  }

  /** A chain that ends is refused exactly when it is longer than the limit. */
  lemma {:induction false} AcyclicDepthIsLength(parents: Parents, id: string, n: nat, depth: nat)
    requires Ends(parents, id, n) && IsDepth(parents, id, depth)
    ensures depth == n
  {
    DepthIsUnique(parents, id, n, depth);
  }
}

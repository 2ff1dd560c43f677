/** What it means that `reconcile_meta` accepts
    (cosai_mcp/middleware/request_meta.py:321-500), and the walk that decides it. */
module MetaReconcile {
  import opened Wrappers
  import opened Json
  import opened MetaSpec

  // ---------------------------------------------------------------------------
  // Positions in the tree
  // ---------------------------------------------------------------------------

  /** `v` sits at the end of path `q` below `root`. */
  ghost predicate Occurs(root: Json, q: Path, v: Json)
    decreases |q|
  {
    if q == [] then root == v
    else
      match q[0]
      case Key(k) => root.Obj? && exists m :: m in root.members && m.0 == k && Occurs(m.1, q[1..], v)
      case Index(i) => root.Arr? && i < |root.items| && Occurs(root.items[i], q[1..], v)
  }

  /** What is demanded of the value at path `q` below a value at depth `depth`: the key
      that leads to it passes, and its own members are within reach of the walk. */
  ghost predicate NodeOk(q: Path, v: Json, depth: nat, limit: nat, p: Principal, lex: Lexicon) {
    && (q != [] && q[|q| - 1].Key? ==> KeyOk(q[|q| - 1].key, v, false, false, p, lex))
    && (NonEmpty(v) ==> depth + |q| + 1 < limit && (v.Arr? ==> |v.items| <= 256))
  }

  ghost predicate SubtreeOk(value: Json, depth: nat, limit: nat, p: Principal, lex: Lexicon) {
    forall q, v :: Occurs(value, q, v) ==> NodeOk(q, v, depth, limit, p, lex)
  }

  ghost predicate TopOk(key: string, value: Json, allow: Option<set<string>>, p: Principal, lex: Lexicon) {
    if key == PROTOCOL_KEY then IsText(value) && TextLength(value) <= 64
    else
      && !TwoSlashes(key)
      && if key in TRACE_KEYS then TraceOk(key, value, lex)
         else if key in SELF_REPORTED then SubtreeOk(value, 0, MAX_SELF_REPORTED_DEPTH, p, lex)
         else
           && (allow.Some? ==> key in allow.value)
           && KeyOk(key, value, true, allow.Some?, p, lex)
           && SubtreeOk(value, 0, MAX_META_DEPTH, p, lex)
  }

  // ---------------------------------------------------------------------------
  // Sound: an empty list of offences vouches for every position
  // ---------------------------------------------------------------------------

  lemma {:induction false} MemberVisited(members: seq<(string, Json)>, path: Path, depth: nat, limit: nat,
                                          p: Principal, lex: Lexicon, m: (string, Json))
    requires BadMembers(members, path, depth, limit, p, lex) == [] && m in members
    ensures BadVisit(m.0, m.1, path + [Key(m.0)], depth + 1, limit, false, p, lex) == []
  {
    var n := |members| - 1;
    if m != members[n] {
      assert m in members[..n];
      MemberVisited(members[..n], path, depth, limit, p, lex, m);
    }
  }

  lemma {:induction false} ItemVisited(items: seq<Json>, from: nat, path: Path, depth: nat, limit: nat,
                                        p: Principal, lex: Lexicon, i: nat)
    requires BadItems(items, from, path, depth, limit, p, lex) == [] && i < |items| && from + i < MAX_ITEMS
    ensures BadDescend(items[i], path + [Index(from + i)], depth + 1, limit, p, lex) == []
    decreases i
  {
    if i > 0 {
      ItemVisited(items[1..], from + 1, path, depth, limit, p, lex, i - 1);
    }
  }

  lemma {:induction false} DescendSound(value: Json, path: Path, depth: nat, limit: nat, p: Principal, lex: Lexicon,
                                         q: Path, v: Json)
    requires BadDescend(value, path, depth, limit, p, lex) == [] && Occurs(value, q, v)
    ensures NodeOk(q, v, depth, limit, p, lex)
    decreases |q|
  {
    if q != [] {
      match q[0]
      case Key(k) =>
        var m :| m in value.members && m.0 == k && Occurs(m.1, q[1..], v);
        MemberVisited(value.members, path, depth, limit, p, lex, m);
        DescendSound(m.1, path + [Key(k)], depth + 1, limit, p, lex, q[1..], v);
      case Index(i) =>
        ItemVisited(value.items, 0, path, depth, limit, p, lex, i);
        DescendSound(value.items[i], path + [Index(i)], depth + 1, limit, p, lex, q[1..], v);
    }
  }

  // ---------------------------------------------------------------------------
  // Complete: nothing else is an offence
  // ---------------------------------------------------------------------------

  lemma ChildOk(value: Json, s: Step, child: Json, depth: nat, limit: nat, p: Principal, lex: Lexicon)
    requires SubtreeOk(value, depth, limit, p, lex)
    requires forall q, v :: Occurs(child, q, v) ==> Occurs(value, [s] + q, v)
    ensures SubtreeOk(child, depth + 1, limit, p, lex)
    ensures s.Key? ==> KeyOk(s.key, child, false, false, p, lex)
  {
    forall q: Path, v: Json | Occurs(child, q, v)
      ensures NodeOk(q, v, depth + 1, limit, p, lex)
    {
      assert NodeOk([s] + q, v, depth, limit, p, lex);
      if q != [] {
        assert ([s] + q)[|q|] == q[|q| - 1];
      }
    }
    assert Occurs(child, [], child);
    assert NodeOk([s] + [], child, depth, limit, p, lex);
  }

  lemma MemberOccurs(members: seq<(string, Json)>, m: (string, Json), q: Path, v: Json)
    requires m in members && Occurs(m.1, q, v)
    ensures Occurs(Obj(members), [Key(m.0)] + q, v)
  {
    assert ([Key(m.0)] + q)[1..] == q;
  }

  lemma ItemOccurs(items: seq<Json>, i: nat, q: Path, v: Json)
    requires i < |items| && Occurs(items[i], q, v)
    ensures Occurs(Arr(items), [Index(i)] + q, v)
  {
    assert ([Index(i)] + q)[1..] == q;
  }

  lemma {:induction false} MembersComplete(members: seq<(string, Json)>, path: Path, depth: nat, limit: nat,
                                            p: Principal, lex: Lexicon)
    requires forall m :: m in members ==>
               KeyOk(m.0, m.1, false, false, p, lex) && SubtreeOk(m.1, depth + 1, limit, p, lex)
    ensures BadMembers(members, path, depth, limit, p, lex) == []
    decreases members, 2
  {
    if members != [] {
      var n := |members| - 1;
      var m := members[n];
      assert m.1 < m && m in members;
      MembersComplete(members[..n], path, depth, limit, p, lex);
      DescendComplete(m.1, path + [Key(m.0)], depth + 1, limit, p, lex);
    }
  }

  lemma {:induction false} ItemsComplete(items: seq<Json>, from: nat, path: Path, depth: nat, limit: nat,
                                          p: Principal, lex: Lexicon)
    requires forall i :: 0 <= i < |items| ==> SubtreeOk(items[i], depth + 1, limit, p, lex)
    ensures BadItems(items, from, path, depth, limit, p, lex) == []
    decreases items, 2
  {
    if items != [] && from < MAX_ITEMS {
      DescendComplete(items[0], path + [Index(from)], depth + 1, limit, p, lex);
      assert forall i :: 0 <= i < |items| - 1 ==> items[1..][i] == items[i + 1];
      ItemsComplete(items[1..], from + 1, path, depth, limit, p, lex);
    }
  }

  lemma {:induction false} DescendComplete(value: Json, path: Path, depth: nat, limit: nat, p: Principal, lex: Lexicon)
    requires SubtreeOk(value, depth, limit, p, lex)
    ensures BadDescend(value, path, depth, limit, p, lex) == []
    decreases value, 0
  {
    assert Occurs(value, [], value);
    assert NodeOk([], value, depth, limit, p, lex);
    match value
    case Obj(members) =>
      forall m | m in members
        ensures KeyOk(m.0, m.1, false, false, p, lex) && SubtreeOk(m.1, depth + 1, limit, p, lex)
      {
        forall q: Path, v: Json | Occurs(m.1, q, v)
          ensures Occurs(value, [Key(m.0)] + q, v)
        {
          MemberOccurs(members, m, q, v);
        }
        ChildOk(value, Key(m.0), m.1, depth, limit, p, lex);
      }
      MembersComplete(members, path, depth, limit, p, lex);
    case Arr(items) =>
      forall i | 0 <= i < |items|
        ensures SubtreeOk(items[i], depth + 1, limit, p, lex)
      {
        forall q: Path, v: Json | Occurs(items[i], q, v)
          ensures Occurs(value, [Index(i)] + q, v)
        {
          ItemOccurs(items, i, q, v);
        }
        ChildOk(value, Index(i), items[i], depth, limit, p, lex);
      }
      ItemsComplete(items, 0, path, depth, limit, p, lex);
    case _ =>
  }

  // ---------------------------------------------------------------------------
  // The main results
  // ---------------------------------------------------------------------------

  lemma TopIff(key: string, value: Json, allow: Option<set<string>>, p: Principal, lex: Lexicon)
    ensures BadTop(key, value, allow, p, lex) == [] <==> TopOk(key, value, allow, p, lex)
  {
    var path := [Key(key)];
    forall limit: nat
      ensures BadDescend(value, path, 0, limit, p, lex) == [] <==> SubtreeOk(value, 0, limit, p, lex)
    {
      if BadDescend(value, path, 0, limit, p, lex) == [] {
        forall q: Path, v: Json | Occurs(value, q, v)
          ensures NodeOk(q, v, 0, limit, p, lex)
        {
          DescendSound(value, path, 0, limit, p, lex, q, v);
        }
      }
      if SubtreeOk(value, 0, limit, p, lex) {
        DescendComplete(value, path, 0, limit, p, lex);
      }
    }
  }

  lemma {:induction false} TopsIff(members: seq<(string, Json)>, allow: Option<set<string>>, p: Principal, lex: Lexicon)
    ensures BadTops(members, allow, p, lex) == [] <==>
              forall m :: m in members ==> TopOk(m.0, m.1, allow, p, lex)
  {
    hide TopOk, BadTop, BadTops;
    LastTop(members, allow, p, lex);
    if members != [] {
      var n := |members| - 1;
      TopsIff(members[..n], allow, p, lex);
      TopIff(members[n].0, members[n].1, allow, p, lex);
      InitAndLast(members);
    }
  }

  lemma {:induction false} LastTop(members: seq<(string, Json)>, allow: Option<set<string>>, p: Principal, lex: Lexicon)
    ensures BadTops(members, allow, p, lex) == [] <==>
              members == []
              || (BadTops(members[..|members| - 1], allow, p, lex) == []
                  && BadTop(members[|members| - 1].0, members[|members| - 1].1, allow, p, lex) == [])
  {
    hide BadTop;
  }

  lemma {:induction false} InitAndLast(members: seq<(string, Json)>)
    requires members != []
    ensures forall m :: m in members <==> m in members[..|members| - 1] || m == members[|members| - 1]
  {
  }

  /** `reconcile_meta` accepts exactly when every top-level key passes, and at every
      depth below it every key passes and every container was within reach. */
  lemma AcceptsIff(meta: Option<Json>, allow: Option<set<string>>, p: Principal, lex: Lexicon)
    ensures Accepts(meta, allow, p, lex) <==>
              (meta.Some? && meta.value.Obj? ==>
                 forall m :: m in meta.value.members ==> TopOk(m.0, m.1, allow, p, lex))
  {
    if meta.Some? && meta.value.Obj? {
      TopsIff(meta.value.members, allow, p, lex);
    }
  }

  /** A recognised claim says nothing the principal is not. */
  ghost predicate Truthful(names: set<string>, v: Json, p: Principal, lex: Lexicon) {
    && (names * lex.subjectNames != {} ==> v == Str(p.subject))
    && (names * lex.subjectNames == {} && names * lex.tenantNames != {} ==>
          p.tenant.Some? && v == Str(p.tenant.value))
    && (names * (lex.subjectNames + lex.tenantNames) == {} && names * lex.clientNames != {} ==>
          p.clientId.Some? && v == Str(p.clientId.value))
    && (names * (lex.subjectNames + lex.tenantNames + lex.clientNames) == {} && names * lex.scopeNames != {} ==>
          AsSet(v, lex).Some? && AsSet(v, lex).value <= p.scopes)
    && (names * (lex.subjectNames + lex.tenantNames + lex.clientNames + lex.scopeNames) == {}
        && names * lex.adminNames != {} ==>
          DeniesAdmin(v) || "admin" in p.scopes)
  }

  lemma OkIsTruthful(names: set<string>, v: Json, p: Principal, lex: Lexicon)
    requires !Conflicts(names, v, p, lex)
    ensures Truthful(names, v, p, lex)
  {
    assert names * (lex.subjectNames + lex.tenantNames)
        == names * lex.subjectNames + names * lex.tenantNames;
    assert names * (lex.subjectNames + lex.tenantNames + lex.clientNames)
        == names * lex.subjectNames + names * lex.tenantNames + names * lex.clientNames;
    assert names * (lex.subjectNames + lex.tenantNames + lex.clientNames + lex.scopeNames)
        == names * lex.subjectNames + names * lex.tenantNames + names * lex.clientNames + names * lex.scopeNames;
  }

  /** How deep the walk goes below a top-level key. */
  function DepthLimit(key: string): nat {
    if key in SELF_REPORTED then MAX_SELF_REPORTED_DEPTH else MAX_META_DEPTH
  }

  /** In an accepted `_meta`, at every depth and in mappings and lists alike, a key with
      a recognised identity name restates the principal, its scopes are the
      principal's, and no container was too deep or too long to be inspected. */
  lemma EveryClaimIsTruthful(meta: Json, allow: Option<set<string>>, p: Principal, lex: Lexicon,
                             m: (string, Json), q: Path, v: Json)
    requires meta.Obj? && Accepts(Some(meta), allow, p, lex) && m in meta.members
    requires m.0 != PROTOCOL_KEY && m.0 !in TRACE_KEYS && Occurs(m.1, q, v)
    ensures q == [] && m.0 !in SELF_REPORTED ==> Truthful(lex.candidates(m.0, true), v, p, lex)
    ensures q != [] && q[|q| - 1].Key? ==> Truthful(lex.candidates(q[|q| - 1].key, false), v, p, lex)
    ensures NonEmpty(v) ==> |q| + 1 < DepthLimit(m.0) && (v.Arr? ==> |v.items| <= 256)
  {
    AcceptsIff(Some(meta), allow, p, lex);
    assert TopOk(m.0, m.1, allow, p, lex);
    assert NodeOk(q, v, 0, DepthLimit(m.0), p, lex);
    if q == [] && m.0 !in SELF_REPORTED {
      KeyIsTruthful(m.0, v, true, allow.Some?, p, lex);
    }
    if q != [] && q[|q| - 1].Key? {
      KeyIsTruthful(q[|q| - 1].key, v, false, false, p, lex);
    }
  }

  lemma KeyIsTruthful(key: string, v: Json, prefixed: bool, approved: bool, p: Principal, lex: Lexicon)
    requires KeyOk(key, v, prefixed, approved, p, lex)
    ensures Truthful(lex.candidates(key, prefixed), v, p, lex)
  {
    var names := lex.candidates(key, prefixed);
    assert names * lex.IdentityNames() == names * lex.subjectNames + names * lex.tenantNames
        + names * lex.clientNames + names * lex.scopeNames + names * lex.adminNames;
    if names * lex.IdentityNames() == {} {
      assert !Conflicts(names, v, p, lex);
    }
    OkIsTruthful(names, v, p, lex);
  }

  // ---------------------------------------------------------------------------
  // More scopes never turn acceptance into rejection
  // ---------------------------------------------------------------------------

  lemma KeyOkMonotone(key: string, v: Json, prefixed: bool, approved: bool, p: Principal, more: set<string>,
                      lex: Lexicon)
    requires KeyOk(key, v, prefixed, approved, p, lex)
    ensures KeyOk(key, v, prefixed, approved, p.(scopes := p.scopes + more), lex)
  {
  }

  lemma SubtreeOkMonotone(value: Json, depth: nat, limit: nat, p: Principal, more: set<string>, lex: Lexicon)
    requires SubtreeOk(value, depth, limit, p, lex)
    ensures SubtreeOk(value, depth, limit, p.(scopes := p.scopes + more), lex)
  {
    forall q: Path, v: Json | Occurs(value, q, v)
      ensures NodeOk(q, v, depth, limit, p.(scopes := p.scopes + more), lex)
    {
      assert NodeOk(q, v, depth, limit, p, lex);
      if q != [] && q[|q| - 1].Key? {
        KeyOkMonotone(q[|q| - 1].key, v, false, false, p, more, lex);
      }
    }
  }

  lemma AcceptanceIsMonotone(meta: Option<Json>, allow: Option<set<string>>, p: Principal, more: set<string>,
                             lex: Lexicon)
    requires Accepts(meta, allow, p, lex)
    ensures Accepts(meta, allow, p.(scopes := p.scopes + more), lex)
  {
    var p' := p.(scopes := p.scopes + more);
    AcceptsIff(meta, allow, p, lex);
    AcceptsIff(meta, allow, p', lex);
    if meta.Some? && meta.value.Obj? {
      forall m | m in meta.value.members
        ensures TopOk(m.0, m.1, allow, p', lex)
      {
        assert TopOk(m.0, m.1, allow, p, lex);
        TopOkMonotone(m.0, m.1, allow, p, more, lex);
      }
    }
  }

  lemma TopOkMonotone(key: string, value: Json, allow: Option<set<string>>, p: Principal, more: set<string>,
                      lex: Lexicon)
    requires TopOk(key, value, allow, p, lex)
    ensures TopOk(key, value, allow, p.(scopes := p.scopes + more), lex)
  {
    if key != PROTOCOL_KEY && key !in TRACE_KEYS {
      if key in SELF_REPORTED {
        SubtreeOkMonotone(value, 0, MAX_SELF_REPORTED_DEPTH, p, more, lex);
      } else {
        SubtreeOkMonotone(value, 0, MAX_META_DEPTH, p, more, lex);
        KeyOkMonotone(key, value, true, allow.Some?, p, more, lex);
      }
    }
  }

  // ---------------------------------------------------------------------------
  // The walk, appending to one shared list
  // ---------------------------------------------------------------------------

  class MetaWalk {
    const p: Principal
    const lex: Lexicon
    var bad: seq<Path>

    constructor (p: Principal, lex: Lexicon)
      ensures this.p == p && this.lex == lex && bad == []
    {
      this.p, this.lex, bad := p, lex, [];
    }

    method Visit(key: string, value: Json, path: Path, depth: nat, limit: nat, approved: bool)
      modifies this
      ensures bad == old(bad) + BadVisit(key, value, path, depth, limit, approved, p, lex)
      decreases value, 1
    {
      var prefixed := depth == 0;
      var names := lex.candidates(key, prefixed);
      if names * lex.IdentityNames() != {} {
        if Conflicts(names, value, p, lex) {
          bad := bad + [path];
        } else {
          Descend(value, path, depth, limit);
        }
        return;
      }
      if !approved && lex.identityWord(key, prefixed) {
        bad := bad + [path];
        return;
      }
      Descend(value, path, depth, limit);
    }

    method Descend(value: Json, path: Path, depth: nat, limit: nat)
      modifies this
      ensures bad == old(bad) + BadDescend(value, path, depth, limit, p, lex)
      decreases value, 0
    {
      hide BadVisit;
      if !NonEmpty(value) {
        return;
      }
      if depth + 1 >= limit {
        bad := bad + [path];
        return;
      }
      match value
      case Obj(members) =>
        for i := 0 to |members|
          invariant bad == old(bad) + BadMembers(members[..i], path, depth, limit, p, lex)
        {
          var m := members[i];
          assert m.1 < m && m < value;
          assert members[..i + 1][..i] == members[..i];
          Visit(m.0, m.1, path + [Key(m.0)], depth + 1, limit, false);
        }
        assert members[..|members|] == members;
      case Arr(items) =>
        ghost var all := old(bad) + BadItems(items, 0, path, depth, limit, p, lex);
        var shown := if |items| > MAX_ITEMS then MAX_ITEMS else |items|;
        assert items[0..] == items;
        for i := 0 to shown
          invariant bad + BadItems(items[i..], i, path, depth, limit, p, lex) == all
        {
          assert items[i] < value;
          assert items[i..][0] == items[i] && items[i..][1..] == items[i + 1..];
          Descend(items[i], path + [Index(i)], depth + 1, limit);
        }
        assert BadItems(items[shown..], shown, path, depth, limit, p, lex) == [];
        assert bad == all;
        if |items| > MAX_ITEMS {
          bad := bad + [path];
        }
    }

    method Top(key: string, value: Json, allow: Option<set<string>>)
      modifies this
      ensures bad == old(bad) + BadTop(key, value, allow, p, lex)
    {
      var path := [Key(key)];
      if key == PROTOCOL_KEY {
        if !(IsText(value) && TextLength(value) <= 64) {
          bad := bad + [path];
        }
      } else if TwoSlashes(key) {
        bad := bad + [path];
      } else if key in TRACE_KEYS {
        if !TraceOk(key, value, lex) {
          bad := bad + [path];
        }
      } else if key in SELF_REPORTED {
        Descend(value, path, 0, MAX_SELF_REPORTED_DEPTH);
      } else if allow.Some? && key !in allow.value + Reserved() {
        bad := bad + [path];
      } else {
        Visit(key, value, path, 0, MAX_META_DEPTH, allow.Some?);
      }
    }
  }

  /** The paths of the offending keys; the program raises its error iff there are any. */
  method ReconcileMeta(meta: Option<Json>, allow: Option<set<string>>, p: Principal, lex: Lexicon)
    returns (bad: seq<Path>)
    ensures bad == BadMeta(meta, allow, p, lex)
  {
    if meta.None? || !meta.value.Obj? || meta.value.members == [] {
      return [];
    }
    var members := meta.value.members;
    var walk := new MetaWalk(p, lex);
    for i := 0 to |members|
      invariant walk.p == p && walk.lex == lex
      invariant walk.bad == BadTops(members[..i], allow, p, lex)
    {
      assert members[..i + 1][..i] == members[..i];
      walk.Top(members[i].0, members[i].1, allow);
    }
    assert members[..|members|] == members;
    return walk.bad;
  }

  // ---------------------------------------------------------------------------
  // What passes, in full
  // ---------------------------------------------------------------------------

  ghost predicate Touches(names: set<string>, kind: set<string>) { exists n :: n in names && n in kind }

  /** A role or scope claim names scopes of the principal only. */
  ghost predicate NamesOwnScopes(v: Json, p: Principal, lex: Lexicon) {
    || (v.Str? && forall w :: w in lex.words(v.s) ==> w in p.scopes)
    || (v.Arr? && ListsOwnScopes(v.items, p))
  }

  ghost predicate ListsOwnScopes(items: seq<Json>, p: Principal) {
    forall i :: 0 <= i < |items| ==> items[i].Str? && items[i].s in p.scopes
  }

  /** An admin claim denies being one, or is a scalar from a principal that is one. */
  ghost predicate AdminFits(v: Json, p: Principal) {
    || v in [Null, Bool(false), Int(0), Str("false")]
    || ((v.Bool? || v.Int? || v.Str? || v.IllFormed?) && "admin" in p.scopes)
  }

  lemma {:induction false} TouchesIs(names: set<string>, kind: set<string>)
    ensures names * kind != {} <==> Touches(names, kind)
  {
    if n :| n in names && n in kind {
      assert n in names * kind;
    }
  }

  lemma {:induction false} ListedIs(items: seq<Json>, p: Principal, lex: Lexicon)
    ensures var r := AsSet(Arr(items), lex);
            r.Some? && r.value <= p.scopes <==> ListsOwnScopes(items, p)
  {
    var r := AsSet(Arr(items), lex);
    if r.Some? && r.value <= p.scopes {
      forall i | 0 <= i < |items|
        ensures items[i].Str? && items[i].s in p.scopes
      {
        assert items[i].s in r.value;
      }
    }
  }

  lemma {:induction false} ScopesIs(v: Json, p: Principal, lex: Lexicon)
    ensures AsSet(v, lex).Some? && AsSet(v, lex).value <= p.scopes <==> NamesOwnScopes(v, p, lex)
  {
    if v.Arr? {
      ListedIs(v.items, p, lex);
    }
  }

  /** A claim passes exactly when it restates the principal: the first kind of name that the
      key has says what it must be. */
  lemma {:induction false} ClaimPassesIff(names: set<string>, v: Json, p: Principal, lex: Lexicon)
    ensures !Conflicts(names, v, p, lex) <==>
              if Touches(names, lex.subjectNames) then v == Str(p.subject)
              else if Touches(names, lex.tenantNames) then p.tenant.Some? && v == Str(p.tenant.value)
              else if Touches(names, lex.clientNames) then p.clientId.Some? && v == Str(p.clientId.value)
              else if Touches(names, lex.scopeNames) then NamesOwnScopes(v, p, lex)
              else if Touches(names, lex.adminNames) then AdminFits(v, p)
              else true
  {
    hide AsSet, NamesOwnScopes, Touches;
    TouchesIs(names, lex.subjectNames);
    TouchesIs(names, lex.tenantNames);
    TouchesIs(names, lex.clientNames);
    TouchesIs(names, lex.scopeNames);
    TouchesIs(names, lex.adminNames);
    ScopesIs(v, p, lex);
  }

  /** A key passes with a recognised name whose claim passes, or with none if it has no
      identity word or the operator allowed it. */
  lemma {:induction false} KeyPassesIff(key: string, v: Json, prefixed: bool, approved: bool, p: Principal,
                                        lex: Lexicon)
    ensures var names := lex.candidates(key, prefixed);
            var known := Touches(names, lex.subjectNames) || Touches(names, lex.tenantNames)
                         || Touches(names, lex.clientNames) || Touches(names, lex.scopeNames)
                         || Touches(names, lex.adminNames);
            KeyOk(key, v, prefixed, approved, p, lex) <==>
              if known then !Conflicts(names, v, p, lex) else approved || !lex.identityWord(key, prefixed)
  {
    var names := lex.candidates(key, prefixed);
    TouchesIs(names, lex.IdentityNames());
  }

  /** The rules for a top-level key of `_meta`. */
  lemma {:induction false} TopPassesIff(key: string, v: Json, allow: Option<set<string>>, p: Principal, lex: Lexicon)
    ensures TopOk(key, v, allow, p, lex) <==>
              if key == "io.modelcontextprotocol/protocolVersion" then
                (v.Str? && |v.s| <= 64) || (v.IllFormed? && v.len <= 64)
              else if exists i, j :: 0 <= i < j < |key| && key[i] == '/' && key[j] == '/' then false
              else if key in {"traceparent", "tracestate", "baggage"} then
                ((v.Str? && |v.s| <= 8192) || (v.IllFormed? && v.len <= 8192)) && !lex.traceMalformed(key, v)
              else if key == "io.modelcontextprotocol/clientInfo" || key == "io.modelcontextprotocol/clientCapabilities"
              then SubtreeOk(v, 0, 8, p, lex)
              else
                && (allow.Some? ==> key in allow.value)
                && KeyOk(key, v, true, allow.Some?, p, lex) && SubtreeOk(v, 0, 4, p, lex)
  {
    hide SubtreeOk, KeyOk;
  }
}

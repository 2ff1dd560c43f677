/** The `RequestStateSealer` object (cosai_mcp/middleware/state.py:126-327): its
    replay map, expiry heap and two counter dictionaries always agree. */
module StateSealer {
  import opened Wrappers
  import opened Lists
  import opened ReplayCache

  /** Replay protection: none, a store shared between replicas, or the local cache. */
  datatype Mode = Off | Shared | Local

  /** `heapq.heappush` on a list kept in expiry order. */
  function HeapPush(h: seq<Entry>, e: Entry): seq<Entry> {
    if h == [] || h[|h| - 1].exp <= e.exp then h + [e]
    else HeapPush(h[..|h| - 1], e) + [h[|h| - 1]]
  }

  /** The heap entries with the owners the replay map records for them. */
  function Annotate(h: seq<Entry>, spent: map<string, Owner>): (l: seq<Spent>)
    ensures |l| == |h|
  {
    if h == [] then []
    else
      var e := h[|h| - 1];
      Annotate(h[..|h| - 1], spent)
      + [Spent(e.exp, e.jti, if e.jti in spent then spent[e.jti] else ("", ""))]
  }

  lemma {:induction false} AnnotateAt(h: seq<Entry>, spent: map<string, Owner>, i: nat)
    requires i < |h|
    ensures Annotate(h, spent)[i] ==
            Spent(h[i].exp, h[i].jti, if h[i].jti in spent then spent[h[i].jti] else ("", ""))
    decreases |h|
  {
    if i < |h| - 1 {
      AnnotateAt(h[..|h| - 1], spent, i);
    }
  }

  lemma {:induction false} AnnotateSame(h: seq<Entry>, m1: map<string, Owner>, m2: map<string, Owner>)
    requires forall i :: 0 <= i < |h| ==> h[i].jti in m1 && h[i].jti in m2 && m1[h[i].jti] == m2[h[i].jti]
    ensures Annotate(h, m1) == Annotate(h, m2)
  {
    if h != [] {
      AnnotateSame(h[..|h| - 1], m1, m2);
    }
  }

  lemma {:induction false} AnnotateTail(h: seq<Entry>, spent: map<string, Owner>)
    requires h != []
    ensures Annotate(h[1..], spent) == Annotate(h, spent)[1..]
  {
    forall i | 0 <= i < |h| - 1
      ensures Annotate(h[1..], spent)[i] == Annotate(h, spent)[i + 1]
    {
      AnnotateAt(h[1..], spent, i);
      AnnotateAt(h, spent, i + 1);
    }
  }

  lemma {:induction false} AnnotatePush(h: seq<Entry>, spent: map<string, Owner>, e: Entry, o: Owner)
    requires forall i :: 0 <= i < |h| ==> h[i].jti in spent && h[i].jti != e.jti
    ensures Annotate(HeapPush(h, e), spent[e.jti := o]) ==
            Insert(Annotate(h, spent), Spent(e.exp, e.jti, o))
    decreases |h|
  {
    var m := spent[e.jti := o];
    AnnotateSame(h, spent, m);
    if h == [] || h[|h| - 1].exp <= e.exp {
      assert (h + [e])[..|h|] == h;
    } else {
      var n := |h| - 1;
      AnnotatePush(h[..n], spent, e, o);
      var g := HeapPush(h[..n], e);
      assert (g + [h[n]])[..|g|] == g;
      assert Annotate(h, spent)[..n] == Annotate(h[..n], spent);
    }
  }

  lemma {:induction false} PushMembers(h: seq<Entry>, e: Entry)
    ensures forall x :: x in HeapPush(h, e) <==> x in h || x == e
  {
    if h != [] {
      var n := |h| - 1;
      assert h == h[..n] + [h[n]];
      PushMembers(h[..n], e);
    }
  }

  /** In expiry order, the unexpired entries are a suffix. */
  lemma {:induction false} UnexpiredSuffix(l: seq<Spent>, now: real, k: nat)
    requires k <= |l| && forall i :: 0 <= i < k ==> l[i].exp <= now
    requires forall i :: k <= i < |l| ==> l[i].exp > now
    ensures Keep(l, UnexpiredAt(now)) == l[k..]
    decreases |l|
  {
    hide Keep;
    if l == [] {
      KeepAll(l, UnexpiredAt(now));
    } else {
      var n := |l| - 1;
      var init := l[..n];
      assert l == init + [l[n]];
      KeepSnoc(init, l[n], UnexpiredAt(now));
      UnexpiredSuffix(init, now, if k <= n then k else n);
      if k <= n {
        assert l[k..] == init[k..] + [l[n]];
      }
    }
  }

  /** The heap holds exactly the keys of the replay map, once each, in expiry order. */
  ghost predicate HeapMatches(heap: seq<Entry>, spent: map<string, Owner>) {
    && (forall i, j :: 0 <= i < j < |heap| ==> heap[i].exp <= heap[j].exp)
    && (forall i, j :: 0 <= i < j < |heap| ==> heap[i].jti != heap[j].jti)
    && (forall e :: e in heap ==> e.jti in spent)
    && (forall j :: j in spent ==> InHeap(heap, j))
  }

  ghost predicate InHeap(heap: seq<Entry>, jti: string) {
    exists e :: e in heap && e.jti == jti
  }

  lemma {:induction false} MatchingLedger(heap: seq<Entry>, spent: map<string, Owner>)
    requires HeapMatches(heap, spent)
    ensures Ledger(Annotate(heap, spent))
    ensures forall i :: 0 <= i < |heap| ==>
              Annotate(heap, spent)[i] == Spent(heap[i].exp, heap[i].jti, spent[heap[i].jti])
  {
    forall i | 0 <= i < |heap|
      ensures Annotate(heap, spent)[i] == Spent(heap[i].exp, heap[i].jti, spent[heap[i].jti])
    {
      AnnotateAt(heap, spent, i);
      assert heap[i] in heap;
    }
  }

  lemma {:induction false} PopMatches(heap: seq<Entry>, spent: map<string, Owner>)
    requires HeapMatches(heap, spent) && heap != []
    ensures HeapMatches(heap[1..], spent - {heap[0].jti})
    ensures Annotate(heap[1..], spent - {heap[0].jti}) == Annotate(heap, spent)[1..]
  {
    var rest := heap[1..];
    assert forall i :: 0 <= i < |rest| ==> rest[i] == heap[i + 1];
    forall j | j in spent - {heap[0].jti}
      ensures InHeap(rest, j)
    {
      assert InHeap(heap, j);
      var e :| e in heap && e.jti == j;
      assert e in rest;
    }
    AnnotateTail(heap, spent);
    AnnotateSame(rest, spent, spent - {heap[0].jti});
  }

  lemma {:induction false} LedgerOrdersHeap(heap: seq<Entry>, spent: map<string, Owner>)
    requires Ledger(Annotate(heap, spent))
    ensures forall i, j :: 0 <= i < j < |heap| ==> heap[i].exp <= heap[j].exp && heap[i].jti != heap[j].jti
  {
    var l := Annotate(heap, spent);
    forall i, j | 0 <= i < j < |heap|
      ensures heap[i].exp <= heap[j].exp && heap[i].jti != heap[j].jti
    {
      AnnotateAt(heap, spent, i);
      AnnotateAt(heap, spent, j);
      assert l[i].exp <= l[j].exp && l[i].jti != l[j].jti;
    }
  }

  lemma {:induction false} PushAnnotates(heap: seq<Entry>, spent: map<string, Owner>, e: Entry, o: Owner)
    requires HeapMatches(heap, spent) && e.jti !in spent
    ensures Annotate(HeapPush(heap, e), spent[e.jti := o]) ==
            Insert(Annotate(heap, spent), Spent(e.exp, e.jti, o))
    ensures Ledger(Annotate(HeapPush(heap, e), spent[e.jti := o]))
  {
    forall i | 0 <= i < |heap|
      ensures heap[i].jti in spent && heap[i].jti != e.jti
    {
      assert heap[i] in heap;
    }
    AnnotatePush(heap, spent, e, o);
    MatchingLedger(heap, spent);
    KnownInMap(heap, spent, e.jti);
    InsertLedger(Annotate(heap, spent), Spent(e.exp, e.jti, o));
  }

  lemma {:induction false} MembersCover(heap: seq<Entry>, spent: map<string, Owner>, heap': seq<Entry>,
                                        e: Entry, o: Owner)
    requires HeapMatches(heap, spent)
    requires forall x :: x in heap' <==> x in heap || x == e
    ensures forall x :: x in heap' ==> x.jti in spent[e.jti := o]
    ensures forall j :: j in spent[e.jti := o] ==> InHeap(heap', j)
  {
    forall j | j in spent[e.jti := o]
      ensures InHeap(heap', j)
    {
      if j == e.jti {
        assert e in heap';
      } else {
        assert InHeap(heap, j);
        var x :| x in heap && x.jti == j;
        assert x in heap';
      }
    }
  }

  lemma {:induction false} PushMatches(heap: seq<Entry>, spent: map<string, Owner>, e: Entry, o: Owner)
    requires HeapMatches(heap, spent) && e.jti !in spent
    ensures HeapMatches(HeapPush(heap, e), spent[e.jti := o])
  {
    hide Annotate, Ledger;
    PushAnnotates(heap, spent, e, o);
    LedgerOrdersHeap(HeapPush(heap, e), spent[e.jti := o]);
    PushMembers(heap, e);
    MembersCover(heap, spent, HeapPush(heap, e), e, o);
  }

  lemma {:induction false} CachesInsert<K(!new)>(counts: map<K, int>, l: seq<Spent>, s: Spent, key: Spent -> K)
    requires Caches(counts, l, key)
    ensures Caches(Increment(counts, key(s)), Insert(l, s), key)
  {
    forall k
      ensures Get(Increment(counts, key(s)), k, 0) == Tally(Insert(l, s), key, k)
      ensures k in Increment(counts, key(s)) ==> Increment(counts, key(s))[k] > 0
    {
      assert Get(counts, k, 0) == Tally(l, key, k);
      InsertTally(l, s, key, k);
    }
  }

  lemma {:induction false} KnownInMap(heap: seq<Entry>, spent: map<string, Owner>, jti: string)
    requires HeapMatches(heap, spent)
    ensures jti in spent <==> Knows(Annotate(heap, spent), jti)
  {
    hide Annotate, Ledger;
    MatchingLedger(heap, spent);
    var l := Annotate(heap, spent);
    if jti in spent {
      assert InHeap(heap, jti);
      var e :| e in heap && e.jti == jti;
      var i :| 0 <= i < |heap| && heap[i] == e;
      assert l[i].jti == jti;
    }
    if Knows(l, jti) {
      var i :| 0 <= i < |l| && l[i].jti == jti;
      assert heap[i] in heap;
    }
  }

  lemma {:induction false} SameSize(heap: seq<Entry>, spent: map<string, Owner>)
    requires HeapMatches(heap, spent)
    ensures |spent| == |heap|
  {
    JtiCount(heap);
    var js := set e | e in heap :: e.jti;
    forall j | j in spent
      ensures j in js
    {
      assert InHeap(heap, j);
    }
    assert spent.Keys == js;
  }

  /** The ids of the tokens with key `k`, such as an owner or a tenant. */
  function JtisWith<K(==)>(l: seq<Spent>, key: Spent -> K, k: K): set<string> {
    set s | s in l && key(s) == k :: s.jti
  }

  /** A count over the ledger is a number of different tokens. */
  lemma {:induction false} TallyIsCardinality<K>(l: seq<Spent>, key: Spent -> K, k: K)
    requires Ledger(l)
    ensures Tally(l, key, k) == |JtisWith(l, key, k)|
  {
    if l != [] {
      var n := |l| - 1;
      TallyIsCardinality(l[..n], key, k);
      assert l == l[..n] + [l[n]];
      JtisSnoc(l[..n], l[n], key, k);
      assert l[n].jti !in JtisWith(l[..n], key, k);
    }
  }

  lemma {:induction false} JtisSnoc<K>(l: seq<Spent>, x: Spent, key: Spent -> K, k: K)
    ensures JtisWith(l + [x], key, k) == JtisWith(l, key, k) + (if key(x) == k then {x.jti} else {})
  {
    assert forall s :: s in l + [x] <==> s in l || s == x;
  }

  /** The quotas bound different tokens: in every reachable cache no owner and no tenant
      has more of them unexpired than its share. */
  lemma RunTokensWithinQuotas(cs: seq<Call>, o: Owner, t: string)
    ensures |JtisWith(Run(cs), OwnerOf, o)| <= MAX_SPENT_PER_OWNER
    ensures |JtisWith(Run(cs), TenantOf, t)| <= 2 * MAX_SPENT_PER_TENANT
  {
    RunLedger(cs);
    RunWithinQuotas(cs);
    TallyIsCardinality(Run(cs), OwnerOf, o);
    TallyIsCardinality(Run(cs), TenantOf, t);
    assert OwnerCount(Run(cs), o) <= MAX_SPENT_PER_OWNER && TenantCount(Run(cs), t) <= 2 * MAX_SPENT_PER_TENANT;
  }

  lemma {:induction false} SameKeys(heap: seq<Entry>, spent: map<string, Owner>, j: string)
    requires HeapMatches(heap, spent)
    ensures var l := Annotate(heap, spent);
            && (forall s :: s in l && s.jti == j ==> j in spent && s.owner == spent[j])
            && (j in spent ==> exists s :: s in l && s.jti == j && s.owner == spent[j])
  {
    hide Annotate, Ledger;
    MatchingLedger(heap, spent);
    KnownInMap(heap, spent, j);
    var l := Annotate(heap, spent);
    forall s | s in l && s.jti == j
      ensures j in spent && s.owner == spent[j]
    {
      var i :| 0 <= i < |l| && l[i] == s;
      assert heap[i] in heap;
    }
    if j in spent {
      var i :| 0 <= i < |l| && l[i].jti == j;
      assert l[i] in l;
    }
  }

  class RequestStateSealer {
    const mode: Mode
    var spent: map<string, Owner>
    var heap: seq<Entry>
    var perOwner: map<Owner, int>
    var perTenant: map<string, int>

    ghost function Tokens(): seq<Spent>
      reads this
    {
      Annotate(heap, spent)
    }

    /** The heap holds exactly the keys of the replay map, once each, in expiry
        order, and both counters equal the counts over the map. */
    ghost predicate Valid()
      reads this
    {
      && HeapMatches(heap, spent)
      && Caches(perOwner, Tokens(), OwnerOf)
      && Caches(perTenant, Tokens(), TenantOf)
    }

    constructor (mode: Mode)
      ensures Valid() && Tokens() == [] && this.mode == mode
    {
      this.mode := mode;
      spent, heap, perOwner, perTenant := map[], [], map[], map[];
    }

    /** The counters of an owner and of a tenant are the numbers of map entries they hold,
        and one with no entry has no counter. */
    lemma CountersMatchMap(o: Owner, t: string)
      requires Valid()
      ensures Get(perOwner, o, 0) == |set j | j in spent && spent[j] == o|
      ensures o in perOwner <==> (set j | j in spent && spent[j] == o) != {}
      ensures Get(perTenant, t, 0) == |set j | j in spent && spent[j].1 == t|
      ensures t in perTenant <==> (set j | j in spent && spent[j].1 == t) != {}
    {
      hide Annotate, Ledger, Tally, HeapMatches;
      MatchingLedger(heap, spent);
      TallyIsCardinality(Tokens(), OwnerOf, o);
      TallyIsCardinality(Tokens(), TenantOf, t);
      forall j
        ensures j in JtisWith(Tokens(), OwnerOf, o) <==> j in spent && spent[j] == o
        ensures j in JtisWith(Tokens(), TenantOf, t) <==> j in spent && spent[j].1 == t
      {
        SameKeys(heap, spent, j);
      }
      assert JtisWith(Tokens(), OwnerOf, o) == set j | j in spent && spent[j] == o;
      assert JtisWith(Tokens(), TenantOf, t) == set j | j in spent && spent[j].1 == t;
      assert Get(perOwner, o, 0) == Tally(Tokens(), OwnerOf, o);
      assert Get(perTenant, t, 0) == Tally(Tokens(), TenantOf, t);
    }

    lemma CountersAgree(o: Owner)
      requires Valid()
      ensures Get(perOwner, o, 0) == OwnerCount(Tokens(), o)
      ensures Get(perTenant, o.1, 0) == TenantCount(Tokens(), o.1)
    {
      hide HeapMatches, Annotate, Tally;
    }

    /** The incremental purge: pop the heap while its first entry has expired. */
    method PopExpired(now: real)
      requires Valid()
      modifies this
      ensures Valid() && Tokens() == Keep(old(Tokens()), UnexpiredAt(now))
    {
      hide Caches, HeapMatches;
      ghost var before := Tokens();
      ghost var k := 0;
      MatchingLedger(heap, spent);
      while heap != [] && heap[0].exp <= now
        invariant Valid() && k <= |before| && Tokens() == before[k..]
        invariant forall i :: 0 <= i < k ==> before[i].exp <= now
        decreases |heap|
      {
        MatchingLedger(heap, spent);
        assert Tokens()[0] == before[k];
        PopFirst();
        assert before[k..][1..] == before[k + 1..];
        k := k + 1;
      }
      MatchingLedger(heap, spent);
      if heap != [] {
        assert Tokens()[0] == before[k];
      }
      UnexpiredSuffix(before, now, k);
    }

    method PopFirst()
      requires Valid() && heap != []
      modifies this
      ensures Valid() && Tokens() == old(Tokens())[1..] && heap == old(heap)[1..]
    {
      ghost var l := Tokens();
      var jti := heap[0].jti;
      assert heap[0] in heap;
      var o := spent[jti];
      AnnotateAt(heap, spent, 0);
      hide HeapMatches, Caches, Annotate, Decrement;
      PopMatches(heap, spent);
      CachesWithout(perOwner, l, 0, OwnerOf);
      CachesWithout(perTenant, l, 0, TenantOf);
      assert Without(l, 0) == l[1..];
      heap := heap[1..];
      spent := spent - {jti};
      perOwner := Decrement(perOwner, o);
      perTenant := Decrement(perTenant, o.1);
    }

    method Record(e: Entry, o: Owner)
      requires Valid() && e.jti !in spent
      modifies this
      ensures Valid() && Tokens() == Insert(old(Tokens()), Spent(e.exp, e.jti, o))
    {
      ghost var l := Tokens();
      ghost var s := Spent(e.exp, e.jti, o);
      hide HeapMatches, Caches, Annotate, Increment, HeapPush;
      PushMatches(heap, spent, e, o);
      PushAnnotates(heap, spent, e, o);
      CachesInsert(perOwner, l, s, OwnerOf);
      CachesInsert(perTenant, l, s, TenantOf);
      spent := spent[e.jti := o];
      perOwner := Increment(perOwner, o);
      perTenant := Increment(perTenant, o.1);
      heap := HeapPush(heap, e);
      assert Tokens() == Insert(l, s);
    }

    /** The replay check, the caps and the recording: one lock-protected step. */
    method SpendOnce(jti: string, exp: real, owner: Owner, now: real) returns (refused: Option<Outcome>)
      requires Valid()
      modifies this
      ensures Valid()
      ensures var live := Keep(old(Tokens()), UnexpiredAt(now));
              && refused == (if Knows(live, jti) then Some(Replayed)
                             else if Full(live, owner) then Some(CacheFull) else None)
              && Tokens() == if refused.Some? then live else Insert(live, Spent(exp, jti, owner))
    {
      hide HeapMatches, Caches, Annotate, Keep;
      PopExpired(now);
      KnownInMap(heap, spent, jti);
      SameSize(heap, spent);
      CountersAgree(owner);
      if jti in spent {
        return Some(Replayed);
      }
      var mine := Get(perOwner, owner, 0);
      var total := |spent|;
      var inTenant := Get(perTenant, owner.1, 0);
      if mine >= MAX_SPENT_PER_OWNER
         || (inTenant >= MAX_SPENT_PER_TENANT
             && (mine >= OWNER_FLOOR || inTenant >= 2 * MAX_SPENT_PER_TENANT))
         || (total >= MAX_SPENT_ENTRIES
             && (mine >= OWNER_FLOOR || total >= 2 * MAX_SPENT_ENTRIES)) {
        return Some(CacheFull);
      }
      Record(Entry(exp, jti), owner);
      return None;
    }

    /** `storeReply` is what the shared store answers: added or not, `None` if it failed. */
    method Open(c: Call, storeReply: Option<bool>) returns (o: Outcome)
      requires Valid()
      modifies this
      ensures Valid()
      ensures mode == Local ==> (Tokens(), o) == Step(old(Tokens()), c)
      ensures mode != Local ==> Tokens() == old(Tokens())
      ensures mode == Off ==> o == if Genuine(c) then Accepted(c.claims.value.payload.value) else Invalid
      ensures mode == Shared ==>
                o == if !Genuine(c) || !HasJti(c) || storeReply.None? then Invalid
                     else if storeReply.value then Accepted(c.claims.value.payload.value)
                     else Replayed
    {
      if !Genuine(c) {
        return Invalid;
      }
      var k := c.claims.value;
      if mode != Off {
        if k.jti.None? || k.jti.value == "" {
          return Invalid;
        }
        if mode == Shared {
          if storeReply.None? {
            return Invalid;
          }
          return if storeReply.value then Accepted(k.payload.value) else Replayed;
        }
        var refused := SpendOnce(k.jti.value, k.exp.value, (c.principal, c.tenant), c.now);
        if refused.Some? {
          return refused.value;
        }
      }
      return Accepted(k.payload.value);
    }
  }

  lemma {:induction false} JtiCount(h: seq<Entry>)
    requires forall i, j :: 0 <= i < j < |h| ==> h[i].jti != h[j].jti
    ensures |set e | e in h :: e.jti| == |h|
  {
    if h == [] {
      assert (set e | e in h :: e.jti) == {};
    } else {
      var n := |h| - 1;
      JtiCount(h[..n]);
      assert h == h[..n] + [h[n]];
      assert h[n].jti !in set e | e in h[..n] :: e.jti;
      assert (set e | e in h :: e.jti) == (set e | e in h[..n] :: e.jti) + {h[n].jti};
    }
  }
}

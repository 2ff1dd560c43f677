/** The single-use replay cache of `RequestStateSealer.open`
    (cosai_mcp/middleware/state.py:247-327).

    The sealed token is opened by an ideal cipher, so `Open` starts from the
    authenticated claims. `heapq` is represented by its contract: a list whose
    first entry expires first. */
module ReplayCache {
  import opened Wrappers
  import opened Lists

  const MAX_SPENT_ENTRIES := 1_000_000
  const MAX_SPENT_PER_OWNER := 10_000
  const MAX_SPENT_PER_TENANT := MAX_SPENT_ENTRIES / 4
  const OWNER_FLOOR := 8

  type Owner = (string, string)

  /** The decrypted claims; `None` stands for a missing or wrongly typed member. */
  datatype Claims = Claims(
    exp: Option<real>, principal: Option<string>, tenant: Option<string>, request: Option<string>,
    jti: Option<string>, payload: Option<string>)

  /** One presentation of a token. `claims` is `None` when the token did not open. */
  datatype Call = Call(now: real, claims: Option<Claims>, principal: string, tenant: string, request: string)

  /** Every rejection is the same error to the caller; the reasons are told apart here. */
  datatype Outcome = Accepted(payload: string) | Invalid | Replayed | CacheFull

  datatype Entry = Entry(exp: real, jti: string)

  /** One spent token: its heap entry with the owner recorded for it. */
  datatype Spent = Spent(exp: real, jti: string, owner: Owner)

  function OwnerOf(s: Spent): Owner { s.owner }

  function TenantOf(s: Spent): string { s.owner.1 }

  function UnexpiredAt(now: real): Spent -> bool { (s: Spent) => s.exp > now }

  function OwnerCount(l: seq<Spent>, o: Owner): nat { Tally(l, OwnerOf, o) }

  function TenantCount(l: seq<Spent>, t: string): nat { Tally(l, TenantOf, t) }

  // ---------------------------------------------------------------------------
  // One call, on the ledger of spent tokens ordered by expiry
  // ---------------------------------------------------------------------------

  predicate Genuine(c: Call) {
    && c.claims.Some?
    && var k := c.claims.value;
       && k.exp.Some? && k.exp.value > c.now
       && k.principal == Some(c.principal) && k.tenant == Some(c.tenant) && k.request == Some(c.request)
       && k.payload.Some?
  }

  predicate HasJti(c: Call) {
    c.claims.Some? && c.claims.value.jti.Some? && c.claims.value.jti.value != ""
  }

  predicate Full(l: seq<Spent>, o: Owner) {
    var mine, inTenant, total := OwnerCount(l, o), TenantCount(l, o.1), |l|;
    || mine >= MAX_SPENT_PER_OWNER
    || (inTenant >= MAX_SPENT_PER_TENANT
        && (mine >= OWNER_FLOOR || inTenant >= 2 * MAX_SPENT_PER_TENANT))
    || (total >= MAX_SPENT_ENTRIES && (mine >= OWNER_FLOOR || total >= 2 * MAX_SPENT_ENTRIES))
  }

  function Insert(l: seq<Spent>, s: Spent): seq<Spent> {
    if l == [] || l[|l| - 1].exp <= s.exp then l + [s]
    else Insert(l[..|l| - 1], s) + [l[|l| - 1]]
  }

  predicate Knows(l: seq<Spent>, jti: string) {
    exists i :: 0 <= i < |l| && l[i].jti == jti
  }

  function Spend(c: Call): Spent
    requires Genuine(c) && HasJti(c)
  {
    Spent(c.claims.value.exp.value, c.claims.value.jti.value, (c.principal, c.tenant))
  }

  function Step(l: seq<Spent>, c: Call): (seq<Spent>, Outcome) {
    if !Genuine(c) || !HasJti(c) then (l, Invalid)
    else
      var live := Keep(l, UnexpiredAt(c.now));
      var s := Spend(c);
      if Knows(live, s.jti) then (live, Replayed)
      else if Full(live, s.owner) then (live, CacheFull)
      else (Insert(live, s), Accepted(c.claims.value.payload.value))
  }

  ghost predicate Ledger(l: seq<Spent>) {
    && (forall i, j :: 0 <= i < j < |l| ==> l[i].exp <= l[j].exp)
    && (forall i, j :: 0 <= i < j < |l| ==> l[i].jti != l[j].jti)
  }

  lemma {:induction false} InsertMembers(l: seq<Spent>, s: Spent)
    ensures |Insert(l, s)| == |l| + 1
    ensures forall x :: x in Insert(l, s) <==> x in l || x == s
  {
    if l != [] {
      var n := |l| - 1;
      assert l == l[..n] + [l[n]];
      InsertMembers(l[..n], s);
    }
  }

  lemma {:induction false} LedgerSnoc(l: seq<Spent>, s: Spent)
    requires Ledger(l) && forall x :: x in l ==> x.exp <= s.exp && x.jti != s.jti
    ensures Ledger(l + [s])
  {
  }

  lemma {:induction false} LedgerInit(l: seq<Spent>)
    requires Ledger(l) && l != []
    ensures Ledger(l[..|l| - 1])
    ensures forall x :: x in l[..|l| - 1] ==> x.exp <= l[|l| - 1].exp && x.jti != l[|l| - 1].jti
  {
  }

  lemma {:induction false} KnowsInit(l: seq<Spent>, jti: string)
    requires !Knows(l, jti)
    ensures forall x :: x in l ==> x.jti != jti
    ensures l != [] ==> !Knows(l[..|l| - 1], jti)
  {
  }

  lemma {:induction false} InsertLedger(l: seq<Spent>, s: Spent)
    requires Ledger(l) && !Knows(l, s.jti)
    ensures Ledger(Insert(l, s))
  {
    hide Ledger, Knows;
    KnowsInit(l, s.jti);
    if l == [] {
      EmptyLedger();
      LedgerSnoc(l, s);
    } else {
      var n := |l| - 1;
      LedgerInit(l);
      assert l == l[..n] + [l[n]];
      if l[n].exp <= s.exp {
        LedgerSnoc(l, s);
      } else {
        InsertLedger(l[..n], s);
        InsertMembers(l[..n], s);
        LedgerSnoc(Insert(l[..n], s), l[n]);
      }
    }
  }

  lemma EmptyLedger()
    ensures Ledger([])
  {
  }

  lemma {:induction false} KeepLedger(l: seq<Spent>, now: real)
    requires Ledger(l)
    ensures Ledger(Keep(l, UnexpiredAt(now)))
  {
    hide Ledger;
    if l == [] {
      EmptyLedger();
      KeepEmpty(l, UnexpiredAt(now));
    } else {
      var n := |l| - 1;
      LedgerInit(l);
      KeepLedger(l[..n], now);
      if l[n].exp > now {
        LedgerSnoc(Keep(l[..n], UnexpiredAt(now)), l[n]);
      } else {
        assert Keep(l, UnexpiredAt(now)) == Keep(l[..n], UnexpiredAt(now));
      }
    }
  }

  lemma {:induction false} InsertTally<K>(l: seq<Spent>, s: Spent, key: Spent -> K, k: K)
    ensures Tally(Insert(l, s), key, k) == Tally(l, key, k) + (if key(s) == k then 1 else 0)
  {
    TallySnoc(l, s, key, k);
    if l != [] && l[|l| - 1].exp > s.exp {
      var n := |l| - 1;
      InsertTally(l[..n], s, key, k);
      TallySnoc(Insert(l[..n], s), l[n], key, k);
    }
  }

  // ---------------------------------------------------------------------------
  // Runs
  // ---------------------------------------------------------------------------

  function Run(cs: seq<Call>): seq<Spent> {
    if cs == [] then [] else Step(Run(cs[..|cs| - 1]), cs[|cs| - 1]).0
  }

  function OutcomeAt(cs: seq<Call>, i: nat): Outcome
    requires i < |cs|
  {
    Step(Run(cs[..i]), cs[i]).1
  }

  ghost predicate Ordered(cs: seq<Call>) {
    forall i, j :: 0 <= i < j < |cs| ==> cs[i].now <= cs[j].now
  }

  /** Each sealed token has its own jti: authenticated claims with one jti are one token's. */
  ghost predicate FreshJtis(cs: seq<Call>) {
    forall i, j :: 0 <= i < |cs| && 0 <= j < |cs| && HasJti(cs[i]) && HasJti(cs[j])
                   && cs[i].claims.value.jti == cs[j].claims.value.jti
                   ==> cs[i].claims == cs[j].claims
  }

  lemma {:induction false} RunLedger(cs: seq<Call>)
    ensures Ledger(Run(cs))
  {
    if cs != [] {
      var n := |cs| - 1;
      RunLedger(cs[..n]);
      if Genuine(cs[n]) && HasJti(cs[n]) {
        var live := Keep(Run(cs[..n]), UnexpiredAt(cs[n].now));
        KeepLedger(Run(cs[..n]), cs[n].now);
        if !Knows(live, Spend(cs[n]).jti) {
          InsertLedger(live, Spend(cs[n]));
        }
      }
    }
  }

  /** A spent token stays in the ledger for as long as it could still be accepted. */
  lemma {:induction false} SpentStays(cs: seq<Call>, i: nat)
    requires Ordered(cs) && i < |cs| && OutcomeAt(cs, i).Accepted?
    ensures Spend(cs[i]).exp > cs[|cs| - 1].now ==> Spend(cs[i]) in Run(cs)
    decreases |cs|
  {
    var n := |cs| - 1;
    var s := Spend(cs[i]);
    var live := Keep(Run(cs[..n]), UnexpiredAt(cs[n].now));
    if i == n {
      InsertMembers(live, s);
    } else if s.exp > cs[n].now {
      assert cs[..n][..i] == cs[..i] && cs[..n][i] == cs[i];
      SpentStays(cs[..n], i);
      assert s in Run(cs[..n]);
      if OutcomeAt(cs, n).Accepted? {
        InsertMembers(live, Spend(cs[n]));
      }
    }
  }

  /** Every later presentation of an accepted token is rejected: it has expired,
      does not match its claims, or is recognised as a replay. */
  lemma ReplayIsRejected(cs: seq<Call>, i: nat, j: nat)
    requires Ordered(cs) && FreshJtis(cs) && i < j < |cs|
    requires OutcomeAt(cs, i).Accepted?
    requires HasJti(cs[j]) && cs[j].claims.value.jti == cs[i].claims.value.jti
    ensures OutcomeAt(cs, j) == if Genuine(cs[j]) then Replayed else Invalid
  {
    var before := cs[..j];
    assert before[..i] == cs[..i] && before[i] == cs[i];
    SpentStays(before, i);
    if Genuine(cs[j]) {
      var s := Spend(cs[i]);
      var live := Keep(Run(before), UnexpiredAt(cs[j].now));
      assert s in live;
      assert Knows(live, s.jti);
    }
  }

  /** No token is accepted twice, over any time-ordered run. */
  lemma AcceptedAtMostOnce(cs: seq<Call>, i: nat, j: nat)
    requires Ordered(cs) && FreshJtis(cs) && i < j < |cs|
    requires OutcomeAt(cs, i).Accepted? && OutcomeAt(cs, j).Accepted?
    ensures cs[i].claims.value.jti != cs[j].claims.value.jti
  {
    if cs[i].claims.value.jti == cs[j].claims.value.jti {
      ReplayIsRejected(cs, i, j);
    }
  }

  /** A genuine token that was not spent before is refused only for capacity. */
  lemma FirstUseIsAccepted(cs: seq<Call>, j: nat)
    requires j < |cs| && Genuine(cs[j]) && HasJti(cs[j])
    requires forall i :: 0 <= i < j && HasJti(cs[i]) && OutcomeAt(cs, i).Accepted? ==>
               cs[i].claims.value.jti != cs[j].claims.value.jti
    ensures OutcomeAt(cs, j).Accepted? || OutcomeAt(cs, j).CacheFull?
  {
    forall s | s in Run(cs[..j])
      ensures Some(s.jti) != cs[j].claims.value.jti
    {
      var i := EverySpentWasAccepted(cs[..j], s);
      assert cs[..j][..i] == cs[..i] && cs[..j][i] == cs[i];
    }
  }

  lemma {:induction false} EverySpentWasAccepted(cs: seq<Call>, s: Spent) returns (i: nat)
    requires s in Run(cs)
    ensures i < |cs| && HasJti(cs[i]) && Genuine(cs[i]) && OutcomeAt(cs, i).Accepted? && Spend(cs[i]) == s
    decreases |cs|
  {
    var n := |cs| - 1;
    if s in Run(cs[..n]) {
      i := EverySpentWasAccepted(cs[..n], s);
      assert cs[..n][..i] == cs[..i] && cs[..n][i] == cs[i];
    } else {
      i := n;
      var live := Keep(Run(cs[..n]), UnexpiredAt(cs[n].now));
      InsertMembers(live, Spend(cs[n]));
    }
  }

  // ---------------------------------------------------------------------------
  // Quotas
  // ---------------------------------------------------------------------------

  ghost predicate WithinQuotas(l: seq<Spent>) {
    && |l| <= 2 * MAX_SPENT_ENTRIES
    && (forall o :: OwnerCount(l, o) <= MAX_SPENT_PER_OWNER)
    && (forall t :: TenantCount(l, t) <= 2 * MAX_SPENT_PER_TENANT)
  }

  lemma KeepWithinQuotas(l: seq<Spent>, p: Spent -> bool)
    requires WithinQuotas(l)
    ensures WithinQuotas(Keep(l, p))
  {
    forall o
      ensures OwnerCount(Keep(l, p), o) <= MAX_SPENT_PER_OWNER
    {
      TallyKeep(l, p, OwnerOf, o);
      assert OwnerCount(l, o) <= MAX_SPENT_PER_OWNER;
    }
    forall t
      ensures TenantCount(Keep(l, p), t) <= 2 * MAX_SPENT_PER_TENANT
    {
      TallyKeep(l, p, TenantOf, t);
      assert TenantCount(l, t) <= 2 * MAX_SPENT_PER_TENANT;
    }
  }

  lemma InsertWithinQuotas(l: seq<Spent>, s: Spent)
    requires WithinQuotas(l) && !Full(l, s.owner)
    ensures WithinQuotas(Insert(l, s))
  {
    InsertMembers(l, s);
    forall o
      ensures OwnerCount(Insert(l, s), o) <= MAX_SPENT_PER_OWNER
    {
      InsertTally(l, s, OwnerOf, o);
      assert OwnerCount(l, o) <= MAX_SPENT_PER_OWNER;
    }
    forall t
      ensures TenantCount(Insert(l, s), t) <= 2 * MAX_SPENT_PER_TENANT
    {
      InsertTally(l, s, TenantOf, t);
      assert TenantCount(l, t) <= 2 * MAX_SPENT_PER_TENANT;
    }
  }

  lemma {:induction false} RunWithinQuotas(cs: seq<Call>)
    ensures WithinQuotas(Run(cs))
  {
    if cs == [] {
      assert forall o :: OwnerCount([], o) == 0;
      assert forall t :: TenantCount([], t) == 0;
    } else {
      var n := |cs| - 1;
      RunWithinQuotas(cs[..n]);
      if Genuine(cs[n]) && HasJti(cs[n]) {
        var live := Keep(Run(cs[..n]), UnexpiredAt(cs[n].now));
        KeepWithinQuotas(Run(cs[..n]), UnexpiredAt(cs[n].now));
        if OutcomeAt(cs, n).Accepted? {
          InsertWithinQuotas(live, Spend(cs[n]));
        }
      }
    }
  }

  lemma BelowFloorNotFull(live: seq<Spent>, o: Owner, others: set<string>)
    requires WithinQuotas(live) && |others| <= 3
    requires forall s :: s in live ==> TenantOf(s) == o.1 || TenantOf(s) in others
    requires OwnerCount(live, o) < OWNER_FLOOR && TenantCount(live, o.1) < 2 * MAX_SPENT_PER_TENANT
    ensures !Full(live, o)
  {
    var rest := Keep(live, KeyIsNot(TenantOf, o.1));
    SplitByKey(live, TenantOf, o.1);
    KeepWithinQuotas(live, KeyIsNot(TenantOf, o.1));
    forall t
      ensures Tally(rest, TenantOf, t) <= 2 * MAX_SPENT_PER_TENANT
    {
      assert TenantCount(rest, t) <= 2 * MAX_SPENT_PER_TENANT;
    }
    SizeByKey(rest, TenantOf, others, 2 * MAX_SPENT_PER_TENANT);
    assert |others| * 500_000 <= 3 * 500_000;
  }

  /** Quota isolation: whatever at most three other tenants do, an owner below the
      floor, in a tenant below its ceiling, is never refused for capacity. */
  lemma FloorIsGuaranteed(cs: seq<Call>, c: Call, others: set<string>)
    requires |others| <= 3
    requires var live := Keep(Run(cs), UnexpiredAt(c.now));
             && (forall s :: s in live ==> TenantOf(s) == c.tenant || TenantOf(s) in others)
             && OwnerCount(live, (c.principal, c.tenant)) < OWNER_FLOOR
             && TenantCount(live, c.tenant) < 2 * MAX_SPENT_PER_TENANT
    ensures !Step(Run(cs), c).1.CacheFull?
  {
    RunWithinQuotas(cs);
    KeepWithinQuotas(Run(cs), UnexpiredAt(c.now));
    BelowFloorNotFull(Keep(Run(cs), UnexpiredAt(c.now)), (c.principal, c.tenant), others);
  }
}

/** What `RequestStateSealer.open` answers with its local single-use cache, in terms of the
    claims, the caller and the earlier acceptances only
    (cosai_mcp/middleware/state.py:268-327). */
module OpenOutcomes {
  import opened Wrappers
  import opened Lists
  import opened ReplayCache

  // ---------------------------------------------------------------------------
  // Live spends: earlier acceptances that have not expired
  // ---------------------------------------------------------------------------

  /** Call `i` was accepted, and its token has not expired at `now`. */
  ghost predicate Spends(cs: seq<Call>, i: nat, now: real) {
    && i < |cs| && OutcomeAt(cs, i).Accepted?
    && cs[i].claims.Some? && cs[i].claims.value.exp.Some? && cs[i].claims.value.exp.value > now
  }

  ghost function LiveSpends(cs: seq<Call>, n: nat, now: real): set<nat> {
    set i: nat | i < n && Spends(cs, i, now)
  }

  ghost function OwnerSpends(cs: seq<Call>, n: nat, now: real, principal: string, tenant: string): set<nat>
    requires n <= |cs|
  {
    set i: nat | i < n && Spends(cs, i, now) && cs[i].principal == principal && cs[i].tenant == tenant
  }

  ghost function TenantSpends(cs: seq<Call>, n: nat, now: real, tenant: string): set<nat>
    requires n <= |cs|
  {
    set i: nat | i < n && Spends(cs, i, now) && cs[i].tenant == tenant
  }

  /** Some live spend is of the same token id. */
  ghost predicate SpentBefore(cs: seq<Call>, n: nat, now: real, jti: string) {
    exists i: nat :: i < n && Spends(cs, i, now) && cs[i].claims.value.jti == Some(jti)
  }

  // ---------------------------------------------------------------------------
  // The ledger holds exactly the live spends
  // ---------------------------------------------------------------------------

  lemma {:induction false} InsertKeepCount(l: seq<Spent>, s: Spent, q: Spent -> bool)
    ensures |Keep(Insert(l, s), q)| == |Keep(l, q)| + (if q(s) then 1 else 0)
  {
    hide Keep;
    KeepSnoc(l, s, q);
    if l != [] && l[|l| - 1].exp > s.exp {
      var n := |l| - 1;
      assert l == l[..n] + [l[n]];
      KeepSnoc(l[..n], l[n], q);
      InsertKeepCount(l[..n], s, q);
      KeepSnoc(Insert(l[..n], s), l[n], q);
    }
  }

  lemma {:induction false} StepKeepCount(l: seq<Spent>, c: Call, q: Spent -> bool)
    requires forall x :: q(x) ==> x.exp > c.now
    ensures |Keep(Step(l, c).0, q)| == |Keep(l, q)| + (if Step(l, c).1.Accepted? && q(Spend(c)) then 1 else 0)
  {
    hide Keep, Insert, Full, Knows;
    KeepKeep(l, UnexpiredAt(c.now), q, q);
    if Step(l, c).1.Accepted? {
      InsertKeepCount(Keep(l, UnexpiredAt(c.now)), Spend(c), q);
    }
  }

  /** Call `i` was accepted with a spend that satisfies `q`. */
  ghost predicate SpendsLike(cs: seq<Call>, i: nat, q: Spent -> bool) {
    i < |cs| && OutcomeAt(cs, i).Accepted? && q(Spend(cs[i]))
  }

  lemma {:induction false} LedgerCount(cs: seq<Call>, now: real, q: Spent -> bool, positions: set<nat>)
    requires Ordered(cs) && (cs != [] ==> cs[|cs| - 1].now <= now)
    requires forall x :: q(x) ==> x.exp > now
    requires forall i: nat :: i in positions <==> SpendsLike(cs, i, q)
    ensures |Keep(Run(cs), q)| == |positions|
    decreases |cs|
  {
    hide Step, Keep, SpendsLike, Run;
    if cs == [] {
      EmptyRun(q);
      NoSpends(q);
      assert positions == {};
    } else {
      var n: nat := |cs| - 1;
      EarlierPositions(cs, q, positions);
      LedgerCount(cs[..n], now, q, positions - {n});
      LastPosition(cs, q);
      StepKeepCount(Run(cs[..n]), cs[n], q);
      assert positions == (positions - {n}) + (if n in positions then {n} else {});
    }
  }

  lemma {:induction false} EarlierPositions(cs: seq<Call>, q: Spent -> bool, positions: set<nat>)
    requires cs != [] && forall i: nat :: i in positions <==> SpendsLike(cs, i, q)
    ensures var n: nat := |cs| - 1;
            forall i: nat :: i in positions - {n} <==> SpendsLike(cs[..n], i, q)
  {
    var n: nat := |cs| - 1;
    forall i: nat
      ensures i in positions - {n} <==> SpendsLike(cs[..n], i, q)
    {
      SpendsInit(cs, i, q);
      assert i in positions ==> i <= n;
    }
  }

  lemma {:induction false} LastPosition(cs: seq<Call>, q: Spent -> bool)
    requires cs != []
    ensures var n := |cs| - 1;
            && (SpendsLike(cs, n, q) <==> Step(Run(cs[..n]), cs[n]).1.Accepted? && q(Spend(cs[n])))
            && Run(cs) == Step(Run(cs[..n]), cs[n]).0
  {
  }

  lemma {:induction false} EmptyRun(q: Spent -> bool)
    ensures Keep(Run([]), q) == []
  {
  }

  lemma {:induction false} NoSpends(q: Spent -> bool)
    ensures forall i: nat :: !SpendsLike([], i, q)
  {
  }

  lemma {:induction false} SpendsInit(cs: seq<Call>, i: nat, q: Spent -> bool)
    requires cs != []
    ensures SpendsLike(cs[..|cs| - 1], i, q) <==> SpendsLike(cs, i, q) && i < |cs| - 1
  {
    if i < |cs| - 1 {
      assert cs[..|cs| - 1][..i] == cs[..i];
    }
  }

  // ---------------------------------------------------------------------------
  // The counts that the caps are about
  // ---------------------------------------------------------------------------

  ghost predicate TimedUpTo(cs: seq<Call>, j: nat) {
    j < |cs| && forall i, k :: 0 <= i < k <= j ==> cs[i].now <= cs[k].now
  }

  lemma {:induction false} PrefixOutcome(cs: seq<Call>, j: nat, i: nat)
    requires i < j <= |cs|
    ensures OutcomeAt(cs[..j], i) == OutcomeAt(cs, i)
  {
    assert cs[..j][..i] == cs[..i];
  }

  lemma {:induction false} CountBefore(cs: seq<Call>, j: nat, q: Spent -> bool, positions: set<nat>)
    requires TimedUpTo(cs, j) && forall x :: q(x) ==> x.exp > cs[j].now
    requires forall i: nat :: i in positions <==> i < j && SpendsLike(cs, i, q)
    ensures |Keep(Run(cs[..j]), q)| == |positions|
  {
    forall i: nat
      ensures i in positions <==> SpendsLike(cs[..j], i, q)
    {
      if i < j {
        PrefixOutcome(cs, j, i);
      }
    }
    LedgerCount(cs[..j], cs[j].now, q, positions);
  }

  lemma {:induction false} LikeLive(cs: seq<Call>, i: nat, now: real, q: Spent -> bool)
    requires i < |cs| && forall x :: q(x) ==> x.exp > now
    ensures SpendsLike(cs, i, q) <==> Spends(cs, i, now) && q(Spend(cs[i]))
  {
  }

  lemma {:induction false} LiveCounted(cs: seq<Call>, j: nat)
    requires TimedUpTo(cs, j)
    ensures |Keep(Run(cs[..j]), UnexpiredAt(cs[j].now))| == |LiveSpends(cs, j, cs[j].now)|
  {
    CountBefore(cs, j, UnexpiredAt(cs[j].now), LiveSpends(cs, j, cs[j].now));
  }

  lemma {:induction false} OwnerCounted(cs: seq<Call>, j: nat, p: string, t: string)
    requires TimedUpTo(cs, j)
    ensures OwnerCount(Keep(Run(cs[..j]), UnexpiredAt(cs[j].now)), (p, t)) == |OwnerSpends(cs, j, cs[j].now, p, t)|
  {
    var now := cs[j].now;
    var q := (s: Spent) => s.exp > now && s.owner == (p, t);
    TallyOfKept(Run(cs[..j]), UnexpiredAt(now), OwnerOf, (p, t), q);
    CountBefore(cs, j, q, OwnerSpends(cs, j, now, p, t));
  }

  lemma {:induction false} TenantCounted(cs: seq<Call>, j: nat, t: string)
    requires TimedUpTo(cs, j)
    ensures TenantCount(Keep(Run(cs[..j]), UnexpiredAt(cs[j].now)), t) == |TenantSpends(cs, j, cs[j].now, t)|
  {
    var now := cs[j].now;
    var q := (s: Spent) => s.exp > now && s.owner.1 == t;
    TallyOfKept(Run(cs[..j]), UnexpiredAt(now), TenantOf, t, q);
    CountBefore(cs, j, q, TenantSpends(cs, j, now, t));
  }

  lemma {:induction false} KnownIffSpent(cs: seq<Call>, j: nat, jti: string)
    requires TimedUpTo(cs, j)
    ensures Knows(Keep(Run(cs[..j]), UnexpiredAt(cs[j].now)), jti) <==> SpentBefore(cs, j, cs[j].now, jti)
  {
    var now := cs[j].now;
    var live := Keep(Run(cs[..j]), UnexpiredAt(now));
    if Knows(live, jti) {
      var k :| 0 <= k < |live| && live[k].jti == jti;
      assert live[k] in live;
      var i := EverySpentWasAccepted(cs[..j], live[k]);
      PrefixOutcome(cs, j, i);
      assert Spends(cs, i, now);
    }
    if i: nat :| i < j && Spends(cs, i, now) && cs[i].claims.value.jti == Some(jti) {
      PrefixOutcome(cs, j, i);
      SpentStays(cs[..j], i);
      assert Spend(cs[i]) in live;
    }
  }

  // ---------------------------------------------------------------------------
  // The answer
  // ---------------------------------------------------------------------------

  /** The claims of the token are this caller's, unexpired, and carry payload `d` and id `jti`. */
  ghost predicate ClaimsFit(c: Call, d: string, jti: string) {
    && c.claims.Some? && c.claims.value.exp.Some? && c.claims.value.exp.value > c.now
    && c.claims.value.principal == Some(c.principal)
    && c.claims.value.tenant == Some(c.tenant)
    && c.claims.value.request == Some(c.request)
    && c.claims.value.payload == Some(d)
    && c.claims.value.jti == Some(jti) && jti != ""
  }

  /** The three caps, on the live spends before call `j`. */
  ghost predicate HasRoom(cs: seq<Call>, j: nat)
    requires j < |cs|
  {
    var mine := |OwnerSpends(cs, j, cs[j].now, cs[j].principal, cs[j].tenant)|;
    var inTenant := |TenantSpends(cs, j, cs[j].now, cs[j].tenant)|;
    var total := |LiveSpends(cs, j, cs[j].now)|;
    && mine < 10_000
    && (inTenant < 250_000 || (mine < 8 && inTenant < 500_000))
    && (total < 1_000_000 || (mine < 8 && total < 2_000_000))
  }

  lemma {:induction false} RoomIsNotFull(cs: seq<Call>, j: nat)
    requires TimedUpTo(cs, j)
    ensures HasRoom(cs, j) <==> !Full(Keep(Run(cs[..j]), UnexpiredAt(cs[j].now)), (cs[j].principal, cs[j].tenant))
  {
    hide Keep, Tally, OwnerSpends, TenantSpends, LiveSpends;
    LiveCounted(cs, j);
    OwnerCounted(cs, j, cs[j].principal, cs[j].tenant);
    TenantCounted(cs, j, cs[j].tenant);
  }

  /** `open` returns the sealed payload exactly when the claims fit the caller, no live spend
      is of the same token, and the caps leave room. Otherwise it refuses: a token whose
      claims do not fit, a replay, or, exactly when there is no room, a full cache. */
  lemma {:induction false} OpenDecides(cs: seq<Call>, j: nat, d: string, jti: string)
    requires TimedUpTo(cs, j)
    ensures ClaimsFit(cs[j], d, jti) ==>
              OutcomeAt(cs, j) == if SpentBefore(cs, j, cs[j].now, jti) then Replayed
                                  else if HasRoom(cs, j) then Accepted(d)
                                  else CacheFull
    ensures OutcomeAt(cs, j) == Invalid <==> !(exists d', jti' :: ClaimsFit(cs[j], d', jti'))
  {
    hide HasRoom, SpentBefore, Full, Keep, Knows, Insert;
    RoomIsNotFull(cs, j);
    KnownIffSpent(cs, j, jti);
    FitIsGenuine(cs[j]);
  }

  lemma {:induction false} FitIsGenuine(c: Call)
    ensures (exists d, jti :: ClaimsFit(c, d, jti)) <==> Genuine(c) && HasJti(c)
  {
    if Genuine(c) && HasJti(c) {
      assert ClaimsFit(c, c.claims.value.payload.value, c.claims.value.jti.value);
    }
  }

  /** The same as an equivalence, with fresh token ids: `open` accepts call `j` with payload
      `d` exactly when its claims fit and carry `d`, no earlier call with its id was
      accepted, and the caps leave room. */
  lemma {:induction false} AcceptsIff(cs: seq<Call>, j: nat, d: string)
    requires Ordered(cs) && FreshJtis(cs) && j < |cs|
    ensures OutcomeAt(cs, j) == Accepted(d) <==>
              exists jti ::
                && ClaimsFit(cs[j], d, jti)
                && (forall i :: 0 <= i < j && OutcomeAt(cs, i).Accepted? && cs[i].claims.Some? ==>
                      cs[i].claims.value.jti != Some(jti))
                && HasRoom(cs, j)
  {
    var c := cs[j];
    if exists d', jti' :: ClaimsFit(c, d', jti') {
      var d', jti :| ClaimsFit(c, d', jti);
      OpenDecides(cs, j, d', jti);
      EarlierIsLive(cs, j, d', jti);
    } else {
      OpenDecides(cs, j, d, "");
    }
  }

  lemma {:induction false} EarlierIsLive(cs: seq<Call>, j: nat, d: string, jti: string)
    requires FreshJtis(cs) && j < |cs| && ClaimsFit(cs[j], d, jti)
    ensures SpentBefore(cs, j, cs[j].now, jti) <==>
              exists i :: 0 <= i < j && OutcomeAt(cs, i).Accepted? && cs[i].claims.Some?
                          && cs[i].claims.value.jti == Some(jti)
  {
    if i :| 0 <= i < j && OutcomeAt(cs, i).Accepted? && cs[i].claims.Some? && cs[i].claims.value.jti == Some(jti) {
      assert HasJti(cs[i]) && HasJti(cs[j]);
      assert cs[i].claims == cs[j].claims;
      assert Spends(cs, i, cs[j].now);
    }
  }

  /** A cache is full exactly when a fitting token, not spent before, finds no room. */
  lemma {:induction false} CacheFullIff(cs: seq<Call>, j: nat)
    requires Ordered(cs) && FreshJtis(cs) && j < |cs|
    ensures OutcomeAt(cs, j) == CacheFull <==>
              exists d, jti ::
                && ClaimsFit(cs[j], d, jti)
                && (forall i :: 0 <= i < j && OutcomeAt(cs, i).Accepted? && cs[i].claims.Some? ==>
                      cs[i].claims.value.jti != Some(jti))
                && !HasRoom(cs, j)
  {
    var c := cs[j];
    if exists d, jti :: ClaimsFit(c, d, jti) {
      var d, jti :| ClaimsFit(c, d, jti);
      OpenDecides(cs, j, d, jti);
      EarlierIsLive(cs, j, d, jti);
    } else {
      OpenDecides(cs, j, "", "");
    }
  }
}

/** What the handle registry answers, in plain numbers
    (cosai_mcp/middleware/state.py:416-470): the limits of `mint` on the live records, and
    what a handle is good for on the history of calls. */
module HandleAnswers {
  import opened Wrappers
  import opened Lists
  import opened HandleSpec
  import opened HandleRuns

  // ---------------------------------------------------------------------------
  // Counting live records, by their positions in the table
  // ---------------------------------------------------------------------------

  ghost function LivePositions(rs: seq<HandleRecord>, now: real): set<nat> {
    set i: nat | i < |rs| && now < rs[i].expiresAt
  }

  ghost function OwnedPositions(rs: seq<HandleRecord>, now: real, principal: string, tenant: string): set<nat> {
    set i: nat | i < |rs| && now < rs[i].expiresAt && rs[i].principal == principal && rs[i].tenant == tenant
  }

  ghost function TenantPositions(rs: seq<HandleRecord>, now: real, tenant: string): set<nat> {
    set i: nat | i < |rs| && now < rs[i].expiresAt && rs[i].tenant == tenant
  }

  lemma {:induction false} LiveCounted(rs: seq<HandleRecord>, now: real)
    ensures |Live(rs, now)| == |LivePositions(rs, now)|
  {
    KeepCount(rs, AliveAt(now), LivePositions(rs, now));
  }

  lemma {:induction false} OwnedCounted(rs: seq<HandleRecord>, now: real, p: string, t: string)
    ensures OwnerCount(Live(rs, now), (p, t)) == |OwnedPositions(rs, now, p, t)|
  {
    hide Tally, Keep;
    var f := (r: HandleRecord) => now < r.expiresAt && r.principal == p && r.tenant == t;
    TallyOfKept(rs, AliveAt(now), OwnerOf, (p, t), f);
    KeepCount(rs, f, OwnedPositions(rs, now, p, t));
  }

  lemma {:induction false} TenantCounted(rs: seq<HandleRecord>, now: real, t: string)
    ensures TenantCount(Live(rs, now), t) == |TenantPositions(rs, now, t)|
  {
    hide Tally, Keep;
    var f := (r: HandleRecord) => now < r.expiresAt && r.tenant == t;
    TallyOfKept(rs, AliveAt(now), TenantOf, t, f);
    KeepCount(rs, f, TenantPositions(rs, now, t));
  }

  // ---------------------------------------------------------------------------
  // mint
  // ---------------------------------------------------------------------------

  ghost predicate GoodCall(cfg: Config, principal: string, tenant: string, ttl: int) {
    principal != "" && tenant != "" && 0 < ttl <= cfg.maxTtl
  }

  ghost predicate RegistryHasRoom(cfg: Config, rs: seq<HandleRecord>, now: real, principal: string, tenant: string) {
    var n, mine := |LivePositions(rs, now)|, |OwnedPositions(rs, now, principal, tenant)|;
    n < cfg.max || (mine < 8 && n < 2 * cfg.max)
  }

  ghost predicate PrincipalHasRoom(cfg: Config, rs: seq<HandleRecord>, now: real, principal: string, tenant: string) {
    |OwnedPositions(rs, now, principal, tenant)| < cfg.maxPerPrincipal
  }

  ghost predicate TenantHasRoom(cfg: Config, rs: seq<HandleRecord>, now: real, principal: string, tenant: string) {
    var mine, inTenant := |OwnedPositions(rs, now, principal, tenant)|, |TenantPositions(rs, now, tenant)|;
    inTenant < cfg.maxPerTenant || (mine < 8 && inTenant < 2 * cfg.maxPerTenant)
  }

  /** `mint` succeeds exactly when the arguments are good and the registry, the principal and
      the tenant have room among the live records; the first of them that has none names
      the refusal. Expired records in the table make no difference. */
  lemma {:induction false} MintDecides(cfg: Config, s: Registry, now: real, p: string, t: string, kind: string,
                                       ttl: int, h: string)
    ensures LazyStep(cfg, s, now, Mint(p, t, kind, ttl, h)).1 == MintAnswer(
              if p == "" || t == "" then MissingIdentity
              else if ttl <= 0 || ttl > cfg.maxTtl then BadTtl
              else if !RegistryHasRoom(cfg, s.records, now, p, t) then RegistryFull
              else if !PrincipalHasRoom(cfg, s.records, now, p, t) then PrincipalLimit
              else if !TenantHasRoom(cfg, s.records, now, p, t) then TenantLimit
              else Minted(h))
  {
    LiveCounted(s.records, now);
    OwnedCounted(s.records, now, p, t);
    TenantCounted(s.records, now, t);
    hide Live, MakeRoom, OwnerCount, TenantCount;
    MakeRoomRefines(cfg, s, (p, t), now);
  }

  /** What `mint` leaves behind: on success one new record, for the caller, that expires
      `ttl` seconds from now; otherwise none. No live record goes, and none but the new
      one comes. */
  lemma {:induction false} MintIssues(cfg: Config, s: Registry, now: real, p: string, t: string, kind: string,
                                      ttl: int, h: string, r: HandleRecord)
    requires now < r.expiresAt
    ensures var (s', a) := LazyStep(cfg, s, now, Mint(p, t, kind, ttl, h));
            r in s'.records <==>
              || r in s.records
              || (a == MintAnswer(Minted(h)) && r == HandleRecord(h, p, t, kind, now, now + ttl as real))
  {
    hide MakeRoom, Live;
    MakeRoomRefines(cfg, s, (p, t), now);
    LiveMembers(s, MakeRoom(cfg, s, (p, t), now).0, now, r);
  }

  /** Over whole runs: event `i` is answered `Minted` exactly under those conditions. */
  lemma {:induction false} RunMintsIff(cfg: Config, es: seq<Timed>, i: nat)
    requires i < |es| && es[i].event.Mint?
    ensures var e, rs := es[i].event, LazyRun(cfg, es[..i]).records;
            LazyAnswer(cfg, es, i) == MintAnswer(Minted(e.newHandle)) <==>
              && GoodCall(cfg, e.principal, e.tenant, e.ttl)
              && RegistryHasRoom(cfg, rs, es[i].now, e.principal, e.tenant)
              && PrincipalHasRoom(cfg, rs, es[i].now, e.principal, e.tenant)
              && TenantHasRoom(cfg, rs, es[i].now, e.principal, e.tenant)
  {
    var e := es[i].event;
    MintDecides(cfg, LazyRun(cfg, es[..i]), es[i].now, e.principal, e.tenant, e.kind, e.ttl, e.newHandle);
  }

  // ---------------------------------------------------------------------------
  // resolve, on the history of calls
  // ---------------------------------------------------------------------------

  /** Call `i` minted `h` for this caller, and it has not expired by `now`. */
  ghost predicate MintedFor(cfg: Config, es: seq<Timed>, i: nat, now: real, h: string, p: string, t: string,
                            wanted: Option<string>)
  {
    && i < |es| && es[i].event.Mint?
    && LazyAnswer(cfg, es, i) == MintAnswer(Minted(h)) && es[i].event.newHandle == h
    && es[i].event.principal == p && es[i].event.tenant == t
    && (wanted == None || wanted == Some(es[i].event.kind))
    && now < es[i].now + es[i].event.ttl as real
  }

  /** The calls that take `h` away from its owner. */
  ghost predicate TakesAway(e: Event, h: string, p: string, t: string) {
    || e == Revoke(Some(h), p, t)
    || e == AdminRevoke(Some(h))
    || e == RevokePrincipal(p, None)
    || e == RevokePrincipal(p, Some(t))
  }

  /** After any run, `resolve` succeeds exactly when an earlier `mint` returned this handle
      to this principal and tenant, it has not expired, its kind is the wanted one, and
      neither its owner nor an operator has taken it away since. */
  lemma {:induction false} ResolveIffMinted(cfg: Config, es: seq<Timed>, now: real, h: string, p: string, t: string,
                                            wanted: Option<string>)
    requires Clocked(es, now)
    ensures var a := LazyStep(cfg, LazyRun(cfg, es), now, Resolve(Some(h), p, t, wanted)).1;
            && (a != Denied <==>
                  && |h| <= 256
                  && exists i: nat :: MintedFor(cfg, es, i, now, h, p, t, wanted)
                                      && forall j :: i < j < |es| ==> !TakesAway(es[j].event, h, p, t))
  {
    ResolveIffGranted(cfg, es, now, Some(h), p, t, wanted);
    var a := LazyStep(cfg, LazyRun(cfg, es), now, Resolve(Some(h), p, t, wanted)).1;
    if a != Denied {
      GrantedWasMinted(cfg, es, now, a.record, wanted);
    }
    if |h| <= 256 {
      if i: nat :| MintedFor(cfg, es, i, now, h, p, t, wanted)
                   && forall j :: i < j < |es| ==> !TakesAway(es[j].event, h, p, t) {
        MintedIsGranted(cfg, es, i, now, h, p, t, wanted);
      }
    }
  }

  lemma {:induction false} GrantedWasMinted(cfg: Config, es: seq<Timed>, now: real, r: HandleRecord,
                                            wanted: Option<string>)
    requires Clocked(es, now) && Granted(cfg, es, r) && now < r.expiresAt && |r.handle| <= 256
    requires wanted == None || wanted == Some(r.kind)
    ensures exists i: nat :: MintedFor(cfg, es, i, now, r.handle, r.principal, r.tenant, wanted)
                             && forall j :: i < j < |es| ==> !TakesAway(es[j].event, r.handle, r.principal, r.tenant)
  {
    hide LazyAnswer, FreshHandles;
    var i: nat :| IssuedAt(cfg, es, i, r) && UncoveredSince(es, i, r);
    assert MintedFor(cfg, es, i, now, r.handle, r.principal, r.tenant, wanted);
    forall j | i < j < |es|
      ensures !TakesAway(es[j].event, r.handle, r.principal, r.tenant)
    {
      assert !Covers(es[j], r) && es[j].now <= now;
    }
  }

  lemma {:induction false} MintedIsGranted(cfg: Config, es: seq<Timed>, i: nat, now: real, h: string, p: string,
                                           t: string, wanted: Option<string>)
    requires Clocked(es, now) && MintedFor(cfg, es, i, now, h, p, t, wanted)
    requires forall j :: i < j < |es| ==> !TakesAway(es[j].event, h, p, t)
    ensures var r := HandleRecord(h, p, t, es[i].event.kind, es[i].now, es[i].now + es[i].event.ttl as real);
            Granted(cfg, es, r)
  {
    var r := HandleRecord(h, p, t, es[i].event.kind, es[i].now, es[i].now + es[i].event.ttl as real);
    assert IssuedAt(cfg, es, i, r);
    forall j | i < j < |es|
      ensures !Covers(es[j], r)
    {
      assert !TakesAway(es[j].event, h, p, t);
    }
    assert UncoveredSince(es, i, r);
  }

  // ---------------------------------------------------------------------------
  // Listing and revoking
  // ---------------------------------------------------------------------------

  ghost predicate IsOf(r: HandleRecord, principal: string, within: Option<string>) {
    r.principal == principal && (within == None || within == Some(r.tenant))
  }

  lemma {:induction false} ListDecides(cfg: Config, s: Registry, now: real, p: string, within: Option<string>)
    ensures var a := LazyStep(cfg, s, now, ListFor(p, within)).1;
            a.Listing? && forall r :: r in a.records <==> r in s.records && now < r.expiresAt && IsOf(r, p, within)
  {
  }

  /** `revoke_principal` takes all records of the principal and nobody else's. */
  lemma {:induction false} RevokePrincipalDecides(cfg: Config, s: Registry, now: real, p: string,
                                                  within: Option<string>)
    ensures var (s', a) := LazyStep(cfg, s, now, RevokePrincipal(p, within));
            && a.Listing?
            && (forall r :: r in a.records <==> r in s.records && IsOf(r, p, within))
            && (forall r :: r in s'.records <==> r in s.records && !IsOf(r, p, within))
  {
  }

  /** `admin_revoke` takes the record of the handle, whoever owns it, and no other. */
  lemma {:induction false} AdminRevokeDecides(cfg: Config, s: Registry, now: real, h: string)
    ensures var (s', a) := LazyStep(cfg, s, now, AdminRevoke(Some(h)));
            && a == Revoked(exists r :: r in s.records && r.handle == h)
            && (forall r :: r in s'.records <==> r in s.records && r.handle != h)
  {
  }

  /** `revoke` takes the record of the handle exactly when it is live and the caller's. */
  lemma {:induction false} RevokeDecides(cfg: Config, s: Registry, now: real, h: string, p: string, t: string)
    requires DistinctHandles(s.records)
    ensures var (s', a) := LazyStep(cfg, s, now, Revoke(Some(h), p, t));
            && (a == Revoked(true) || a == Denied)
            && (a == Revoked(true) <==>
                  |h| <= 256
                  && exists r :: r in s.records && r.handle == h && now < r.expiresAt
                                 && r.principal == p && r.tenant == t)
            && (a == Revoked(true) ==> forall r :: r in s'.records <==> r in s.records && r.handle != h)
            && (a == Denied ==> forall r: HandleRecord :: now < r.expiresAt ==> (r in s'.records <==> r in s.records))
  {
    if r :| r in s.records && r.handle == h {
      assert Find(s.records, h) == Some(r);
    }
  }
}

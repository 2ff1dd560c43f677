/** Server-held references: what a handle registry answers
    (cosai_mcp/middleware/state.py:334-505).

    `LazyStep` is the registry of the program: it keeps expired records until a
    purge that runs at most once a second. `EagerStep` is the simple registry
    that forgets a record the moment it expires. The lemmas relate the two over
    whole runs, and relate both to the history of mints and revocations. */
module HandleSpec {
  import opened Wrappers
  import opened Lists

  const OWNER_FLOOR := 8
  const MAX_HANDLE_CHARS := 256

  datatype HandleRecord = HandleRecord(
    handle: string, principal: string, tenant: string, kind: string,
    createdAt: real, expiresAt: real)

  type Owner = (string, string)

  function OwnerOf(r: HandleRecord): Owner { (r.principal, r.tenant) }

  function TenantOf(r: HandleRecord): string { r.tenant }

  datatype Config = Config(max: int, maxPerPrincipal: int, maxPerTenant: int, maxTtl: int)

  /** The records in the order they were minted, and the time of the next sweep. */
  datatype Registry = Registry(records: seq<HandleRecord>, nextPurge: real)

  datatype MintResult =
    | Minted(handle: string)
    | MissingIdentity
    | BadTtl
    | RegistryFull
    | PrincipalLimit
    | TenantLimit

  datatype Event =
    | Mint(principal: string, tenant: string, kind: string, ttl: int, newHandle: string)
    | Resolve(handle: Option<string>, principal: string, tenant: string, wanted: Option<string>)
    | Revoke(handle: Option<string>, principal: string, tenant: string)
    | AdminRevoke(handle: Option<string>)
    | RevokePrincipal(principal: string, within: Option<string>)
    | ListFor(principal: string, within: Option<string>)

  datatype Answer =
    | MintAnswer(result: MintResult)
    | Found(record: HandleRecord)
    | Denied
    | Revoked(done: bool)
    | Listing(records: seq<HandleRecord>)

  // ---------------------------------------------------------------------------
  // Views of the record table
  // ---------------------------------------------------------------------------

  function AliveAt(now: real): HandleRecord -> bool { (r: HandleRecord) => r.expiresAt > now }

  function ExpiredAt(now: real): HandleRecord -> bool { (r: HandleRecord) => r.expiresAt <= now }

  function Live(records: seq<HandleRecord>, now: real): seq<HandleRecord> {
    Keep(records, AliveAt(now))
  }

  function Other(handle: string): HandleRecord -> bool { (r: HandleRecord) => r.handle != handle }

  function OwnedBy(principal: string, within: Option<string>): HandleRecord -> bool {
    (r: HandleRecord) => r.principal == principal && (within.None? || r.tenant == within.value)
  }

  function NotOwnedBy(principal: string, within: Option<string>): HandleRecord -> bool {
    (r: HandleRecord) => !(r.principal == principal && (within.None? || r.tenant == within.value))
  }

  /** Dictionary lookup. */
  function Find(records: seq<HandleRecord>, handle: string): (r: Option<HandleRecord>)
    ensures r.Some? ==> r.value in records && r.value.handle == handle
    ensures r.None? ==> forall x :: x in records ==> x.handle != handle
  {
    if records == [] then None
    else
      var x := records[|records| - 1];
      if x.handle == handle then Some(x) else Find(records[..|records| - 1], handle)
  }

  ghost predicate DistinctHandles(records: seq<HandleRecord>) {
    forall x, y :: x in records && y in records && x.handle == y.handle ==> x == y
  }

  function OwnerCount(records: seq<HandleRecord>, o: Owner): nat { Tally(records, OwnerOf, o) }

  function TenantCount(records: seq<HandleRecord>, t: string): nat { Tally(records, TenantOf, t) }

  // ---------------------------------------------------------------------------
  // Capacity rules, shared by both registries
  // ---------------------------------------------------------------------------

  predicate GlobalFull(cfg: Config, records: seq<HandleRecord>, o: Owner) {
    |records| >= cfg.max && (OwnerCount(records, o) >= OWNER_FLOOR || |records| >= 2 * cfg.max)
  }

  predicate PrincipalFull(cfg: Config, records: seq<HandleRecord>, o: Owner) {
    OwnerCount(records, o) >= cfg.maxPerPrincipal
  }

  predicate TenantFull(cfg: Config, records: seq<HandleRecord>, o: Owner) {
    TenantCount(records, o.1) >= cfg.maxPerTenant
    && (OwnerCount(records, o) >= OWNER_FLOOR || TenantCount(records, o.1) >= 2 * cfg.maxPerTenant)
  }

  function Refusal(cfg: Config, records: seq<HandleRecord>, o: Owner): Option<MintResult> {
    if GlobalFull(cfg, records, o) then Some(RegistryFull)
    else if PrincipalFull(cfg, records, o) then Some(PrincipalLimit)
    else if TenantFull(cfg, records, o) then Some(TenantLimit)
    else None
  }

  function BadArguments(cfg: Config, principal: string, tenant: string, ttl: int): Option<MintResult> {
    if principal == "" || tenant == "" then Some(MissingIdentity)
    else if !(0 < ttl <= cfg.maxTtl) then Some(BadTtl)
    else None
  }

  function NewRecord(e: Event, now: real): HandleRecord
    requires e.Mint?
  {
    HandleRecord(e.newHandle, e.principal, e.tenant, e.kind, now, now + e.ttl as real)
  }

  /** May this caller use record `r`? */
  predicate Authorizes(r: HandleRecord, principal: string, tenant: string, wanted: Option<string>) {
    principal == r.principal && tenant == r.tenant && (wanted.None? || r.kind == wanted.value)
  }

  predicate Usable(handle: Option<string>) { handle.Some? && |handle.value| <= MAX_HANDLE_CHARS }

  // ---------------------------------------------------------------------------
  // The eager registry: the state is the live records
  // ---------------------------------------------------------------------------

  function EagerStep(cfg: Config, held: seq<HandleRecord>, now: real, e: Event): (seq<HandleRecord>, Answer) {
    var live := Live(held, now);
    match e
    case Mint(principal, tenant, kind, ttl, newHandle) =>
      var bad := BadArguments(cfg, principal, tenant, ttl);
      if bad.Some? then (live, MintAnswer(bad.value))
      else
        var why := Refusal(cfg, live, (principal, tenant));
        if why.Some? then (live, MintAnswer(why.value))
        else (live + [NewRecord(e, now)], MintAnswer(Minted(newHandle)))
    case Resolve(handle, principal, tenant, wanted) =>
      (live, EagerLookup(live, handle, principal, tenant, wanted))
    case Revoke(handle, principal, tenant) =>
      var found := EagerLookup(live, handle, principal, tenant, None);
      if found.Found? then (Keep(live, Other(found.record.handle)), Revoked(true)) else (live, Denied)
    case AdminRevoke(handle) =>
      if handle.Some? then (Keep(live, Other(handle.value)), Revoked(Find(live, handle.value).Some?))
      else (live, Revoked(false))
    case RevokePrincipal(principal, within) =>
      (Keep(live, NotOwnedBy(principal, within)), Listing(Keep(live, OwnedBy(principal, within))))
    case ListFor(principal, within) =>
      (live, Listing(Keep(live, OwnedBy(principal, within))))
  }

  function EagerLookup(live: seq<HandleRecord>, handle: Option<string>, principal: string, tenant: string,
                       wanted: Option<string>): Answer
  {
    if !Usable(handle) then Denied
    else
      match Find(live, handle.value)
      case None => Denied
      case Some(r) => if Authorizes(r, principal, tenant, wanted) then Found(r) else Denied
  }

  // ---------------------------------------------------------------------------
  // The lazy registry
  // ---------------------------------------------------------------------------

  function Purge(s: Registry, now: real, force: bool): Registry {
    if !force && now < s.nextPurge then s else Registry(Live(s.records, now), now + 1.0)
  }

  function Drop(s: Registry, handle: string): Registry {
    s.(records := Keep(s.records, Other(handle)))
  }

  /** A forced sweep when a cap is pressed. */
  function Relieve(s: Registry, pressed: bool, now: real): Registry {
    if pressed then Purge(s, now, true) else s
  }

  /** The purges and cap checks of `mint`, in its order. */
  function MakeRoom(cfg: Config, s: Registry, o: Owner, now: real): (Registry, Option<MintResult>) {
    var s1 := Purge(s, now, false);
    var s2 := Relieve(s1, |s1.records| >= cfg.max, now);
    if GlobalFull(cfg, s2.records, o) then (s2, Some(RegistryFull))
    else
      var s3 := Relieve(s2, PrincipalFull(cfg, s2.records, o), now);
      if PrincipalFull(cfg, s3.records, o) then (s3, Some(PrincipalLimit))
      else
        var s4 := Relieve(s3, TenantCount(s3.records, o.1) >= cfg.maxPerTenant, now);
        if TenantFull(cfg, s4.records, o) then (s4, Some(TenantLimit)) else (s4, None)
  }

  function LazyLookup(s: Registry, now: real, handle: Option<string>, principal: string, tenant: string,
                      wanted: Option<string>): (Registry, Answer)
  {
    if !Usable(handle) then (s, Denied)
    else
      match Find(s.records, handle.value)
      case None => (s, Denied)
      case Some(r) =>
        if r.expiresAt <= now then (Drop(s, handle.value), Denied)
        else if Authorizes(r, principal, tenant, wanted) then (s, Found(r))
        else (s, Denied)
  }

  function LazyStep(cfg: Config, s: Registry, now: real, e: Event): (Registry, Answer) {
    match e
    case Mint(principal, tenant, kind, ttl, newHandle) =>
      var bad := BadArguments(cfg, principal, tenant, ttl);
      if bad.Some? then (s, MintAnswer(bad.value))
      else
        var (s', why) := MakeRoom(cfg, s, (principal, tenant), now);
        if why.Some? then (s', MintAnswer(why.value))
        else (s'.(records := s'.records + [NewRecord(e, now)]), MintAnswer(Minted(newHandle)))
    case Resolve(handle, principal, tenant, wanted) =>
      LazyLookup(s, now, handle, principal, tenant, wanted)
    case Revoke(handle, principal, tenant) =>
      var (s', found) := LazyLookup(s, now, handle, principal, tenant, None);
      if found.Found? then (Drop(s', found.record.handle), Revoked(true)) else (s', Denied)
    case AdminRevoke(handle) =>
      if handle.Some? then (Drop(s, handle.value), Revoked(Find(s.records, handle.value).Some?))
      else (s, Revoked(false))
    case RevokePrincipal(principal, within) =>
      (s.(records := Keep(s.records, NotOwnedBy(principal, within))),
       Listing(Keep(s.records, OwnedBy(principal, within))))
    case ListFor(principal, within) =>
      var s' := Purge(s, now, true);
      (s', Listing(Keep(s'.records, OwnedBy(principal, within))))
  }

  // ---------------------------------------------------------------------------
  // One step
  // ---------------------------------------------------------------------------

  /** The table still holds a record of the handle that has expired. */
  predicate HoldsExpired(s: Registry, handle: Option<string>, now: real) {
    && handle.Some? && Find(s.records, handle.value).Some?
    && Find(s.records, handle.value).value.expiresAt <= now
  }

  /** The answers a caller sees agree, `s` being the lazy table that was asked. Only the
      two operator revocations still show records that have expired but were not swept:
      `revoke_principal` lists them beside the live ones, and `admin_revoke` says true
      where the eager registry says false exactly for a handle of such a record. */
  predicate Agree(e: Event, s: Registry, now: real, lazy: Answer, eager: Answer) {
    match e
    case RevokePrincipal(_, _) =>
      lazy.Listing? && eager.Listing? && eager.records == Live(lazy.records, now)
    case AdminRevoke(handle) =>
      lazy.Revoked? && eager == Revoked(lazy.done && !HoldsExpired(s, handle, now))
      && (HoldsExpired(s, handle, now) ==> lazy.done)
    case _ => lazy == eager
  }

  /** The lazy table stands for the eager one at time `now`. */
  ghost predicate Represents(s: Registry, held: seq<HandleRecord>, now: real) {
    Live(s.records, now) == Live(held, now) && DistinctHandles(s.records)
  }

  lemma {:induction false} LiveLater(records: seq<HandleRecord>, now: real, later: real)
    requires now <= later
    ensures Live(Live(records, now), later) == Live(records, later)
  {
    KeepKeep(records, AliveAt(now), AliveAt(later), AliveAt(later));
  }

  lemma {:induction false} RepresentsLater(s: Registry, held: seq<HandleRecord>, now: real, later: real)
    requires Represents(s, held, now) && now <= later
    ensures Represents(s, held, later)
  {
    LiveLater(s.records, now, later);
    LiveLater(held, now, later);
  }

  /** Filters commute. */
  lemma {:induction false} KeepCommutes(s: seq<HandleRecord>, p: HandleRecord -> bool, q: HandleRecord -> bool)
    ensures Keep(Keep(s, p), q) == Keep(Keep(s, q), p)
  {
    KeepKeep(s, p, q, x => p(x) && q(x));
    KeepKeep(s, q, p, x => p(x) && q(x));
  }

  lemma {:induction false} LiveLive(records: seq<HandleRecord>, now: real)
    ensures Live(Live(records, now), now) == Live(records, now)
  {
    LiveLater(records, now, now);
  }

  lemma {:induction false} FindLive(records: seq<HandleRecord>, handle: string, now: real)
    requires DistinctHandles(records)
    ensures Find(Live(records, now), handle) ==
            match Find(records, handle)
            case Some(r) => (if r.expiresAt > now then Some(r) else None)
            case None => None
  {
  }

  lemma {:induction false} LiveCounts(records: seq<HandleRecord>, o: Owner, now: real)
    ensures |Live(records, now)| <= |records|
    ensures OwnerCount(Live(records, now), o) <= OwnerCount(records, o)
    ensures TenantCount(Live(records, now), o.1) <= TenantCount(records, o.1)
  {
    TallyKeep(records, AliveAt(now), OwnerOf, o);
    TallyKeep(records, AliveAt(now), TenantOf, o.1);
  }

  /** `s'` may have swept expired records of `s`, and nothing else. */
  ghost predicate Swept(s: Registry, s': Registry, now: real) {
    Live(s'.records, now) == Live(s.records, now) && forall x :: x in s'.records ==> x in s.records
  }

  lemma {:induction false} PurgeSweeps(s: Registry, now: real, force: bool)
    ensures Swept(s, Purge(s, now, force), now)
    ensures force ==> Purge(s, now, force).records == Live(s.records, now)
  {
    LiveLive(s.records, now);
  }

  /** Sweeping under pressure settles each cap as the live records alone would. */
  lemma {:induction false} RelieveSettles(cfg: Config, s: Registry, o: Owner, now: real)
    ensures forall pressed :: Swept(s, Relieve(s, pressed, now), now)
    ensures GlobalFull(cfg, Relieve(s, |s.records| >= cfg.max, now).records, o)
            <==> GlobalFull(cfg, Live(s.records, now), o)
    ensures PrincipalFull(cfg, Relieve(s, PrincipalFull(cfg, s.records, o), now).records, o)
            <==> PrincipalFull(cfg, Live(s.records, now), o)
    ensures TenantFull(cfg, Relieve(s, TenantCount(s.records, o.1) >= cfg.maxPerTenant, now).records, o)
            <==> TenantFull(cfg, Live(s.records, now), o)
  {
    PurgeSweeps(s, now, true);
    LiveCounts(s.records, o, now);
  }

  /** The heart of the refinement: purging only under pressure refuses exactly
      what the eager registry refuses, for the same reason. */
  lemma {:induction false} MakeRoomRefines(cfg: Config, s: Registry, o: Owner, now: real)
    ensures var (s', why) := MakeRoom(cfg, s, o, now);
            why == Refusal(cfg, Live(s.records, now), o) && Swept(s, s', now)
  {
    hide Purge, Relieve, GlobalFull, PrincipalFull, TenantFull, Live;
    var s1 := Purge(s, now, false);
    PurgeSweeps(s, now, false);
    RelieveSettles(cfg, s1, o, now);
    var s2 := Relieve(s1, |s1.records| >= cfg.max, now);
    RelieveSettles(cfg, s2, o, now);
    var s3 := Relieve(s2, PrincipalFull(cfg, s2.records, o), now);
    RelieveSettles(cfg, s3, o, now);
  }

  lemma {:induction false} AddRefines(s: Registry, live: seq<HandleRecord>, now: real, r: HandleRecord)
    requires Represents(s, live, now) && Live(live, now) == live
    requires forall x :: x in s.records ==> x.handle != r.handle
    ensures Represents(s.(records := s.records + [r]), live + [r], now)
  {
    KeepSnoc(s.records, r, AliveAt(now));
    KeepSnoc(live, r, AliveAt(now));
  }

  lemma {:induction false} MintRefines(cfg: Config, s: Registry, held: seq<HandleRecord>, now: real, e: Event)
    requires e.Mint? && Represents(s, held, now)
    requires forall x :: x in s.records ==> x.handle != e.newHandle
    ensures var (s', a) := LazyStep(cfg, s, now, e);
            var (held', b) := EagerStep(cfg, held, now, e);
            a == b && Represents(s', held', now)
  {
    LiveLive(held, now);
    if BadArguments(cfg, e.principal, e.tenant, e.ttl).None? {
      MakeRoomRefines(cfg, s, (e.principal, e.tenant), now);
      var (s', why) := MakeRoom(cfg, s, (e.principal, e.tenant), now);
      assert Represents(s', Live(held, now), now);
      if why.None? {
        AddRefines(s', Live(held, now), now, NewRecord(e, now));
      }
    }
  }

  lemma {:induction false} DropRefines(s: Registry, held: seq<HandleRecord>, now: real, handle: string)
    requires Represents(s, held, now)
    ensures Represents(Drop(s, handle), Keep(Live(held, now), Other(handle)), now)
    ensures (exists r :: Find(s.records, handle) == Some(r) && r.expiresAt <= now)
            ==> Represents(Drop(s, handle), held, now)
  {
    KeepCommutes(s.records, AliveAt(now), Other(handle));
    KeepCommutes(Live(held, now), AliveAt(now), Other(handle));
    LiveLive(held, now);
    if exists r :: Find(s.records, handle) == Some(r) && r.expiresAt <= now {
      FindLive(s.records, handle, now);
      KeepAll(Live(s.records, now), Other(handle));
    }
  }

  lemma {:induction false} LookupRefines(s: Registry, held: seq<HandleRecord>, now: real, handle: Option<string>,
                      principal: string, tenant: string, wanted: Option<string>)
    requires Represents(s, held, now)
    ensures var (s', a) := LazyLookup(s, now, handle, principal, tenant, wanted);
            && a == EagerLookup(Live(held, now), handle, principal, tenant, wanted)
            && Represents(s', held, now)
  {
    if Usable(handle) {
      FindLive(s.records, handle.value, now);
      DropRefines(s, held, now, handle.value);
    }
  }

  lemma {:induction false} KeepRefines(s: Registry, held: seq<HandleRecord>, now: real, p: HandleRecord -> bool)
    requires Represents(s, held, now)
    ensures Keep(Live(held, now), p) == Live(Keep(s.records, p), now)
    ensures Represents(s.(records := Keep(s.records, p)), Keep(Live(held, now), p), now)
  {
    KeepCommutes(s.records, AliveAt(now), p);
    KeepCommutes(Live(held, now), AliveAt(now), p);
    LiveLive(held, now);
  }

  /** One step of the lazy registry answers as one step of the eager registry. */
  lemma {:induction false} StepRefines(cfg: Config, s: Registry, held: seq<HandleRecord>, now: real, e: Event)
    requires Represents(s, held, now)
    requires e.Mint? ==> forall x :: x in s.records ==> x.handle != e.newHandle
    ensures var (s', a) := LazyStep(cfg, s, now, e);
            var (held', b) := EagerStep(cfg, held, now, e);
            Agree(e, s, now, a, b) && Represents(s', held', now)
  {
    LiveLive(held, now);
    match e
    case Mint(_, _, _, _, _) =>
      MintRefines(cfg, s, held, now, e);
    case Resolve(handle, principal, tenant, wanted) =>
      LookupRefines(s, held, now, handle, principal, tenant, wanted);
    case Revoke(handle, principal, tenant) =>
      LookupRefines(s, held, now, handle, principal, tenant, None);
      var (s', found) := LazyLookup(s, now, handle, principal, tenant, None);
      if found.Found? {
        DropRefines(s', held, now, found.record.handle);
      }
    case AdminRevoke(handle) =>
      if handle.Some? {
        FindLive(s.records, handle.value, now);
        DropRefines(s, held, now, handle.value);
      }
    case RevokePrincipal(principal, within) =>
      KeepRefines(s, held, now, OwnedBy(principal, within));
      KeepRefines(s, held, now, NotOwnedBy(principal, within));
    case ListFor(principal, within) =>
      PurgeSweeps(s, now, true);
  }

  /** `admin_revoke` answers as the eager registry exactly when the handle names no record
      of the table, or a live one. */
  lemma {:induction false} AdminRevokeAgreesIff(cfg: Config, s: Registry, held: seq<HandleRecord>, now: real,
                                                handle: string)
    requires Represents(s, held, now)
    ensures var e := AdminRevoke(Some(handle));
            LazyStep(cfg, s, now, e).1 == EagerStep(cfg, held, now, e).1 <==>
              Find(s.records, handle).None? || Find(s.records, handle).value.expiresAt > now
  {
    FindLive(s.records, handle, now);
  }
}

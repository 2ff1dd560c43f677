/** Whole runs of the handle registry (cosai_mcp/middleware/state.py:351-505):
    time-ordered events with handles that are never generated twice. */
module HandleRuns {
  import opened Wrappers
  import opened Lists
  import opened HandleSpec

  datatype Timed = Timed(now: real, event: Event)

  const EMPTY := Registry([], 0.0)

  function LazyRun(cfg: Config, es: seq<Timed>): Registry {
    if es == [] then EMPTY
    else LazyStep(cfg, LazyRun(cfg, es[..|es| - 1]), es[|es| - 1].now, es[|es| - 1].event).0
  }

  function EagerRun(cfg: Config, es: seq<Timed>): seq<HandleRecord> {
    if es == [] then []
    else EagerStep(cfg, EagerRun(cfg, es[..|es| - 1]), es[|es| - 1].now, es[|es| - 1].event).0
  }

  /** The answer given to event `i`. */
  function LazyAnswer(cfg: Config, es: seq<Timed>, i: nat): Answer
    requires i < |es|
  {
    LazyStep(cfg, LazyRun(cfg, es[..i]), es[i].now, es[i].event).1
  }

  function EagerAnswer(cfg: Config, es: seq<Timed>, i: nat): Answer
    requires i < |es|
  {
    EagerStep(cfg, EagerRun(cfg, es[..i]), es[i].now, es[i].event).1
  }

  ghost predicate Ordered(es: seq<Timed>) {
    forall i, j :: 0 <= i < j < |es| ==> es[i].now <= es[j].now
  }

  ghost predicate FreshHandles(es: seq<Timed>) {
    forall i, j :: 0 <= i < j < |es| && es[i].event.Mint? && es[j].event.Mint?
                   ==> es[i].event.newHandle != es[j].event.newHandle
  }

  ghost predicate Clocked(es: seq<Timed>, now: real) {
    Ordered(es) && FreshHandles(es) && (es != [] ==> es[|es| - 1].now <= now)
  }

  lemma {:induction false} ClockedInit(es: seq<Timed>, now: real)
    requires es != [] && Clocked(es, now)
    ensures Clocked(es[..|es| - 1], es[|es| - 1].now)
  {
  }

  // ---------------------------------------------------------------------------
  // Refinement over whole runs
  // ---------------------------------------------------------------------------

  /** A step adds no record but the one it mints. */
  lemma {:induction false} StepAddsOnlyMint(cfg: Config, s: Registry, now: real, e: Event, r: HandleRecord)
    requires r in LazyStep(cfg, s, now, e).0.records
    ensures r in s.records || (e.Mint? && r == NewRecord(e, now))
  {
    match e
    case Mint(principal, tenant, _, _, _) =>
      MakeRoomRefines(cfg, s, (principal, tenant), now);
    case Resolve(_, _, _, _) =>
    case Revoke(_, _, _) =>
    case AdminRevoke(_) =>
    case RevokePrincipal(_, _) =>
    case ListFor(_, _) =>
  }

  ghost predicate MintedIn(es: seq<Timed>, handle: string) {
    exists i :: 0 <= i < |es| && es[i].event.Mint? && es[i].event.newHandle == handle
  }

  lemma {:induction false} HandlesWereMinted(cfg: Config, es: seq<Timed>)
    ensures forall r :: r in LazyRun(cfg, es).records ==> MintedIn(es, r.handle)
  {
    if es != [] {
      var n := |es| - 1;
      HandlesWereMinted(cfg, es[..n]);
      forall r | r in LazyRun(cfg, es).records
        ensures MintedIn(es, r.handle)
      {
        StepAddsOnlyMint(cfg, LazyRun(cfg, es[..n]), es[n].now, es[n].event, r);
        if r in LazyRun(cfg, es[..n]).records {
          assert MintedIn(es[..n], r.handle);
        } else {
          assert es[n].event.newHandle == r.handle;
        }
      }
    }
  }

  lemma {:induction false} NextHandleIsNew(cfg: Config, es: seq<Timed>)
    requires es != [] && FreshHandles(es) && es[|es| - 1].event.Mint?
    ensures forall r :: r in LazyRun(cfg, es[..|es| - 1]).records ==>
              r.handle != es[|es| - 1].event.newHandle
  {
    HandlesWereMinted(cfg, es[..|es| - 1]);
  }

  lemma {:induction false} RunRepresents(cfg: Config, es: seq<Timed>, now: real)
    requires Clocked(es, now)
    ensures Represents(LazyRun(cfg, es), EagerRun(cfg, es), now)
  {
    if es != [] {
      var n := |es| - 1;
      ClockedInit(es, now);
      RunRepresents(cfg, es[..n], es[n].now);
      if es[n].event.Mint? {
        NextHandleIsNew(cfg, es);
      }
      StepRefines(cfg, LazyRun(cfg, es[..n]), EagerRun(cfg, es[..n]), es[n].now, es[n].event);
      RepresentsLater(LazyRun(cfg, es), EagerRun(cfg, es), es[n].now, now);
    }
  }

  /** Every event of every run is answered as the eager registry answers it, up to the
      expired records that the operator revocations still see. */
  lemma {:induction false} RegistryRefinesEager(cfg: Config, es: seq<Timed>, i: nat)
    requires Ordered(es) && FreshHandles(es) && i < |es|
    ensures Agree(es[i].event, LazyRun(cfg, es[..i]), es[i].now, LazyAnswer(cfg, es, i), EagerAnswer(cfg, es, i))
  {
    assert Clocked(es[..i], es[i].now);
    RunRepresents(cfg, es[..i], es[i].now);
    var es' := es[..i + 1];
    assert es'[..i] == es[..i] && es'[i] == es[i];
    if es[i].event.Mint? {
      NextHandleIsNew(cfg, es');
    }
    StepRefines(cfg, LazyRun(cfg, es[..i]), EagerRun(cfg, es[..i]), es[i].now, es[i].event);
  }

  /** The operator revocations really can report a record that expired earlier:
      one minted at 1 for a second is still there at 5 when nothing swept it. */
  lemma {:induction false} AdminRevokeSeesExpired(cfg: Config)
    requires cfg.max >= 1 && cfg.maxPerPrincipal >= 1 && cfg.maxPerTenant >= 1 && cfg.maxTtl >= 1
    ensures var es := [Timed(1.0, Mint("p", "t", "task", 1, "h")), Timed(5.0, AdminRevoke(Some("h")))];
            LazyAnswer(cfg, es, 1) == Revoked(true) && EagerAnswer(cfg, es, 1) == Revoked(false)
  {
    var es := [Timed(1.0, Mint("p", "t", "task", 1, "h")), Timed(5.0, AdminRevoke(Some("h")))];
    var r := NewRecord(es[0].event, 1.0);
    assert es[..1] == [es[0]];
    FirstMint(cfg, es[0].event);
    assert [r][..0] == [];
    assert Find([r], "h") == Some(r) && Live([r], 5.0) == [];
  }

  /** One record minted at time 1 into an empty registry. */
  lemma {:induction false} FirstMint(cfg: Config, e: Event)
    requires cfg.max >= 1 && cfg.maxPerPrincipal >= 1 && cfg.maxPerTenant >= 1 && cfg.maxTtl >= 1
    requires e == Mint("p", "t", "task", 1, "h")
    ensures LazyRun(cfg, [Timed(1.0, e)]).records == [NewRecord(e, 1.0)]
    ensures EagerRun(cfg, [Timed(1.0, e)]) == [NewRecord(e, 1.0)]
  {
    assert [Timed(1.0, e)][..0] == [];
    assert MakeRoom(cfg, EMPTY, ("p", "t"), 1.0) == (Registry([], 2.0), None);
  }

  // ---------------------------------------------------------------------------
  // What a handle is good for is decided by the history alone
  // ---------------------------------------------------------------------------

  /** Event `e` withdraws record `r`: the owner revoked it while it was live, or
      an operator revoked the handle or the principal. */
  predicate Covers(e: Timed, r: HandleRecord) {
    match e.event
    case Revoke(handle, principal, tenant) =>
      Usable(handle) && handle.value == r.handle && principal == r.principal && tenant == r.tenant
      && e.now < r.expiresAt
    case AdminRevoke(handle) => handle == Some(r.handle)
    case RevokePrincipal(principal, within) => OwnedBy(principal, within)(r)
    case _ => false
  }

  /** Event `i` is the mint that issued `r`. */
  ghost predicate IssuedAt(cfg: Config, es: seq<Timed>, i: nat, r: HandleRecord) {
    && i < |es| && es[i].event.Mint?
    && LazyAnswer(cfg, es, i) == MintAnswer(Minted(es[i].event.newHandle))
    && r == NewRecord(es[i].event, es[i].now)
  }

  /** No event after `i` withdraws `r`. */
  ghost predicate UncoveredSince(es: seq<Timed>, i: nat, r: HandleRecord) {
    forall j :: i < j < |es| ==> !Covers(es[j], r)
  }

  /** `r` was issued and nothing after that withdrew it. */
  ghost predicate Granted(cfg: Config, es: seq<Timed>, r: HandleRecord) {
    exists i: nat :: IssuedAt(cfg, es, i, r) && UncoveredSince(es, i, r)
  }

  lemma {:induction false} IssuedInit(cfg: Config, es: seq<Timed>, i: nat, r: HandleRecord)
    requires es != [] && i < |es| - 1
    ensures IssuedAt(cfg, es, i, r) <==> IssuedAt(cfg, es[..|es| - 1], i, r)
    ensures UncoveredSince(es, i, r) <==>
              UncoveredSince(es[..|es| - 1], i, r) && !Covers(es[|es| - 1], r)
  {
    var init := es[..|es| - 1];
    assert init[..i] == es[..i] && init[i] == es[i];
    assert forall j :: i < j < |init| ==> init[j] == es[j];
  }

  lemma {:induction false} IssuedInRun(cfg: Config, es: seq<Timed>, r: HandleRecord)
    ensures forall i: nat :: IssuedAt(cfg, es, i, r) ==> i < |es|
    ensures es != [] ==> UncoveredSince(es, |es| - 1, r)
  {
  }

  lemma {:induction false} GrantedSnoc(cfg: Config, es: seq<Timed>, r: HandleRecord)
    requires es != []
    ensures var n := |es| - 1;
            Granted(cfg, es, r) <==>
              (IssuedAt(cfg, es, n, r) || (Granted(cfg, es[..n], r) && !Covers(es[n], r)))
  {
    hide IssuedAt, UncoveredSince, Covers;
    var n: nat := |es| - 1;
    IssuedInRun(cfg, es, r);
    IssuedInRun(cfg, es[..n], r);
    if IssuedAt(cfg, es, n, r) {
    } else if Granted(cfg, es, r) {
      var i: nat :| IssuedAt(cfg, es, i, r) && UncoveredSince(es, i, r);
      IssuedInit(cfg, es, i, r);
    } else if Granted(cfg, es[..n], r) {
      var i: nat :| IssuedAt(cfg, es[..n], i, r) && UncoveredSince(es[..n], i, r);
      IssuedInit(cfg, es, i, r);
    }
  }

  lemma {:induction false} LiveMembers(s: Registry, s': Registry, now: real, r: HandleRecord)
    requires Live(s'.records, now) == Live(s.records, now) && now < r.expiresAt
    ensures r in s'.records <==> r in s.records
  {
    assert r in s.records <==> r in Live(s.records, now);
    assert r in s'.records <==> r in Live(s'.records, now);
  }

  ghost predicate Mints(cfg: Config, s: Registry, e: Timed, r: HandleRecord) {
    e.event.Mint? && LazyStep(cfg, s, e.now, e.event).1 == MintAnswer(Minted(e.event.newHandle))
    && r == NewRecord(e.event, e.now)
  }

  lemma {:induction false} MintKeeps(cfg: Config, s: Registry, e: Timed, r: HandleRecord)
    requires e.event.Mint? && e.now < r.expiresAt
    ensures r in LazyStep(cfg, s, e.now, e.event).0.records <==> r in s.records || Mints(cfg, s, e, r)
  {
    hide MakeRoom, Live;
    var o := (e.event.principal, e.event.tenant);
    MakeRoomRefines(cfg, s, o, e.now);
    LiveMembers(s, MakeRoom(cfg, s, o, e.now).0, e.now, r);
  }

  lemma {:induction false} LookupKeeps(s: Registry, now: real, handle: Option<string>, principal: string,
                                       tenant: string, wanted: Option<string>, r: HandleRecord)
    requires DistinctHandles(s.records) && now < r.expiresAt
    ensures var (s', a) := LazyLookup(s, now, handle, principal, tenant, wanted);
            && (r in s'.records <==> r in s.records)
            && (r in s.records ==>
                  (a == Found(r) <==> Usable(handle) && r.handle == handle.value
                                      && Authorizes(r, principal, tenant, wanted)))
            && (a.Found? ==> a.record in s.records && s' == s && Some(a.record.handle) == handle)
  {
    if Usable(handle) && r in s.records && r.handle == handle.value {
      assert Find(s.records, handle.value) == Some(r);
    }
  }

  lemma {:induction false} RevokeKeeps(cfg: Config, s: Registry, e: Timed, r: HandleRecord)
    requires e.event.Revoke? && DistinctHandles(s.records) && e.now < r.expiresAt
    ensures r in LazyStep(cfg, s, e.now, e.event).0.records <==> r in s.records && !Covers(e, r)
  {
    hide LazyLookup;
    LookupKeeps(s, e.now, e.event.handle, e.event.principal, e.event.tenant, None, r);
  }

  /** One step keeps a live record unless it covers it, and adds one only by minting it. */
  lemma {:induction false} StepKeeps(cfg: Config, s: Registry, e: Timed, r: HandleRecord)
    requires DistinctHandles(s.records) && e.now < r.expiresAt
    ensures r in LazyStep(cfg, s, e.now, e.event).0.records <==>
              (r in s.records && !Covers(e, r)) || Mints(cfg, s, e, r)
  {
    hide MakeRoom, LazyLookup, Purge, DistinctHandles;
    match e.event
    case Mint(_, _, _, _, _) =>
      MintKeeps(cfg, s, e, r);
    case Resolve(handle, principal, tenant, wanted) =>
      LookupKeeps(s, e.now, handle, principal, tenant, wanted, r);
    case Revoke(_, _, _) =>
      RevokeKeeps(cfg, s, e, r);
    case AdminRevoke(handle) =>
    case RevokePrincipal(principal, within) =>
    case ListFor(_, _) =>
      PurgeSweeps(s, e.now, true);
      LiveMembers(s, Purge(s, e.now, true), e.now, r);
  }

  lemma {:induction false} HeldIffGranted(cfg: Config, es: seq<Timed>, now: real, r: HandleRecord)
    requires Clocked(es, now) && now < r.expiresAt
    ensures r in LazyRun(cfg, es).records <==> Granted(cfg, es, r)
  {
    if es == [] {
      assert !Granted(cfg, es, r);
    } else {
      var n := |es| - 1;
      ClockedInit(es, now);
      HeldIffGranted(cfg, es[..n], es[n].now, r);
      RunRepresents(cfg, es[..n], es[n].now);
      StepKeeps(cfg, LazyRun(cfg, es[..n]), es[n], r);
      GrantedSnoc(cfg, es, r);
      assert Mints(cfg, LazyRun(cfg, es[..n]), es[n], r) <==> IssuedAt(cfg, es, n, r);
    }
  }

  /** A step leaves no record that it covers, and adds one only by minting it, expired or not. */
  lemma {:induction false} StepLeaves(cfg: Config, s: Registry, e: Timed, r: HandleRecord)
    requires DistinctHandles(s.records) && r in LazyStep(cfg, s, e.now, e.event).0.records
    ensures (r in s.records && !Covers(e, r)) || Mints(cfg, s, e, r)
  {
    StepAddsOnlyMint(cfg, s, e.now, e.event, r);
    assert r in s.records ==> Find(s.records, r.handle) == Some(r);
  }

  /** Every record of the table was issued, and nothing since withdrew it. */
  lemma {:induction false} HeldWasGranted(cfg: Config, es: seq<Timed>, now: real, r: HandleRecord)
    requires Clocked(es, now) && r in LazyRun(cfg, es).records
    ensures Granted(cfg, es, r)
  {
    var n := |es| - 1;
    ClockedInit(es, now);
    RunRepresents(cfg, es[..n], es[n].now);
    StepLeaves(cfg, LazyRun(cfg, es[..n]), es[n], r);
    GrantedSnoc(cfg, es, r);
    if r in LazyRun(cfg, es[..n]).records {
      HeldWasGranted(cfg, es[..n], es[n].now, r);
    }
    if Mints(cfg, LazyRun(cfg, es[..n]), es[n], r) {
      assert IssuedAt(cfg, es, n, r);
    }
  }

  /** `r` was issued under this handle, was never withdrawn, has expired, and no purge has
      swept it yet. */
  ghost predicate ExpiredUnswept(cfg: Config, es: seq<Timed>, now: real, handle: string, r: HandleRecord) {
    && Granted(cfg, es, r) && r.handle == handle && r.expiresAt <= now
    && r in LazyRun(cfg, es).records
  }

  /** Over whole runs, `admin_revoke` differs from the eager registry exactly when such a
      record exists, and then the program says true where the eager registry says false. */
  lemma {:induction false} AdminRevokeDiffersIff(cfg: Config, es: seq<Timed>, i: nat, handle: string)
    requires Ordered(es) && FreshHandles(es) && i < |es| && es[i].event == AdminRevoke(Some(handle))
    ensures LazyAnswer(cfg, es, i) != EagerAnswer(cfg, es, i) <==>
              exists r :: ExpiredUnswept(cfg, es[..i], es[i].now, handle, r)
    ensures LazyAnswer(cfg, es, i) != EagerAnswer(cfg, es, i) ==>
              LazyAnswer(cfg, es, i) == Revoked(true) && EagerAnswer(cfg, es, i) == Revoked(false)
  {
    var s, now := LazyRun(cfg, es[..i]), es[i].now;
    assert Clocked(es[..i], now);
    RunRepresents(cfg, es[..i], now);
    AdminRevokeAgreesIff(cfg, s, EagerRun(cfg, es[..i]), now, handle);
    RegistryRefinesEager(cfg, es, i);
    if LazyAnswer(cfg, es, i) != EagerAnswer(cfg, es, i) {
      var r := Find(s.records, handle).value;
      HeldWasGranted(cfg, es[..i], now, r);
      assert ExpiredUnswept(cfg, es[..i], now, handle, r);
    }
    if r :| ExpiredUnswept(cfg, es[..i], now, handle, r) {
      assert Find(s.records, handle) == Some(r);
    }
  }

  /** After any run, `resolve` succeeds with `r` exactly when `r` was minted for this
      principal and tenant, has not expired, has the wanted kind and has not been
      revoked since; in every other case the one generic error is raised. */
  lemma {:induction false} ResolveIffGranted(cfg: Config, es: seq<Timed>, now: real, handle: Option<string>,
                          principal: string, tenant: string, wanted: Option<string>)
    requires Clocked(es, now)
    ensures var a := LazyStep(cfg, LazyRun(cfg, es), now, Resolve(handle, principal, tenant, wanted)).1;
            && (a == Denied || a.Found?)
            && forall r :: a == Found(r) <==>
                 && Granted(cfg, es, r) && now < r.expiresAt
                 && Usable(handle) && r.handle == handle.value
                 && Authorizes(r, principal, tenant, wanted)
  {
    var s := LazyRun(cfg, es);
    RunRepresents(cfg, es, now);
    forall r
      ensures LazyStep(cfg, s, now, Resolve(handle, principal, tenant, wanted)).1 == Found(r) <==>
                && Granted(cfg, es, r) && now < r.expiresAt
                && Usable(handle) && r.handle == handle.value
                && Authorizes(r, principal, tenant, wanted)
    {
      if now < r.expiresAt {
        HeldIffGranted(cfg, es, now, r);
        if Usable(handle) && r.handle == handle.value && r in s.records {
          assert Find(s.records, handle.value) == Some(r);
        }
      }
    }
  }

  /** `list_for_principal` shows exactly the granted, unexpired records of the principal. */
  lemma {:induction false} ListShowsGranted(cfg: Config, es: seq<Timed>, now: real, principal: string,
                                            within: Option<string>)
    requires Clocked(es, now)
    ensures var a := LazyStep(cfg, LazyRun(cfg, es), now, ListFor(principal, within)).1;
            && a.Listing?
            && forall r :: r in a.records <==>
                 Granted(cfg, es, r) && now < r.expiresAt && OwnedBy(principal, within)(r)
  {
    forall r: HandleRecord | now < r.expiresAt
      ensures r in LazyRun(cfg, es).records <==> Granted(cfg, es, r)
    {
      HeldIffGranted(cfg, es, now, r);
    }
  }

  /** A refused `resolve` changes no live record and no later lookup, and leaves a table with
      nothing expired untouched. */
  lemma {:induction false} FailedResolveIsInvisible(cfg: Config, s: Registry, now: real, e: Event, later: real)
    requires e.Resolve? && LazyStep(cfg, s, now, e).1 == Denied && now <= later
    requires DistinctHandles(s.records)
    ensures var s' := LazyStep(cfg, s, now, e).0;
            && Live(s'.records, later) == Live(s.records, later)
            && s'.nextPurge == s.nextPurge
            && ((forall r :: r in s.records ==> now < r.expiresAt) ==> s' == s)
            && (forall q, p, t, w :: LazyLookup(s', later, q, p, t, w).1 == LazyLookup(s, later, q, p, t, w).1)
  {
    var s' := LazyStep(cfg, s, now, e).0;
    if s' != s {
      DropExpiredKeepsLive(s, e.handle.value, now, later);
    }
    forall q: Option<string>, p, t, w
      ensures LazyLookup(s', later, q, p, t, w).1 == LazyLookup(s, later, q, p, t, w).1
    {
      SameAnswer(s, s', later, q, p, t, w);
    }
  }

  predicate ByOperator(e: Event) { e.AdminRevoke? || e.RevokePrincipal? }

  /** Nor does it change the answer to any later event but an operator's revocation. */
  lemma {:induction false} FailedResolveKeepsAnswers(cfg: Config, s: Registry, now: real, e: Event, later: real,
                                                     e': Event)
    requires e.Resolve? && LazyStep(cfg, s, now, e).1 == Denied && now <= later
    requires DistinctHandles(s.records) && !ByOperator(e')
    ensures LazyStep(cfg, LazyStep(cfg, s, now, e).0, later, e').1 == LazyStep(cfg, s, later, e').1
  {
    var s' := LazyStep(cfg, s, now, e).0;
    FailedResolveIsInvisible(cfg, s, now, e, later);
    if s' != s {
      DropExpiredKeepsLive(s, e.handle.value, now, later);
    }
    LiveDecides(cfg, s, s', later, e');
  }

  lemma {:induction false} LiveDecides(cfg: Config, s: Registry, s': Registry, now: real, e: Event)
    requires Live(s'.records, now) == Live(s.records, now) && !ByOperator(e)
    requires DistinctHandles(s.records) && DistinctHandles(s'.records)
    ensures LazyStep(cfg, s', now, e).1 == LazyStep(cfg, s, now, e).1
  {
    hide MakeRoom, LazyLookup, Live, DistinctHandles;
    match e
    case Mint(principal, tenant, _, _, _) =>
      MakeRoomRefines(cfg, s, (principal, tenant), now);
      MakeRoomRefines(cfg, s', (principal, tenant), now);
    case Resolve(handle, principal, tenant, wanted) =>
      SameAnswer(s, s', now, handle, principal, tenant, wanted);
    case Revoke(handle, principal, tenant) =>
      SameAnswer(s, s', now, handle, principal, tenant, None);
    case ListFor(_, _) =>
      PurgeSweeps(s, now, true);
      PurgeSweeps(s', now, true);
  }

  /** It is invisible to everyone, operators included, exactly when it met no expired
      record: such a record is dropped, and `admin_revoke` then finds it gone. */
  lemma {:induction false} FailedResolveInvisibleIff(cfg: Config, s: Registry, now: real, e: Event, later: real)
    requires e.Resolve? && LazyStep(cfg, s, now, e).1 == Denied
    ensures var s' := LazyStep(cfg, s, now, e).0;
            (forall e' :: LazyStep(cfg, s', later, e').1 == LazyStep(cfg, s, later, e').1) <==>
              !(Usable(e.handle) && HoldsExpired(s, e.handle, now))
  {
    var s' := LazyStep(cfg, s, now, e).0;
    if Usable(e.handle) && HoldsExpired(s, e.handle, now) {
      assert s' == Drop(s, e.handle.value);
      assert Find(s'.records, e.handle.value).None?;
      assert LazyStep(cfg, s', later, AdminRevoke(e.handle)).1 != LazyStep(cfg, s, later, AdminRevoke(e.handle)).1;
    } else {
      assert s' == s;
    }
  }

  lemma {:induction false} DropExpiredKeepsLive(s: Registry, h: string, now: real, later: real)
    requires DistinctHandles(s.records) && now <= later
    requires Find(s.records, h).Some? && Find(s.records, h).value.expiresAt <= now
    ensures Live(Drop(s, h).records, later) == Live(s.records, later)
    ensures DistinctHandles(Drop(s, h).records)
  {
    KeepCommutes(s.records, AliveAt(later), Other(h));
    KeepAll(Live(s.records, later), Other(h));
  }

  /** What a lookup answers depends on the live records only. */
  lemma {:induction false} SameAnswer(s: Registry, s': Registry, now: real, q: Option<string>, p: string, t: string,
                                      w: Option<string>)
    requires DistinctHandles(s.records) && DistinctHandles(s'.records)
    requires Live(s'.records, now) == Live(s.records, now)
    ensures LazyLookup(s', now, q, p, t, w).1 == LazyLookup(s, now, q, p, t, w).1
  {
    hide DistinctHandles, Live;
    if q.Some? {
      FindLive(s.records, q.value, now);
      FindLive(s'.records, q.value, now);
    }
  }

  // ---------------------------------------------------------------------------
  // Resolving leaves no trace in a run
  // ---------------------------------------------------------------------------

  /** The eager registry looks at live records only. */
  lemma {:induction false} EagerSeesLive(cfg: Config, held: seq<HandleRecord>, held': seq<HandleRecord>,
                                         now: real, e: Event)
    requires Live(held, now) == Live(held', now)
    ensures EagerStep(cfg, held, now, e) == EagerStep(cfg, held', now, e)
  {
    hide Live;
  }

  lemma {:induction false} EagerRunSnoc(cfg: Config, es: seq<Timed>, t: Timed)
    ensures EagerRun(cfg, es + [t]) == EagerStep(cfg, EagerRun(cfg, es), t.now, t.event).0
  {
    assert (es + [t])[..|es|] == es;
  }

  lemma {:induction false} SameEagerLive(cfg: Config, es: seq<Timed>, r: Timed, rest: seq<Timed>, now: real)
    requires r.event.Resolve? && r.now <= now
    requires forall i :: 0 <= i < |rest| ==> r.now <= rest[i].now <= now
    requires forall i, j :: 0 <= i < j < |rest| ==> rest[i].now <= rest[j].now
    decreases |rest|
    ensures Live(EagerRun(cfg, es + [r] + rest), now) == Live(EagerRun(cfg, es + rest), now)
  {
    if rest == [] {
      assert es + [r] + rest == es + [r] && es + rest == es;
      EagerRunSnoc(cfg, es, r);
      LiveLater(EagerRun(cfg, es), r.now, now);
    } else {
      var n := |rest| - 1;
      var t := rest[n];
      assert es + [r] + rest == (es + [r] + rest[..n]) + [t] && es + rest == (es + rest[..n]) + [t];
      SameEagerLive(cfg, es, r, rest[..n], t.now);
      EagerSeesLive(cfg, EagerRun(cfg, es + [r] + rest[..n]), EagerRun(cfg, es + rest[..n]), t.now, t.event);
      EagerRunSnoc(cfg, es + [r] + rest[..n], t);
      EagerRunSnoc(cfg, es + rest[..n], t);
    }
  }

  /** Leaving one event out of a run keeps its times in order and its handles fresh. */
  lemma {:induction false} WithoutOne(a: seq<Timed>, r: Timed, b: seq<Timed>)
    requires Ordered(a + [r] + b) && FreshHandles(a + [r] + b)
    ensures Ordered(a + b) && FreshHandles(a + b)
    ensures forall i :: 0 <= i < |b| ==> r.now <= b[i].now
  {
    var long, short := a + [r] + b, a + b;
    forall i | 0 <= i < |short|
      ensures short[i] == long[if i < |a| then i else i + 1]
    {
    }
    forall i | 0 <= i < |b|
      ensures r.now <= b[i].now
    {
      assert long[|a|] == r && long[|a| + 1 + i] == b[i];
    }
  }

  lemma {:induction false} NextAnswerAgrees(cfg: Config, es: seq<Timed>, t: Timed)
    requires Ordered(es + [t]) && FreshHandles(es + [t])
    ensures Agree(t.event, LazyRun(cfg, es), t.now, LazyStep(cfg, LazyRun(cfg, es), t.now, t.event).1,
                  EagerStep(cfg, EagerRun(cfg, es), t.now, t.event).1)
  {
    var all := es + [t];
    assert all[..|es|] == es && all[|es|] == t;
    RegistryRefinesEager(cfg, all, |es|);
  }

  /** Insert a `resolve`, refused or not, anywhere into a run: every later event is answered
      as without it, except that the two operator revocations may find other expired
      records in the table. */
  lemma {:induction false} ResolveLeavesNoTrace(cfg: Config, es: seq<Timed>, r: Timed, rest: seq<Timed>, t: Timed)
    requires r.event.Resolve? && Ordered(es + [r] + rest + [t]) && FreshHandles(es + [r] + rest + [t])
    ensures var s, s' := LazyRun(cfg, es + rest), LazyRun(cfg, es + [r] + rest);
            var a, a' := LazyStep(cfg, s, t.now, t.event).1, LazyStep(cfg, s', t.now, t.event).1;
            match t.event
            case AdminRevoke(handle) =>
              a == a' || HoldsExpired(s, handle, t.now) || HoldsExpired(s', handle, t.now)
            case RevokePrincipal(_, _) =>
              a.Listing? && a'.Listing? && Live(a.records, t.now) == Live(a'.records, t.now)
            case _ => a == a'
  {
    assert es + [r] + rest + [t] == es + [r] + (rest + [t]);
    assert es + (rest + [t]) == es + rest + [t];
    WithoutOne(es, r, rest + [t]);
    LaterThan(es, r, rest, t);
    SameEagerLive(cfg, es, r, rest, t.now);
    EagerSeesLive(cfg, EagerRun(cfg, es + [r] + rest), EagerRun(cfg, es + rest), t.now, t.event);
    NextAnswerAgrees(cfg, es + rest, t);
    NextAnswerAgrees(cfg, es + [r] + rest, t);
  }

  lemma {:induction false} LaterThan(es: seq<Timed>, r: Timed, rest: seq<Timed>, t: Timed)
    requires Ordered(es + [r] + rest + [t])
    ensures r.now <= t.now && forall i :: 0 <= i < |rest| ==> r.now <= rest[i].now <= t.now
    ensures forall i, j :: 0 <= i < j < |rest| ==> rest[i].now <= rest[j].now
  {
    var all := es + [r] + rest + [t];
    var n := |es|;
    assert all[n] == r && all[|all| - 1] == t;
    assert forall i :: 0 <= i < |rest| ==> all[n + 1 + i] == rest[i];
  }

  // ---------------------------------------------------------------------------
  // Quotas
  // ---------------------------------------------------------------------------

  function Cap(n: int): int { if n <= 0 then 0 else n }

  /** No owner exceeds its limit, no tenant twice its share, and the registry
      never holds more than twice its size. */
  ghost predicate WithinCaps(cfg: Config, records: seq<HandleRecord>) {
    && |records| <= Cap(2 * cfg.max)
    && (forall o :: OwnerCount(records, o) <= Cap(cfg.maxPerPrincipal))
    && (forall t :: TenantCount(records, t) <= Cap(2 * cfg.maxPerTenant))
  }

  lemma {:induction false} KeepWithinCaps(cfg: Config, records: seq<HandleRecord>, p: HandleRecord -> bool)
    requires WithinCaps(cfg, records)
    ensures WithinCaps(cfg, Keep(records, p))
  {
    forall o
      ensures OwnerCount(Keep(records, p), o) <= Cap(cfg.maxPerPrincipal)
    {
      TallyKeep(records, p, OwnerOf, o);
      assert OwnerCount(records, o) <= Cap(cfg.maxPerPrincipal);
    }
    forall t
      ensures TenantCount(Keep(records, p), t) <= Cap(2 * cfg.maxPerTenant)
    {
      TallyKeep(records, p, TenantOf, t);
      assert TenantCount(records, t) <= Cap(2 * cfg.maxPerTenant);
    }
  }

  lemma {:induction false} PurgeWithinCaps(cfg: Config, s: Registry, now: real, force: bool)
    requires WithinCaps(cfg, s.records)
    ensures WithinCaps(cfg, Purge(s, now, force).records)
  {
    KeepWithinCaps(cfg, s.records, AliveAt(now));
  }

  lemma {:induction false} MintWithinCaps(cfg: Config, s: Registry, o: Owner, now: real, r: HandleRecord)
    requires WithinCaps(cfg, s.records) && OwnerOf(r) == o
    ensures var (s', why) := MakeRoom(cfg, s, o, now);
            && WithinCaps(cfg, s'.records)
            && (why.None? ==> WithinCaps(cfg, s'.records + [r]))
  {
    hide WithinCaps, Purge, GlobalFull, PrincipalFull, TenantFull;
    var s1 := Purge(s, now, false);
    PurgeWithinCaps(cfg, s, now, false);
    PurgeWithinCaps(cfg, s1, now, true);
    var s2 := Relieve(s1, |s1.records| >= cfg.max, now);
    PurgeWithinCaps(cfg, s2, now, true);
    var s3 := Relieve(s2, PrincipalFull(cfg, s2.records, o), now);
    PurgeWithinCaps(cfg, s3, now, true);
    var (s', why) := MakeRoom(cfg, s, o, now);
    if why.None? {
      MakeRoomRefines(cfg, s, o, now);
      MintRoomIsReal(cfg, s, o, now);
      AddWithinCaps(cfg, s'.records, r);
    }
  }

  /** When `mint` goes ahead, its table satisfies every cap check. */
  lemma {:induction false} MintRoomIsReal(cfg: Config, s: Registry, o: Owner, now: real)
    requires MakeRoom(cfg, s, o, now).1.None?
    ensures var rs := MakeRoom(cfg, s, o, now).0.records;
            !GlobalFull(cfg, rs, o) && !PrincipalFull(cfg, rs, o) && !TenantFull(cfg, rs, o)
  {
    var s1 := Purge(s, now, false);
    var s2 := Relieve(s1, |s1.records| >= cfg.max, now);
    var s3 := Relieve(s2, PrincipalFull(cfg, s2.records, o), now);
    StillFits(cfg, s2.records, o, now);
    StillFits(cfg, s3.records, o, now);
    hide GlobalFull, PrincipalFull, TenantFull;
    assert s3.records == s2.records || s3.records == Live(s2.records, now);
  }

  /** Sweeping does not make a cap fail. */
  lemma {:induction false} StillFits(cfg: Config, records: seq<HandleRecord>, o: Owner, now: real)
    ensures !GlobalFull(cfg, records, o) ==> !GlobalFull(cfg, Live(records, now), o)
    ensures !PrincipalFull(cfg, records, o) ==> !PrincipalFull(cfg, Live(records, now), o)
    ensures !TenantFull(cfg, records, o) ==> !TenantFull(cfg, Live(records, now), o)
  {
    LiveCounts(records, o, now);
  }

  lemma {:induction false} AddWithinCaps(cfg: Config, records: seq<HandleRecord>, r: HandleRecord)
    requires WithinCaps(cfg, records)
    requires !GlobalFull(cfg, records, OwnerOf(r)) && !PrincipalFull(cfg, records, OwnerOf(r))
    requires !TenantFull(cfg, records, OwnerOf(r))
    ensures WithinCaps(cfg, records + [r])
  {
    forall o
      ensures OwnerCount(records + [r], o) <= Cap(cfg.maxPerPrincipal)
    {
      TallySnoc(records, r, OwnerOf, o);
      assert OwnerCount(records, o) <= Cap(cfg.maxPerPrincipal);
    }
    forall t
      ensures TenantCount(records + [r], t) <= Cap(2 * cfg.maxPerTenant)
    {
      TallySnoc(records, r, TenantOf, t);
      assert TenantCount(records, t) <= Cap(2 * cfg.maxPerTenant);
    }
  }

  /** The quotas hold in every reachable registry, for every configuration. */
  lemma {:induction false} RunWithinCaps(cfg: Config, es: seq<Timed>)
    ensures WithinCaps(cfg, LazyRun(cfg, es).records)
  {
    if es == [] {
      assert forall o :: OwnerCount([], o) == 0;
      assert forall t :: TenantCount([], t) == 0;
    } else {
      var n := |es| - 1;
      RunWithinCaps(cfg, es[..n]);
      var s, now := LazyRun(cfg, es[..n]), es[n].now;
      match es[n].event
      case Mint(principal, tenant, _, _, _) =>
        MintWithinCaps(cfg, s, (principal, tenant), now, NewRecord(es[n].event, now));
      case Resolve(handle, _, _, _) =>
        if handle.Some? {
          KeepWithinCaps(cfg, s.records, Other(handle.value));
        }
      case Revoke(handle, _, _) =>
        if handle.Some? {
          KeepWithinCaps(cfg, s.records, Other(handle.value));
        }
      case AdminRevoke(handle) =>
        if handle.Some? {
          KeepWithinCaps(cfg, s.records, Other(handle.value));
        }
      case RevokePrincipal(principal, within) =>
        KeepWithinCaps(cfg, s.records, NotOwnedBy(principal, within));
      case ListFor(_, _) =>
        PurgeWithinCaps(cfg, s, now, true);
    }
  }

  /** At most three other tenants, each with at most twice its share of the registry,
      leave room for an owner below the floor. */
  lemma {:induction false} BelowFloorFits(cfg: Config, live: seq<HandleRecord>, o: Owner, others: set<string>)
    requires 4 * cfg.maxPerTenant <= cfg.max && WithinCaps(cfg, live) && |others| <= 3
    requires forall r :: r in live ==> r.tenant == o.1 || r.tenant in others
    requires OwnerCount(live, o) < OWNER_FLOOR && TenantCount(live, o.1) < 2 * cfg.maxPerTenant
    ensures !GlobalFull(cfg, live, o) && !TenantFull(cfg, live, o)
  {
    hide Keep, Tally;
    var share := 2 * cfg.maxPerTenant;
    var rest := Keep(live, KeyIsNot(TenantOf, o.1));
    SplitByKey(live, TenantOf, o.1);
    KeepWithinCaps(cfg, live, KeyIsNot(TenantOf, o.1));
    forall t
      ensures Tally(rest, TenantOf, t) <= share
    {
      assert TenantCount(rest, t) <= Cap(share);
    }
    SizeByKey(rest, TenantOf, others, share);
    assert |others| * share <= 3 * share;
  }

  /** The floor over whole runs, with the default tenant share of a registry of at least
      four handles or any smaller share: whatever at most three
      other tenants hold, an owner below the floor, in a tenant below its ceiling, is
      refused a valid `mint` only for its own limit. */
  lemma {:induction false} MintFloorIsGuaranteed(cfg: Config, es: seq<Timed>, now: real, e: Event, others: set<string>)
    requires 4 * cfg.maxPerTenant <= cfg.max && |others| <= 3
    requires e.Mint? && BadArguments(cfg, e.principal, e.tenant, e.ttl).None?
    requires var live := Live(LazyRun(cfg, es).records, now);
             && (forall r :: r in live ==> r.tenant == e.tenant || r.tenant in others)
             && OwnerCount(live, (e.principal, e.tenant)) < OWNER_FLOOR
             && TenantCount(live, e.tenant) < 2 * cfg.maxPerTenant
    ensures var mine := OwnerCount(Live(LazyRun(cfg, es).records, now), (e.principal, e.tenant));
            LazyStep(cfg, LazyRun(cfg, es), now, e).1 ==
            MintAnswer(if mine >= cfg.maxPerPrincipal then PrincipalLimit else Minted(e.newHandle))
  {
    var s, o := LazyRun(cfg, es), (e.principal, e.tenant);
    RunWithinCaps(cfg, es);
    KeepWithinCaps(cfg, s.records, AliveAt(now));
    BelowFloorFits(cfg, Live(s.records, now), o, others);
    MakeRoomRefines(cfg, s, o, now);
  }
}

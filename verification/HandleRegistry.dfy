/** The `HandleRegistry` object (cosai_mcp/middleware/state.py:351-505). Each method
    is proved to take the step that HandleSpec describes and to leave both counter
    dictionaries equal to the counts they cache.

    The record dictionary is a sequence in insertion order, which is the order in
    which the program lists it. The clock and the generated handle are arguments. */
module HandleRegistries {
  import opened Wrappers
  import opened Lists
  import opened HandleSpec

  ghost predicate UniqueHandles(records: seq<HandleRecord>) {
    forall i, j :: 0 <= i < j < |records| ==> records[i].handle != records[j].handle
  }

  lemma {:induction false} UniqueAreDistinct(records: seq<HandleRecord>)
    requires UniqueHandles(records)
    ensures DistinctHandles(records)
  {
  }

  lemma {:induction false} KeepUnique(records: seq<HandleRecord>, p: HandleRecord -> bool)
    requires UniqueHandles(records)
    ensures UniqueHandles(Keep(records, p))
  {
    if records != [] {
      var n := |records| - 1;
      KeepUnique(records[..n], p);
      forall x | x in Keep(records[..n], p)
        ensures x.handle != records[n].handle
      {
        assert x in records[..n];
      }
    }
  }

  /** Popping one key from the dictionary. */
  lemma {:induction false} DropAt(records: seq<HandleRecord>, i: nat)
    requires i < |records| && UniqueHandles(records)
    ensures Keep(records, Other(records[i].handle)) == Without(records, i)
    decreases |records|
  {
    var n := |records| - 1;
    var p := Other(records[i].handle);
    assert records == records[..n] + [records[n]];
    KeepSnoc(records[..n], records[n], p);
    if i == n {
      KeepAll(records[..n], p);
      assert Without(records, i) == records[..n];
    } else {
      hide Keep, Without;
      DropAt(records[..n], i);
      WithoutInit(records, i);
    }
  }

  lemma {:induction false} WithoutInit<T>(s: seq<T>, i: nat)
    requires i < |s| - 1
    ensures Without(s, i) == Without(s[..|s| - 1], i) + [s[|s| - 1]]
  {
  }

  lemma {:induction false} FindAt(records: seq<HandleRecord>, i: nat)
    requires i < |records| && UniqueHandles(records)
    ensures Find(records, records[i].handle) == Some(records[i])
  {
    var r := Find(records, records[i].handle);
    assert records[i] in records;
    var j :| 0 <= j < |records| && records[j] == r.value;
  }

  function NotIn(gone: seq<HandleRecord>): HandleRecord -> bool {
    (r: HandleRecord) => r !in gone
  }

  class HandleRegistry {
    const cfg: Config
    const onRevoke: Option<HandleRecord -> bool>   // true: the callback raises
    var records: seq<HandleRecord>
    var counts: map<Owner, int>
    var tenantCounts: map<string, int>
    var nextPurge: real
    var notified: seq<HandleRecord>                // calls made to on_revoke

    ghost predicate Valid()
      reads this
    {
      && UniqueHandles(records)
      && Caches(counts, records, OwnerOf)
      && Caches(tenantCounts, records, TenantOf)
    }

    ghost function Table(): Registry
      reads this
    {
      Registry(records, nextPurge)
    }

    constructor (max: int, maxPerPrincipal: int, maxPerTenant: Option<int>, maxTtl: int,
                 onRevoke: Option<HandleRecord -> bool>)
      ensures Valid() && Table() == Registry([], 0.0) && notified == []
      ensures cfg == Config(max, maxPerPrincipal,
                            maxPerTenant.GetOr(if max / 4 > 1 then max / 4 else 1), maxTtl)
      ensures this.onRevoke == onRevoke
    {
      cfg := Config(max, maxPerPrincipal, maxPerTenant.GetOr(if max / 4 > 1 then max / 4 else 1), maxTtl);
      this.onRevoke := onRevoke;
      records, counts, tenantCounts, nextPurge, notified := [], map[], map[], 0.0, [];
    }

    method IndexOf(handle: string) returns (i: nat)
      ensures i <= |records| && (i < |records| ==> records[i].handle == handle)
      ensures forall j :: 0 <= j < i ==> records[j].handle != handle
    {
      i := 0;
      while i < |records| && records[i].handle != handle
        invariant 0 <= i <= |records|
        invariant forall j :: 0 <= j < i ==> records[j].handle != handle
      {
        i := i + 1;
      }
    }

    /** Delete one record and count it out. */
    method RemoveAt(i: nat)
      requires Valid() && i < |records|
      modifies this`records, this`counts, this`tenantCounts
      ensures Valid() && records == Keep(old(records), Other(old(records)[i].handle))
    {
      hide Caches, Keep, Decrement, UniqueHandles;
      var x := records[i];
      DropAt(records, i);
      KeepUnique(records, Other(x.handle));
      CachesWithout(counts, records, i, OwnerOf);
      CachesWithout(tenantCounts, records, i, TenantOf);
      records := records[..i] + records[i + 1..];
      counts := Decrement(counts, (x.principal, x.tenant));
      tenantCounts := Decrement(tenantCounts, x.tenant);
    }

    method DropRecord(handle: string) returns (r: Option<HandleRecord>)
      requires Valid()
      modifies this`records, this`counts, this`tenantCounts
      ensures Valid() && r == Find(old(records), handle)
      ensures Table() == Drop(old(Table()), handle)
    {
      hide Caches, Keep;
      var i := IndexOf(handle);
      if i == |records| {
        KeepAll(records, Other(handle));
        return None;
      }
      FindAt(records, i);
      r := Some(records[i]);
      RemoveAt(i);
    }

    /** Drop every record of `doomed`, one handle at a time. */
    method DropAll(doomed: seq<HandleRecord>)
      requires Valid()
      requires forall r :: r in doomed ==> r in records
      modifies this`records, this`counts, this`tenantCounts
      ensures Valid() && records == Keep(old(records), NotIn(doomed))
    {
      hide Caches, Keep, UniqueHandles;
      ghost var before := records;
      UniqueAreDistinct(before);
      KeepAll(before, NotIn(doomed[..0]));
      for i := 0 to |doomed|
        invariant Valid() && records == Keep(before, NotIn(doomed[..i]))
      {
        var _ := DropRecord(doomed[i].handle);
        assert doomed[..i + 1] == doomed[..i] + [doomed[i]];
        KeepKeep(before, NotIn(doomed[..i]), Other(doomed[i].handle), NotIn(doomed[..i + 1]));
      }
      assert doomed[..|doomed|] == doomed;
    }

    method PurgeExpired(now: real, force: bool)
      requires Valid()
      modifies this`records, this`counts, this`tenantCounts, this`nextPurge
      ensures Valid() && Table() == Purge(old(Table()), now, force)
    {
      if !force && now < nextPurge {
        return;
      }
      nextPurge := now + 1.0;
      var doomed := Keep(records, ExpiredAt(now));
      KeepCongruence(records, NotIn(doomed), AliveAt(now));
      DropAll(doomed);
    }

    /** Every callback runs, even after one has failed. */
    method Notify(gone: seq<HandleRecord>) returns (failures: nat)
      modifies this`notified
      ensures notified == if onRevoke.Some? then old(notified) + gone else old(notified)
      ensures failures == if onRevoke.Some? then |Keep(gone, onRevoke.value)| else 0
    {
      failures := 0;
      if onRevoke.None? {
        return;
      }
      for i := 0 to |gone|
        invariant notified == old(notified) + gone[..i]
        invariant failures == |Keep(gone[..i], onRevoke.value)|
      {
        notified := notified + [gone[i]];
        assert gone[..i + 1] == gone[..i] + [gone[i]];
        KeepSnoc(gone[..i], gone[i], onRevoke.value);
        if onRevoke.value(gone[i]) {
          failures := failures + 1;
        }
      }
      assert gone[..|gone|] == gone;
    }

    lemma CountersAgree(owner: Owner)
      requires Valid()
      ensures Get(counts, owner, 0) == OwnerCount(records, owner)
      ensures Get(tenantCounts, owner.1, 0) == TenantCount(records, owner.1)
    {
    }

    /** The global cap of `mint`: a forced sweep under pressure, then the check. */
    method GlobalCheck(owner: Owner, now: real) returns (full: bool)
      requires Valid()
      modifies this`records, this`counts, this`tenantCounts, this`nextPurge
      ensures Valid() && Table() == Relieve(old(Table()), |old(records)| >= cfg.max, now)
      ensures full == GlobalFull(cfg, records, owner)
    {
      if |records| >= cfg.max {
        PurgeExpired(now, true);
      }
      CountersAgree(owner);
      var mine := Get(counts, owner, 0);
      full := |records| >= cfg.max && (mine >= OWNER_FLOOR || |records| >= 2 * cfg.max);
    }

    method PrincipalCheck(owner: Owner, now: real) returns (full: bool)
      requires Valid()
      modifies this`records, this`counts, this`tenantCounts, this`nextPurge
      ensures Valid()
      ensures Table() == Relieve(old(Table()), PrincipalFull(cfg, old(records), owner), now)
      ensures full == PrincipalFull(cfg, records, owner)
    {
      CountersAgree(owner);
      full := false;
      if Get(counts, owner, 0) >= cfg.maxPerPrincipal {
        PurgeExpired(now, true);
        CountersAgree(owner);
        full := Get(counts, owner, 0) >= cfg.maxPerPrincipal;
      }
    }

    method TenantCheck(owner: Owner, now: real) returns (full: bool)
      requires Valid()
      modifies this`records, this`counts, this`tenantCounts, this`nextPurge
      ensures Valid()
      ensures Table() == Relieve(old(Table()), TenantCount(old(records), owner.1) >= cfg.maxPerTenant, now)
      ensures full == TenantFull(cfg, records, owner)
    {
      CountersAgree(owner);
      full := false;
      if Get(tenantCounts, owner.1, 0) >= cfg.maxPerTenant {
        PurgeExpired(now, true);
        CountersAgree(owner);
        var inTenant := Get(tenantCounts, owner.1, 0);
        full := inTenant >= cfg.maxPerTenant
                && (Get(counts, owner, 0) >= OWNER_FLOOR || inTenant >= 2 * cfg.maxPerTenant);
      }
    }

    method Admit(owner: Owner, now: real) returns (refused: Option<MintResult>)
      requires Valid()
      modifies this`records, this`counts, this`tenantCounts, this`nextPurge
      ensures Valid() && (Table(), refused) == MakeRoom(cfg, old(Table()), owner, now)
    {
      PurgeExpired(now, false);
      var full := GlobalCheck(owner, now);
      if full {
        return Some(RegistryFull);
      }
      full := PrincipalCheck(owner, now);
      if full {
        return Some(PrincipalLimit);
      }
      full := TenantCheck(owner, now);
      if full {
        return Some(TenantLimit);
      }
      return None;
    }

    /** Store one record and count it in. */
    method Add(r: HandleRecord)
      requires Valid() && forall x :: x in records ==> x.handle != r.handle
      modifies this`records, this`counts, this`tenantCounts
      ensures Valid() && records == old(records) + [r]
    {
      hide Caches, Increment;
      CachesSnoc(counts, records, r, OwnerOf);
      CachesSnoc(tenantCounts, records, r, TenantOf);
      counts := Increment(counts, (r.principal, r.tenant));
      tenantCounts := Increment(tenantCounts, r.tenant);
      records := records + [r];
    }

    method Mint(principal: string, tenant: string, kind: string, ttl: int, now: real, newHandle: string)
      returns (result: MintResult)
      requires Valid()
      requires forall r :: r in records ==> r.handle != newHandle
      modifies this
      ensures Valid() && notified == old(notified)
      ensures (Table(), MintAnswer(result))
              == LazyStep(cfg, old(Table()), now, HandleSpec.Mint(principal, tenant, kind, ttl, newHandle))
    {
      hide Caches, UniqueHandles, MakeRoom;
      if principal == "" || tenant == "" {
        return MissingIdentity;
      }
      if !(0 < ttl <= cfg.maxTtl) {
        return BadTtl;
      }
      var owner := (principal, tenant);
      MakeRoomRefines(cfg, Table(), owner, now);
      var refused := Admit(owner, now);
      if refused.Some? {
        return refused.value;
      }
      Add(HandleRecord(newHandle, principal, tenant, kind, now, now + ttl as real));
      return Minted(newHandle);
    }

    method Resolve(handle: Option<string>, principal: string, tenant: string, wanted: Option<string>, now: real)
      returns (found: Option<HandleRecord>)
      requires Valid()
      modifies this`records, this`counts, this`tenantCounts
      ensures Valid()
      ensures (Table(), if found.Some? then Found(found.value) else Denied)
              == LazyStep(cfg, old(Table()), now, HandleSpec.Resolve(handle, principal, tenant, wanted))
    {
      if handle.None? || |handle.value| > MAX_HANDLE_CHARS {
        return None;
      }
      found := Find(records, handle.value);
      if found.Some? && found.value.expiresAt <= now {
        var _ := DropRecord(handle.value);
        found := None;
      }
      if found.None? || principal != found.value.principal || tenant != found.value.tenant
         || (wanted.Some? && found.value.kind != wanted.value) {
        found := None;
      }
    }

    /** `Err(n)`: n callbacks raised, after the record was dropped. */
    method AdminRevoke(handle: Option<string>) returns (done: Result<bool, nat>)
      requires Valid()
      modifies this
      ensures Valid()
      ensures Table() == LazyStep(cfg, old(Table()), 0.0, HandleSpec.AdminRevoke(handle)).0
      ensures var r := if handle.Some? then Find(old(records), handle.value) else None;
              var gone := if r.Some? then [r.value] else [];
              && notified == (if onRevoke.Some? then old(notified) + gone else old(notified))
              && done == if onRevoke.Some? && r.Some? && onRevoke.value(r.value) then Err(1) else Ok(r.Some?)
    {
      var r := None;
      if handle.Some? {
        r := DropRecord(handle.value);
      }
      if r.Some? {
        assert [r.value][..0] == [];
        var failures := Notify([r.value]);
        if failures > 0 {
          return Err(failures);
        }
      }
      return Ok(r.Some?);
    }

    /** `None`: the caller does not own the handle. */
    method Revoke(handle: Option<string>, principal: string, tenant: string, now: real)
      returns (done: Option<Result<bool, nat>>)
      requires Valid()
      modifies this
      ensures Valid()
      ensures var (s', a) := LazyStep(cfg, old(Table()), now, HandleSpec.Revoke(handle, principal, tenant));
              && Table() == s'
              && (done.Some? <==> a == Revoked(true))
              && (done.Some? <==> a != Denied)
      ensures done.None? ==> notified == old(notified)
      ensures done.Some? ==>
                && handle.Some? && Find(old(records), handle.value).Some?
                && var r := Find(old(records), handle.value).value;
                   && notified == (if onRevoke.Some? then old(notified) + [r] else old(notified))
                   && done.value == if onRevoke.Some? && onRevoke.value(r) then Err(1) else Ok(true)
    {
      hide Keep, Caches, UniqueHandles;
      var found := Resolve(handle, principal, tenant, None, now);
      if found.None? {
        return None;
      }
      var d := AdminRevoke(Some(found.value.handle));
      return Some(d);
    }

    /** Returns the records revoked, and how many callbacks raised. */
    method RevokePrincipal(principal: string, within: Option<string>)
      returns (doomed: seq<HandleRecord>, failures: nat)
      requires Valid()
      modifies this
      ensures Valid()
      ensures (Table(), Listing(doomed))
              == LazyStep(cfg, old(Table()), 0.0, HandleSpec.RevokePrincipal(principal, within))
      ensures notified == if onRevoke.Some? then old(notified) + doomed else old(notified)
      ensures failures == if onRevoke.Some? then |Keep(doomed, onRevoke.value)| else 0
    {
      doomed := Keep(records, OwnedBy(principal, within));
      KeepCongruence(records, NotIn(doomed), NotOwnedBy(principal, within));
      DropAll(doomed);
      failures := Notify(doomed);
    }

    method ListForPrincipal(principal: string, within: Option<string>, now: real)
      returns (listed: seq<HandleRecord>)
      requires Valid()
      modifies this`records, this`counts, this`tenantCounts, this`nextPurge
      ensures Valid()
      ensures (Table(), Listing(listed))
              == LazyStep(cfg, old(Table()), now, HandleSpec.ListFor(principal, within))
    {
      PurgeExpired(now, true);
      listed := Keep(records, OwnedBy(principal, within));
    }
  }
}

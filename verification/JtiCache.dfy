/** The DPoP replay cache (cosai_mcp/middleware/auth.py:25-63). The ordered
    dictionary is the sequence of its items in insertion order. */
module JtiCaches {
  import opened Lists

  datatype Item = Item(jti: string, expiry: real)

  datatype Call = Call(now: real, jti: string)

  function LiveAt(now: real): Item -> bool { (e: Item) => e.expiry > now }

  function DeadAt(now: real): Item -> bool { (e: Item) => e.expiry <= now }

  function KeyOtherThan(jti: string): Item -> bool { (e: Item) => e.jti != jti }

  function KeyNotIn(gone: set<string>): Item -> bool { (e: Item) => e.jti !in gone }

  predicate Holds(items: seq<Item>, jti: string) {
    exists i :: 0 <= i < |items| && items[i].jti == jti
  }

  function Step(items: seq<Item>, c: Call, maxsize: int, ttl: real): (seq<Item>, bool) {
    var live := Keep(items, LiveAt(c.now));
    if Holds(live, c.jti) || |live| >= maxsize then (live, false)
    else (live + [Item(c.jti, c.now + ttl)], true)
  }

  function Run(cs: seq<Call>, maxsize: int, ttl: real): seq<Item> {
    if cs == [] then []
    else Step(Run(cs[..|cs| - 1], maxsize, ttl), cs[|cs| - 1], maxsize, ttl).0
  }

  predicate AcceptedAt(cs: seq<Call>, i: nat, maxsize: int, ttl: real)
    requires i < |cs|
  {
    Step(Run(cs[..i], maxsize, ttl), cs[i], maxsize, ttl).1
  }

  /** Everything ever accepted; nothing is forgotten here. */
  function History(cs: seq<Call>, maxsize: int, ttl: real): seq<Item> {
    if cs == [] then []
    else
      var n := |cs| - 1;
      Remember(History(cs[..n], maxsize, ttl), cs[n], AcceptedAt(cs, n, maxsize, ttl), ttl)
  }

  ghost predicate Ordered(cs: seq<Call>, now: real) {
    && (forall i, j :: 0 <= i < j < |cs| ==> cs[i].now <= cs[j].now)
    && (cs != [] ==> cs[|cs| - 1].now <= now)
  }

  lemma WindowLater(items: seq<Item>, hist: seq<Item>, now: real, later: real)
    requires Keep(items, LiveAt(now)) == Keep(hist, LiveAt(now)) && now <= later
    ensures Keep(items, LiveAt(later)) == Keep(hist, LiveAt(later))
    ensures Keep(Keep(items, LiveAt(now)), LiveAt(later)) == Keep(items, LiveAt(later))
  {
    KeepKeep(items, LiveAt(now), LiveAt(later), LiveAt(later));
    KeepKeep(hist, LiveAt(now), LiveAt(later), LiveAt(later));
  }

  function Remember(hist: seq<Item>, c: Call, accepted: bool, ttl: real): seq<Item> {
    if accepted then hist + [Item(c.jti, c.now + ttl)] else hist
  }

  lemma StepIsWindow(held: seq<Item>, hist: seq<Item>, c: Call, later: real, maxsize: int, ttl: real)
    requires Keep(held, LiveAt(c.now)) == Keep(hist, LiveAt(c.now)) && c.now <= later
    ensures var (held', ok) := Step(held, c, maxsize, ttl);
            Keep(held', LiveAt(later)) == Keep(Remember(hist, c, ok, ttl), LiveAt(later))
  {
    WindowLater(held, hist, c.now, later);
    var item := Item(c.jti, c.now + ttl);
    KeepSnoc(Keep(held, LiveAt(c.now)), item, LiveAt(later));
    KeepSnoc(hist, item, LiveAt(later));
  }

  /** The cache and the full history agree on everything still inside its window. */
  lemma {:induction false} CacheIsWindow(cs: seq<Call>, now: real, maxsize: int, ttl: real)
    requires Ordered(cs, now)
    ensures Keep(Run(cs, maxsize, ttl), LiveAt(now)) == Keep(History(cs, maxsize, ttl), LiveAt(now))
  {
    if cs != [] {
      var n := |cs| - 1;
      CacheIsWindow(cs[..n], cs[n].now, maxsize, ttl);
      StepIsWindow(Run(cs[..n], maxsize, ttl), History(cs[..n], maxsize, ttl), cs[n], now, maxsize, ttl);
    }
  }

  /** A call is accepted exactly when no accepted call with the same jti is still
      inside its window and fewer than `maxsize` accepted calls are: so a replay
      inside the window is always refused, a live entry is never lost, and an
      unseen jti is refused only when `maxsize` live entries are held. */
  lemma AcceptedIffWindowAllows(cs: seq<Call>, j: nat, maxsize: int, ttl: real)
    requires j < |cs| && Ordered(cs[..j], cs[j].now)
    ensures var window := Keep(History(cs[..j], maxsize, ttl), LiveAt(cs[j].now));
            AcceptedAt(cs, j, maxsize, ttl) <==> !Holds(window, cs[j].jti) && |window| < maxsize
  {
    CacheIsWindow(cs[..j], cs[j].now, maxsize, ttl);
  }

  lemma {:induction false} HistoryGrows(cs: seq<Call>, k: nat, x: Item, maxsize: int, ttl: real)
    requires k <= |cs| && x in History(cs[..k], maxsize, ttl)
    ensures x in History(cs, maxsize, ttl)
    decreases |cs|
  {
    if k == |cs| {
      assert cs[..k] == cs;
    } else {
      var init := cs[..|cs| - 1];
      assert init[..k] == cs[..k];
      HistoryGrows(init, k, x, maxsize, ttl);
    }
  }

  lemma AcceptedIsRemembered(cs: seq<Call>, i: nat, maxsize: int, ttl: real)
    requires i < |cs| && AcceptedAt(cs, i, maxsize, ttl)
    ensures Item(cs[i].jti, cs[i].now + ttl) in History(cs[..i + 1], maxsize, ttl)
  {
    var upTo := cs[..i + 1];
    assert upTo[..i] == cs[..i] && upTo[i] == cs[i];
    assert AcceptedAt(upTo, i, maxsize, ttl);
  }

  lemma LiveItemIsHeld(items: seq<Item>, x: Item, now: real)
    requires x in items && now < x.expiry
    ensures Holds(Keep(items, LiveAt(now)), x.jti)
  {
    var live := Keep(items, LiveAt(now));
    assert x in live;
    var k :| 0 <= k < |live| && live[k] == x;
  }

  /** After a jti is accepted, every call with it inside the window returns False. */
  lemma ReplayInWindowIsRefused(cs: seq<Call>, i: nat, j: nat, maxsize: int, ttl: real)
    requires i < j < |cs| && Ordered(cs[..j], cs[j].now)
    requires AcceptedAt(cs, i, maxsize, ttl) && cs[j].jti == cs[i].jti && cs[j].now < cs[i].now + ttl
    ensures !AcceptedAt(cs, j, maxsize, ttl)
  {
    var x := Item(cs[i].jti, cs[i].now + ttl);
    assert x in History(cs[..j], maxsize, ttl) by {
      AcceptedIsRemembered(cs, i, maxsize, ttl);
      assert cs[..j][..i + 1] == cs[..i + 1];
      HistoryGrows(cs[..j], i + 1, x, maxsize, ttl);
    }
    LiveItemIsHeld(History(cs[..j], maxsize, ttl), x, cs[j].now);
    AcceptedIffWindowAllows(cs, j, maxsize, ttl);
  }

  /** The size bound, for every `maxsize` however small. */
  lemma {:induction false} SizeBound(cs: seq<Call>, maxsize: int, ttl: real)
    ensures |Run(cs, maxsize, ttl)| <= if maxsize < 0 then 0 else maxsize
  {
    if cs != [] {
      SizeBound(cs[..|cs| - 1], maxsize, ttl);
    }
  }

  // ---------------------------------------------------------------------------
  // The same without a history: earlier acceptances, counted by their positions
  // ---------------------------------------------------------------------------

  /** Call `i` was accepted, and its window is open at `now`. */
  predicate OpenWindow(cs: seq<Call>, i: nat, now: real, maxsize: int, ttl: real) {
    i < |cs| && AcceptedAt(cs, i, maxsize, ttl) && now < cs[i].now + ttl
  }

  function OpenWindows(cs: seq<Call>, j: nat, now: real, maxsize: int, ttl: real): set<nat> {
    set i: nat | i < j && OpenWindow(cs, i, now, maxsize, ttl)
  }

  lemma {:induction false} WindowInit(cs: seq<Call>, n: nat, i: nat, now: real, maxsize: int, ttl: real)
    requires n <= |cs|
    ensures OpenWindow(cs[..n], i, now, maxsize, ttl) <==> i < n && OpenWindow(cs, i, now, maxsize, ttl)
  {
    if i < n {
      assert cs[..n][..i] == cs[..i];
    }
  }

  lemma {:induction false} NoWindows(now: real, maxsize: int, ttl: real)
    ensures History([], maxsize, ttl) == []
    ensures forall i: nat :: !OpenWindow([], i, now, maxsize, ttl)
  {
  }

  lemma {:induction false} EarlierWindows(cs: seq<Call>, now: real, maxsize: int, ttl: real, positions: set<nat>)
    requires cs != [] && forall i: nat :: i in positions <==> OpenWindow(cs, i, now, maxsize, ttl)
    ensures var n: nat := |cs| - 1;
            forall i: nat :: i in positions - {n} <==> OpenWindow(cs[..n], i, now, maxsize, ttl)
  {
    var n: nat := |cs| - 1;
    forall i: nat
      ensures i in positions - {n} <==> OpenWindow(cs[..n], i, now, maxsize, ttl)
    {
      WindowInit(cs, n, i, now, maxsize, ttl);
      assert i in positions ==> i <= n;
    }
  }

  lemma {:induction false} LastWindow(cs: seq<Call>, now: real, maxsize: int, ttl: real)
    requires cs != []
    ensures |Keep(History(cs, maxsize, ttl), LiveAt(now))|
         == |Keep(History(cs[..|cs| - 1], maxsize, ttl), LiveAt(now))|
            + (if OpenWindow(cs, |cs| - 1, now, maxsize, ttl) then 1 else 0)
  {
    hide Keep, AcceptedAt;
    var n := |cs| - 1;
    KeepSnoc(History(cs[..n], maxsize, ttl), Item(cs[n].jti, cs[n].now + ttl), LiveAt(now));
  }

  /** The entries remembered with open windows are one for each such acceptance. */
  lemma {:induction false} HistoryCount(cs: seq<Call>, now: real, maxsize: int, ttl: real, positions: set<nat>)
    requires forall i: nat :: i in positions <==> OpenWindow(cs, i, now, maxsize, ttl)
    ensures |Keep(History(cs, maxsize, ttl), LiveAt(now))| == |positions|
    decreases |cs|
  {
    hide Keep, OpenWindow;
    if cs == [] {
      NoWindows(now, maxsize, ttl);
      assert positions == {};
      KeepEmpty(History(cs, maxsize, ttl), LiveAt(now));
    } else {
      var n: nat := |cs| - 1;
      EarlierWindows(cs, now, maxsize, ttl, positions);
      HistoryCount(cs[..n], now, maxsize, ttl, positions - {n});
      LastWindow(cs, now, maxsize, ttl);
      CountOneMore(positions, n);
    }
  }

  lemma {:induction false} HistoryHasWindow(cs: seq<Call>, now: real, jti: string, maxsize: int, ttl: real)
    ensures Holds(Keep(History(cs, maxsize, ttl), LiveAt(now)), jti) <==>
              exists i: nat :: OpenWindow(cs, i, now, maxsize, ttl) && cs[i].jti == jti
    decreases |cs|
  {
    hide Step, Run;
    var live := Keep(History(cs, maxsize, ttl), LiveAt(now));
    if Holds(live, jti) {
      var k :| 0 <= k < |live| && live[k].jti == jti;
      assert live[k] in live;
      var i := RememberedWasAccepted(cs, live[k], maxsize, ttl);
      assert OpenWindow(cs, i, now, maxsize, ttl);
    }
    if i: nat :| OpenWindow(cs, i, now, maxsize, ttl) && cs[i].jti == jti {
      AcceptedIsRemembered(cs, i, maxsize, ttl);
      HistoryGrows(cs, i + 1, Item(cs[i].jti, cs[i].now + ttl), maxsize, ttl);
      LiveItemIsHeld(History(cs, maxsize, ttl), Item(cs[i].jti, cs[i].now + ttl), now);
    }
  }

  lemma {:induction false} RememberedWasAccepted(cs: seq<Call>, x: Item, maxsize: int, ttl: real) returns (i: nat)
    requires x in History(cs, maxsize, ttl)
    ensures i < |cs| && AcceptedAt(cs, i, maxsize, ttl) && x == Item(cs[i].jti, cs[i].now + ttl)
    decreases |cs|
  {
    hide Step, Run;
    var n: nat := |cs| - 1;
    if x in History(cs[..n], maxsize, ttl) {
      i := RememberedWasAccepted(cs[..n], x, maxsize, ttl);
      assert cs[..n][..i] == cs[..i];
    } else {
      i := n;
    }
  }

  /** `check_and_add` returns True exactly when no earlier call with the same id was accepted
      whose window is open, and fewer than `maxsize` accepted calls have open windows. */
  lemma {:induction false} AcceptsIff(cs: seq<Call>, j: nat, maxsize: int, ttl: real)
    requires j < |cs| && Ordered(cs[..j], cs[j].now)
    ensures var open := OpenWindows(cs, j, cs[j].now, maxsize, ttl);
            AcceptedAt(cs, j, maxsize, ttl) <==> |open| < maxsize && forall i :: i in open ==> cs[i].jti != cs[j].jti
  {
    hide AcceptedAt, Keep, Holds, OpenWindow;
    var now := cs[j].now;
    var open := OpenWindows(cs, j, now, maxsize, ttl);
    forall i: nat
      ensures i in open <==> OpenWindow(cs[..j], i, now, maxsize, ttl)
    {
      WindowInit(cs, j, i, now, maxsize, ttl);
    }
    AcceptedIffWindowAllows(cs, j, maxsize, ttl);
    HistoryCount(cs[..j], now, maxsize, ttl, open);
    HistoryHasWindow(cs[..j], now, cs[j].jti, maxsize, ttl);
    OpenIsBefore(cs, j, now, maxsize, ttl);
  }

  lemma {:induction false} OpenIsBefore(cs: seq<Call>, j: nat, now: real, maxsize: int, ttl: real)
    requires j <= |cs|
    ensures forall i: nat :: OpenWindow(cs[..j], i, now, maxsize, ttl) ==> i < j && cs[..j][i] == cs[i]
  {
  }

  // ---------------------------------------------------------------------------
  // The object
  // ---------------------------------------------------------------------------

  ghost predicate UniqueKeys(items: seq<Item>) {
    forall i, j :: 0 <= i < j < |items| ==> items[i].jti != items[j].jti
  }

  lemma {:induction false} KeepUniqueKeys(items: seq<Item>, p: Item -> bool)
    requires UniqueKeys(items)
    ensures UniqueKeys(Keep(items, p))
  {
    if items != [] {
      var n := |items| - 1;
      KeepUniqueKeys(items[..n], p);
      forall x | x in Keep(items[..n], p)
        ensures x.jti != items[n].jti
      {
        assert x in items[..n];
      }
    }
  }

  function Jtis(items: seq<Item>): (r: set<string>)
    ensures forall x :: x in items ==> x.jti in r
  {
    if items == [] then {} else Jtis(items[..|items| - 1]) + {items[|items| - 1].jti}
  }

  lemma {:induction false} JtisOrigin(items: seq<Item>, j: string)
    requires j in Jtis(items)
    ensures exists x :: x in items && x.jti == j
  {
    var n := |items| - 1;
    if j == items[n].jti {
      assert items[n] in items;
    } else {
      JtisOrigin(items[..n], j);
    }
  }

  lemma DeleteOne(before: seq<Item>, expired: seq<Item>, i: nat)
    requires i < |expired|
    ensures Keep(Keep(before, KeyNotIn(Jtis(expired[..i]))), KeyOtherThan(expired[i].jti)) ==
            Keep(before, KeyNotIn(Jtis(expired[..i + 1])))
  {
    assert expired[..i + 1][..i] == expired[..i];
    assert Jtis(expired[..i + 1]) == Jtis(expired[..i]) + {expired[i].jti};
    KeepKeep(before, KeyNotIn(Jtis(expired[..i])), KeyOtherThan(expired[i].jti),
             KeyNotIn(Jtis(expired[..i + 1])));
  }

  lemma ExpiredGone(before: seq<Item>, now: real)
    requires UniqueKeys(before)
    ensures Keep(before, KeyNotIn(Jtis(Keep(before, DeadAt(now))))) == Keep(before, LiveAt(now))
  {
    var expired := Keep(before, DeadAt(now));
    forall x | x in before
      ensures KeyNotIn(Jtis(expired))(x) == LiveAt(now)(x)
    {
      if x.jti in Jtis(expired) {
        JtisOrigin(expired, x.jti);
        var y :| y in expired && y.jti == x.jti;
        assert y in before;
      }
    }
    KeepCongruence(before, KeyNotIn(Jtis(expired)), LiveAt(now));
  }

  class JtiCache {
    const maxsize: int
    const ttl: real
    var cache: seq<Item>

    ghost predicate Valid()
      reads this
    {
      UniqueKeys(cache)
    }

    constructor (maxsize: int, ttl: real)
      ensures Valid() && cache == [] && this.maxsize == maxsize && this.ttl == ttl
    {
      this.maxsize, this.ttl, cache := maxsize, ttl, [];
    }

    /** Delete the expired keys, one by one. */
    method Sweep(now: real)
      requires Valid()
      modifies this
      ensures Valid() && cache == Keep(old(cache), LiveAt(now))
    {
      ghost var before := cache;
      var expired := Keep(cache, DeadAt(now));
      KeepAll(before, KeyNotIn(Jtis(expired[..0])));
      for i := 0 to |expired|
        invariant cache == Keep(before, KeyNotIn(Jtis(expired[..i])))
      {
        DeleteOne(before, expired, i);
        cache := Keep(cache, KeyOtherThan(expired[i].jti));
      }
      assert expired[..|expired|] == expired;
      ExpiredGone(before, now);
      KeepUniqueKeys(before, LiveAt(now));
    }

    method CheckAndAdd(jti: string, now: real) returns (isNew: bool)
      requires Valid()
      modifies this
      ensures Valid() && (cache, isNew) == Step(old(cache), Call(now, jti), maxsize, ttl)
    {
      Sweep(now);
      if Holds(cache, jti) {
        return false;
      }
      if |cache| >= maxsize {
        return false;
      }
      cache := cache + [Item(jti, now + ttl)];
      return true;
    }
  }
}

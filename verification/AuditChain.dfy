/** The hash-chained audit log (cosai_mcp/middleware/audit.py).

    A line holds the parsed JSON object. `B` is everything in it but the two hash
    fields. The hash of the canonical text is any function of the body and the link that
    is never empty; where a result needs more of it, the result says so. */
module AuditChain {
  import opened Wrappers

  function Repeat(c: char, n: nat): string { seq(n, _ => c) }

  const GENESIS := Repeat('0', 64)

  /** One line of the file. A hash field may be absent from a tampered object. */
  datatype Line<B> =
    | Blank
    | Garbled
    | Entry(body: B, prev: Option<string>, chain: Option<string>)

  /** A hash is text, so it differs from a field that is absent. */
  ghost predicate NeverEmpty<B(!new)>(hash: (B, Option<string>) -> string) {
    forall b, p :: hash(b, p) != ""
  }

  /** Collision-free, and never the genesis value. */
  ghost predicate Ideal<B(!new)>(hash: (B, Option<string>) -> string) {
    && NeverEmpty(hash)
    && (forall b1, p1, b2, p2 {:trigger hash(b1, p1), hash(b2, p2)} ::
          hash(b1, p1) == hash(b2, p2) ==> b1 == b2 && p1 == p2)
    && (forall b, p :: hash(b, p) != GENESIS)
  }

  // ---------------------------------------------------------------------------
  // What it means for a file to be an intact chain
  // ---------------------------------------------------------------------------

  function Entries<B>(lines: seq<Line<B>>): (r: seq<Line<B>>)
    ensures forall i :: 0 <= i < |r| ==> r[i].Entry?
  {
    if lines == [] then []
    else
      var x := lines[|lines| - 1];
      Entries(lines[..|lines| - 1]) + (if x.Entry? then [x] else [])
  }

  /** The hash a new entry must point back to. */
  function Head<B>(lines: seq<Line<B>>): string {
    var es := Entries(lines);
    if es == [] then GENESIS else es[|es| - 1].chain.GetOr(GENESIS)
  }

  /** Entry `e` is sound after a chain ending in `head`. */
  predicate Linked<B>(e: Line<B>, head: string, hash: (B, Option<string>) -> string)
    requires e.Entry?
  {
    e.prev == Some(head) && e.chain == Some(hash(e.body, e.prev))
  }

  /** Entry `k` links to the one before it, or to the genesis value. */
  predicate LinkedAt<B>(es: seq<Line<B>>, k: nat, hash: (B, Option<string>) -> string)
    requires k < |es| && forall i :: 0 <= i < |es| ==> es[i].Entry?
  {
    Linked(es[k], if k == 0 then GENESIS else es[k - 1].chain.GetOr(GENESIS), hash)
  }

  ghost predicate Intact<B>(lines: seq<Line<B>>, hash: (B, Option<string>) -> string) {
    && (forall i :: 0 <= i < |lines| ==> !lines[i].Garbled?)
    && var es := Entries(lines);
       forall k :: 0 <= k < |es| ==> LinkedAt(es, k, hash)
  }

  lemma EntriesSnoc<B>(lines: seq<Line<B>>, x: Line<B>)
    ensures Entries(lines + [x]) == Entries(lines) + (if x.Entry? then [x] else [])
  {
    assert (lines + [x])[..|lines|] == lines;
  }

  lemma IntactSnoc<B>(lines: seq<Line<B>>, x: Line<B>, hash: (B, Option<string>) -> string)
    ensures Intact(lines + [x], hash) <==>
              Intact(lines, hash) && !x.Garbled? && (x.Entry? ==> Linked(x, Head(lines), hash))
    ensures x.Entry? ==> Head(lines + [x]) == x.chain.GetOr(GENESIS)
    ensures !x.Entry? ==> Head(lines + [x]) == Head(lines)
  {
    EntriesSnoc(lines, x);
    var es, es', lines' := Entries(lines), Entries(lines + [x]), lines + [x];
    assert forall i :: 0 <= i < |lines| ==> lines'[i] == lines[i];
    assert lines'[|lines|] == x;
    forall k | 0 <= k < |es|
      ensures LinkedAt(es', k, hash) == LinkedAt(es, k, hash)
    {
      assert es'[k] == es[k];
    }
    if x.Entry? {
      assert LinkedAt(es', |es|, hash) == Linked(x, Head(lines), hash);
    }
  }

  lemma HeadIsText<B(!new)>(lines: seq<Line<B>>, hash: (B, Option<string>) -> string)
    requires NeverEmpty(hash) && Intact(lines, hash)
    ensures Head(lines) != ""
  {
    var es := Entries(lines);
    if es != [] {
      assert LinkedAt(es, |es| - 1, hash);
    }
  }

  lemma GenesisHeadIsEmpty<B(!new)>(lines: seq<Line<B>>, hash: (B, Option<string>) -> string)
    requires Ideal(hash) && Intact(lines, hash)
    ensures Head(lines) == GENESIS <==> Entries(lines) == []
    ensures Head(lines) != ""
  {
    HeadIsText(lines, hash);
    var es := Entries(lines);
    if es != [] {
      assert LinkedAt(es, |es| - 1, hash);
    }
  }

  lemma {:induction false} IntactPrefix<B>(lines: seq<Line<B>>, n: nat, hash: (B, Option<string>) -> string)
    requires n <= |lines| && Intact(lines, hash)
    ensures Intact(lines[..n], hash)
    decreases |lines|
  {
    if n < |lines| {
      var m := |lines| - 1;
      assert lines == lines[..m] + [lines[m]];
      IntactSnoc(lines[..m], lines[m], hash);
      assert lines[..m][..n] == lines[..n];
      IntactPrefix(lines[..m], n, hash);
    } else {
      assert lines[..n] == lines;
    }
  }

  // ---------------------------------------------------------------------------
  // Tamper evidence
  // ---------------------------------------------------------------------------

  /** Two entries of the two logs hash to one value and are not the same. */
  ghost predicate Collision<B(!new)>(l1: seq<Line<B>>, l2: seq<Line<B>>, hash: (B, Option<string>) -> string) {
    exists x, y :: x in l1 && y in l2 && Collide(x, y, hash)
  }

  predicate Collide<B(==)>(x: Line<B>, y: Line<B>, hash: (B, Option<string>) -> string) {
    && x.Entry? && y.Entry? && hash(x.body, x.prev) == hash(y.body, y.prev)
    && (x.body != y.body || x.prev != y.prev)
  }

  /** An entry of the log hashes to the genesis value. */
  ghost predicate HitsGenesis<B(!new)>(lines: seq<Line<B>>, hash: (B, Option<string>) -> string) {
    exists x :: x in lines && x.Entry? && hash(x.body, x.prev) == GENESIS
  }

  /** Whatever the hash, two intact chains with one head hold the same entries, or the two
      logs themselves exhibit a collision or a preimage of the genesis value. */
  lemma {:induction false} SameHeadOrCollision<B(!new)>(l1: seq<Line<B>>, l2: seq<Line<B>>,
                                                         hash: (B, Option<string>) -> string)
    requires Intact(l1, hash) && Intact(l2, hash) && Head(l1) == Head(l2)
    ensures || Entries(l1) == Entries(l2)
            || Collision(l1, l2, hash) || HitsGenesis(l1, hash) || HitsGenesis(l2, hash)
    decreases |l1| + |l2|
  {
    if l1 != [] && !l1[|l1| - 1].Entry? {
      DropLast(l1, hash);
      SameHeadOrCollision(l1[..|l1| - 1], l2, hash);
      EvidenceGrows(l1, |l1| - 1, l2, |l2|, hash);
    } else if l2 != [] && !l2[|l2| - 1].Entry? {
      DropLast(l2, hash);
      SameHeadOrCollision(l1, l2[..|l2| - 1], hash);
      EvidenceGrows(l1, |l1|, l2, |l2| - 1, hash);
    } else if l1 == [] || l2 == [] {
      EmptyOrHit(l1, hash);
      EmptyOrHit(l2, hash);
    } else {
      SameLast(l1, l2, hash);
      if !Collision(l1, l2, hash) {
        SameHeadOrCollision(l1[..|l1| - 1], l2[..|l2| - 1], hash);
        EvidenceGrows(l1, |l1| - 1, l2, |l2| - 1, hash);
      }
    }
  }

  lemma EmptyOrHit<B(!new)>(lines: seq<Line<B>>, hash: (B, Option<string>) -> string)
    requires Intact(lines, hash) && (lines == [] || lines[|lines| - 1].Entry?)
    ensures lines == [] ==> Entries(lines) == [] && Head(lines) == GENESIS
    ensures lines != [] && Head(lines) == GENESIS ==> HitsGenesis(lines, hash)
  {
    if lines != [] {
      DropLast(lines, hash);
      assert lines[|lines| - 1] in lines;
    }
  }

  lemma SameLast<B(!new)>(l1: seq<Line<B>>, l2: seq<Line<B>>, hash: (B, Option<string>) -> string)
    requires l1 != [] && l2 != [] && l1[|l1| - 1].Entry? && l2[|l2| - 1].Entry?
    requires Intact(l1, hash) && Intact(l2, hash) && Head(l1) == Head(l2)
    ensures var i1, i2, x, y := l1[..|l1| - 1], l2[..|l2| - 1], l1[|l1| - 1], l2[|l2| - 1];
            && Intact(i1, hash) && Intact(i2, hash)
            && Entries(l1) == Entries(i1) + [x] && Entries(l2) == Entries(i2) + [y]
            && (Collision(l1, l2, hash) || (x == y && Head(i1) == Head(i2)))
  {
    DropLast(l1, hash);
    DropLast(l2, hash);
    var x, y := l1[|l1| - 1], l2[|l2| - 1];
    assert x in l1 && y in l2 && hash(x.body, x.prev) == hash(y.body, y.prev);
    if x.body != y.body || x.prev != y.prev {
      assert Collide(x, y, hash);
    }
  }

  lemma EvidenceGrows<B(!new)>(l1: seq<Line<B>>, n: nat, l2: seq<Line<B>>, m: nat, hash: (B, Option<string>) -> string)
    requires n <= |l1| && m <= |l2|
    ensures Collision(l1[..n], l2[..m], hash) ==> Collision(l1, l2, hash)
    ensures Collision(l1, l2[..m], hash) ==> Collision(l1, l2, hash)
    ensures Collision(l1[..n], l2, hash) ==> Collision(l1, l2, hash)
    ensures HitsGenesis(l1[..n], hash) ==> HitsGenesis(l1, hash)
    ensures HitsGenesis(l2[..m], hash) ==> HitsGenesis(l2, hash)
  {
    assert forall x :: x in l1[..n] ==> x in l1;
    assert forall y :: y in l2[..m] ==> y in l2;
  }

  /** Two intact chains with the same head hold the same entries: no insertion,
      deletion, reordering, edit or wholesale rewrite keeps an anchored head. */
  lemma SameHeadSameEntries<B(!new)>(l1: seq<Line<B>>, l2: seq<Line<B>>, hash: (B, Option<string>) -> string)
    requires Ideal(hash) && Intact(l1, hash) && Intact(l2, hash)
    requires Head(l1) == Head(l2)
    ensures Entries(l1) == Entries(l2)
  {
    SameHeadOrCollision(l1, l2, hash);
  }

  lemma DropLast<B>(lines: seq<Line<B>>, hash: (B, Option<string>) -> string)
    requires lines != [] && Intact(lines, hash)
    ensures var init, x := lines[..|lines| - 1], lines[|lines| - 1];
            && Intact(init, hash) && !x.Garbled?
            && Entries(lines) == Entries(init) + (if x.Entry? then [x] else [])
            && (x.Entry? ==> Linked(x, Head(init), hash) && Head(lines) == hash(x.body, x.prev))
            && (!x.Entry? ==> Head(lines) == Head(init))
  {
    var init, x := lines[..|lines| - 1], lines[|lines| - 1];
    assert lines == init + [x];
    IntactSnoc(init, x, hash);
  }

  /** Without an anchor a truncated log still verifies, and its head is then the head
      of the shorter chain: only comparing heads reveals the cut. */
  lemma TruncationNeedsAnchor<B(!new)>(lines: seq<Line<B>>, n: nat, hash: (B, Option<string>) -> string)
    requires Ideal(hash) && Intact(lines, hash) && n <= |lines|
    ensures Intact(lines[..n], hash)
    ensures Head(lines[..n]) == Head(lines) <==> Entries(lines[..n]) == Entries(lines)
  {
    IntactPrefix(lines, n, hash);
    if Head(lines[..n]) == Head(lines) {
      SameHeadSameEntries(lines[..n], lines, hash);
    }
  }

  // ---------------------------------------------------------------------------
  // There are ideal hashes
  // ---------------------------------------------------------------------------

  /** The link with its length in front, then the body. */
  function TaggedHash(body: string, prev: Option<string>): string {
    match prev
    case None => "n" + body
    case Some(p) => "s" + (Repeat('1', |p|) + ("0" + (p + body)))
  }

  lemma CutAfterOnes(m: nat, n: nat, x: string, y: string)
    requires Repeat('1', m) + ("0" + x) == Repeat('1', n) + ("0" + y)
    ensures m == n && x == y
  {
    var s, t := Repeat('1', m) + ("0" + x), Repeat('1', n) + ("0" + y);
    assert s[m] == '0' && t[n] == '0';
    assert forall i :: 0 <= i < m ==> s[i] == '1';
    assert forall i :: 0 <= i < n ==> t[i] == '1';
    assert s[m + 1..] == x && t[n + 1..] == y;
  }

  lemma TaggedIsInjective(b1: string, p1: Option<string>, b2: string, p2: Option<string>)
    requires TaggedHash(b1, p1) == TaggedHash(b2, p2)
    ensures b1 == b2 && p1 == p2
  {
    var s, t := TaggedHash(b1, p1), TaggedHash(b2, p2);
    assert s[0] == t[0] && s[1..] == t[1..];
    if p1.Some? && p2.Some? {
      CutAfterOnes(|p1.value|, |p2.value|, p1.value + b1, p2.value + b2);
      assert (p1.value + b1)[..|p1.value|] == p1.value && (p1.value + b1)[|p1.value|..] == b1;
      assert (p2.value + b2)[..|p2.value|] == p2.value && (p2.value + b2)[|p2.value|..] == b2;
    } else {
      assert p1.None? && p2.None?;
      assert s[1..] == b1 && t[1..] == b2;
    }
  }

  /** What the results ask of a hash can be had. */
  lemma SomeHashIsIdeal()
    ensures Ideal(TaggedHash)
  {
    forall b1, p1, b2, p2 | TaggedHash(b1, p1) == TaggedHash(b2, p2)
      ensures b1 == b2 && p1 == p2
    {
      TaggedIsInjective(b1, p1, b2, p2);
    }
    forall b, p
      ensures TaggedHash(b, p) != "" && TaggedHash(b, p) != GENESIS
    {
      assert GENESIS[0] == '0';
      assert TaggedHash(b, p)[0] == if p.None? then 'n' else 's';
    }
  }

  // ---------------------------------------------------------------------------
  // The logger
  // ---------------------------------------------------------------------------

  datatype Op<B> = Append(body: B) | Restart

  datatype Logger<B> = Logger(lines: seq<Line<B>>, prevHash: string, entryCount: nat)

  /** One `log` call, or opening the file again, on values. */
  function StepLogger<B>(l: Logger<B>, op: Op<B>, hash: (B, Option<string>) -> string): Logger<B> {
    match op
    case Append(body) =>
      var chain := hash(body, Some(l.prevHash));
      Logger(l.lines + [Entry(body, Some(l.prevHash), Some(chain))], chain, l.entryCount + 1)
    case Restart => Logger(l.lines, Head(l.lines), |Entries(l.lines)|)
  }

  class LogFile<B> {
    var present: bool
    var lines: seq<Line<B>>

    constructor ()
      ensures !present && lines == []
    {
      present, lines := false, [];
    }
  }

  class AuditLogger<B(!new)> {
    const file: LogFile<B>
    const hash: (B, Option<string>) -> string
    var prevHash: string
    var entryCount: nat

    /** The cached head and count are those of the file. */
    ghost predicate Valid()
      reads this, file
    {
      && (!file.present ==> file.lines == [])
      && prevHash == Head(file.lines)
      && entryCount == |Entries(file.lines)|
    }

    ghost function State(): Logger<B>
      reads this, file
    {
      Logger(file.lines, prevHash, entryCount)
    }

    /** Opening a log, new or existing, whatever the logger that wrote it remembered: the
        restart path reads the tail. */
    constructor (file: LogFile<B>, hash: (B, Option<string>) -> string)
      requires !file.present ==> file.lines == []
      ensures this.file == file && this.hash == hash && Valid()
      ensures forall head, count :: State() == StepLogger(Logger(file.lines, head, count), Restart, hash)
    {
      this.file := file;
      this.hash := hash;
      prevHash := GENESIS;
      entryCount := 0;
      new;
      if file.present && |file.lines| > 0 {
        prevHash, entryCount := LoadTail();
      }
    }

    /** Counts every parsable line and skips the others. */
    method LoadTail() returns (lastHash: string, count: nat)
      ensures lastHash == Head(file.lines) && count == |Entries(file.lines)|
    {
      lastHash := GENESIS;
      count := 0;
      for i := 0 to |file.lines|
        invariant lastHash == Head(file.lines[..i]) && count == |Entries(file.lines[..i])|
      {
        var line := file.lines[i];
        assert file.lines[..i + 1] == file.lines[..i] + [line];
        EntriesSnoc(file.lines[..i], line);
        if line.Entry? {
          lastHash := line.chain.GetOr(GENESIS);
          count := count + 1;
        }
      }
      assert file.lines[..|file.lines|] == file.lines;
    }

    /** Appends one linked entry; an intact file stays intact, and a broken one broken. */
    method Log(body: B)
      requires Valid()
      modifies this, file
      ensures Valid() && file.present
      ensures Intact(file.lines, hash) <==> old(Intact(file.lines, hash))
      ensures State() == StepLogger(old(State()), Append(body), hash)
      ensures file.lines == old(file.lines)
                            + [Entry(body, Some(old(prevHash)), Some(hash(body, Some(old(prevHash)))))]
    {
      var prev := prevHash;
      var chainHash := hash(body, Some(prev));
      var entry := Entry(body, Some(prev), Some(chainHash));
      IntactSnoc(file.lines, entry, hash);
      EntriesSnoc(file.lines, entry);
      file.present := true;
      file.lines := file.lines + [entry];
      prevHash := chainHash;
      entryCount := entryCount + 1;
    }

    /** `Ok(n)`: n entries verified. `Err(lineno)`: the chain breaks at that line, or, with
        the number of entries, ends in the wrong head. Verification reads the file, not
        the cached state. */
    method VerifyChain(expectedHead: Option<string>) returns (r: Result<nat, nat>)
      requires NeverEmpty(hash)
      requires !file.present ==> file.lines == []
      ensures r.Ok? <==> Intact(file.lines, hash) && (expectedHead.None? || expectedHead.value == Head(file.lines))
      ensures r.Ok? ==> r.value == |Entries(file.lines)|
      ensures r.Err? && !Intact(file.lines, hash) ==>
                && 1 <= r.error <= |file.lines|
                && Intact(file.lines[..r.error - 1], hash) && !Intact(file.lines[..r.error], hash)
      ensures r.Err? && Intact(file.lines, hash) ==> r.error == |Entries(file.lines)|
    {
      if !file.present {
        if expectedHead.Some? && expectedHead.value != GENESIS {
          return Err(0);
        }
        return Ok(0);
      }
      var prev := GENESIS;
      var count := 0;
      ghost var lines := file.lines;
      for i := 0 to |file.lines|
        invariant Intact(lines[..i], hash)
        invariant prev == Head(lines[..i]) && count == |Entries(lines[..i])|
      {
        var line := file.lines[i];
        assert lines[..i + 1] == lines[..i] + [line];
        IntactSnoc(lines[..i], line, hash);
        EntriesSnoc(lines[..i], line);
        assert Intact(lines, hash) ==> Intact(lines[..i + 1], hash) by {
          if Intact(lines, hash) {
            IntactPrefix(lines, i + 1, hash);
          }
        }
        match line
        case Blank =>
        case Garbled =>
          return Err(i + 1);
        case Entry(body, storedPrev, storedHash) =>
          if storedPrev.GetOr("") != prev {
            assert !Linked(line, prev, hash);
            return Err(i + 1);
          }
          HeadIsText(lines[..i], hash);
          assert storedPrev == Some(prev);
          var expectedHash := hash(body, storedPrev);
          if storedHash.GetOr("") != expectedHash {
            return Err(i + 1);
          }
          assert expectedHash != "";
          prev := expectedHash;
          count := count + 1;
      }
      assert lines[..|lines|] == lines;
      if expectedHead.Some? && prev != expectedHead.value {
        return Err(count);
      }
      return Ok(count);
    }
  }

  // ---------------------------------------------------------------------------
  // Any history of log calls and restarts
  // ---------------------------------------------------------------------------

  function RunLogger<B>(ops: seq<Op<B>>, hash: (B, Option<string>) -> string): Logger<B> {
    if ops == [] then Logger([], GENESIS, 0)
    else StepLogger(RunLogger(ops[..|ops| - 1], hash), ops[|ops| - 1], hash)
  }

  function Bodies<B>(ops: seq<Op<B>>): seq<B> {
    if ops == [] then []
    else Bodies(ops[..|ops| - 1]) + (match ops[|ops| - 1] case Append(b) => [b] case Restart => [])
  }

  /** Every log so built is intact, its head and count are the logger's own, and its
      entries are the logged events in order; restarts change nothing. */
  lemma {:induction false} EveryRunVerifies<B>(ops: seq<Op<B>>, hash: (B, Option<string>) -> string)
    ensures var l := RunLogger(ops, hash);
            && Intact(l.lines, hash) && l.prevHash == Head(l.lines) && l.entryCount == |Entries(l.lines)|
            && |Bodies(ops)| == l.entryCount
            && (forall i :: 0 <= i < l.entryCount ==> Entries(l.lines)[i].body == Bodies(ops)[i])
  {
    if ops != [] {
      var n := |ops| - 1;
      EveryRunVerifies(ops[..n], hash);
      var l := RunLogger(ops[..n], hash);
      if ops[n].Append? {
        var x := Entry(ops[n].body, Some(l.prevHash), Some(hash(ops[n].body, Some(l.prevHash))));
        IntactSnoc(l.lines, x, hash);
        EntriesSnoc(l.lines, x);
      }
    }
  }
}

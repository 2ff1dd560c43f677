/** Scan results and the accepted-finding baseline (cosai_mcp/harness/result.py:31-62,
    cosai_mcp/baseline.py:61-148). */
module Results {
  import opened Wrappers

  datatype Probe = Probe(
    threat: string, probe: string, passed: bool, error: Option<string>,
    inconclusive: Option<string>, suppressed: bool)

  datatype Scenario = Scenario(id: string, status: string, passed: bool)

  /** The accepted fingerprints, with the digest that computes them. */
  datatype Baseline = Baseline(fingerprints: set<string>, digest: (string, string) -> string) {
    predicate Accepts(threat: string, probe: string) {
      digest(threat, probe) in fingerprints
    }
  }

  predicate IsFinding(r: Probe) {
    !r.passed && r.error.None? && r.inconclusive.None?
  }

  function Accept(r: Probe, b: Baseline): Probe {
    if IsFinding(r) && b.Accepts(r.threat, r.probe) then r.(suppressed := true) else r
  }

  function AcceptAll(rs: seq<Probe>, b: Baseline): (out: seq<Probe>)
    ensures |out| == |rs|
  {
    seq(|rs|, i requires 0 <= i < |rs| => Accept(rs[i], b))
  }

  method ApplyBaseline(rs: seq<Probe>, b: Baseline) returns (out: seq<Probe>)
    ensures out == AcceptAll(rs, b)
    ensures |out| == |rs|
    ensures forall i :: 0 <= i < |rs| ==>
              && out[i].(suppressed := rs[i].suppressed) == rs[i]
              && (out[i].suppressed <==>
                    || rs[i].suppressed
                    || (!rs[i].passed && rs[i].error.None? && rs[i].inconclusive.None?
                        && b.digest(rs[i].threat, rs[i].probe) in b.fingerprints))
  {
    out := [];
    for i := 0 to |rs|
      invariant |out| == i
      invariant forall j :: 0 <= j < i ==> out[j] == Accept(rs[j], b)
    {
      var r := rs[i];
      if IsFinding(r) && b.Accepts(r.threat, r.probe) {
        out := out + [r.(suppressed := true)];
      } else {
        out := out + [r];
      }
    }
  }

  lemma AcceptedMember(rs: seq<Probe>, b: Baseline, r: Probe)
    ensures r in rs ==> Accept(r, b) in AcceptAll(rs, b)
    ensures r in AcceptAll(rs, b) ==> exists q :: q in rs && r == Accept(q, b)
  {
    if r in rs {
      var i :| 0 <= i < |rs| && rs[i] == r;
      assert AcceptAll(rs, b)[i] == Accept(r, b);
    }
    if r in AcceptAll(rs, b) {
      var i :| 0 <= i < |rs| && AcceptAll(rs, b)[i] == r;
      assert rs[i] in rs;
    }
  }
}

/** The scan's exit code (cosai_mcp/api.py:408-503) and what a baseline can do to it. */
module ExitCodes {
  import opened Wrappers
  import opened Strings
  import opened Results

  const RANKS := map["info" := 0, "low" := 1, "medium" := 2, "high" := 3, "critical" := 4]

  function RankOf(severity: string, default: int): int {
    if severity in RANKS then RANKS[severity] else default
  }

  /** A scanner crash: an error that is neither a timeout nor a rate limit. */
  predicate IsCrash(r: Probe) {
    r.error.Some? && !Contains(r.error.value, "timed out") && !Contains(r.error.value, "-32029")
  }

  /** At or above the threshold; a threat of unknown severity always is, and so is
      every threat when no severities are given. */
  predicate Above(r: Probe, failOn: string, severities: Option<map<string, string>>) {
    severities.None? || r.threat !in severities.value
    || RankOf(severities.value[r.threat], 0) >= RankOf(failOn, 4)
  }

  predicate Gates(r: Probe, failOn: string, severities: Option<map<string, string>>) {
    IsFinding(r) && !r.suppressed && Above(r, failOn, severities)
  }

  predicate Clean(r: Probe, failOn: string, severities: Option<map<string, string>>) {
    r.passed && !r.suppressed && Above(r, failOn, severities)
  }

  predicate Qualifies(r: Probe, failOn: string, severities: Option<map<string, string>>) {
    !r.suppressed && !r.passed && Above(r, failOn, severities)
  }

  /** `failOn` is the threshold name in lower case. */
  function ExitCode(probes: seq<Probe>, scenarios: seq<Scenario>, failOn: string,
                    severities: Option<map<string, string>>): int
  {
    if exists s :: s in scenarios && s.status == "scan-incomplete" then 2
    else if exists r :: r in probes && IsCrash(r) then 2
    else if NothingVerified(probes, failOn, severities) then 2
    else if || (exists r :: r in probes && Gates(r, failOn, severities))
            || (exists s :: s in scenarios && !s.passed && s.status != "inconclusive") then 1
    else 0
  }

  /** No clean pass, and every probe that did not pass has an error. */
  predicate NothingVerified(probes: seq<Probe>, failOn: string, severities: Option<map<string, string>>) {
    && !(exists r :: r in probes && Clean(r, failOn, severities))
    && (exists r :: r in probes && Qualifies(r, failOn, severities))
    && (forall r :: r in probes && Qualifies(r, failOn, severities) ==> r.error.Some?)
  }

  /** Only what results there are matters, not their order or number. */
  lemma ExitCodeIgnoresOrder(p1: seq<Probe>, p2: seq<Probe>, s1: seq<Scenario>, s2: seq<Scenario>,
                             failOn: string, severities: Option<map<string, string>>)
    requires multiset(p1) == multiset(p2) && multiset(s1) == multiset(s2)
    ensures ExitCode(p1, s1, failOn, severities) == ExitCode(p2, s2, failOn, severities)
  {
    SameMembers(p1, p2);
    SameMembers(s1, s2);
  }

  lemma SameMembers<T>(a: seq<T>, b: seq<T>)
    requires multiset(a) == multiset(b)
    ensures forall x :: x in a <==> x in b
  {
    forall x
      ensures x in a <==> x in b
    {
      assert x in a <==> x in multiset(a);
      assert x in b <==> x in multiset(b);
    }
  }

  lemma AcceptKeeps(r: Probe, b: Baseline, failOn: string, severities: Option<map<string, string>>)
    ensures var q := Accept(r, b);
            && IsCrash(q) == IsCrash(r) && q.error == r.error
            && Clean(q, failOn, severities) == Clean(r, failOn, severities)
            && (Gates(q, failOn, severities) ==> Gates(r, failOn, severities))
            && (Qualifies(q, failOn, severities) ==> Qualifies(r, failOn, severities))
            && (Qualifies(r, failOn, severities) && !Gates(r, failOn, severities) ==> q == r)
  {
  }

  /** Crashes and clean passes are untouched by a baseline. */
  lemma BaselineKeeps(probes: seq<Probe>, b: Baseline, failOn: string, severities: Option<map<string, string>>)
    ensures var after := AcceptAll(probes, b);
            && ((exists r :: r in after && IsCrash(r)) <==> (exists r :: r in probes && IsCrash(r)))
            && ((exists r :: r in after && Clean(r, failOn, severities))
                <==> (exists r :: r in probes && Clean(r, failOn, severities)))
            && ((exists r :: r in after && Gates(r, failOn, severities))
                ==> (exists r :: r in probes && Gates(r, failOn, severities)))
  {
    var after := AcceptAll(probes, b);
    forall r | r in probes
      ensures Accept(r, b) in after && IsCrash(Accept(r, b)) == IsCrash(r)
              && Clean(Accept(r, b), failOn, severities) == Clean(r, failOn, severities)
    {
      AcceptedMember(probes, b, r);
      AcceptKeeps(r, b, failOn, severities);
    }
    forall r | r in after
      ensures exists q :: q in probes && r == Accept(q, b)
    {
      AcceptedMember(probes, b, r);
    }
  }

  /** Without gating findings a baseline changes nothing about what was verified. */
  lemma BaselineKeepsVerified(probes: seq<Probe>, b: Baseline, failOn: string,
                              severities: Option<map<string, string>>)
    requires !(exists r :: r in probes && Gates(r, failOn, severities))
    ensures NothingVerified(AcceptAll(probes, b), failOn, severities)
            <==> NothingVerified(probes, failOn, severities)
  {
    BaselineKeeps(probes, b, failOn, severities);
    var after := AcceptAll(probes, b);
    forall r
      ensures r in after && Qualifies(r, failOn, severities) <==> r in probes && Qualifies(r, failOn, severities)
    {
      AcceptedMember(probes, b, r);
      if r in after && Qualifies(r, failOn, severities) {
        var q :| q in probes && r == Accept(q, b);
        AcceptKeeps(q, b, failOn, severities);
      }
      if r in probes && Qualifies(r, failOn, severities) {
        AcceptKeeps(r, b, failOn, severities);
      }
    }
  }

  /** Accepting findings can change the exit code only when it was 1. */
  lemma BaselineChangesOnlyFindings(probes: seq<Probe>, scenarios: seq<Scenario>, b: Baseline,
                                    failOn: string, severities: Option<map<string, string>>)
    ensures var before := ExitCode(probes, scenarios, failOn, severities);
            before != 1 ==> ExitCode(AcceptAll(probes, b), scenarios, failOn, severities) == before
  {
    BaselineKeeps(probes, b, failOn, severities);
    if !(exists r :: r in probes && Gates(r, failOn, severities)) {
      BaselineKeepsVerified(probes, b, failOn, severities);
    } else if NothingVerified(probes, failOn, severities) {
      var r :| r in probes && Gates(r, failOn, severities);
      assert Qualifies(r, failOn, severities);
    }
  }

  /** Once the findings that `b` accepts are set aside, only errors are left to judge. */
  predicate OnlyErrorsLeft(probes: seq<Probe>, b: Baseline, failOn: string, severities: Option<map<string, string>>) {
    && !(exists r :: r in probes && Clean(r, failOn, severities))
    && (exists r :: r in probes && Qualifies(r, failOn, severities) && r.error.Some?)
    && (forall r :: r in probes && Qualifies(r, failOn, severities) && r.error.None? ==>
          IsFinding(r) && b.Accepts(r.threat, r.probe))
  }

  /** What still counts against the target. */
  predicate StillFails(probes: seq<Probe>, scenarios: seq<Scenario>, b: Baseline, failOn: string,
                       severities: Option<map<string, string>>)
  {
    || (exists r :: r in probes && Gates(r, failOn, severities) && !b.Accepts(r.threat, r.probe))
    || (exists s :: s in scenarios && !s.passed && s.status != "inconclusive")
  }

  lemma AcceptedQualifies(r: Probe, b: Baseline, failOn: string, severities: Option<map<string, string>>)
    ensures Qualifies(Accept(r, b), failOn, severities) <==>
              Qualifies(r, failOn, severities) && !(IsFinding(r) && b.Accepts(r.threat, r.probe))
    ensures Gates(Accept(r, b), failOn, severities) <==>
              Gates(r, failOn, severities) && !b.Accepts(r.threat, r.probe)
  {
  }

  lemma NothingVerifiedAfter(probes: seq<Probe>, b: Baseline, failOn: string, severities: Option<map<string, string>>)
    ensures NothingVerified(AcceptAll(probes, b), failOn, severities) <==> OnlyErrorsLeft(probes, b, failOn, severities)
  {
    hide Above, IsCrash, Gates, Clean, Qualifies, AcceptAll;
    var after := AcceptAll(probes, b);
    BaselineKeeps(probes, b, failOn, severities);
    forall r
      ensures r in probes ==> Accept(r, b) in after
      ensures r in after ==> exists q :: q in probes && r == Accept(q, b)
      ensures Qualifies(Accept(r, b), failOn, severities) <==>
                Qualifies(r, failOn, severities) && !(IsFinding(r) && b.Accepts(r.threat, r.probe))
    {
      AcceptedMember(probes, b, r);
      AcceptedQualifies(r, b, failOn, severities);
    }
  }

  lemma GatesAfter(probes: seq<Probe>, b: Baseline, failOn: string, severities: Option<map<string, string>>)
    ensures (exists r :: r in AcceptAll(probes, b) && Gates(r, failOn, severities)) <==>
              exists r :: r in probes && Gates(r, failOn, severities) && !b.Accepts(r.threat, r.probe)
  {
    var after := AcceptAll(probes, b);
    forall r
      ensures r in probes ==> Accept(r, b) in after
      ensures r in after ==> exists q :: q in probes && r == Accept(q, b)
      ensures Gates(Accept(r, b), failOn, severities) <==>
                Gates(r, failOn, severities) && !b.Accepts(r.threat, r.probe)
    {
      AcceptedMember(probes, b, r);
      AcceptedQualifies(r, b, failOn, severities);
    }
  }

  /** What a baseline makes of exit code 1: 2 exactly when it leaves only errors to judge,
      else 1 exactly when something not accepted still fails, else 0. */
  lemma BaselineDecides(probes: seq<Probe>, scenarios: seq<Scenario>, b: Baseline,
                        failOn: string, severities: Option<map<string, string>>)
    requires ExitCode(probes, scenarios, failOn, severities) == 1
    ensures ExitCode(AcceptAll(probes, b), scenarios, failOn, severities) ==
              if OnlyErrorsLeft(probes, b, failOn, severities) then 2
              else if StillFails(probes, scenarios, b, failOn, severities) then 1
              else 0
  {
    BaselineKeeps(probes, b, failOn, severities);
    NothingVerifiedAfter(probes, b, failOn, severities);
    GatesAfter(probes, b, failOn, severities);
  }

  /** For instance 1 becomes 2: with one accepted finding and one timeout left,
      nothing verified remains and the scan counts as incomplete. */
  lemma BaselineCanLeaveNothingVerified()
    ensures exists probes, b ::
              && ExitCode(probes, [], "high", None) == 1
              && ExitCode(AcceptAll(probes, b), [], "high", None) == 2
  {
    var finding := Probe("T01", "p1", false, None, None, false);
    var timeout := Probe("T02", "p2", false, Some("timed out"), None, false);
    var b := Baseline({"f"}, (t, p) => if t == "T01" then "f" else "g");
    var probes := [finding, timeout];
    assert At("timed out", "timed out", 0);
    FindIsLeast("timed out", "timed out", 0, 0);
    assert AcceptAll(probes, b) == [finding.(suppressed := true), timeout];
    var after := AcceptAll(probes, b);
    assert finding in probes && Gates(finding, "high", None);
    assert timeout in after && Qualifies(timeout, "high", None);
    assert ExitCode(probes, [], "high", None) == 1 && ExitCode(after, [], "high", None) == 2;
  }

  // ---------------------------------------------------------------------------
  // The exit code, case by case
  // ---------------------------------------------------------------------------

  predicate PhraseAt(text: string, phrase: string, i: nat) {
    i + |phrase| <= |text| && text[i..i + |phrase|] == phrase
  }

  ghost predicate Mentions(text: string, phrase: string) { exists i: nat :: PhraseAt(text, phrase, i) }

  lemma ContainsIs(text: string, phrase: string)
    ensures Contains(text, phrase) <==> Mentions(text, phrase)
  {
    if Contains(text, phrase) {
      assert PhraseAt(text, phrase, Find(text, phrase, 0));
    }
    if i: nat :| PhraseAt(text, phrase, i) {
      FindIsLeast(text, phrase, 0, i);
    }
  }

  /** The scan failed to judge the probe, and neither a timeout nor a rate limit is why. */
  ghost predicate Crashed(r: Probe) {
    r.error.Some? && !Mentions(r.error.value, "timed out") && !Mentions(r.error.value, "-32029")
  }

  /** A severity at least as high as the threshold; an unknown threshold is the highest. */
  predicate AtLeast(severity: string, failOn: string) {
    if failOn == "info" then true
    else if failOn == "low" then severity in {"low", "medium", "high", "critical"}
    else if failOn == "medium" then severity in {"medium", "high", "critical"}
    else if failOn == "high" then severity in {"high", "critical"}
    else severity == "critical"
  }

  predicate Matters(r: Probe, failOn: string, severities: Option<map<string, string>>) {
    severities.None? || r.threat !in severities.value || AtLeast(severities.value[r.threat], failOn)
  }

  lemma MattersIs(r: Probe, failOn: string, severities: Option<map<string, string>>)
    ensures Above(r, failOn, severities) <==> Matters(r, failOn, severities)
    ensures IsCrash(r) <==> Crashed(r)
  {
    if r.error.Some? {
      ContainsIs(r.error.value, "timed out");
      ContainsIs(r.error.value, "-32029");
    }
  }

  /** The scan could not be completed: a scenario or a probe says so, or of the probes that
      matter and are not accepted none passed, some did not, and those all have an error. */
  ghost predicate Incomplete(probes: seq<Probe>, scenarios: seq<Scenario>, failOn: string,
                       severities: Option<map<string, string>>)
  {
    || (exists s :: s in scenarios && s.status == "scan-incomplete")
    || (exists r :: r in probes && Crashed(r))
    || (&& (forall r :: r in probes && !r.suppressed && Matters(r, failOn, severities) ==> !r.passed && r.error.Some?)
        && (exists r :: r in probes && !r.suppressed && Matters(r, failOn, severities)))
  }

  /** Some finding that matters is not accepted, or some scenario failed. */
  predicate HasFindings(probes: seq<Probe>, scenarios: seq<Scenario>, failOn: string,
                        severities: Option<map<string, string>>)
  {
    || (exists r :: r in probes && !r.passed && r.error == None && r.inconclusive == None && !r.suppressed
                    && Matters(r, failOn, severities))
    || (exists s :: s in scenarios && !s.passed && s.status != "inconclusive")
  }

  /** 2 for an incomplete scan, else 1 for findings, else 0. */
  lemma ExitCodeIs(probes: seq<Probe>, scenarios: seq<Scenario>, failOn: string,
                   severities: Option<map<string, string>>)
    ensures ExitCode(probes, scenarios, failOn, severities) ==
              if Incomplete(probes, scenarios, failOn, severities) then 2
              else if HasFindings(probes, scenarios, failOn, severities) then 1
              else 0
  {
    hide Above, IsCrash, Matters, Crashed;
    forall r
      ensures Above(r, failOn, severities) <==> Matters(r, failOn, severities)
      ensures IsCrash(r) <==> Crashed(r)
    {
      MattersIs(r, failOn, severities);
    }
  }
}

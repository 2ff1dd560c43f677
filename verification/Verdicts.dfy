/** What the assurance verdicts say about the scan
    (cosai_mcp/assurance/evaluate.py:50-213): each verdict and each level under its own
    condition on the results. */
module Verdicts {
  import opened Wrappers
  import opened Results
  import opened Assurance

  // ---------------------------------------------------------------------------
  // What the results say about one test
  // ---------------------------------------------------------------------------

  predicate DecidedProbe(r: Probe) {
    r.error == None && (r.inconclusive == None || r.inconclusive == Some(""))
  }

  /** Some result of the test decides. */
  predicate Decided(scan: Scan, id: string) {
    || (exists r :: r in scan.probes && r.threat == id && DecidedProbe(r))
    || (exists s :: s in scan.scenarios && s.id == id && s.status == "complete")
  }

  /** Some deciding result of the test is a failure. */
  predicate Contradicted(scan: Scan, id: string) {
    || (exists r :: r in scan.probes && r.threat == id && DecidedProbe(r) && !r.passed)
    || (exists s :: s in scan.scenarios && s.id == id && s.status == "complete" && !s.passed)
  }

  predicate Reported(scan: Scan, id: string) {
    || (exists r :: r in scan.probes && r.threat == id)
    || (exists s :: s in scan.scenarios && s.id == id)
  }

  /** There are results of the test, and all of them decide and pass. */
  predicate Proved(scan: Scan, id: string) {
    && Reported(scan, id)
    && (forall r :: r in scan.probes && r.threat == id ==> DecidedProbe(r) && r.passed)
    && (forall s :: s in scan.scenarios && s.id == id ==> s.status == "complete" && s.passed)
  }

  lemma TestsAre(scan: Scan, id: string)
    ensures Ran(scan, id) <==> Decided(scan, id)
    ensures Failed(scan, id) <==> Contradicted(scan, id)
    ensures Seen(scan, id) <==> Reported(scan, id)
    ensures Seen(scan, id) && !Unproven(scan, id) && !Failed(scan, id) <==> Proved(scan, id)
  {
    assert forall r :: ProbeConclusive(r) <==> DecidedProbe(r);
    assert forall s :: ScenarioConclusive(s) <==> s.status == "complete";
  }

  // ---------------------------------------------------------------------------
  // One control
  // ---------------------------------------------------------------------------

  /** Some test linked to the control, in any of the three ways, failed. */
  ghost predicate HasFailure(c: Control, scan: Scan) {
    exists id :: (id in c.probeThreats || id in c.verifyWith || id in c.optionalProbes) && Contradicted(scan, id)
  }

  /** Some test that had to run has no deciding result: a linked catalog test, the passive
      check T01, a linked passive scan that reported, or a promoted optional test. */
  ghost predicate HasGap(c: Control, scan: Scan, requiredOptional: set<string>) {
    || (exists id :: (id in c.probeThreats || id in c.verifyWith) && !Decided(scan, id)
                     && (!PassiveId(id) || id == "T01" || Reported(scan, id)))
    || (exists id :: id in c.optionalProbes && id in requiredOptional && !Decided(scan, id))
  }

  /** `T` and two digits, or that with a line feed behind it. */
  predicate PassiveId(id: string) {
    && 3 <= |id| && id[0] == 'T' && '0' <= id[1] <= '9' && '0' <= id[2] <= '9'
    && (|id| == 3 || id[3..] == "\n")
  }

  /** The control's positive tests can prove it at this level, and all of them did. */
  ghost predicate Verified(c: Control, level: int, scan: Scan) {
    && c.verifyWith != {} && level <= c.blackboxMaxLevel
    && forall id :: id in c.verifyWith ==> Proved(scan, id)
  }

  lemma FailureIs(c: Control, scan: Scan)
    ensures OutcomesOf(Linked(c) + c.optionalProbes, scan).failed != {} <==> HasFailure(c, scan)
  {
    var ids := Linked(c) + c.optionalProbes;
    var failed := OutcomesOf(ids, scan).failed;
    forall id
      ensures id in failed <==> (id in c.probeThreats || id in c.verifyWith || id in c.optionalProbes)
                                && Contradicted(scan, id)
    {
      TestsAre(scan, id);
    }
  }

  lemma GapIs(c: Control, scan: Scan, requiredOptional: set<string>)
    ensures var o := OutcomesOf(Linked(c) + c.optionalProbes, scan);
            Required(c, o, requiredOptional) - o.conclusive != {} <==> HasGap(c, scan, requiredOptional)
  {
    var o := OutcomesOf(Linked(c) + c.optionalProbes, scan);
    var gap := Required(c, o, requiredOptional) - o.conclusive;
    forall id
      ensures id in gap <==>
                || ((id in c.probeThreats || id in c.verifyWith) && !Decided(scan, id)
                    && (!PassiveId(id) || id == "T01" || Reported(scan, id)))
                || (id in c.optionalProbes && id in requiredOptional && !Decided(scan, id))
    {
      TestsAre(scan, id);
      PassiveIs(id);
    }
  }

  lemma PassiveIs(id: string)
    ensures IsPassive(id) <==> PassiveId(id)
  {
    if |id| == 4 {
      assert id[3..] == [id[3]];
    }
  }

  lemma VerifiedIs(c: Control, level: int, scan: Scan)
    ensures var o := OutcomesOf(Linked(c) + c.optionalProbes, scan);
            c.verifyWith != {} && level <= c.blackboxMaxLevel && c.verifyWith <= o.passed <==> Verified(c, level, scan)
  {
    var o := OutcomesOf(Linked(c) + c.optionalProbes, scan);
    forall id | id in c.verifyWith
      ensures id in o.passed <==> Proved(scan, id)
    {
      TestsAre(scan, id);
    }
  }

  /** The verdict on a control. A failure of any linked test decides before everything else;
      a gap decides before evidence; evidence before proof. */
  lemma VerdictIs(c: Control, level: int, scan: Scan, evidence: set<string>, requiredOptional: set<string>)
    ensures var v := JudgeControl(c, level, scan, evidence, requiredOptional);
            && v.id == c.id
            && v.strength == (if level in c.levels then Some(c.levels[level]) else None)
            && (v.verdict == NotRequired <==> level !in c.levels)
            && (v.verdict == Fail <==> level in c.levels && HasFailure(c, scan))
            && (v.verdict == Attested <==>
                  level in c.levels && !HasFailure(c, scan) && !HasGap(c, scan, requiredOptional) && c.id in evidence)
            && (v.verdict == Pass <==>
                  && level in c.levels && !HasFailure(c, scan) && !HasGap(c, scan, requiredOptional)
                  && c.id !in evidence && Verified(c, level, scan))
            && (v.verdict == Unverified <==>
                  && level in c.levels && !HasFailure(c, scan)
                  && (HasGap(c, scan, requiredOptional) || (c.id !in evidence && !Verified(c, level, scan))))
  {
    hide OutcomesOf, Required, HasFailure, HasGap, Verified;
    FailureIs(c, scan);
    GapIs(c, scan, requiredOptional);
    VerifiedIs(c, level, scan);
  }

  // ---------------------------------------------------------------------------
  // One level
  // ---------------------------------------------------------------------------

  predicate Demanded(c: Control, level: int) { level in c.levels && c.levels[level] == Must }

  /** The control stands on evidence or on proof. */
  ghost predicate Stands(c: Control, level: int, scan: Scan, evidence: set<string>, requiredOptional: set<string>) {
    && !HasFailure(c, scan) && !HasGap(c, scan, requiredOptional)
    && (c.id in evidence || Verified(c, level, scan))
  }

  ghost predicate StandsProved(c: Control, level: int, scan: Scan, evidence: set<string>,
                               requiredOptional: set<string>)
  {
    Stands(c, level, scan, evidence, requiredOptional) && c.id !in evidence
  }

  /** The level is not met exactly when a test linked to some MUST control failed; met when
      every MUST control stands on proof; met with attestation when every one stands and
      not all on proof; and otherwise indeterminate. */
  lemma LevelIs(controls: seq<Control>, level: int, scan: Scan, evidence: set<string>, requiredOptional: set<string>)
    ensures var r := Evaluate(controls, level, scan, evidence, requiredOptional);
            && (r == None <==> level !in {1, 2, 3, 4})
            && (r.Some? ==>
                  && (r.value == NotMet <==> exists c :: c in controls && Demanded(c, level) && HasFailure(c, scan))
                  && (r.value == Met <==>
                        forall c :: c in controls && Demanded(c, level) ==>
                          StandsProved(c, level, scan, evidence, requiredOptional))
                  && (r.value == MetWithAttestation <==>
                        && (forall c :: c in controls && Demanded(c, level) ==>
                              Stands(c, level, scan, evidence, requiredOptional))
                        && (exists c :: c in controls && Demanded(c, level) && c.id in evidence))
                  && (r.value == Indeterminate <==>
                        && (forall c :: c in controls && Demanded(c, level) ==> !HasFailure(c, scan))
                        && (exists c :: c in controls && Demanded(c, level)
                                        && !Stands(c, level, scan, evidence, requiredOptional))))
  {
    hide JudgeControl, HasFailure, HasGap, Verified;
    var vs := JudgeAll(controls, level, scan, evidence, requiredOptional);
    forall i | 0 <= i < |controls|
      ensures vs[i].strength == Some(Must) <==> Demanded(controls[i], level)
      ensures vs[i].verdict == Fail <==> level in controls[i].levels && HasFailure(controls[i], scan)
      ensures MustIs(vs[i], {Pass, Attested}) <==>
                (Demanded(controls[i], level) ==> Stands(controls[i], level, scan, evidence, requiredOptional))
      ensures MustIs(vs[i], {Pass}) <==>
                (Demanded(controls[i], level) ==>
                   StandsProved(controls[i], level, scan, evidence, requiredOptional))
    {
      VerdictIs(controls[i], level, scan, evidence, requiredOptional);
      assert vs[i] == JudgeControl(controls[i], level, scan, evidence, requiredOptional);
    }
    ByPosition(controls);
  }

  lemma ByPosition(controls: seq<Control>)
    ensures forall c :: c in controls <==> exists i :: 0 <= i < |controls| && controls[i] == c
  {
  }
}

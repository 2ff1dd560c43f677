/** The assurance verdict (cosai_mcp/assurance/evaluate.py:39-213): a control is judged
    on the results of its linked tests, a level on the verdicts of its MUST controls. */
module Assurance {
  import opened Wrappers
  import opened Results

  datatype Strength = Must | Should

  datatype Verdict = Pass | Fail | Attested | Unverified | NotRequired

  datatype LevelResult = Met | MetWithAttestation | NotMet | Indeterminate

  datatype Control = Control(
    id: string, levels: map<int, Strength>, probeThreats: set<string>, verifyWith: set<string>,
    blackboxMaxLevel: int, optionalProbes: set<string>)

  datatype ControlVerdict = ControlVerdict(id: string, strength: Option<Strength>, verdict: Verdict)

  /** All results of one scan. */
  datatype Scan = Scan(probes: seq<Probe>, scenarios: seq<Scenario>)

  /** `T` and two digits; the pattern's `$` also admits one final line feed. */
  predicate IsPassive(id: string) {
    && 3 <= |id| <= 4 && id[0] == 'T' && '0' <= id[1] <= '9' && '0' <= id[2] <= '9'
    && (|id| == 4 ==> id[3] == '\n')
  }

  const ALWAYS_EMITTING: set<string> := {"T01"}

  // ---------------------------------------------------------------------------
  // Outcomes
  // ---------------------------------------------------------------------------

  /** An error, or a non-empty reason, leaves a probe undecided. */
  predicate ProbeConclusive(r: Probe) {
    r.error.None? && (r.inconclusive.None? || r.inconclusive.value == "")
  }

  predicate ScenarioConclusive(s: Scenario) { s.status == "complete" }

  predicate Ran(scan: Scan, id: string) {
    || (exists r :: r in scan.probes && r.threat == id && ProbeConclusive(r))
    || (exists s :: s in scan.scenarios && s.id == id && ScenarioConclusive(s))
  }

  predicate Failed(scan: Scan, id: string) {
    || (exists r :: r in scan.probes && r.threat == id && ProbeConclusive(r) && !r.passed)
    || (exists s :: s in scan.scenarios && s.id == id && ScenarioConclusive(s) && !s.passed)
  }

  predicate Unproven(scan: Scan, id: string) {
    || (exists r :: r in scan.probes && r.threat == id && !ProbeConclusive(r))
    || (exists s :: s in scan.scenarios && s.id == id && !ScenarioConclusive(s))
  }

  predicate Seen(scan: Scan, id: string) {
    || (exists r :: r in scan.probes && r.threat == id)
    || (exists s :: s in scan.scenarios && s.id == id)
  }

  datatype Outcomes = Outcomes(conclusive: set<string>, failed: set<string>, passed: set<string>, seen: set<string>)

  function OutcomesOf(ids: set<string>, scan: Scan): Outcomes {
    Outcomes(set i | i in ids && Ran(scan, i),
             set i | i in ids && Failed(scan, i),
             set i | i in ids && Seen(scan, i) && !Unproven(scan, i) && !Failed(scan, i),
             set i | i in ids && Seen(scan, i))
  }

  /** The ids of the probes of a threat that failed conclusively, in order. */
  function FailingProbes(probes: seq<Probe>, id: string): seq<string> {
    if probes == [] then []
    else
      var r := probes[|probes| - 1];
      FailingProbes(probes[..|probes| - 1], id)
      + (if r.threat == id && ProbeConclusive(r) && !r.passed then [r.probe] else [])
  }

  /** A failing scenario names itself, once for each time it failed. */
  function FailingScenarios(scenarios: seq<Scenario>, id: string): seq<string> {
    if scenarios == [] then []
    else
      var s := scenarios[|scenarios| - 1];
      FailingScenarios(scenarios[..|scenarios| - 1], id)
      + (if s.id == id && ScenarioConclusive(s) && !s.passed then [s.id] else [])
  }

  /** The failed tests, each with what failed under it. */
  ghost predicate ListsFailures(failed: map<string, seq<string>>, ids: set<string>, scan: Scan) {
    && failed.Keys == OutcomesOf(ids, scan).failed
    && forall id :: id in ids ==>
         (if id in failed then failed[id] else [])
         == FailingProbes(scan.probes, id) + FailingScenarios(scan.scenarios, id)
  }

  /** `failed.setdefault(id, []).append(what)` */
  function AddFailure(failed: map<string, seq<string>>, id: string, what: string): map<string, seq<string>> {
    failed[id := (if id in failed then failed[id] else []) + [what]]
  }

  lemma FailingProbesSnoc(probes: seq<Probe>, r: Probe, id: string)
    ensures FailingProbes(probes + [r], id) ==
            FailingProbes(probes, id) + (if r.threat == id && ProbeConclusive(r) && !r.passed then [r.probe] else [])
    ensures FailingScenarios([], id) == []
  {
    assert (probes + [r])[..|probes|] == probes;
  }

  lemma FailingScenariosSnoc(scenarios: seq<Scenario>, s: Scenario, id: string)
    ensures FailingScenarios(scenarios + [s], id) ==
            FailingScenarios(scenarios, id) + (if s.id == id && ScenarioConclusive(s) && !s.passed then [s.id] else [])
  {
    assert (scenarios + [s])[..|scenarios|] == scenarios;
  }

  lemma ProbeFailure(failed: map<string, seq<string>>, ids: set<string>, probes: seq<Probe>, r: Probe)
    requires ListsFailures(failed, ids, Scan(probes, []))
    ensures var failed' := if r.threat in ids && ProbeConclusive(r) && !r.passed
                           then AddFailure(failed, r.threat, r.probe) else failed;
            ListsFailures(failed', ids, Scan(probes + [r], []))
  {
    hide OutcomesOf, UnprovenOf, FailingProbes, FailingScenarios, ProbeConclusive;
    ProbeStep(ids, probes, r);
    forall id
      ensures FailingProbes(probes + [r], id) == FailingProbes(probes, id)
              + (if r.threat == id && ProbeConclusive(r) && !r.passed then [r.probe] else [])
      ensures FailingScenarios([], id) == []
    {
      FailingProbesSnoc(probes, r, id);
    }
  }

  lemma ScenarioFailure(failed: map<string, seq<string>>, ids: set<string>, probes: seq<Probe>,
                        scenarios: seq<Scenario>, s: Scenario)
    requires ListsFailures(failed, ids, Scan(probes, scenarios))
    ensures var failed' := if s.id in ids && ScenarioConclusive(s) && !s.passed
                           then AddFailure(failed, s.id, s.id) else failed;
            ListsFailures(failed', ids, Scan(probes, scenarios + [s]))
  {
    hide OutcomesOf, UnprovenOf, FailingProbes, FailingScenarios, ScenarioConclusive;
    ScenarioStep(ids, probes, scenarios, s);
    forall id
      ensures FailingScenarios(scenarios + [s], id) == FailingScenarios(scenarios, id)
              + (if s.id == id && ScenarioConclusive(s) && !s.passed then [s.id] else [])
    {
      FailingScenariosSnoc(scenarios, s, id);
    }
  }

  lemma NothingYet(ids: set<string>)
    ensures var o := OutcomesOf(ids, Scan([], []));
            o.conclusive == {} && o.seen == {} && UnprovenOf(ids, Scan([], [])) == {}
    ensures ListsFailures(map[], ids, Scan([], []))
  {
  }

  lemma PassedIs(ids: set<string>, scan: Scan)
    ensures var o := OutcomesOf(ids, scan); o.passed == o.seen - UnprovenOf(ids, scan) - o.failed
  {
  }

  lemma FailedKeys(failed: map<string, seq<string>>, ids: set<string>, scan: Scan)
    requires ListsFailures(failed, ids, scan)
    ensures failed.Keys == OutcomesOf(ids, scan).failed
  {
  }

  /** The two accumulating loops, over probes and over scenarios. */
  method ComputeOutcomes(ids: set<string>, scan: Scan) returns (o: Outcomes, failed: map<string, seq<string>>)
    ensures o == OutcomesOf(ids, scan)
    ensures ListsFailures(failed, ids, scan)
  {
    hide OutcomesOf, UnprovenOf, ListsFailures, AddFailure;
    var conclusive: set<string> := {};
    var unproven: set<string>, seen: set<string> := {}, {};
    failed := map[];
    NothingYet(ids);
    for i := 0 to |scan.probes|
      invariant conclusive == OutcomesOf(ids, Scan(scan.probes[..i], [])).conclusive
      invariant ListsFailures(failed, ids, Scan(scan.probes[..i], []))
      invariant seen == OutcomesOf(ids, Scan(scan.probes[..i], [])).seen
      invariant unproven == UnprovenOf(ids, Scan(scan.probes[..i], []))
    {
      var r := scan.probes[i];
      assert scan.probes[..i + 1] == scan.probes[..i] + [r];
      ProbeStep(ids, scan.probes[..i], r);
      ProbeFailure(failed, ids, scan.probes[..i], r);
      if r.threat in ids {
        seen := seen + {r.threat};
        if r.error.Some? || (r.inconclusive.Some? && r.inconclusive.value != "") {
          unproven := unproven + {r.threat};
        } else {
          conclusive := conclusive + {r.threat};
          if !r.passed {
            failed := AddFailure(failed, r.threat, r.probe);
          }
        }
      }
    }
    assert scan.probes[..|scan.probes|] == scan.probes;
    for i := 0 to |scan.scenarios|
      invariant conclusive == OutcomesOf(ids, Scan(scan.probes, scan.scenarios[..i])).conclusive
      invariant ListsFailures(failed, ids, Scan(scan.probes, scan.scenarios[..i]))
      invariant seen == OutcomesOf(ids, Scan(scan.probes, scan.scenarios[..i])).seen
      invariant unproven == UnprovenOf(ids, Scan(scan.probes, scan.scenarios[..i]))
    {
      var s := scan.scenarios[i];
      assert scan.scenarios[..i + 1] == scan.scenarios[..i] + [s];
      ScenarioStep(ids, scan.probes, scan.scenarios[..i], s);
      ScenarioFailure(failed, ids, scan.probes, scan.scenarios[..i], s);
      if s.id in ids {
        seen := seen + {s.id};
        if s.status != "complete" {
          unproven := unproven + {s.id};
        } else {
          conclusive := conclusive + {s.id};
          if !s.passed {
            failed := AddFailure(failed, s.id, s.id);
          }
        }
      }
    }
    assert scan.scenarios[..|scan.scenarios|] == scan.scenarios;
    PassedIs(ids, scan);
    FailedKeys(failed, ids, scan);
    o := Outcomes(conclusive, failed.Keys, seen - unproven - failed.Keys, seen);
  }

  function UnprovenOf(ids: set<string>, scan: Scan): set<string> {
    set i | i in ids && Unproven(scan, i)
  }

  function Only(b: bool, ids: set<string>, id: string): set<string> {
    if b && id in ids then {id} else {}
  }

  lemma ProbeStep(ids: set<string>, probes: seq<Probe>, r: Probe)
    ensures var a, b := Scan(probes, []), Scan(probes + [r], []);
            && OutcomesOf(ids, b).seen == OutcomesOf(ids, a).seen + Only(true, ids, r.threat)
            && OutcomesOf(ids, b).conclusive == OutcomesOf(ids, a).conclusive + Only(ProbeConclusive(r), ids, r.threat)
            && OutcomesOf(ids, b).failed
               == OutcomesOf(ids, a).failed + Only(ProbeConclusive(r) && !r.passed, ids, r.threat)
            && UnprovenOf(ids, b) == UnprovenOf(ids, a) + Only(!ProbeConclusive(r), ids, r.threat)
  {
    assert forall x :: x in probes + [r] <==> x in probes || x == r;
  }

  lemma ScenarioStep(ids: set<string>, probes: seq<Probe>, scenarios: seq<Scenario>, s: Scenario)
    ensures var a, b := Scan(probes, scenarios), Scan(probes, scenarios + [s]);
            && OutcomesOf(ids, b).seen == OutcomesOf(ids, a).seen + Only(true, ids, s.id)
            && OutcomesOf(ids, b).conclusive == OutcomesOf(ids, a).conclusive + Only(ScenarioConclusive(s), ids, s.id)
            && OutcomesOf(ids, b).failed
               == OutcomesOf(ids, a).failed + Only(ScenarioConclusive(s) && !s.passed, ids, s.id)
            && UnprovenOf(ids, b) == UnprovenOf(ids, a) + Only(!ScenarioConclusive(s), ids, s.id)
  {
    assert forall x :: x in scenarios + [s] <==> x in scenarios || x == s;
  }

  // ---------------------------------------------------------------------------
  // Verdicts
  // ---------------------------------------------------------------------------

  function Linked(c: Control): set<string> { c.probeThreats + c.verifyWith }

  /** The tests that must have a conclusive result: linked catalog tests, the passive
      checks that always report or did report, and promoted optional tests. */
  function Required(c: Control, o: Outcomes, requiredOptional: set<string>): set<string> {
    (set i | i in Linked(c) && (!IsPassive(i) || i in ALWAYS_EMITTING || i in o.seen))
    + (c.optionalProbes * requiredOptional)
  }

  function JudgeControl(c: Control, level: int, scan: Scan, evidence: set<string>,
                        requiredOptional: set<string>): ControlVerdict
  {
    if level !in c.levels then ControlVerdict(c.id, None, NotRequired)
    else
      var o := OutcomesOf(Linked(c) + c.optionalProbes, scan);
      var v :=
        if o.failed != {} then Fail
        else if Required(c, o, requiredOptional) - o.conclusive != {} then Unverified
        else if c.id in evidence then Attested
        else if c.verifyWith != {} && level <= c.blackboxMaxLevel && c.verifyWith <= o.passed then Pass
        else Unverified;
      ControlVerdict(c.id, Some(c.levels[level]), v)
  }

  function JudgeAll(controls: seq<Control>, level: int, scan: Scan, evidence: set<string>,
                    requiredOptional: set<string>): seq<ControlVerdict>
  {
    seq(|controls|, i requires 0 <= i < |controls| =>
      JudgeControl(controls[i], level, scan, evidence, requiredOptional))
  }

  predicate MustIs(v: ControlVerdict, verdicts: set<Verdict>) {
    v.strength == Some(Must) ==> v.verdict in verdicts
  }

  function LevelOf(vs: seq<ControlVerdict>): LevelResult {
    if exists i :: 0 <= i < |vs| && vs[i].strength == Some(Must) && vs[i].verdict == Fail then NotMet
    else if forall i :: 0 <= i < |vs| ==> MustIs(vs[i], {Pass}) then Met
    else if forall i :: 0 <= i < |vs| ==> MustIs(vs[i], {Pass, Attested}) then MetWithAttestation
    else Indeterminate
  }

  /** `None`: the claimed level is not one of 1 to 4. */
  function Evaluate(controls: seq<Control>, level: int, scan: Scan, evidence: set<string>,
                    requiredOptional: set<string>): Option<LevelResult>
  {
    if 1 <= level <= 4 then Some(LevelOf(JudgeAll(controls, level, scan, evidence, requiredOptional)))
    else None
  }

  // ---------------------------------------------------------------------------
  // No over-claim
  // ---------------------------------------------------------------------------

  predicate IsMust(c: Control, level: int) { level in c.levels && c.levels[level] == Must }

  lemma MetControls(controls: seq<Control>, level: int, scan: Scan, evidence: set<string>,
                    requiredOptional: set<string>, c: Control)
    requires var r := Evaluate(controls, level, scan, evidence, requiredOptional);
             r == Some(Met) || r == Some(MetWithAttestation)
    requires c in controls && IsMust(c, level)
    ensures JudgeControl(c, level, scan, evidence, requiredOptional).verdict in {Pass, Attested}
  {
    var vs := JudgeAll(controls, level, scan, evidence, requiredOptional);
    var i :| 0 <= i < |controls| && controls[i] == c;
    assert vs[i] == JudgeControl(c, level, scan, evidence, requiredOptional);
    assert MustIs(vs[i], {Pass, Attested});
  }

  /** A level counts as met only if, for every MUST control, no linked or optional test
      has a conclusive failure, every required test has a conclusive result, and a
      control without evidence had every result of its positive probes pass. */
  lemma MetIsEarned(controls: seq<Control>, level: int, scan: Scan, evidence: set<string>,
                    requiredOptional: set<string>, c: Control)
    requires var r := Evaluate(controls, level, scan, evidence, requiredOptional);
             r == Some(Met) || r == Some(MetWithAttestation)
    requires c in controls && IsMust(c, level)
    ensures forall i :: i in Linked(c) + c.optionalProbes ==> !Failed(scan, i)
    ensures forall i :: i in Linked(c) && (!IsPassive(i) || i in ALWAYS_EMITTING || Seen(scan, i)) ==> Ran(scan, i)
    ensures forall i :: i in c.optionalProbes && i in requiredOptional ==> Ran(scan, i)
    ensures c.id !in evidence ==>
              && c.verifyWith != {} && level <= c.blackboxMaxLevel
              && forall i :: i in c.verifyWith ==> Seen(scan, i) && !Unproven(scan, i) && !Failed(scan, i)
    ensures Evaluate(controls, level, scan, evidence, requiredOptional) == Some(Met) ==> c.id !in evidence
  {
    MetControls(controls, level, scan, evidence, requiredOptional, c);
    var ids := Linked(c) + c.optionalProbes;
    var o := OutcomesOf(ids, scan);
    forall i | i in ids
      ensures !Failed(scan, i)
    {
      assert i !in o.failed;
    }
    forall i | i in Required(c, o, requiredOptional)
      ensures Ran(scan, i)
    {
      assert i !in Required(c, o, requiredOptional) - o.conclusive;
    }
    forall i | i in Linked(c) && (!IsPassive(i) || i in ALWAYS_EMITTING || Seen(scan, i))
      ensures Ran(scan, i)
    {
      assert Seen(scan, i) ==> i in o.seen;
      assert i in Required(c, o, requiredOptional);
    }
    forall i | i in c.optionalProbes && i in requiredOptional
      ensures Ran(scan, i)
    {
      assert i in Required(c, o, requiredOptional);
    }
    if c.id !in evidence {
      forall i | i in c.verifyWith
        ensures Seen(scan, i) && !Unproven(scan, i) && !Failed(scan, i)
      {
        assert i in o.passed;
      }
    }
    MetMeansPass(controls, level, scan, evidence, requiredOptional, c);
  }

  lemma MetMeansPass(controls: seq<Control>, level: int, scan: Scan, evidence: set<string>,
                     requiredOptional: set<string>, c: Control)
    requires c in controls && IsMust(c, level)
    ensures Evaluate(controls, level, scan, evidence, requiredOptional) == Some(Met) ==>
              JudgeControl(c, level, scan, evidence, requiredOptional).verdict == Pass
  {
    if Evaluate(controls, level, scan, evidence, requiredOptional) == Some(Met) {
      var vs := JudgeAll(controls, level, scan, evidence, requiredOptional);
      var i :| 0 <= i < |controls| && controls[i] == c;
      assert vs[i] == JudgeControl(c, level, scan, evidence, requiredOptional);
      assert MustIs(vs[i], {Pass});
    }
  }

  // ---------------------------------------------------------------------------
  // What verdicts do not depend on
  // ---------------------------------------------------------------------------

  /** The two scans show the same conclusive and inconclusive results, whatever their
      order, number and suppression. */
  ghost predicate SameEvents(a: Scan, b: Scan) {
    forall id :: Ran(a, id) == Ran(b, id) && Failed(a, id) == Failed(b, id)
                 && Unproven(a, id) == Unproven(b, id) && Seen(a, id) == Seen(b, id)
  }

  lemma SameEventsSameVerdicts(controls: seq<Control>, level: int, a: Scan, b: Scan, evidence: set<string>,
                               requiredOptional: set<string>)
    requires SameEvents(a, b)
    ensures JudgeAll(controls, level, a, evidence, requiredOptional)
         == JudgeAll(controls, level, b, evidence, requiredOptional)
  {
    forall c: Control
      ensures JudgeControl(c, level, a, evidence, requiredOptional)
           == JudgeControl(c, level, b, evidence, requiredOptional)
    {
      assert OutcomesOf(Linked(c) + c.optionalProbes, a) == OutcomesOf(Linked(c) + c.optionalProbes, b);
    }
  }

  /** Reordering the results changes no verdict. */
  lemma VerdictsIgnoreOrder(controls: seq<Control>, level: int, a: Scan, b: Scan, evidence: set<string>,
                            requiredOptional: set<string>)
    requires multiset(a.probes) == multiset(b.probes) && multiset(a.scenarios) == multiset(b.scenarios)
    ensures JudgeAll(controls, level, a, evidence, requiredOptional)
         == JudgeAll(controls, level, b, evidence, requiredOptional)
  {
    forall r
      ensures r in a.probes <==> r in b.probes
    {
      assert r in a.probes <==> r in multiset(a.probes);
      assert r in b.probes <==> r in multiset(b.probes);
    }
    forall s
      ensures s in a.scenarios <==> s in b.scenarios
    {
      assert s in a.scenarios <==> s in multiset(a.scenarios);
      assert s in b.scenarios <==> s in multiset(b.scenarios);
    }
    assert SameEvents(a, b);
    SameEventsSameVerdicts(controls, level, a, b, evidence, requiredOptional);
  }

  lemma AcceptedEvents(scan: Scan, b: Baseline)
    ensures SameEvents(scan, Scan(AcceptAll(scan.probes, b), scan.scenarios))
  {
    var after := AcceptAll(scan.probes, b);
    forall r | r in scan.probes
      ensures Accept(r, b) in after && ProbeConclusive(Accept(r, b)) == ProbeConclusive(r)
      ensures Accept(r, b).threat == r.threat && Accept(r, b).passed == r.passed
    {
      AcceptedMember(scan.probes, b, r);
    }
    forall q | q in after
      ensures exists r :: r in scan.probes && q == Accept(r, b)
    {
      AcceptedMember(scan.probes, b, q);
    }
  }

  /** Accepting a risk is not meeting a control: a baseline changes no verdict. */
  lemma VerdictsIgnoreBaseline(controls: seq<Control>, level: int, scan: Scan, evidence: set<string>,
                               requiredOptional: set<string>, b: Baseline)
    ensures JudgeAll(controls, level, Scan(AcceptAll(scan.probes, b), scan.scenarios), evidence, requiredOptional)
         == JudgeAll(controls, level, scan, evidence, requiredOptional)
  {
    AcceptedEvents(scan, b);
    SameEventsSameVerdicts(controls, level, scan, Scan(AcceptAll(scan.probes, b), scan.scenarios),
                           evidence, requiredOptional);
  }

  /** More results, and more or less evidence, never take a failed verdict back. */
  lemma FailStays(c: Control, level: int, scan: Scan, more: Scan, evidence: set<string>, evidence': set<string>,
                  requiredOptional: set<string>)
    requires JudgeControl(c, level, scan, evidence, requiredOptional).verdict == Fail
    ensures JudgeControl(c, level, Scan(scan.probes + more.probes, scan.scenarios + more.scenarios),
                         evidence', requiredOptional).verdict == Fail
  {
    var ids := Linked(c) + c.optionalProbes;
    var o := OutcomesOf(ids, scan);
    var bigger := Scan(scan.probes + more.probes, scan.scenarios + more.scenarios);
    var i :| i in o.failed;
    assert Failed(bigger, i);
    assert i in OutcomesOf(ids, bigger).failed;
  }

  /** A level once not met stays not met, whatever results or evidence are added. */
  lemma NotMetStays(controls: seq<Control>, level: int, scan: Scan, more: Scan, evidence: set<string>,
                    evidence': set<string>, requiredOptional: set<string>)
    requires Evaluate(controls, level, scan, evidence, requiredOptional) == Some(NotMet)
    ensures Evaluate(controls, level, Scan(scan.probes + more.probes, scan.scenarios + more.scenarios),
                     evidence', requiredOptional) == Some(NotMet)
  {
    var vs := JudgeAll(controls, level, scan, evidence, requiredOptional);
    var i :| 0 <= i < |vs| && vs[i].strength == Some(Must) && vs[i].verdict == Fail;
    FailStays(controls[i], level, scan, more, evidence, evidence', requiredOptional);
    var vs' := JudgeAll(controls, level, Scan(scan.probes + more.probes, scan.scenarios + more.scenarios),
                        evidence', requiredOptional);
    assert vs'[i].strength == Some(Must) && vs'[i].verdict == Fail;
  }

  /** No linked or optional test failed, and every required one ran: catalog tests, the
      passive check that always reports, passive scans that reported, and promoted
      optional tests. */
  predicate NothingOpen(c: Control, scan: Scan, requiredOptional: set<string>) {
    && (forall i :: i in Linked(c) + c.optionalProbes ==> !Failed(scan, i))
    && (forall i :: i in Linked(c) && (!IsPassive(i) || i in ALWAYS_EMITTING || Seen(scan, i)) ==> Ran(scan, i))
    && (forall i :: i in c.optionalProbes && i in requiredOptional ==> Ran(scan, i))
  }

  lemma NothingOpenIs(c: Control, scan: Scan, requiredOptional: set<string>)
    ensures var o := OutcomesOf(Linked(c) + c.optionalProbes, scan);
            NothingOpen(c, scan, requiredOptional) <==>
              o.failed == {} && Required(c, o, requiredOptional) - o.conclusive == {}
  {
    var o := OutcomesOf(Linked(c) + c.optionalProbes, scan);
    assert forall i :: i in o.failed <==> i in Linked(c) + c.optionalProbes && Failed(scan, i);
    assert forall i :: i in Required(c, o, requiredOptional) - o.conclusive <==>
                         i in Required(c, o, requiredOptional) && !Ran(scan, i);
  }

  /** Evidence never stands in for a test that could have disproved the control: it changes
      the verdict exactly when it is there, the control is required, and nothing is open;
      and then the verdict is that the control is attested. */
  lemma EvidenceNeedsTests(c: Control, level: int, scan: Scan, evidence: set<string>, requiredOptional: set<string>)
    ensures var without, v := JudgeControl(c, level, scan, {}, requiredOptional).verdict,
                              JudgeControl(c, level, scan, evidence, requiredOptional).verdict;
            && (without != v <==> level in c.levels && c.id in evidence && NothingOpen(c, scan, requiredOptional))
            && (without != v ==> v == Attested)
  {
    NothingOpenIs(c, scan, requiredOptional);
  }
}

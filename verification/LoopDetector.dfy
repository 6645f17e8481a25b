module LoopDetector {
  // The decision loop of `assess_trajectory`
  // (action_trajectory_loop_guard/src/action_trajectory_loop_guard/detector.py)
  // and the first-fire loop of `replay`
  // (action_trajectory_loop_guard/scripts/replay_nav_test_00.py).
  //
  // Nothing here depends on how an event becomes an action or when two actions
  // are near duplicates, so those are the fields of a `Detector`; module
  // LoopGuard supplies the real ones.  Novelty is an exact ratio, so `novelty <= 0.10`
  // is an integer comparison.

  import opened Common
  import opened Trajectory

  const WARMUP_TOOL_ACTIONS := 8
  const CONFIRMATION_ACTIONS := 2
  const TRAILING_COMPARISON_ACTIONS := 12

  datatype Signature = Signature(tool: string, arguments: map<string, Value>)

  datatype Detector = Detector(
    extract: (Value, nat) -> Result<Option<Action>, nat>,
    serialize: Action -> Value,
    near: (Action, Action) -> bool,
    signature: Action -> Signature)

  // ---------------------------------------------------------------- decisions

  /** An exact quotient; the totals used here are positive. */
  datatype Ratio = Ratio(part: nat, total: nat)

  function Novelty(evidence: set<Atom>, seen: set<Atom>): Ratio {
    if evidence == {} then Ratio(0, 1) else Ratio(|evidence - seen|, |evidence|)
  }

  /** `novelty <= 0.10`. */
  predicate LowNovelty(novelty: Ratio) {
    10 * novelty.part <= novelty.total
  }

  function Larger(a: Ratio, b: Ratio): Ratio {
    if a.part * b.total >= b.part * a.total then a else b
  }

  /** All evidence that the given actions returned. */
  function Seen(actions: seq<Action>): set<Atom> {
    if actions == [] then {}
    else Seen(actions[..|actions| - 1]) + actions[|actions| - 1].evidence
  }

  function Prior(actions: seq<Action>, k: nat): seq<Action>
    requires k <= |actions|
  {
    actions[if k < TRAILING_COMPARISON_ACTIONS then 0 else k - TRAILING_COMPARISON_ACTIONS..k]
  }

  function Numbers(actions: seq<Action>): seq<int> {
    seq(|actions|, i requires 0 <= i < |actions| => actions[i].actionNumber)
  }

  function DuplicatesIn(d: Detector, a: Action, prior: seq<Action>): seq<int> {
    if prior == [] then []
    else (if d.near(a, prior[0]) then [prior[0].actionNumber] else []) + DuplicatesIn(d, a, prior[1..])
  }

  datatype Decision = Decision(
    actionNumber: int,
    sequenceOffset: int,
    comparisonWindow: seq<int>,
    nearDuplicateActions: seq<int>,
    evidenceAtoms: nat,
    novelEvidenceAtoms: nat,
    novelty: Ratio,
    redundant: bool)

  /** What is recorded about an action, given the evidence before it and its comparison window. */
  function Judge(d: Detector, a: Action, seen: set<Atom>, prior: seq<Action>): Decision {
    var novelty := Novelty(a.evidence, seen);
    var duplicates := DuplicatesIn(d, a, prior);
    Decision(a.actionNumber, a.sequenceOffset, Numbers(prior), duplicates,
             |a.evidence|, |a.evidence - seen|, novelty, duplicates != [] && LowNovelty(novelty))
  }

  function DecisionAt(d: Detector, actions: seq<Action>, k: nat): Decision
    requires k < |actions|
  {
    Judge(d, actions[k], Seen(actions[..k]), Prior(actions, k))
  }

  function Decisions(d: Detector, actions: seq<Action>): (r: seq<Decision>)
    ensures |r| == |actions|
  {
    seq(|actions|, k requires 0 <= k < |actions| => DecisionAt(d, actions, k))
  }

  /** A redundant action confirms the low-novelty action before it. */
  predicate Confirms(d: Detector, previous: Decision, previousAction: Action, action: Action) {
    previous.redundant || (LowNovelty(previous.novelty) && d.near(action, previousAction))
  }

  /** The k-th action confirms a loop that the action before it began. */
  predicate Fires(d: Detector, actions: seq<Action>, decisions: seq<Decision>, k: nat)
    requires k < |actions| == |decisions|
  {
    && k >= WARMUP_TOOL_ACTIONS + 1
    && decisions[k].redundant
    && Confirms(d, decisions[k - 1], actions[k - 1], actions[k])
  }

  /** Redirect advice; the fixed instruction text is not repeated here. */
  datatype Intervention = Intervention(
    truncationPoint: int,
    loopStartAction: int,
    confirmationActions: nat,
    evidenceNovelty: Ratio,
    repeatedAction: Signature)

  function Advice(d: Detector, previous: Decision, previousAction: Action, current: Decision): Intervention {
    Intervention(previous.sequenceOffset, previous.actionNumber, CONFIRMATION_ACTIONS,
                 Larger(previous.novelty, current.novelty),
                 d.signature(previousAction))
  }

  /** The first of the first `n` actions that fires. */
  function FirstFire(d: Detector, actions: seq<Action>, decisions: seq<Decision>, n: nat): (r: Option<nat>)
    requires n <= |actions| == |decisions|
    ensures r.Some? ==> r.value < n && Fires(d, actions, decisions, r.value)
    ensures r.Some? ==> forall j :: 0 <= j < r.value ==> !Fires(d, actions, decisions, j)
    ensures r.None? ==> forall j :: 0 <= j < n ==> !Fires(d, actions, decisions, j)
  {
    if n == 0 then None
    else
      var earlier := FirstFire(d, actions, decisions, n - 1);
      if earlier.Some? then earlier
      else if Fires(d, actions, decisions, n - 1) then Some(n - 1) else None
  }

  /** The advice latched at that action. */
  function Latched(d: Detector, actions: seq<Action>, decisions: seq<Decision>, n: nat): Option<Intervention>
    requires n <= |actions| == |decisions|
  {
    match FirstFire(d, actions, decisions, n)
    case None => None
    case Some(k) => Some(Advice(d, decisions[k - 1], actions[k - 1], decisions[k]))
  }

  datatype Assessment = Assessment(
    actions: seq<Value>,
    decisions: seq<Decision>,
    intervention: Option<Intervention>)

  function ExtractAll(d: Detector, events: seq<Value>): (r: Result<seq<Action>, nat>) {
    if events == [] then Ok([])
    else
      var n := |events| - 1;
      var before := ExtractAll(d, events[..n]);
      if before.Err? then before
      else
        match d.extract(events[n], n)
        case Err(_) => Err(n)
        case Ok(None) => before
        case Ok(Some(a)) => Ok(before.value + [a])
  }

  function SerializeAll(d: Detector, actions: seq<Action>): seq<Value> {
    seq(|actions|, i requires 0 <= i < |actions| => d.serialize(actions[i]))
  }

  function AssessActions(d: Detector, actions: seq<Action>): Assessment {
    var decisions := Decisions(d, actions);
    Assessment(SerializeAll(d, actions), decisions, Latched(d, actions, decisions, |actions|))
  }

  /** What the detector decides about a trajectory, stated action by action. */
  function Assess(d: Detector, events: seq<Value>): Result<Assessment, nat> {
    match ExtractAll(d, events)
    case Err(offset) => Err(offset)
    case Ok(actions) => Ok(AssessActions(d, actions))
  }

  // ----------------------------------------------------------------- the loop

  lemma NothingLatched(d: Detector, actions: seq<Action>, decisions: seq<Decision>)
    requires |actions| == |decisions|
    ensures Latched(d, actions, decisions, 0) == None
  {
  }

  lemma LatchStep(d: Detector, actions: seq<Action>, decisions: seq<Decision>, n: nat)
    requires n < |actions| == |decisions|
    ensures Latched(d, actions, decisions, n + 1) ==
            if Latched(d, actions, decisions, n).Some? || !Fires(d, actions, decisions, n) then
              Latched(d, actions, decisions, n)
            else Some(Advice(d, decisions[n - 1], actions[n - 1], decisions[n]))
  {
    hide Confirms, Advice;
  }

  /** The decision loop: a growing evidence set and a latch that is set once. */
  method DecideActions(d: Detector, actions: seq<Action>)
    returns (decisions: seq<Decision>, intervention: Option<Intervention>)
    ensures decisions == Decisions(d, actions)
    ensures intervention == Latched(d, actions, decisions, |actions|)
  {
    hide Judge, Confirms, Advice, Latched;
    ghost var all := Decisions(d, actions);
    NothingLatched(d, actions, all);
    var seen: set<Atom> := {};
    decisions, intervention := [], None;
    for position := 0 to |actions|
      invariant seen == Seen(actions[..position])
      invariant decisions == all[..position]
      invariant intervention == Latched(d, actions, all, position)
    {
      var action := actions[position];
      assert actions[..position + 1][..position] == actions[..position];
      var decision := Judge(d, action, seen, Prior(actions, position));
      assert decision == all[position];
      decisions := decisions + [decision];
      seen := seen + action.evidence;
      LatchStep(d, actions, all, position);
      if position < WARMUP_TOOL_ACTIONS + 1 || !decision.redundant {
        continue;
      }
      var previous := decisions[position - 1];
      var confirmed := Confirms(d, previous, actions[position - 1], action);
      if confirmed && intervention.None? {
        intervention := Some(Advice(d, previous, actions[position - 1], decision));
      }
    }
  }

  method ExtractEvents(d: Detector, events: seq<Value>) returns (r: Result<seq<Action>, nat>)
    ensures r == ExtractAll(d, events)
  {
    var actions: seq<Action> := [];
    for k := 0 to |events|
      invariant ExtractAll(d, events[..k]) == Ok(actions)
    {
      assert events[..k + 1][..k] == events[..k];
      match d.extract(events[k], k) {
        case Err(_) =>
          ExtractPrefix(d, events, k + 1);
          return Err(k);
        case Ok(None) =>
        case Ok(Some(a)) => actions := actions + [a];
      }
    }
    assert events[..|events|] == events;
    r := Ok(actions);
  }

  /** `assess_trajectory`. */
  method AssessTrajectory(d: Detector, events: seq<Value>) returns (r: Result<Assessment, nat>)
    ensures r == Assess(d, events)
  {
    var extracted := ExtractEvents(d, events);
    if extracted.Err? {
      return Err(extracted.error);
    }
    var decisions, intervention := DecideActions(d, extracted.value);
    r := Ok(Assessment(SerializeAll(d, extracted.value), decisions, intervention));
  }

  // ------------------------------------------------------------ what it means

  lemma {:induction false} DuplicatesExist(d: Detector, a: Action, prior: seq<Action>)
    ensures DuplicatesIn(d, a, prior) != [] <==> exists p :: p in prior && d.near(a, p)
  {
    if prior != [] {
      DuplicatesExist(d, a, prior[1..]);
      assert prior == [prior[0]] + prior[1..];
    }
  }

  /** An action is redundant when one of the twelve before it is near and at most a tenth of its evidence is new. */
  lemma RedundantMeans(d: Detector, actions: seq<Action>, k: nat)
    requires k < |actions|
    ensures DecisionAt(d, actions, k).redundant <==>
              && (exists j :: 0 <= j < k <= j + TRAILING_COMPARISON_ACTIONS && d.near(actions[k], actions[j]))
              && 10 * |actions[k].evidence - Seen(actions[..k])| <= |actions[k].evidence|
  {
    hide DuplicatesIn, Prior, Seen, Numbers;
    DuplicatesExist(d, actions[k], Prior(actions, k));
    PriorMembers(d, actions, k);
    if actions[k].evidence == {} {
      assert actions[k].evidence - Seen(actions[..k]) == {};
    }
  }

  /** The comparison window holds the last twelve actions before the action. */
  lemma PriorMembers(d: Detector, actions: seq<Action>, k: nat)
    requires k < |actions|
    ensures (exists p :: p in Prior(actions, k) && d.near(actions[k], p)) <==>
            (exists j :: 0 <= j < k <= j + TRAILING_COMPARISON_ACTIONS && d.near(actions[k], actions[j]))
  {
    var prior := Prior(actions, k);
    var low := if k < TRAILING_COMPARISON_ACTIONS then 0 else k - TRAILING_COMPARISON_ACTIONS;
    if p :| p in prior && d.near(actions[k], p) {
      var i :| 0 <= i < |prior| && prior[i] == p;
      assert actions[low + i] == p;
    }
    if j :| 0 <= j < k <= j + TRAILING_COMPARISON_ACTIONS && d.near(actions[k], actions[j]) {
      assert prior[j - low] == actions[j];
    }
  }

  /** Advice is given exactly when two consecutive low-novelty actions after the warmup repeat earlier ones. */
  lemma InterventionMeans(d: Detector, actions: seq<Action>)
    ensures AssessActions(d, actions).intervention.Some? <==>
              exists k :: WARMUP_TOOL_ACTIONS < k < |actions|
                && DecisionAt(d, actions, k).redundant
                && (DecisionAt(d, actions, k - 1).redundant ||
                    (LowNovelty(DecisionAt(d, actions, k - 1).novelty) && d.near(actions[k], actions[k - 1])))
  {
    hide DecisionAt, LowNovelty, Advice;
    var decisions := Decisions(d, actions);
    if k :| WARMUP_TOOL_ACTIONS < k < |actions|
            && DecisionAt(d, actions, k).redundant
            && (DecisionAt(d, actions, k - 1).redundant ||
                (LowNovelty(DecisionAt(d, actions, k - 1).novelty) && d.near(actions[k], actions[k - 1]))) {
      assert Fires(d, actions, decisions, k);
    }
    if AssessActions(d, actions).intervention.Some? {
      var k := FirstFire(d, actions, decisions, |actions|).value;
      assert Fires(d, actions, decisions, k);
    }
  }

  // --------------------------------------------------------- prefix stability

  /** An invalid event stays the first invalid event; otherwise actions only get appended. */
  lemma {:induction false} ExtractPrefix(d: Detector, events: seq<Value>, m: nat)
    requires m <= |events|
    ensures ExtractAll(d, events[..m]).Err? ==> ExtractAll(d, events) == ExtractAll(d, events[..m])
    ensures ExtractAll(d, events).Ok? ==>
              ExtractAll(d, events[..m]).Ok? && ExtractAll(d, events[..m]).value <= ExtractAll(d, events).value
    decreases |events|
  {
    var n := |events| - 1;
    if m == |events| {
      assert events[..m] == events;
    } else {
      ExtractPrefix(d, events[..n], m);
      assert events[..n][..m] == events[..m];
    }
  }

  /** The first invalid event is the one reported, and only prefixes that contain it fail. */
  lemma {:induction false} FirstInvalid(d: Detector, events: seq<Value>, m: nat)
    requires ExtractAll(d, events).Err? && m <= |events|
    ensures var o := ExtractAll(d, events).error;
            o < |events| && d.extract(events[o], o).Err? &&
            (if m <= o then ExtractAll(d, events[..m]).Ok? else ExtractAll(d, events[..m]) == Err(o))
    decreases |events|
  {
    var n := |events| - 1;
    assert events[..|events|] == events;
    if ExtractAll(d, events[..n]).Err? {
      if m <= n {
        assert events[..n][..m] == events[..m];
        FirstInvalid(d, events[..n], m);
      } else {
        FirstInvalid(d, events[..n], n);
      }
    } else {
      ExtractPrefix(d, events[..n], if m <= n then m else n);
      if m <= n {
        assert events[..n][..m] == events[..m];
      }
    }
  }

  lemma DecisionsPrefix(d: Detector, actions: seq<Action>, m: nat)
    requires m <= |actions|
    ensures Decisions(d, actions[..m]) == Decisions(d, actions)[..m]
  {
    forall k | 0 <= k < m
      ensures DecisionAt(d, actions[..m], k) == DecisionAt(d, actions, k)
    {
      assert actions[..m][..k] == actions[..k];
      assert Prior(actions[..m], k) == Prior(actions, k);
    }
  }

  lemma {:induction false} FirstFirePrefix(d: Detector, actions: seq<Action>, decisions: seq<Decision>, m: nat, n: nat)
    requires n <= m <= |actions| == |decisions|
    ensures FirstFire(d, actions[..m], decisions[..m], n) == FirstFire(d, actions, decisions, n)
  {
    if n > 0 {
      FirstFirePrefix(d, actions, decisions, m, n - 1);
    }
  }

  lemma {:induction false} FirstFireGrows(d: Detector, actions: seq<Action>, decisions: seq<Decision>, m: nat, n: nat)
    requires m <= n <= |actions| == |decisions|
    ensures FirstFire(d, actions, decisions, m).Some? ==>
              FirstFire(d, actions, decisions, n) == FirstFire(d, actions, decisions, m)
  {
    if m < n {
      FirstFireGrows(d, actions, decisions, m, n - 1);
    }
  }

  ghost predicate Extends(short: Assessment, long: Assessment) {
    && short.actions <= long.actions
    && short.decisions <= long.decisions
    && (short.intervention.Some? ==> long.intervention == short.intervention)
  }

  lemma AssessActionsPrefix(d: Detector, actions: seq<Action>, m: nat)
    requires m <= |actions|
    ensures Extends(AssessActions(d, actions[..m]), AssessActions(d, actions))
  {
    hide Judge, DecisionAt, Confirms, Advice;
    var decisions := Decisions(d, actions);
    DecisionsPrefix(d, actions, m);
    FirstFirePrefix(d, actions, decisions, m, m);
    FirstFireGrows(d, actions, decisions, m, |actions|);
    assert SerializeAll(d, actions[..m]) == SerializeAll(d, actions)[..m];
    assert AssessActions(d, actions[..m]).decisions == decisions[..m];
  }

  /** Everything decided about a prefix is decided the same way about every extension. */
  lemma PrefixStable(d: Detector, events: seq<Value>, m: nat)
    requires Assess(d, events).Ok? && m <= |events|
    ensures Assess(d, events[..m]).Ok?
    ensures Extends(Assess(d, events[..m]).value, Assess(d, events).value)
  {
    ExtractPrefix(d, events, m);
    var actions := ExtractAll(d, events).value;
    var before := ExtractAll(d, events[..m]).value;
    assert before == actions[..|before|];
    AssessActionsPrefix(d, actions, |before|);
  }

  // ------------------------------------------------------------------- replay

  datatype ReplayResult =
    | Quiet
    | Fired(step: nat, intervention: Intervention)
    | Raised(offset: nat)

  /** Step `k` is the first prefix length at which the detector advises. */
  ghost predicate FirstFiringPrefix(d: Detector, events: seq<Value>, k: nat, iv: Intervention) {
    && 0 < k <= |events|
    && Assess(d, events[..k]).Ok? && Assess(d, events[..k]).value.intervention == Some(iv)
    && forall j :: 0 <= j < k ==> Assess(d, events[..j]).Ok? && Assess(d, events[..j]).value.intervention.None?
  }

  /** The first invalid event is at `o`, and nothing fired before it. */
  ghost predicate RaisedAt(d: Detector, events: seq<Value>, o: nat) {
    && Assess(d, events) == Err(o)
    && o < |events| && Assess(d, events[..o]).Ok? && Assess(d, events[..o]).value.intervention.None?
  }

  lemma EmptyIsQuiet(d: Detector)
    ensures Assess(d, []).Ok? && Assess(d, []).value.intervention.None?
  {
  }

  /** The incremental loop of `replay`: one fresh assessment for every prefix. */
  method Replay(d: Detector, steps: seq<Value>) returns (r: ReplayResult)
    ensures r.Fired? ==> FirstFiringPrefix(d, steps, r.step, r.intervention)
    ensures r.Quiet? ==> Assess(d, steps).Ok? && Assess(d, steps).value.intervention.None?
    ensures r.Raised? ==> RaisedAt(d, steps, r.offset)
  {
    hide AssessActions;
    assert steps[..0] == [];
    EmptyIsQuiet(d);
    for count := 1 to |steps| + 1
      invariant forall j :: 0 <= j < count && j <= |steps| ==>
                  Assess(d, steps[..j]).Ok? && Assess(d, steps[..j]).value.intervention.None?
    {
      var assessed := AssessTrajectory(d, steps[..count]);
      if assessed.Err? {
        ExtractPrefix(d, steps, count);
        FirstInvalid(d, steps, count - 1);
        FirstInvalid(d, steps, count);
        return Raised(assessed.error);
      }
      if assessed.value.intervention.Some? {
        return Fired(count, assessed.value.intervention.value);
      }
    }
    assert steps[..|steps|] == steps;
    r := Quiet;
  }

  /**
   * Replay against batch.  On a trajectory without an invalid tool call the
   * first fire of the incremental loop is the intervention of one batch call.
   * The batch call raises on any invalid event; the loop raises too exactly
   * when the valid part before that event does not fire.
   */
  lemma ReplayAgreesWithBatch(d: Detector, steps: seq<Value>, r: ReplayResult)
    requires r.Fired? ==> FirstFiringPrefix(d, steps, r.step, r.intervention)
    requires r.Quiet? ==> Assess(d, steps).Ok? && Assess(d, steps).value.intervention.None?
    requires r.Raised? ==> RaisedAt(d, steps, r.offset)
    ensures Assess(d, steps).Ok? ==>
              match Assess(d, steps).value.intervention {
                case None => r.Quiet?
                case Some(iv) => r.Fired? && r.intervention == iv }
    ensures Assess(d, steps).Err? ==>
              var o := Assess(d, steps).error;
              && o < |steps| && Assess(d, steps[..o]).Ok?
              && match Assess(d, steps[..o]).value.intervention {
                   case None => r == Raised(o)
                   case Some(iv) => r.Fired? && r.intervention == iv && r.step <= o }
  {
    hide AssessActions, ExtractAll;
    if Assess(d, steps).Err? {
      var o := Assess(d, steps).error;
      FirstInvalid(d, steps, 0);
      FirstInvalid(d, steps, o);
      if r.Fired? {
        FirstInvalid(d, steps, r.step);
        assert steps[..o][..r.step] == steps[..r.step];
        PrefixStable(d, steps[..o], r.step);
      }
    } else if r.Fired? {
      PrefixStable(d, steps, r.step);
    }
  }

  // ------------------------------------------------------ evidence accounting

  function NovelTotal(decisions: seq<Decision>): nat {
    if decisions == [] then 0
    else NovelTotal(decisions[..|decisions| - 1]) + decisions[|decisions| - 1].novelEvidenceAtoms
  }

  /** Each atom of evidence is counted as novel exactly once. */
  lemma {:induction false} NoveltyAccounts(d: Detector, actions: seq<Action>)
    ensures NovelTotal(Decisions(d, actions)) == |Seen(actions)|
  {
    if actions != [] {
      var n := |actions| - 1;
      NoveltyAccounts(d, actions[..n]);
      DecisionsPrefix(d, actions, n);
      var before, evidence := Seen(actions[..n]), actions[n].evidence;
      assert before + evidence == before + (evidence - before);
    }
  }

  /** No event carries an offset captured by an earlier assessment. */
  ghost predicate Raw(d: Detector, events: seq<Value>) {
    forall i :: 0 <= i < |events| ==>
      match d.extract(events[i], i)
      case Ok(Some(a)) => a.sequenceOffset == i
      case _ => true
  }

  /** In a raw trajectory, cutting at an action's offset keeps exactly the actions before it. */
  lemma {:induction false} CutAtOffset(d: Detector, events: seq<Value>, k: nat)
    requires ExtractAll(d, events).Ok? && Raw(d, events) && k < |ExtractAll(d, events).value|
    ensures var actions := ExtractAll(d, events).value;
            var cut := actions[k].sequenceOffset;
            0 <= cut < |events| && ExtractAll(d, events[..cut]) == Ok(actions[..k])
  {
    var n := |events| - 1;
    var before := ExtractAll(d, events[..n]).value;
    var actions := ExtractAll(d, events).value;
    assert actions[..|before|] == before;
    if k < |before| {
      CutAtOffset(d, events[..n], k);
      var cut := actions[k].sequenceOffset;
      assert events[..n][..cut] == events[..cut];
      assert before[..k] == actions[..k];
    }
  }

  /** One more event adds at most one action. */
  lemma ExtractLast(d: Detector, events: seq<Value>, m: nat)
    requires 0 < m <= |events| && ExtractAll(d, events[..m]).Ok?
    ensures ExtractAll(d, events[..m - 1]).Ok?
    ensures var actions := ExtractAll(d, events[..m]).value;
            var before := ExtractAll(d, events[..m - 1]).value;
            before == actions || (actions != [] && before == actions[..|actions| - 1])
  {
    assert events[..m][..m - 1] == events[..m - 1];
  }

  /** The firing action of the first firing prefix is its last action. */
  lemma FirstFiringIsLast(d: Detector, events: seq<Value>, m: nat, iv: Intervention)
    requires FirstFiringPrefix(d, events, m, iv)
    ensures var actions := ExtractAll(d, events[..m]).value;
            var n := |actions|;
            && n > 0 && FirstFire(d, actions, Decisions(d, actions), n) == Some(n - 1)
            && ExtractAll(d, events[..m - 1]) == Ok(actions[..n - 1])
  {
    hide ExtractAll, DecisionAt, Fires, Advice;
    var actions := ExtractAll(d, events[..m]).value;
    var decisions := Decisions(d, actions);
    var n := |actions|;
    ExtractLast(d, events, m);
    assert Assess(d, events[..m - 1]).value.intervention.None?;
    DecisionsPrefix(d, actions, n - 1);
    FirstFirePrefix(d, actions, decisions, n - 1, n - 1);
  }

  /**
   * What following the advice costs, at the first prefix of a raw trajectory
   * that fires: the cut drops exactly two tool actions, keeps at least eight,
   * and loses at most a tenth of the evidence atoms those two carried.
   */
  lemma TruncationCost(d: Detector, events: seq<Value>, m: nat, iv: Intervention)
    requires FirstFiringPrefix(d, events, m, iv) && Raw(d, events[..m])
    ensures 0 <= iv.truncationPoint < m
    ensures var all := ExtractAll(d, events[..m]).value;
            var kept := ExtractAll(d, events[..iv.truncationPoint]);
            && kept.Ok? && |all| == |kept.value| + 2 && kept.value == all[..|kept.value|]
            && |kept.value| >= WARMUP_TOOL_ACTIONS
            && 10 * |Seen(all) - Seen(kept.value)| <= |all[|all| - 2].evidence| + |all[|all| - 1].evidence|
  {
    hide ExtractAll, Judge, Advice, DecisionAt;
    var all := ExtractAll(d, events[..m]).value;
    var n := |all|;
    var decisions := Decisions(d, all);
    FirstFiringIsLast(d, events, m, iv);
    assert Fires(d, all, decisions, n - 1);
    FiringPair(d, all, n - 1);
    CutAtOffset(d, events[..m], n - 2);
    assert events[..m][..iv.truncationPoint] == events[..iv.truncationPoint];
    LossOfTwo(all, n - 2);
  }

  /** A firing action and the one before it both bring little new evidence. */
  lemma FiringPair(d: Detector, actions: seq<Action>, k: nat)
    requires k < |actions| && Fires(d, actions, Decisions(d, actions), k)
    ensures LowNovelty(Novelty(actions[k - 1].evidence, Seen(actions[..k - 1])))
    ensures LowNovelty(Novelty(actions[k].evidence, Seen(actions[..k])))
    ensures Advice(d, DecisionAt(d, actions, k - 1), actions[k - 1], DecisionAt(d, actions, k)).truncationPoint
         == actions[k - 1].sequenceOffset
  {
  }

  /** The evidence lost with two low-novelty actions at the end. */
  lemma LossOfTwo(all: seq<Action>, k: nat)
    requires |all| == k + 2
    requires LowNovelty(Novelty(all[k].evidence, Seen(all[..k])))
    requires LowNovelty(Novelty(all[k + 1].evidence, Seen(all[..k + 1])))
    ensures 10 * |Seen(all) - Seen(all[..k])| <= |all[k].evidence| + |all[k + 1].evidence|
  {
    hide LowNovelty, Novelty;
    var kept, first, second := Seen(all[..k]), all[k].evidence, all[k + 1].evidence;
    assert all[..k + 1][..k] == all[..k];
    assert Seen(all[..k + 1]) == kept + first;
    LowNoveltyBound(first, kept);
    LowNoveltyBound(second, kept + first);
    NewElements(kept, first, second);
  }

  lemma NewElements(kept: set<Atom>, first: set<Atom>, second: set<Atom>)
    ensures |kept + first + second - kept| == |first - kept| + |second - (kept + first)|
  {
    var a, b := first - kept, second - (kept + first);
    assert kept + first + second - kept == a + b;
    assert a !! b;
  }

  lemma LowNoveltyBound(evidence: set<Atom>, seen: set<Atom>)
    requires LowNovelty(Novelty(evidence, seen))
    ensures 10 * |evidence - seen| <= |evidence|
  {
    if evidence == {} {
      assert evidence - seen == {};
    }
  }

  // ------------------------------------------------------------ serialized runs

  /** Actions that survive serialization one by one survive it as a trajectory. */
  lemma {:induction false} ExtractSerialized(d: Detector, actions: seq<Action>)
    requires forall a, k: nat :: a in actions ==> d.extract(d.serialize(a), k) == Ok(Some(a))
    ensures ExtractAll(d, SerializeAll(d, actions)) == Ok(actions)
  {
    if actions != [] {
      var n := |actions| - 1;
      ExtractSerialized(d, actions[..n]);
      assert SerializeAll(d, actions)[..n] == SerializeAll(d, actions[..n]);
      assert actions[n] in actions && d.extract(d.serialize(actions[n]), n) == Ok(Some(actions[n]));
      assert actions[..n] + [actions[n]] == actions;
    }
  }
}

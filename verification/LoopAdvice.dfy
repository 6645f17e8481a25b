module LoopAdvice {
  // What the exported detector decides, said about the events themselves
  // (action_trajectory_loop_guard/src/action_trajectory_loop_guard/detector.py):
  // which events are tool actions, which atoms their results name, when two
  // actions nearly repeat each other, and when and what the detector advises.
  // Shares of new evidence are quotients of reals here, lines are sets.

  import opened Common
  import opened Trajectory
  import opened LoopDetector
  import opened LoopGuard
  import CanonicalPath

  // --------------------------------------------------------------- near pairs

  /** The lines that a call asks for; none when it does not name a stretch of lines. */
  ghost function LinesOf(arguments: map<string, Value>): set<int> {
    var start := if "start_line" in arguments then IntOf(arguments["start_line"]) else Some(1);
    var count := IntOf(Get(arguments, "line_count"));
    if Get(arguments, "full") == Bool(true) || start.None? || count.None? then {}
    else Interval(start.value, start.value + count.value)
  }

  /** The integers from `low` up to but not including `high`. */
  ghost function Interval(low: int, high: int): (r: set<int>)
    ensures forall n :: n in r <==> low <= n < high
    decreases high - low
  {
    if low >= high then {} else Interval(low, high - 1) + {high - 1}
  }

  /** Every argument that counts is in both calls with the same value, or in neither. */
  ghost predicate SameArguments(str: Value -> string, a: map<string, Value>, b: map<string, Value>) {
    forall key :: key !in {"max_matches", "max_results", "line_count", "start_line"} ==>
      && (key in a <==> key in b)
      && (key in a && key in b ==> if key == "path" then PathOf(str, a[key]) == PathOf(str, b[key]) else a[key] == b[key])
  }

  /** At least half of the smaller set is in both. */
  ghost predicate HalfShared(a: set<int>, b: set<int>) {
    2 * |a * b| >= |a| || 2 * |a * b| >= |b|
  }

  ghost predicate NearPair(str: Value -> string, a: Action, b: Action) {
    && a.tool == b.tool
    && (a.tool == "read_file" ==> PathOf(str, Get(a.arguments, "path")) == PathOf(str, Get(b.arguments, "path")))
    && if a.tool == "read_file" && LinesOf(a.arguments) != {} && LinesOf(b.arguments) != {} then
         HalfShared(LinesOf(a.arguments), LinesOf(b.arguments))
       else
         SameArguments(str, a.arguments, b.arguments)
  }

  lemma {:induction false} IntervalSize(low: int, high: int)
    ensures |Interval(low, high)| == if low <= high then high - low else 0
    decreases high - low
  {
    if low < high {
      IntervalSize(low, high - 1);
    }
  }

  lemma IntervalMeet(a: int, b: int, c: int, d: int)
    ensures Interval(a, b) * Interval(c, d) == Interval(Max(a, c), Min(b, d))
  {
    hide Interval;
  }

  lemma SharedCount(a: int, m: int, b: int, n: int)
    requires m >= 1 && n >= 1
    ensures |Interval(a, a + m) * Interval(b, b + n)| == Max(0, Min(a + m - 1, b + n - 1) - Max(a, b) + 1)
  {
    hide Interval;
    IntervalMeet(a, a + m, b, b + n);
    IntervalSize(Max(a, b), Min(a + m, b + n));
  }

  lemma HalfOf(x: set<int>, y: set<int>, shared: int, m: int, n: int)
    requires |x * y| == shared && |x| == m && |y| == n
    ensures HalfShared(x, y) <==> 2 * shared >= Min(m, n)
  {
  }

  lemma SharedLines(a: int, m: int, b: int, n: int)
    requires m >= 1 && n >= 1
    ensures HalfShared(Interval(a, a + m), Interval(b, b + n)) <==>
              2 * Max(0, Min(a + m - 1, b + n - 1) - Max(a, b) + 1) >= Min(m, n)
  {
    hide *;
    SharedCount(a, m, b, n);
    IntervalSize(a, a + m);
    IntervalSize(b, b + n);
    HalfOf(Interval(a, a + m), Interval(b, b + n), Max(0, Min(a + m - 1, b + n - 1) - Max(a, b) + 1), m, n);
  }

  /** A range is read exactly when the call names at least one line. */
  lemma RangeIsLines(arguments: map<string, Value>)
    ensures match ReadRange(arguments)
            case None => LinesOf(arguments) == {}
            case Some((first, last)) => first <= last && LinesOf(arguments) == Interval(first, last + 1) && LinesOf(arguments) != {}
  {
    var range := ReadRange(arguments);
    if range.Some? {
      assert range.value.0 in Interval(range.value.0, range.value.1 + 1);
    }
  }

  lemma SameNormalized(str: Value -> string, a: map<string, Value>, b: map<string, Value>)
    ensures NormalizedArguments(str, a) == NormalizedArguments(str, b) <==> SameArguments(str, a, b)
  {
    hide PathOf;
    var x, y := NormalizedArguments(str, a), NormalizedArguments(str, b);
    if x == y {
      forall key | key !in {"max_matches", "max_results", "line_count", "start_line"}
        ensures key in a <==> key in b
        ensures key in a && key in b ==>
                  if key == "path" then PathOf(str, a[key]) == PathOf(str, b[key]) else a[key] == b[key]
      {
        assert key in x <==> key in a;
        assert key in y <==> key in b;
        if key in a && key in b {
          assert x[key] == y[key];
        }
      }
    }
    if SameArguments(str, a, b) {
      assert x.Keys == y.Keys;
    }
  }

  /** The detector takes two actions for near duplicates exactly when they are a near pair. */
  lemma NearMeans(str: Value -> string, a: Action, b: Action)
    ensures Guard(str).near(a, b) <==> NearPair(str, a, b)
  {
    hide PathOf, NormalizedArguments, SameArguments, ReadRange, LinesOf, HalfShared, Interval;
    SameNormalized(str, a.arguments, b.arguments);
    RangeIsLines(a.arguments);
    RangeIsLines(b.arguments);
    var r, s := ReadRange(a.arguments), ReadRange(b.arguments);
    if r.Some? && s.Some? {
      SharedLines(r.value.0, r.value.1 - r.value.0 + 1, s.value.0, s.value.1 - s.value.0 + 1);
    }
  }

  /** A missing or empty path is the working directory; any other text is its canonical form. */
  lemma PathOfTexts(str: Value -> string, path: string)
    requires ShowsText(str)
    ensures PathOf(str, Null) == CanonicalPath.Canonical(".") && PathOf(str, Str("")) == CanonicalPath.Canonical(".")
    ensures path != "" ==> PathOf(str, Str(path)) == CanonicalPath.Canonical(path)
  {
    hide CanonicalPath.Canonical;
  }

  // ----------------------------------------------------------------- extraction

  ghost predicate IsToolEvent(event: Value) {
    Field(Field(event, "action"), "kind") == Str("tool") && Field(Field(event, "action"), "tool_call") != Null
  }

  /** The tool name and the arguments of a well-formed call. */
  ghost predicate Calls(event: Value, tool: string, arguments: map<string, Value>) {
    var call := Field(Field(event, "action"), "tool_call");
    Field(call, "name") == Str(tool) && Field(call, "arguments") == Map(arguments)
  }

  /** The result's own metadata if it is a mapping, else the observation's. */
  ghost predicate Describes(event: Value, meta: map<string, Value>) {
    var observation := Field(event, "observation");
    var inner, outer := Field(Field(observation, "tool_result"), "meta"), Field(observation, "meta");
    || inner == Map(meta)
    || (!inner.Map? && (outer == Map(meta) || (!outer.Map? && meta == map[])))
  }

  /**
   * Which events become actions: those of kind `tool` with a call.  A call
   * without a text name or without mapped arguments raises.
   */
  lemma ExtractMeans(str: Value -> string, event: Value, offset: nat)
    ensures var r := Guard(str).extract(event, offset);
            && (r == Ok(None) <==> !IsToolEvent(event))
            && (r.Err? <==> IsToolEvent(event) && forall tool, arguments :: !Calls(event, tool, arguments))
            && (r.Err? ==> r.error == offset)
  {
    hide TypedMeta, EvidenceAtoms, Success;
    var call := Field(Field(event, "action"), "tool_call");
    if Field(call, "name").Str? && Field(call, "arguments").Map? {
      assert Calls(event, Field(call, "name").s, Field(call, "arguments").fields);
    }
  }

  /** What an extracted action records of its event. */
  lemma ExtractFields(str: Value -> string, event: Value, offset: nat, meta: map<string, Value>)
    requires Guard(str).extract(event, offset).Ok? && Guard(str).extract(event, offset).value.Some?
    requires Describes(event, meta)
    ensures var a := Guard(str).extract(event, offset).value.value;
            && Calls(event, a.tool, a.arguments)
            && (match IntOf(Field(event, "_detector_sequence_offset"))
                case Some(captured) => a.sequenceOffset == captured
                case None => a.sequenceOffset == offset)
            && (match IntOf(Field(event, "index"))
                case Some(number) => a.actionNumber == number
                case None => a.actionNumber == offset + 1)
            && (a.success <==> Truthy(Field(Field(Field(event, "observation"), "tool_result"), "success")))
            && (a.category.None? <==> Get(meta, "category") == Null)
            && (a.category.Some? ==> a.category.value == str(Get(meta, "category")))
            && (forall x :: x in a.evidence <==> Names(str, meta, x))
  {
    hide EvidenceAtoms, Names;
    assert TypedMeta(event) == meta;
    forall x: Atom
      ensures x in EvidenceAtoms(str, meta) <==> Names(str, meta, x)
    {
      EvidenceMeans(str, meta, x);
    }
  }

  ghost predicate NamesLine(lines: seq<Value>, line: Option<int>) {
    line.Some? && exists j :: 0 <= j < |lines| && IntOf(lines[j]) == line
  }

  /** The evidence item names the atom: one of its integer lines, or the whole file when it lists no lines. */
  ghost predicate ItemNames(str: Value -> string, item: Value, x: Atom) {
    && item.Map? && "path" in item.fields && x.path == PathOf(str, item.fields["path"])
    && var lines := Get(item.fields, "lines");
       if lines.List? && lines.items != [] then NamesLine(lines.items, x.line) else x.line.None?
  }

  ghost predicate PathNames(str: Value -> string, path: Value, x: Atom) {
    path.Str? && x == Atom(PathOf(str, path), None)
  }

  /** The atoms that a result's metadata names. */
  ghost predicate Names(str: Value -> string, meta: map<string, Value>, x: Atom) {
    var evidence, paths := Get(meta, "evidence"), Get(meta, "paths");
    || (evidence.List? && exists item :: item in evidence.items && ItemNames(str, item, x))
    || (paths.List? && exists path :: path in paths.items && PathNames(str, path, x))
  }

  lemma {:induction false} LineAtomsMean(path: string, lines: seq<Value>, x: Atom)
    ensures x in LineAtoms(path, lines) <==> x.path == path && NamesLine(lines, x.line)
  {
    if lines != [] {
      var n := |lines| - 1;
      LineAtomsMean(path, lines[..n], x);
      assert lines == lines[..n] + [lines[n]];
      if NamesLine(lines[..n], x.line) {
        var j :| 0 <= j < n && IntOf(lines[..n][j]) == x.line;
        assert IntOf(lines[j]) == x.line;
      }
      if NamesLine(lines, x.line) && IntOf(lines[n]) != x.line {
        var j :| 0 <= j < |lines| && IntOf(lines[j]) == x.line;
        assert IntOf(lines[..n][j]) == x.line;
      }
    }
  }

  lemma ItemAtomsMean(str: Value -> string, item: Value, x: Atom)
    ensures x in ItemAtoms(str, item) <==> ItemNames(str, item, x)
  {
    hide PathOf, LineAtoms, NamesLine;
    if item.Map? && "path" in item.fields {
      var lines := Get(item.fields, "lines");
      if lines.List? {
        LineAtomsMean(PathOf(str, item.fields["path"]), lines.items, x);
      }
    }
  }

  lemma {:induction false} ItemsAtomsMean(str: Value -> string, items: seq<Value>, x: Atom)
    ensures x in ItemsAtoms(str, items) <==> exists item :: item in items && ItemNames(str, item, x)
  {
    hide ItemAtoms, ItemNames;
    if items != [] {
      var n := |items| - 1;
      ItemsAtomsMean(str, items[..n], x);
      ItemAtomsMean(str, items[n], x);
      assert items == items[..n] + [items[n]];
    }
  }

  lemma {:induction false} PathsAtomsMean(str: Value -> string, paths: seq<Value>, x: Atom)
    ensures x in PathsAtoms(str, paths) <==> exists path :: path in paths && PathNames(str, path, x)
  {
    hide PathOf;
    if paths != [] {
      var n := |paths| - 1;
      PathsAtomsMean(str, paths[..n], x);
      assert paths == paths[..n] + [paths[n]];
      assert paths[n].Str? ==> (x == Atom(PathOf(str, paths[n]), None) <==> PathNames(str, paths[n], x));
    }
  }

  /** The collected atoms are exactly the named ones. */
  lemma EvidenceMeans(str: Value -> string, meta: map<string, Value>, x: Atom)
    ensures x in EvidenceAtoms(str, meta) <==> Names(str, meta, x)
  {
    hide ItemNames, PathNames;
    var evidence, paths := Get(meta, "evidence"), Get(meta, "paths");
    if evidence.List? {
      ItemsAtomsMean(str, evidence.items, x);
    }
    if paths.List? {
      PathsAtomsMean(str, paths.items, x);
    }
  }

  // ------------------------------------------------------------------ decisions

  /** The evidence of the first `k` actions. */
  ghost function Before(actions: seq<Action>, k: nat): set<Atom>
    requires k <= |actions|
  {
    set i, x | 0 <= i < k && x in actions[i].evidence :: x
  }

  lemma {:induction false} SeenIsBefore(actions: seq<Action>, k: nat)
    requires k <= |actions|
    ensures Seen(actions[..k]) == Before(actions, k)
  {
    if k > 0 {
      SeenIsBefore(actions, k - 1);
      assert actions[..k][..k - 1] == actions[..k - 1];
      assert Before(actions, k) == Before(actions, k - 1) + actions[k - 1].evidence;
    }
  }

  ghost function NewEvidence(actions: seq<Action>, k: nat): set<Atom>
    requires k < |actions|
  {
    actions[k].evidence - Before(actions, k)
  }

  /** The share of an action's evidence that no earlier action brought. */
  ghost function NewShare(actions: seq<Action>, k: nat): real
    requires k < |actions|
  {
    var evidence := actions[k].evidence;
    if evidence == {} then 0.0 else |NewEvidence(actions, k)| as real / |evidence| as real
  }

  ghost predicate FewNew(actions: seq<Action>, k: nat)
    requires k < |actions|
  {
    NewShare(actions, k) <= 0.1
  }

  /** One of the twelve actions before it is nearly the same, and it brings little new. */
  ghost predicate Repeats(str: Value -> string, actions: seq<Action>, k: nat)
    requires k < |actions|
  {
    && FewNew(actions, k)
    && exists j :: 0 <= j < k <= j + 12 && NearPair(str, actions[k], actions[j])
  }

  /** The action and the one before it together confirm a loop. */
  ghost predicate Confirmed(str: Value -> string, actions: seq<Action>, k: nat) {
    && 8 < k < |actions| && Repeats(str, actions, k)
    && (Repeats(str, actions, k - 1) || (FewNew(actions, k - 1) && NearPair(str, actions[k], actions[k - 1])))
  }

  ghost function AsReal(r: Ratio): real
    requires r.total > 0
  {
    r.part as real / r.total as real
  }

  lemma Quotients(a: nat, b: nat, c: nat, d: nat)
    requires b > 0 && d > 0
    ensures a as real / b as real <= c as real / d as real <==> a * d <= c * b
  {
    var x, y := a as real / b as real, c as real / d as real;
    assert x * b as real == a as real && y * d as real == c as real;
    assert (a * d) as real == x * (b * d) as real;
    assert (c * b) as real == y * (b * d) as real;
    var n := (b * d) as real;
    assert b * d > 0;
    if x <= y {
      assert x * n <= y * n;
    } else {
      assert x * n > y * n;
    }
  }

  lemma NoveltyIsShare(actions: seq<Action>, k: nat)
    requires k < |actions|
    ensures var n := Novelty(actions[k].evidence, Seen(actions[..k]));
            n.total > 0 && AsReal(n) == NewShare(actions, k) && (LowNovelty(n) <==> FewNew(actions, k))
  {
    hide Before, Seen;
    SeenIsBefore(actions, k);
    var n := Novelty(actions[k].evidence, Seen(actions[..k]));
    assert n.total > 0 && AsReal(n) == NewShare(actions, k);
    Quotients(n.part, n.total, 1, 10);
    assert 1 as real / 10 as real == 0.1;
  }

  lemma LargerIsMax(a: Ratio, b: Ratio)
    requires a.total > 0 && b.total > 0
    ensures Larger(a, b) == a || Larger(a, b) == b
    ensures AsReal(a) <= AsReal(Larger(a, b)) && AsReal(b) <= AsReal(Larger(a, b))
  {
    Quotients(a.part, a.total, b.part, b.total);
    Quotients(b.part, b.total, a.part, a.total);
  }

  lemma RepeatsIsRedundant(str: Value -> string, actions: seq<Action>, k: nat)
    requires k < |actions|
    ensures DecisionAt(Guard(str), actions, k).redundant <==> Repeats(str, actions, k)
  {
    hide NearPair, DuplicatesIn, Prior, Seen, Numbers, LowNovelty, NewShare;
    var d := Guard(str);
    NoveltyIsShare(actions, k);
    DuplicatesExist(d, actions[k], Prior(actions, k));
    PriorMembers(d, actions, k);
    forall j | 0 <= j < k
      ensures d.near(actions[k], actions[j]) <==> NearPair(str, actions[k], actions[j])
    {
      NearMeans(str, actions[k], actions[j]);
    }
  }

  /** The comparison window: the twelve actions before action `k`, or all of them. */
  function WindowStart(k: nat): nat {
    if k <= 12 then 0 else k - 12
  }

  /** The positions, in order, of the actions that are near the given one. */
  ghost predicate NearPositions(str: Value -> string, a: Action, prior: seq<Action>, js: seq<nat>) {
    && (forall i, i' :: 0 <= i < i' < |js| ==> js[i] < js[i'])
    && (forall j: nat :: j in js <==> j < |prior| && NearPair(str, a, prior[j]))
  }

  ghost function Shifted(js: seq<nat>, shift: nat): seq<nat> {
    seq(|js|, i requires 0 <= i < |js| => js[i] + shift)
  }

  lemma ShiftedMembers(js: seq<nat>, shift: nat, j: nat)
    ensures j in Shifted(js, shift) <==> shift <= j && j - shift in js
  {
    if shift <= j && j - shift in js {
      var i :| 0 <= i < |js| && js[i] == j - shift;
      assert Shifted(js, shift)[i] == j;
    }
  }

  /** The numbers of the actions at these positions. */
  ghost predicate NumbersAt(numbers: seq<int>, actions: seq<Action>, js: seq<nat>) {
    |numbers| == |js| && forall i :: 0 <= i < |js| ==> js[i] < |actions| && numbers[i] == actions[js[i]].actionNumber
  }

  lemma NoneNear(str: Value -> string, a: Action)
    ensures NearPositions(str, a, [], [])
  {
  }

  lemma NearPositionsNext(str: Value -> string, a: Action, prior: seq<Action>, rest: seq<nat>)
    requires prior != [] && NearPositions(str, a, prior[1..], rest)
    ensures NearPositions(str, a, prior, (if NearPair(str, a, prior[0]) then [0] else []) + Shifted(rest, 1))
  {
    hide NearPair;
    var js := (if NearPair(str, a, prior[0]) then [0] else []) + Shifted(rest, 1);
    forall j: nat
      ensures j in js <==> j < |prior| && NearPair(str, a, prior[j])
    {
      ShiftedMembers(rest, 1, j);
    }
  }

  /** The duplicates listed for an action are those of its window that are near it, in order. */
  lemma {:induction false} DuplicatesAre(str: Value -> string, a: Action, prior: seq<Action>) returns (js: seq<nat>)
    ensures NearPositions(str, a, prior, js)
    ensures NumbersAt(DuplicatesIn(Guard(str), a, prior), prior, js)
  {
    hide NearPair, NearPositions;
    if prior == [] {
      NoneNear(str, a);
      return [];
    }
    var rest := DuplicatesAre(str, a, prior[1..]);
    NearMeans(str, a, prior[0]);
    NearPositionsNext(str, a, prior, rest);
    js := (if NearPair(str, a, prior[0]) then [0] else []) + Shifted(rest, 1);
  }

  /** What is reported about each tool action; `near` are the window's positions of nearly the same actions. */
  lemma DecisionMeans(str: Value -> string, events: seq<Value>, k: nat) returns (near: seq<nat>)
    requires Assess(Guard(str), events).Ok? && k < |ExtractAll(Guard(str), events).value|
    ensures |Assess(Guard(str), events).value.decisions| == |ExtractAll(Guard(str), events).value|
    ensures var actions, row := ExtractAll(Guard(str), events).value, Assess(Guard(str), events).value.decisions[k];
            var window := actions[WindowStart(k)..k];
            && row.actionNumber == actions[k].actionNumber && row.sequenceOffset == actions[k].sequenceOffset
            && NumbersAt(row.comparisonWindow, window, seq(|window|, i => i))
            && NearPositions(str, actions[k], window, near) && NumbersAt(row.nearDuplicateActions, window, near)
            && row.evidenceAtoms == |actions[k].evidence| && row.novelEvidenceAtoms == |NewEvidence(actions, k)|
            && row.novelty.total > 0 && AsReal(row.novelty) == NewShare(actions, k)
            && (row.redundant <==> Repeats(str, actions, k))
  {
    hide NearPair, DuplicatesIn, Seen, Novelty, LowNovelty, NewShare, Before, AsReal, Repeats, NearPositions, ExtractAll;
    var actions := ExtractAll(Guard(str), events).value;
    assert Prior(actions, k) == actions[WindowStart(k)..k];
    near := DuplicatesAre(str, actions[k], actions[WindowStart(k)..k]);
    NoveltyIsShare(actions, k);
    SeenIsBefore(actions, k);
    RepeatsIsRedundant(str, actions, k);
  }

  // --------------------------------------------------------------------- advice

  lemma FiresIsConfirmed(str: Value -> string, actions: seq<Action>, k: nat)
    requires k < |actions|
    ensures Fires(Guard(str), actions, Decisions(Guard(str), actions), k) <==> Confirmed(str, actions, k)
  {
    hide NearPair, Repeats, LowNovelty, FewNew, Seen, Novelty;
    if k > 8 {
      RepeatsIsRedundant(str, actions, k);
      RepeatsIsRedundant(str, actions, k - 1);
      NoveltyIsShare(actions, k - 1);
      NearMeans(str, actions[k], actions[k - 1]);
    }
  }

  /** Advice is given exactly when some two consecutive actions confirm a loop. */
  lemma AdviceMeans(str: Value -> string, events: seq<Value>)
    requires Assess(Guard(str), events).Ok?
    ensures Assess(Guard(str), events).value.intervention.Some? <==>
              exists k: nat :: Confirmed(str, ExtractAll(Guard(str), events).value, k)
  {
    hide Repeats, FewNew, NearPair, Fires, Advice, ExtractAll, DecisionAt, Guard;
    var actions := ExtractAll(Guard(str), events).value;
    var decisions := Decisions(Guard(str), actions);
    forall k: nat | k < |actions|
      ensures Fires(Guard(str), actions, decisions, k) <==> Confirmed(str, actions, k)
    {
      FiresIsConfirmed(str, actions, k);
    }
    var advised := FirstFire(Guard(str), actions, decisions, |actions|);
    assert Assess(Guard(str), events).value.intervention.Some? <==> advised.Some?;
    if advised.Some? {
      assert Confirmed(str, actions, advised.value);
    } else {
      forall k: nat
        ensures !Confirmed(str, actions, k)
      {
        if Confirmed(str, actions, k) {
          ConfirmedIsAction(str, actions, k);
        }
      }
    }
  }

  lemma ConfirmedIsAction(str: Value -> string, actions: seq<Action>, k: nat)
    requires Confirmed(str, actions, k)
    ensures k < |actions|
  {
  }

  /** A trajectory in which no action nearly repeats one of the twelve before it gets no advice. */
  lemma NoNearPairNoAdvice(str: Value -> string, events: seq<Value>)
    requires Assess(Guard(str), events).Ok?
    requires var actions := ExtractAll(Guard(str), events).value;
             forall j, k :: 0 <= j < k < |actions| && k <= j + 12 ==> !NearPair(str, actions[k], actions[j])
    ensures Assess(Guard(str), events).value.intervention.None?
  {
    hide NearPair, FewNew, ExtractAll, Assess;
    AdviceMeans(str, events);
  }

  /** The advice is about the loop that action `k` confirms first: it points at the action before it. */
  ghost predicate AdviceAt(str: Value -> string, actions: seq<Action>, k: nat, advice: Intervention) {
    && Confirmed(str, actions, k) && (forall j: nat :: j < k ==> !Confirmed(str, actions, j))
    && advice.truncationPoint == actions[k - 1].sequenceOffset
    && advice.loopStartAction == actions[k - 1].actionNumber
    && advice.confirmationActions == 2
    && advice.evidenceNovelty.total > 0
    && AsReal(advice.evidenceNovelty) ==
         (if NewShare(actions, k - 1) >= NewShare(actions, k) then NewShare(actions, k - 1) else NewShare(actions, k))
    && advice.repeatedAction.tool == actions[k - 1].tool
    && Shows(str, advice.repeatedAction.arguments, actions[k - 1].arguments)
  }

  /** The advice speaks of the first confirmed loop and the action that began it. */
  lemma AdviceFields(str: Value -> string, events: seq<Value>) returns (k: nat)
    requires Assess(Guard(str), events).Ok? && Assess(Guard(str), events).value.intervention.Some?
    ensures AdviceAt(str, ExtractAll(Guard(str), events).value, k, Assess(Guard(str), events).value.intervention.value)
  {
    hide Confirmed, Fires, ExtractAll, NormalizedArguments, Shows, Numbers, DuplicatesIn, NewShare, Novelty, Seen, AsReal, Larger, Prior;
    var d, actions := Guard(str), ExtractAll(Guard(str), events).value;
    var decisions := Decisions(d, actions);
    forall j: nat | j < |actions|
      ensures Fires(d, actions, decisions, j) <==> Confirmed(str, actions, j)
    {
      FiresIsConfirmed(str, actions, j);
    }
    k := FirstFire(d, actions, decisions, |actions|).value;
    LaterThanWarmup(d, actions, decisions, k);
    NoveltyIsShare(actions, k - 1);
    NoveltyIsShare(actions, k);
    LargerIsMax(decisions[k - 1].novelty, decisions[k].novelty);
    NormalizedShows(str, actions[k - 1].arguments);
  }

  lemma LaterThanWarmup(d: Detector, actions: seq<Action>, decisions: seq<Decision>, k: nat)
    requires k < |actions| == |decisions| && Fires(d, actions, decisions, k)
    ensures k > 8
  {
  }

  /** The shown arguments: all but the ignored ones, the path in canonical form. */
  ghost predicate Shows(str: Value -> string, shown: map<string, Value>, arguments: map<string, Value>) {
    forall key ::
      && (key in shown <==> key in arguments && key !in {"max_matches", "max_results", "line_count", "start_line"})
      && (key in shown && key in arguments ==>
            shown[key] == if key == "path" then Str(PathOf(str, arguments[key])) else arguments[key])
  }

  lemma NormalizedShows(str: Value -> string, arguments: map<string, Value>)
    ensures Shows(str, NormalizedArguments(str, arguments), arguments)
  {
    hide PathOf;
  }

  // ------------------------------------------------------------ the entry point

  /** A tool event whose call has no text name or no mapped arguments. */
  ghost predicate Malformed(event: Value) {
    IsToolEvent(event) && forall tool, arguments :: !Calls(event, tool, arguments)
  }

  lemma {:induction false} ExtractsUnlessMalformed(str: Value -> string, events: seq<Value>)
    ensures ExtractAll(Guard(str), events).Ok? <==> forall e :: e in events ==> !Malformed(e)
    ensures ExtractAll(Guard(str), events).Err? ==>
              var o := ExtractAll(Guard(str), events).error;
              o < |events| && Malformed(events[o]) && forall j :: 0 <= j < o ==> !Malformed(events[j])
  {
    hide Malformed;
    if events != [] {
      var n := |events| - 1;
      ExtractsUnlessMalformed(str, events[..n]);
      MalformedRaises(str, events[n], n);
      assert events == events[..n] + [events[n]];
      assert forall j :: 0 <= j < n ==> events[..n][j] == events[j] && events[j] in events;
      assert forall j :: 0 <= j < n ==> events[j] in events[..n];
      hide Guard;
    }
  }

  lemma MalformedRaises(str: Value -> string, event: Value, offset: nat)
    ensures Guard(str).extract(event, offset).Err? <==> Malformed(event)
  {
    hide Guard;
    ExtractMeans(str, event, offset);
  }

  /** No advice without a confirmed loop, and otherwise advice about the first one. */
  ghost predicate Advises(str: Value -> string, actions: seq<Action>, advice: Option<Intervention>) {
    match advice
    case None => forall k: nat :: !Confirmed(str, actions, k)
    case Some(iv) => exists k: nat :: AdviceAt(str, actions, k, iv)
  }

  /** `detect_and_redirect`: an error at the first malformed tool event, else advice exactly about the first confirmed loop. */
  method DetectAndRedirect(str: Value -> string, events: seq<Value>) returns (advice: Result<Option<Intervention>, nat>)
    ensures advice.Ok? <==> forall e :: e in events ==> !Malformed(e)
    ensures advice.Err? ==>
              advice.error < |events| && Malformed(events[advice.error])
              && forall j :: 0 <= j < advice.error ==> !Malformed(events[j])
    ensures advice.Ok? ==> ExtractAll(Guard(str), events).Ok?
                           && Advises(str, ExtractAll(Guard(str), events).value, advice.value)
  {
    hide Malformed, Guard, AssessActions, AdviceAt, Confirmed;
    ExtractsUnlessMalformed(str, events);
    var assessed := AssessTrajectory(Guard(str), events);
    if assessed.Err? {
      return Err(assessed.error);
    }
    AdviceMeans(str, events);
    if assessed.value.intervention.Some? {
      var k := AdviceFields(str, events);
    }
    return Ok(assessed.value.intervention);
  }
}

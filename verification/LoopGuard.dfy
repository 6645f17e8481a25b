/**
 * How the loop guard reads events, writes actions back and compares them
 * (action_trajectory_loop_guard/src/action_trajectory_loop_guard/detector.py),
 * and replay fidelity: a serialized action reads back as the same action.
 *
 * `str` is the built-in conversion of a value to text; only its behaviour on
 * text matters here (`ShowsText`).
 */
module LoopGuard {
  import opened Common
  import opened Trajectory
  import opened LoopDetector
  import Sorting
  import CanonicalPath

  /** `_canonical_path` of an arbitrary value. */
  function PathOf(str: Value -> string, v: Value): string {
    CanonicalPath.Canonical(str(if Truthy(v) then v else Str(".")))
  }

  function LineAtoms(path: string, lines: seq<Value>): set<Atom> {
    if lines == [] then {}
    else
      var n := |lines| - 1;
      LineAtoms(path, lines[..n]) + (if IntOf(lines[n]).Some? then {Atom(path, IntOf(lines[n]))} else {})
  }

  function ItemAtoms(str: Value -> string, item: Value): set<Atom> {
    if !item.Map? || "path" !in item.fields then {}
    else
      var path := PathOf(str, item.fields["path"]);
      var lines := Get(item.fields, "lines");
      if lines.List? && lines.items != [] then LineAtoms(path, lines.items) else {Atom(path, None)}
  }

  function ItemsAtoms(str: Value -> string, items: seq<Value>): set<Atom> {
    if items == [] then {}
    else
      var n := |items| - 1;
      ItemsAtoms(str, items[..n]) + ItemAtoms(str, items[n])
  }

  function PathsAtoms(str: Value -> string, paths: seq<Value>): set<Atom> {
    if paths == [] then {}
    else
      var n := |paths| - 1;
      PathsAtoms(str, paths[..n]) + (if paths[n].Str? then {Atom(PathOf(str, paths[n]), None)} else {})
  }

  function EvidenceAtoms(str: Value -> string, meta: map<string, Value>): set<Atom> {
    var evidence := Get(meta, "evidence");
    var paths := Get(meta, "paths");
    (if evidence.List? then ItemsAtoms(str, evidence.items) else {}) +
    (if paths.List? then PathsAtoms(str, paths.items) else {})
  }

  /** `_evidence_atoms` as the source runs it. */
  method CollectEvidence(str: Value -> string, meta: map<string, Value>) returns (atoms: set<Atom>)
    ensures atoms == EvidenceAtoms(str, meta)
  {
    atoms := {};
    var evidence := Get(meta, "evidence");
    if evidence.List? {
      for k := 0 to |evidence.items|
        invariant atoms == ItemsAtoms(str, evidence.items[..k])
      {
        assert evidence.items[..k + 1][..k] == evidence.items[..k];
        var item := evidence.items[k];
        if !item.Map? || "path" !in item.fields {
          continue;
        }
        var path := PathOf(str, item.fields["path"]);
        var lines := Get(item.fields, "lines");
        if lines.List? && lines.items != [] {
          atoms := atoms + LineAtoms(path, lines.items);
        } else {
          atoms := atoms + {Atom(path, None)};
        }
      }
      assert evidence.items[..|evidence.items|] == evidence.items;
    }
    var paths := Get(meta, "paths");
    if paths.List? {
      atoms := atoms + PathsAtoms(str, paths.items);
    }
  }

  /** The result's metadata when it is a mapping, else the observation's, else none. */
  function TypedMeta(event: Value): map<string, Value> {
    var observation := Field(event, "observation");
    var resultMeta := Field(Field(observation, "tool_result"), "meta");
    var meta := if resultMeta.Map? then resultMeta else Field(observation, "meta");
    if meta.Map? then meta.fields else map[]
  }

  function Success(event: Value): bool {
    Truthy(Field(Field(Field(event, "observation"), "tool_result"), "success"))
  }

  /** `_extract_action`: None for a non-tool event, Err for an invalid tool call. */
  function Extract(str: Value -> string, event: Value, offset: nat): Result<Option<Action>, nat> {
    var action := Field(event, "action");
    var call := Field(action, "tool_call");
    if action.Null? || Field(action, "kind") != Str("tool") || call.Null? then Ok(None)
    else
      var tool := Field(call, "name");
      var arguments := Field(call, "arguments");
      if !tool.Str? || !arguments.Map? then Err(offset)
      else
        var typedMeta := TypedMeta(event);
        var category := Get(typedMeta, "category");
        var number := IntOf(Field(event, "index"));
        var captured := IntOf(Field(event, "_detector_sequence_offset"));
        Ok(Some(Action(
          if captured.Some? then captured.value else offset,
          if number.Some? then number.value else offset + 1,
          tool.s,
          arguments.fields,
          Success(event),
          if category.Null? then None else Some(str(category)),
          EvidenceAtoms(str, typedMeta))))
  }

  // ------------------------------------------------------------ serialization

  function LineKey(a: Atom): int {
    if a.line.None? then -1 else a.line.value
  }

  /** The sort key `(path, -1 if line is None else line)`, with None first on a tie. */
  predicate AtomLe(a: Atom, b: Atom) {
    if a.path != b.path then Sorting.StringLe(a.path, b.path)
    else LineKey(a) < LineKey(b) || (LineKey(a) == LineKey(b) && (a.line.None? || b.line.Some?))
  }

  lemma AtomOrder()
    ensures Sorting.TotalOrder(AtomLe)
  {
    Sorting.StringOrder();
  }

  function SortedAtoms(atoms: set<Atom>): (r: seq<Atom>)
    ensures forall a :: a in r <==> a in atoms
  {
    AtomOrder();
    Sorting.SortSet(atoms, AtomLe)
  }

  /** Serialized evidence is in order: by path, a whole file as if its line were -1, and no atom comes twice. */
  lemma AtomsInOrder(atoms: set<Atom>, i: nat, j: nat)
    requires i < j < |SortedAtoms(atoms)|
    ensures var a, b := SortedAtoms(atoms)[i], SortedAtoms(atoms)[j];
            && a != b && Sorting.StringLe(a.path, b.path)
            && (a.path == b.path ==>
                  match (a.line, b.line)
                  case (Some(m), Some(n)) => m < n
                  case (None, Some(n)) => n >= -1
                  case (Some(m), None) => m < -1
                  case (None, None) => false)
  {
    AtomOrder();
    Sorting.StringOrder();
  }

  function SerializeAtom(a: Atom): Value {
    Map(map["path" := Str(a.path), "lines" := List(if a.line.None? then [] else [Int(a.line.value)])])
  }

  function SerializeAtoms(atoms: seq<Atom>): seq<Value> {
    seq(|atoms|, i requires 0 <= i < |atoms| => SerializeAtom(atoms[i]))
  }

  function SerializeMeta(a: Action): map<string, Value> {
    map["category" := if a.category.None? then Null else Str(a.category.value),
        "evidence" := List(SerializeAtoms(SortedAtoms(a.evidence)))]
  }

  function SerializeCall(a: Action): Value {
    Map(map["kind" := Str("tool"),
            "tool_call" := Map(map["name" := Str(a.tool), "arguments" := Map(a.arguments)])])
  }

  function SerializeObservation(a: Action): Value {
    Map(map["tool_result" := Map(map["success" := Bool(a.success), "meta" := Map(SerializeMeta(a))])])
  }

  /** `_serialize_action`. */
  function Serialize(a: Action): Value {
    Map(map["_detector_sequence_offset" := Int(a.sequenceOffset),
            "index" := Int(a.actionNumber),
            "action" := SerializeCall(a),
            "observation" := SerializeObservation(a)])
  }

  // ------------------------------------------------------------ near duplicates

  function ReadRange(arguments: map<string, Value>): Option<(int, int)> {
    var start := if "start_line" in arguments then IntOf(arguments["start_line"]) else Some(1);
    var count := IntOf(Get(arguments, "line_count"));
    if Get(arguments, "full") == Bool(true) || start.None? || count.None? || count.value < 1 then None
    else Some((start.value, start.value + count.value - 1))
  }

  /** The content of the JSON text that `_normalized_arguments` compares. */
  function NormalizedArguments(str: Value -> string, arguments: map<string, Value>): map<string, Value> {
    map key | key in arguments && key !in {"max_matches", "max_results", "line_count", "start_line"} ::
      if key == "path" then Str(PathOf(str, arguments[key])) else arguments[key]
  }

  predicate NearDuplicate(str: Value -> string, current: Action, prior: Action) {
    && current.tool == prior.tool
    && if current.tool == "read_file" then
         && PathOf(str, Get(current.arguments, "path")) == PathOf(str, Get(prior.arguments, "path"))
         && var c, p := ReadRange(current.arguments), ReadRange(prior.arguments);
            if c.None? || p.None? then
              NormalizedArguments(str, current.arguments) == NormalizedArguments(str, prior.arguments)
            else
              var overlap := Max(0, Min(c.value.1, p.value.1) - Max(c.value.0, p.value.0) + 1);
              var smaller := Min(c.value.1 - c.value.0 + 1, p.value.1 - p.value.0 + 1);
              2 * overlap >= smaller
       else
         NormalizedArguments(str, current.arguments) == NormalizedArguments(str, prior.arguments)
  }

  function Max(a: int, b: int): int { if a >= b then a else b }
  function Min(a: int, b: int): int { if a <= b then a else b }

  /** The detector that the package exports. */
  function Guard(str: Value -> string): Detector {
    Detector(
      (event: Value, offset: nat) => Extract(str, event, offset),
      (action: Action) => Serialize(action),
      (current: Action, prior: Action) => NearDuplicate(str, current, prior),
      (action: Action) => Signature(action.tool, NormalizedArguments(str, action.arguments)))
  }

  // ------------------------------------------------------------ replay fidelity

  /** Every path of the evidence is in canonical form. */
  ghost predicate Normal(atoms: set<Atom>) {
    forall a :: a in atoms ==> CanonicalPath.Canonical(a.path) == a.path
  }

  lemma {:induction false} LineAtomsNormal(path: string, lines: seq<Value>)
    requires CanonicalPath.Canonical(path) == path
    ensures Normal(LineAtoms(path, lines))
  {
    if lines != [] {
      LineAtomsNormal(path, lines[..|lines| - 1]);
    }
  }

  lemma PathOfNormal(str: Value -> string, v: Value)
    ensures CanonicalPath.Canonical(PathOf(str, v)) == PathOf(str, v)
  {
    CanonicalPath.CanonicalIdempotent(str(if Truthy(v) then v else Str(".")));
  }

  lemma {:induction false} ItemsAtomsNormal(str: Value -> string, items: seq<Value>)
    ensures Normal(ItemsAtoms(str, items))
  {
    if items != [] {
      var n := |items| - 1;
      ItemsAtomsNormal(str, items[..n]);
      if items[n].Map? && "path" in items[n].fields {
        var path := PathOf(str, items[n].fields["path"]);
        PathOfNormal(str, items[n].fields["path"]);
        var lines := Get(items[n].fields, "lines");
        if lines.List? {
          LineAtomsNormal(path, lines.items);
        }
      }
    }
  }

  lemma {:induction false} PathsAtomsNormal(str: Value -> string, paths: seq<Value>)
    ensures Normal(PathsAtoms(str, paths))
  {
    if paths != [] {
      PathsAtomsNormal(str, paths[..|paths| - 1]);
      PathOfNormal(str, paths[|paths| - 1]);
    }
  }

  lemma EvidenceAtomsNormal(str: Value -> string, meta: map<string, Value>)
    ensures Normal(EvidenceAtoms(str, meta))
  {
    var evidence, paths := Get(meta, "evidence"), Get(meta, "paths");
    if evidence.List? {
      ItemsAtomsNormal(str, evidence.items);
    }
    if paths.List? {
      PathsAtomsNormal(str, paths.items);
    }
  }

  lemma ExtractedIsNormal(str: Value -> string, event: Value, offset: nat)
    requires Extract(str, event, offset).Ok? && Extract(str, event, offset).value.Some?
    ensures Normal(Extract(str, event, offset).value.value.evidence)
  {
    hide EvidenceAtoms, TypedMeta, Success;
    EvidenceAtomsNormal(str, TypedMeta(event));
  }

  lemma PathOfText(str: Value -> string, path: string)
    requires ShowsText(str) && CanonicalPath.Canonical(path) == path
    ensures PathOf(str, Str(path)) == path
  {
    CanonicalPath.CanonicalIdempotent(path);
  }

  /** One serialized atom reads back as itself. */
  lemma AtomRoundTrip(str: Value -> string, a: Atom)
    requires ShowsText(str) && CanonicalPath.Canonical(a.path) == a.path
    ensures ItemAtoms(str, SerializeAtom(a)) == {a}
  {
    hide PathOf;
    PathOfText(str, a.path);
    if a.line.Some? {
      var lines := [Int(a.line.value)];
      assert lines[..0] == [];
      assert LineAtoms(a.path, lines) == LineAtoms(a.path, []) + {a};
    }
  }

  lemma {:induction false} AtomsRoundTrip(str: Value -> string, atoms: seq<Atom>)
    requires ShowsText(str) && forall a :: a in atoms ==> CanonicalPath.Canonical(a.path) == a.path
    ensures ItemsAtoms(str, SerializeAtoms(atoms)) == set a | a in atoms
  {
    hide ItemAtoms, SerializeAtom, CanonicalPath.Canonical;
    if atoms != [] {
      var n := |atoms| - 1;
      AtomsRoundTrip(str, atoms[..n]);
      AtomRoundTrip(str, atoms[n]);
      assert SerializeAtoms(atoms)[..n] == SerializeAtoms(atoms[..n]);
      assert atoms == atoms[..n] + [atoms[n]];
    }
  }

  lemma EvidenceRoundTrip(str: Value -> string, a: Action)
    requires ShowsText(str) && Normal(a.evidence)
    ensures EvidenceAtoms(str, SerializeMeta(a)) == a.evidence
  {
    hide ItemsAtoms, SerializeAtoms, SortedAtoms;
    var sorted := SortedAtoms(a.evidence);
    AtomsRoundTrip(str, sorted);
    assert (set x | x in sorted) == a.evidence;
  }

  lemma ObservationRoundTrip(a: Action)
    ensures TypedMeta(Serialize(a)) == SerializeMeta(a) && Success(Serialize(a)) == a.success
  {
    hide SerializeMeta, SerializeCall;
    var observation := SerializeObservation(a);
    assert Field(Serialize(a), "observation") == observation;
    var result := Field(observation, "tool_result");
    assert Field(result, "success") == Bool(a.success) && Field(result, "meta") == Map(SerializeMeta(a));
  }

  lemma HeaderRoundTrip(a: Action)
    ensures var event := Serialize(a);
            && Field(event, "action") == SerializeCall(a)
            && Field(event, "index") == Int(a.actionNumber)
            && Field(event, "_detector_sequence_offset") == Int(a.sequenceOffset)
  {
    hide SerializeObservation, SerializeCall;
  }

  lemma CallRoundTrip(a: Action)
    ensures var action := SerializeCall(a);
            var call := Field(action, "tool_call");
            && !action.Null? && Field(action, "kind") == Str("tool") && !call.Null?
            && Field(call, "name") == Str(a.tool) && Field(call, "arguments") == Map(a.arguments)
  {
  }

  lemma CategoryRoundTrip(a: Action)
    ensures Get(SerializeMeta(a), "category") == if a.category.None? then Null else Str(a.category.value)
  {
    hide SerializeAtoms, SortedAtoms;
  }

  /** Reading back a serialized action gives the same action, whatever its new position. */
  lemma ActionRoundTrip(str: Value -> string, a: Action, offset: nat)
    requires ShowsText(str) && Normal(a.evidence)
    ensures Extract(str, Serialize(a), offset) == Ok(Some(a))
  {
    hide EvidenceAtoms, TypedMeta, Success, Serialize, SerializeCall, SerializeMeta, Normal, Field, Get;
    EvidenceRoundTrip(str, a);
    ObservationRoundTrip(a);
    HeaderRoundTrip(a);
    CallRoundTrip(a);
    CategoryRoundTrip(a);
  }

  lemma {:induction false} ExtractedAreNormal(str: Value -> string, events: seq<Value>)
    requires ExtractAll(Guard(str), events).Ok?
    ensures forall a :: a in ExtractAll(Guard(str), events).value ==> Normal(a.evidence)
  {
    hide Extract, Normal;
    if events != [] {
      var n := |events| - 1;
      ExtractedAreNormal(str, events[..n]);
      var r := Extract(str, events[n], n);
      assert Guard(str).extract(events[n], n) == r;
      if r.Ok? && r.value.Some? {
        ExtractedIsNormal(str, events[n], n);
      }
    }
  }

  /** Feeding the returned actions back reproduces the whole assessment. */
  lemma ReplayFidelity(str: Value -> string, events: seq<Value>)
    requires ShowsText(str) && Assess(Guard(str), events).Ok?
    ensures Assess(Guard(str), Assess(Guard(str), events).value.actions) == Assess(Guard(str), events)
  {
    var actions := ExtractAll(Guard(str), events).value;
    ExtractedAreNormal(str, events);
    hide Extract, Serialize, AssessActions;
    var d := Guard(str);
    forall a, k: nat | a in actions
      ensures d.extract(d.serialize(a), k) == Ok(Some(a))
    {
      ActionRoundTrip(str, a, k);
    }
    ExtractSerialized(d, actions);
  }

  /** A trajectory whose events carry no captured offset is raw. */
  lemma UncapturedIsRaw(str: Value -> string, events: seq<Value>)
    requires forall e :: e in events ==> IntOf(Field(e, "_detector_sequence_offset")).None?
    ensures Raw(Guard(str), events)
  {
    hide TypedMeta, Success, EvidenceAtoms;
    forall i | 0 <= i < |events|
      ensures match Extract(str, events[i], i) {
                case Ok(Some(a)) => a.sequenceOffset == i
                case _ => true }
    {
      assert events[i] in events;
    }
  }
}

/**
 * Values of the action-trajectory loop guard
 * (action_trajectory_loop_guard/src/action_trajectory_loop_guard/detector.py):
 * trajectory events as Python values, evidence atoms and tool actions.
 */
module Trajectory {
  import opened Common

  // ------------------------------------------------------------------- values

  datatype Value =
    | Null
    | Bool(b: bool)
    | Int(i: int)
    | Real(x: real)
    | Str(s: string)
    | List(items: seq<Value>)
    | Map(fields: map<string, Value>)
    | Object(attributes: map<string, Value>)

  /** `str` of a text is that text. */
  ghost predicate ShowsText(str: Value -> string) {
    forall s :: str(Str(s)) == s
  }

  function Get(fields: map<string, Value>, name: string): Value {
    if name in fields then fields[name] else Null
  }

  /** `_field`: a mapping entry or an attribute; absent means None. */
  function Field(v: Value, name: string): Value {
    match v
    case Map(fields) => Get(fields, name)
    case Object(attributes) => Get(attributes, name)
    case _ => Null
  }

  predicate Truthy(v: Value) {
    match v
    case Null => false
    case Bool(b) => b
    case Int(i) => i != 0
    case Real(x) => x != 0.0
    case Str(s) => s != ""
    case List(items) => items != []
    case Map(fields) => fields.Keys != {}
    case Object(_) => true
  }

  /** The values that count as false. */
  lemma FalseValues(v: Value)
    ensures !Truthy(v) <==> v in {Null, Bool(false), Int(0), Real(0.0), Str(""), List([]), Map(map[])}
  {
    if v.Map? {
      assert v.fields.Keys == {} <==> v.fields == map[];
    }
  }

  /** `int(v)` guarded by `isinstance(v, int)`; a bool is an int. */
  function IntOf(v: Value): Option<int> {
    match v
    case Int(i) => Some(i)
    case Bool(b) => Some(if b then 1 else 0)
    case _ => None
  }

  /** The values that count as this integer. */
  lemma IntValues(v: Value, n: int)
    ensures IntOf(v) == Some(n) <==> v == Int(n) || (n == 1 && v == Bool(true)) || (n == 0 && v == Bool(false))
  {
  }

  // ------------------------------------------------------------------ actions

  datatype Atom = Atom(path: string, line: Option<int>)

  datatype Action = Action(
    sequenceOffset: int,
    actionNumber: int,
    tool: string,
    arguments: map<string, Value>,
    success: bool,
    category: Option<string>,
    evidence: set<Atom>)
}

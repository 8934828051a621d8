/** JSON values as Python sees them after `json.loads`. */
module Json {

  datatype Option<+T> = None | Some(value: T)

  /** Object keys: the ones a receipt or a requirement list may hold, and all others. */
  datatype Key =
    | Schema | CandidateTree | BaseTree | Tier | GateResults | Bindings | Tools
    | StartedAt | EndedAt | Digest
    | Gate | Argv | ExitCode
    | Code | Locks | Path | Sha256 | IsPresent | Name | Version | Requirements
    | Other(name: string)

  datatype FloatValue = Finite(r: real) | Infinite(negative: bool)

  datatype Json =
    | Null
    | Bool(b: bool)
    | Int(n: int)
    | Float(f: FloatValue)
    | Str(s: string)
    | List(items: seq<Json>)
    | Obj(fields: map<Key, Json>)

  /** The number a value counts as in a comparison: `True` is 1 and `1.0` is 1. */
  function NumberOf(v: Json): Option<FloatValue> {
    match v
    case Bool(b) => Some(Finite(if b then 1.0 else 0.0))
    case Int(n) => Some(Finite(n as real))
    case Float(f) => Some(f)
    case _ => None
  }

  /** Python's `==`. */
  predicate Same(a: Json, b: Json) {
    match a
    case Null => b.Null?
    case Str(s) => b == a
    case List(items) =>
      b.List? && |items| == |b.items|
      && forall i :: 0 <= i < |items| ==> Same(items[i], b.items[i])
    case Obj(fields) =>
      b.Obj? && fields.Keys == b.fields.Keys
      && forall k :: k in fields.Keys ==> Same(fields[k], b.fields[k])
    case _ => NumberOf(b).Some? && NumberOf(a) == NumberOf(b)
  }

  /** No number and no truth value anywhere inside. */
  predicate Numberless(v: Json) {
    match v
    case Null => true
    case Str(_) => true
    case List(items) => forall i :: 0 <= i < |items| ==> Numberless(items[i])
    case Obj(fields) => forall k :: k in fields.Keys ==> Numberless(fields[k])
    case _ => false
  }

  lemma SameIsReflexive(v: Json)
    ensures Same(v, v)
  {}

  /** Without numbers Python's equality is equality. */
  lemma {:induction false} SameWithoutNumbers(a: Json, b: Json)
    requires Numberless(b)
    ensures Same(a, b) <==> a == b
  {
    match b
    case Null =>
    case Str(_) =>
    case List(items) =>
      if a.List? && |a.items| == |items| {
        forall i | 0 <= i < |items| ensures Same(a.items[i], items[i]) <==> a.items[i] == items[i] {
          SameWithoutNumbers(a.items[i], items[i]);
        }
      }
    case Obj(fields) =>
      if a.Obj? && a.fields.Keys == fields.Keys {
        forall k | k in fields.Keys ensures Same(a.fields[k], fields[k]) <==> a.fields[k] == fields[k] {
          SameWithoutNumbers(a.fields[k], fields[k]);
        }
        assert a.fields == fields <==> forall k :: k in fields.Keys ==> a.fields[k] == fields[k];
      }
  }
}

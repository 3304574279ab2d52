/** The JSON-like values that configuration files hold, and the JavaScript
    operations the modules apply to them: truthiness, optional property
    access `v?.[k]`, a walk along a key path, and numeric coercion. */
module Json {
  import opened Wrappers
  import Text

  datatype Value =
    | Null
    | Bool(b: bool)
    | Num(n: int)
    | Str(s: string)
    | Obj(fields: map<string, Value>)

  /** JavaScript truthiness of a present value. */
  predicate Truthy(v: Value) {
    match v
    case Null => false
    case Bool(b) => b
    case Num(n) => n != 0
    case Str(s) => s != ""
    case Obj(_) => true
  }

  /** Truthiness of a possibly undefined value: `undefined` is falsy. */
  predicate TruthyOpt(v: Option<Value>) {
    v.Some? && Truthy(v.value)
  }

  /** The members every plain object inherits from `Object.prototype`. Reading one of
      them from an object without an own property of that name gives a function, which
      is truthy. */
  const ObjectPrototypeMembers: set<string> :=
    {"constructor", "hasOwnProperty", "isPrototypeOf", "propertyIsEnumerable",
     "toLocaleString", "toString", "valueOf", "__defineGetter__", "__defineSetter__",
     "__lookupGetter__", "__lookupSetter__", "__proto__"}

  /** `v?.[k]`: the field of an object, `undefined` for a missing key or a non-object. */
  function Member(v: Value, k: string): Option<Value> {
    if v.Obj? && k in v.fields then Some(v.fields[k]) else None
  }

  /** The walk `for (const k of path) { value = value?.[k]; if (value === undefined) break; }`
      starting from `v`. */
  function Dig(v: Value, path: seq<string>): Option<Value>
    decreases |path|
  {
    if path == [] then Some(v)
    else
      match Member(v, path[0])
      case None => None
      case Some(w) => Dig(w, path[1..])
  }

  /** Walking `p + q` is walking `p`, then `q` from where `p` ended; a walk that
      stopped stays stopped. */
  lemma {:induction false} DigAppend(v: Value, p: seq<string>, q: seq<string>)
    ensures Dig(v, p + q) == if Dig(v, p).Some? then Dig(Dig(v, p).value, q) else None
    decreases |p|
  {
    if p == [] {
      assert p + q == q;
    } else {
      assert (p + q)[0] == p[0];
      assert (p + q)[1..] == p[1..] + q;
      match Member(v, p[0])
      case None =>
      case Some(w) => DigAppend(w, p[1..], q);
    }
  }

  /** As soon as one segment is missing the walk yields `undefined`, whatever follows. */
  lemma DigStopsAtMissingSegment(v: Value, path: seq<string>, i: nat)
    requires i < |path|
    requires Dig(v, path[..i]).Some?
    requires Member(Dig(v, path[..i]).value, path[i]) == None
    ensures Dig(v, path) == None
  {
    DigAppend(v, path[..i], path[i..]);
    assert path[..i] + path[i..] == path;
  }

  /** A walk that reaches a value passed through an object at every step. */
  lemma {:induction false} DigFoundMeansObjects(v: Value, path: seq<string>, i: nat)
    requires i < |path|
    requires Dig(v, path).Some?
    ensures Dig(v, path[..i]).Some? && Dig(v, path[..i]).value.Obj?
    ensures path[i] in Dig(v, path[..i]).value.fields
  {
    DigAppend(v, path[..i], path[i..]);
    assert path[..i] + path[i..] == path;
    var w := Dig(v, path[..i]).value;
    assert path[i..][0] == path[i];
  }

  /** `Number(v)` as used by `<`, `>=` and `*`: `None` stands for NaN.
      `undefined` and objects are NaN, `null` is 0, booleans are 0 or 1, the empty
      string is 0 and a string of decimal digits is its value; every other string is
      taken as NaN. */
  function ToNumber(v: Option<Value>): (r: Option<int>)
    ensures v == Some(Null) ==> r == Some(0)
    ensures v.None? ==> r.None?
    ensures forall n :: v == Some(Num(n)) ==> r == Some(n)
  {
    match v
    case None => None
    case Some(Null) => Some(0)
    case Some(Bool(b)) => Some(if b then 1 else 0)
    case Some(Num(n)) => Some(n)
    case Some(Str(s)) => if Text.AllDigits(s) then Some(Text.ParseNat(s)) else None
    case Some(Obj(_)) => None
  }
}

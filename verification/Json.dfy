// JSON values as the harness handles them, and equality seen through paths.
module Json {
  import opened Basics

  datatype Number = PosInt(u: u64) | NegInt(magnitude: nat) | Float(r: real)

  datatype Json =
    | Null
    | Bool(b: bool)
    | Num(n: Number)
    | Str(s: string)
    | Arr(items: seq<Json>)
    | Obj(fields: map<string, Json>)

  function Get(v: Json, key: string): Option<Json> {
    if v.Obj? && key in v.fields then Some(v.fields[key]) else None
  }

  function GetStr(v: Json, key: string): Option<string> {
    match Get(v, key) case Some(Str(s)) => Some(s) case _ => None
  }

  function GetU64(v: Json, key: string): Option<u64> {
    match Get(v, key) case Some(Num(PosInt(u))) => Some(u) case _ => None
  }

  // ----- paths

  datatype Segment = Key(key: string) | Index(index: nat)

  function Child(v: Json, seg: Segment): Option<Json> {
    match seg
    case Key(key) => Get(v, key)
    case Index(i) => if v.Arr? && i < |v.items| then Some(v.items[i]) else None
  }

  function At(v: Json, path: seq<Segment>): Option<Json> {
    if path == [] then Some(v)
    else
      match Child(v, path[0])
      case None => None
      case Some(w) => At(w, path[1..])
  }

  /** What one node of a value shows without looking below it. */
  datatype Shape =
    | NullShape | BoolShape(b: bool) | NumShape(n: Number) | StrShape(s: string)
    | ArrShape(length: nat) | ObjShape(keys: set<string>)

  function ShapeOf(v: Json): Shape {
    match v
    case Null => NullShape
    case Bool(b) => BoolShape(b)
    case Num(n) => NumShape(n)
    case Str(s) => StrShape(s)
    case Arr(items) => ArrShape(|items|)
    case Obj(fields) => ObjShape(fields.Keys)
  }

  function ShapeAt(v: Json, path: seq<Segment>): Option<Shape> {
    match At(v, path) case None => None case Some(w) => Some(ShapeOf(w))
  }

  ghost predicate SameShapes(a: Json, b: Json) {
    forall path :: ShapeAt(a, path) == ShapeAt(b, path)
  }

  lemma ChildShapes(a: Json, b: Json, seg: Segment)
    requires SameShapes(a, b) && Child(a, seg).Some? && Child(b, seg).Some?
    ensures SameShapes(Child(a, seg).value, Child(b, seg).value)
  {
    forall path ensures ShapeAt(Child(a, seg).value, path) == ShapeAt(Child(b, seg).value, path) {
      var longer := [seg] + path;
      assert longer[0] == seg && longer[1..] == path;
      assert ShapeAt(a, longer) == ShapeAt(b, longer);
    }
  }

  /** A value is determined by what its nodes show along every path. */
  lemma {:induction false} ShapesDetermine(a: Json, b: Json)
    requires SameShapes(a, b)
    ensures a == b
    decreases a
  {
    assert ShapeAt(a, []) == ShapeAt(b, []);
    match a {
      case Arr(items) =>
        forall i | 0 <= i < |items| ensures items[i] == b.items[i] {
          ChildShapes(a, b, Index(i));
          ShapesDetermine(items[i], b.items[i]);
        }
      case Obj(fields) =>
        forall k | k in fields ensures fields[k] == b.fields[k] {
          ChildShapes(a, b, Key(k));
          ShapesDetermine(fields[k], b.fields[k]);
        }
        assert fields == b.fields;
      case _ =>
    }
  }
}

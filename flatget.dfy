/** `Get` and `get` of goval.go: look a value up in a struct value along a
    flat list of field names, one name per recursion step. Go's panics
    (a lookup in something that is not a struct, a missing field, a field
    that may not be exported) are `Err` results. */
module FlatGet {
  import opened Results
  import opened Values
  import opened Leaf
  import opened Engine
  import opened FlatPath

  /** One step of `get`: `FieldByName` then `Interface`. */
  function Resolve(target: Value, name: string): (r: Result<Value, Fault>)
    ensures r.Ok? <==> target.Struct? && name in target.fields && Exported(name)
    ensures r.Ok? ==> r.value == Opened(target.fields[name])
    ensures !target.Struct? ==> r == Err(NotStruct)
    ensures target.Struct? && name !in target.fields ==> r == Err(NoField)
  {
    if !target.Struct? then Err(NotStruct)
    else if name !in target.fields then Err(NoField)
    else if !Exported(name) then Err(ReadOnly)
    else Ok(Opened(target.fields[name]))
  }

  /** `get`: an empty path gives the target itself; otherwise the first
      name is resolved and the rest of the path is looked up in the result. */
  function GetPath(target: Value, path: Path): (r: Result<Value, Fault>)
    ensures path == [] ==> r == Ok(target)
    ensures r.Err? ==> r.error in {NotStruct, NoField, ReadOnly}
    decreases |path|
  {
    if path == [] then Ok(target)
    else match Resolve(target, path[0])
      case Err(e) => Err(e)
      case Ok(next) => GetPath(next, path[1..])
  }

  /** `Get`: parse the string, then `get`. A string without a dot is a
      single field name, resolved in one step. */
  function Get(target: Value, path: string): (r: Result<Value, Fault>)
    ensures r == GetPath(target, Parse(path))
    ensures '.' !in path ==> r == Resolve(target, path)
  {
    ParseSingle(path);
    GetPath(target, Parse(path))
  }

  /** `Get` on dot-free names joined with dots is `get` on those names. */
  lemma GetJoin(target: Value, names: Path)
    requires |names| >= 1 && forall i | 0 <= i < |names| :: '.' !in names[i]
    ensures Get(target, Join(names)) == GetPath(target, names)
  {
    ParseJoin(names);
  }

  /** Looking up `p + q` is looking up `p` and then `q` in what it found. */
  lemma {:induction false} GetPathAppend(target: Value, p: Path, q: Path)
    ensures GetPath(target, p + q) ==
            match GetPath(target, p)
            case Err(e) => Err(e)
            case Ok(mid) => GetPath(mid, q)
    decreases |p|
  {
    if p == [] {
      assert p + q == q;
    } else {
      assert (p + q)[0] == p[0] && (p + q)[1..] == p[1..] + q;
      match Resolve(target, p[0])
      case Err(_) =>
      case Ok(next) => GetPathAppend(next, p[1..], q);
    }
  }

  /** A graph without interface boxes. */
  predicate Unboxed(v: Value) {
    match v
    case Struct(f) => forall k :: k in f ==> Unboxed(f[k])
    case Ptr(Some(x)) => Unboxed(x)
    case Ptr(None) => true
    case Iface(_) => false
    case Slice(xs) => forall i :: 0 <= i < |xs| ==> Unboxed(xs[i])
    case Prim(_) => true
  }

  /** The location a flat path names: one field step per name. */
  function FieldSteps(path: Path): (r: Loc)
    ensures |r| == |path|
    ensures forall i | 0 <= i < |path| :: r[i] == Field(path[i])
  {
    if path == [] then [] else [Field(path[0])] + FieldSteps(path[1..])
  }

  /** Without interface boxes and with exported names only, `get` succeeds
      exactly when the path names a location of the graph, and then it
      yields the node found there. */
  lemma {:induction false} GetPathIsLookup(target: Value, path: Path)
    requires Unboxed(target)
    requires forall i | 0 <= i < |path| :: Exported(path[i])
    ensures GetPath(target, path).Ok? <==> Lookup(target, FieldSteps(path)).Some?
    ensures GetPath(target, path).Ok? ==> GetPath(target, path).value == Lookup(target, FieldSteps(path)).value
    decreases |path|
  {
    if path != [] {
      var loc := FieldSteps(path);
      assert loc[0] == Field(path[0]) && loc[1..] == FieldSteps(path[1..]);
      if target.Struct? && path[0] in target.fields {
        var next := target.fields[path[0]];
        assert Opened(next) == next;
        GetPathIsLookup(next, path[1..]);
      }
    }
  }

  /** Without interface boxes and with exported names only, `Get(t, s)`
      succeeds exactly when the dot-separated names of `s` spell a location
      of the graph, and then it yields the node found there. */
  lemma GetIsLookup(target: Value, path: string)
    requires Unboxed(target)
    requires forall i | 0 <= i < |Parse(path)| :: Exported(Parse(path)[i])
    ensures Get(target, path).Ok? <==> Lookup(target, FieldSteps(Parse(path))).Some?
    ensures Get(target, path).Ok? ==> Get(target, path).value == Lookup(target, FieldSteps(Parse(path))).value
  {
    GetPathIsLookup(target, Parse(path));
  }
}

/** `GetAll` of get.go: the values a path visits, in visiting order, each
    checked against the requested type. */
module Getter {
  import opened Results
  import opened Values
  import opened Leaf
  import opened Engine

  /** The type argument `T` of `GetAll`: `any`, a scalar type, or
      `reflect.Value` (what an addressable composite surfaces as). */
  datatype TypeArg = AnyType | ScalarType(k: Kind) | HandleType

  /** The type assertion `v.(T)` succeeds. The untyped nil is of no type,
      not even `any`. */
  predicate HasType(v: Surfaced, t: TypeArg) {
    match t
    case AnyType => !v.Nil?
    case ScalarType(k) => (v.Plain? && HasKind(v.s, k)) || (v.Boxed? && v.v.Prim? && HasKind(v.v.scalar, k))
    case HandleType => v.Ref?
  }

  /** `GetAll[T](target, path)`: one entry per visit, in visiting order; no
      visit gives the empty sequence; a visited value that is not a `T` is a
      fault, as is a fault of the walk itself. */
  method GetAll(root: Value, segs: seq<Segment>, t: TypeArg) returns (r: Result<seq<Surfaced>, Fault>)
    ensures Visits(root, segs).Err? ==> r == Err(Visits(root, segs).error)
    ensures Visits(root, segs).Ok? ==>
              var vs := Visits(root, segs).value;
              && (r.Ok? <==> forall w | w in vs :: HasType(w.leaf, t))
              && (r.Ok? ==> |r.value| == |vs| && forall i | 0 <= i < |vs| :: r.value[i] == vs[i].leaf)
              && (r.Err? ==> r.error == TypeMismatch)
  {
    var visits := Each(root, segs);
    if visits.Err? {
      return Err(visits.error);
    }
    var vs := visits.value;
    var s := [];
    var i := 0;
    while i < |vs|
      invariant i <= |vs|
      invariant |s| == i
      invariant forall j | 0 <= j < i :: s[j] == vs[j].leaf && HasType(vs[j].leaf, t)
    {
      var v := vs[i].leaf;
      if !HasType(v, t) {
        return Err(TypeMismatch);
      }
      s := s + [v];
      i := i + 1;
    }
    return Ok(s);
  }
}

/** The object graph the package navigates, with Go reflection replaced by a
    tree: records, pointers, interface boxes, slices and primitive leaves.
    A location is the list of concrete steps from the root to a node; it
    stands for a Go address (a field handle, an owner pointer). */
module Values {
  import opened Results

  /** Bit widths of Go's integer kinds; Word is `int`/`uint` on a 64-bit target. */
  datatype IntWidth = Word | W8 | W16 | W32 | W64

  datatype FloatWidth = F32 | F64

  function Modulus(w: IntWidth): (m: nat)
    ensures m >= 256
  {
    match w
    case W8 => 0x100
    case W16 => 0x1_0000
    case W32 => 0x1_0000_0000
    case Word => 0x1_0000_0000_0000_0000
    case W64 => 0x1_0000_0000_0000_0000
  }

  /** A primitive leaf. Floating point and complex payloads are kept as
      opaque bit patterns: the package never computes with them. */
  datatype Scalar =
    | Int(iw: IntWidth, i: int)
    | Uint(uw: IntWidth, u: nat)
    | Float(fw: FloatWidth, fbits: nat)
    | Complex(cw: FloatWidth, cbits: nat)
    | Str(text: string)
    | Bool(flag: bool)

  /** The Go kind of a scalar: what a type assertion `v.(T)` compares. */
  datatype Kind =
    | IntKind(ik: IntWidth)
    | UintKind(uk: IntWidth)
    | FloatKind(fk: FloatWidth)
    | ComplexKind(ck: FloatWidth)
    | StringKind
    | BoolKind

  function KindOf(s: Scalar): Kind {
    match s
    case Int(w, _) => IntKind(w)
    case Uint(w, _) => UintKind(w)
    case Float(w, _) => FloatKind(w)
    case Complex(w, _) => ComplexKind(w)
    case Str(_) => StringKind
    case Bool(_) => BoolKind
  }

  /** A Go value of an integer kind lies in that kind's range. */
  predicate Representable(s: Scalar) {
    match s
    case Int(w, i) => -(Modulus(w) / 2) <= i < Modulus(w) / 2
    case Uint(w, u) => u < Modulus(w)
    case _ => true
  }

  /** `s` is a value of static type `k`. */
  predicate HasKind(s: Scalar, k: Kind) {
    KindOf(s) == k && Representable(s)
  }

  /** A node of the object graph. A nil pointer is `Ptr(None)`, a nil
      interface `Iface(None)`; slices are never nil. */
  datatype Value =
    | Struct(fields: map<string, Value>)
    | Ptr(to: Option<Value>)
    | Iface(held: Option<Value>)
    | Slice(elems: seq<Value>)
    | Prim(scalar: Scalar)

  /** One concrete step: follow a pointer, open an interface box, select a
      struct field, select a slice element. */
  datatype Step = Deref | Unbox | Field(name: string) | Index(i: nat)

  type Loc = seq<Step>

  /** The faults (Go panics) the package raises on misuse. */
  datatype Fault =
    | NotWalkable      // the root is not a non-nil pointer
    | NotStruct        // a field was looked up in something that is not a struct
    | NoField          // `get`: the named field does not exist
    | NotSlice         // an index or wildcard was applied to a non-slice
    | NotAddressable   // `Addr` on a value that is not addressable
    | ReadOnly         // `Interface`/`Set` on a value reached through an unexported field
    | TypeMismatch     // a visited value is not of the requested type

  function Child(v: Value, s: Step): Option<Value> {
    match (v, s)
    case (Ptr(Some(x)), Deref) => Some(x)
    case (Iface(Some(x)), Unbox) => Some(x)
    case (Struct(f), Field(n)) => if n in f then Some(f[n]) else None
    case (Slice(es), Index(i)) => if i < |es| then Some(es[i]) else None
    case _ => None
  }

  /** The node at `loc`, if every step exists. */
  function Lookup(v: Value, loc: Loc): Option<Value>
    decreases |loc|
  {
    if loc == [] then Some(v)
    else match Child(v, loc[0])
      case None => None
      case Some(c) => Lookup(c, loc[1..])
  }

  /** Replaces the child selected by `s`; `v` is returned unchanged when it
      has no such child. */
  function Replace(v: Value, s: Step, c: Value): (r: Value)
    ensures Child(v, s).Some? ==> Child(r, s) == Some(c)
    ensures forall t :: t != s ==> Child(r, t) == Child(v, t)
  {
    match (v, s)
    case (Ptr(Some(_)), Deref) => Ptr(Some(c))
    case (Iface(Some(_)), Unbox) => Iface(Some(c))
    case (Struct(f), Field(n)) => if n in f then Struct(f[n := c]) else v
    case (Slice(es), Index(i)) => if i < |es| then Slice(es[i := c]) else v
    case _ => v
  }

  /** Writes `x` at `loc` (an in-place store through a field handle); a
      location that does not exist leaves the graph unchanged. */
  function Put(v: Value, loc: Loc, x: Value): Value
    decreases |loc|
  {
    if loc == [] then x
    else match Child(v, loc[0])
      case None => v
      case Some(c) => Replace(v, loc[0], Put(c, loc[1..], x))
  }

  /** Neither location is a prefix of the other: the subtrees they name are disjoint. */
  predicate Apart(s: Loc, t: Loc) {
    !(s <= t) && !(t <= s)
  }

  /** Two graphs with the same skeleton: the same constructors, field names,
      nil-ness and slice lengths, with primitive leaves free to differ. */
  predicate Same(a: Value, b: Value) {
    match (a, b)
    case (Struct(f), Struct(g)) => f.Keys == g.Keys && forall k :: k in f ==> Same(f[k], g[k])
    case (Ptr(None), Ptr(None)) => true
    case (Ptr(Some(x)), Ptr(Some(y))) => Same(x, y)
    case (Iface(None), Iface(None)) => true
    case (Iface(Some(x)), Iface(Some(y))) => Same(x, y)
    case (Slice(xs), Slice(ys)) => |xs| == |ys| && forall i :: 0 <= i < |xs| ==> Same(xs[i], ys[i])
    case (Prim(_), Prim(_)) => true
    case _ => false
  }

  lemma {:induction false} LookupSnoc(v: Value, loc: Loc, s: Step)
    ensures Lookup(v, loc + [s]) == match Lookup(v, loc) case None => None case Some(u) => Child(u, s)
    decreases |loc|
  {
    if loc == [] {
      assert loc + [s] == [s];
      assert Lookup(v, [s]) == match Child(v, s) case None => None case Some(c) => Lookup(c, []);
    } else {
      assert (loc + [s])[0] == loc[0] && (loc + [s])[1..] == loc[1..] + [s];
      match Child(v, loc[0])
      case None =>
      case Some(c) => LookupSnoc(c, loc[1..], s);
    }
  }

  lemma {:induction false} LookupAppend(v: Value, loc: Loc, more: Loc)
    ensures Lookup(v, loc + more) == match Lookup(v, loc) case None => None case Some(u) => Lookup(u, more)
    decreases |loc|
  {
    if loc == [] {
      assert loc + more == more;
    } else {
      assert (loc + more)[0] == loc[0] && (loc + more)[1..] == loc[1..] + more;
      match Child(v, loc[0])
      case None =>
      case Some(c) => LookupAppend(c, loc[1..], more);
    }
  }

  /** A store lands where it was aimed. */
  lemma {:induction false} PutThenLookup(v: Value, loc: Loc, x: Value)
    requires Lookup(v, loc).Some?
    ensures Lookup(Put(v, loc, x), loc) == Some(x)
    decreases |loc|
  {
    if loc != [] {
      var c := Child(v, loc[0]).value;
      PutThenLookup(c, loc[1..], x);
    }
  }

  /** A store leaves every location apart from its target unchanged. */
  lemma {:induction false} PutKeepsApart(v: Value, s: Loc, t: Loc, x: Value)
    requires Apart(s, t)
    ensures Lookup(Put(v, s, x), t) == Lookup(v, t)
    decreases |s|
  {
    assert s != [] && t != [];
    match Child(v, s[0])
    case None =>
    case Some(c) =>
      if s[0] == t[0] {
        PutKeepsApart(c, s[1..], t[1..], x);
      }
  }

  /** Locations that differ at a common position are apart. */
  lemma ApartAt(s: Loc, t: Loc, k: nat)
    requires k < |s| && k < |t| && s[k] != t[k]
    ensures Apart(s, t)
  {
  }

  lemma {:induction false} SameRefl(a: Value)
    ensures Same(a, a)
  {
    match a
    case Struct(f) =>
      forall k | k in f ensures Same(f[k], f[k]) { SameRefl(f[k]); }
    case Ptr(Some(x)) => SameRefl(x);
    case Iface(Some(x)) => SameRefl(x);
    case Slice(xs) =>
      forall i | 0 <= i < |xs| ensures Same(xs[i], xs[i]) { SameRefl(xs[i]); }
    case _ =>
  }

  lemma {:induction false} SameTrans(a: Value, b: Value, c: Value)
    requires Same(a, b) && Same(b, c)
    ensures Same(a, c)
  {
    match (a, b, c)
    case (Struct(f), Struct(g), Struct(h)) =>
      forall k | k in f ensures Same(f[k], h[k]) { SameTrans(f[k], g[k], h[k]); }
    case (Ptr(Some(x)), Ptr(Some(y)), Ptr(Some(z))) => SameTrans(x, y, z);
    case (Iface(Some(x)), Iface(Some(y)), Iface(Some(z))) => SameTrans(x, y, z);
    case (Slice(xs), Slice(ys), Slice(zs)) =>
      forall i | 0 <= i < |xs| ensures Same(xs[i], zs[i]) { SameTrans(xs[i], ys[i], zs[i]); }
    case _ =>
  }

  /** Graphs with the same skeleton have the same locations, and the nodes
      found there again have the same skeleton. */
  lemma {:induction false} SameLookup(a: Value, b: Value, loc: Loc)
    requires Same(a, b)
    ensures Lookup(a, loc).Some? <==> Lookup(b, loc).Some?
    ensures Lookup(a, loc).Some? ==> Same(Lookup(a, loc).value, Lookup(b, loc).value)
    decreases |loc|
  {
    if loc != [] {
      match Child(a, loc[0])
      case None =>
        assert Child(b, loc[0]).None?;
      case Some(x) =>
        var y := Child(b, loc[0]).value;
        SameLookup(x, y, loc[1..]);
    }
  }

  /** Overwriting a primitive leaf with a primitive keeps the skeleton. */
  lemma {:induction false} PutPrimKeepsSame(v: Value, loc: Loc, p: Scalar)
    requires Lookup(v, loc).Some? && Lookup(v, loc).value.Prim?
    ensures Same(v, Put(v, loc, Prim(p)))
    decreases |loc|
  {
    if loc == [] {
    } else {
      var c := Child(v, loc[0]).value;
      PutPrimKeepsSame(c, loc[1..], p);
      var c' := Put(c, loc[1..], Prim(p));
      match v
      case Struct(f) =>
        var n := loc[0].name;
        forall k | k in f ensures Same(f[k], f[n := c'][k]) {
          if k == n { } else { SameRefl(f[k]); }
        }
      case Slice(es) =>
        var j := loc[0].i;
        forall i | 0 <= i < |es| ensures Same(es[i], es[j := c'][i]) {
          if i == j { } else { SameRefl(es[i]); }
        }
      case _ =>
    }
  }
}

/** Field handles and what the visitor receives for them: `fieldValueAny`,
    `fieldValueInt` and `fieldValueUint` of each.go. */
module Leaf {
  import opened Results
  import opened Values

  /** A reflect.Value standing for a field or slice element: what it holds,
      where it lives, whether it is addressable (CanAddr) and whether it was
      reached through an unexported field (the read-only flag). */
  datatype Handle = Handle(current: Value, slot: Loc, addressable: bool, readOnly: bool)

  /** CanSet: only an addressable handle not derived from an unexported field can be written. */
  predicate Settable(h: Handle) {
    h.addressable && !h.readOnly
  }

  /** The dynamic value handed to the visitor: the untyped nil, a scalar of
      its own kind, a reflect.Value addressing a composite, or a boxed copy. */
  datatype Surfaced = Nil | Plain(s: Scalar) | Ref(at: Loc) | Boxed(v: Value)

  /** `int8(n)`, `int16(n)`, ...: two's complement truncation to the width. */
  function Signed(w: IntWidth, n: int): (r: int)
    ensures Representable(Int(w, r))
    ensures -(Modulus(w) / 2) <= n < Modulus(w) / 2 ==> r == n
  {
    var m := Modulus(w);
    var low := n % m;
    if low >= m / 2 then low - m else low
  }

  /** `uint8(n)`, `uint16(n)`, ...: truncation to the width. */
  function Unsigned(w: IntWidth, n: nat): (r: nat)
    ensures Representable(Uint(w, r))
    ensures n < Modulus(w) ==> r == n
  {
    n % Modulus(w)
  }

  /** The numeric and string arms of `fieldValueAny`: `fv.Int()` or
      `fv.Uint()` converted back to the field's own width; floats, complex
      numbers and strings as stored. */
  function ScalarLeaf(s: Scalar): (r: Scalar)
    ensures KindOf(r) == KindOf(s) && Representable(r)
    ensures Representable(s) ==> r == s
  {
    match s
    case Int(w, i) => Int(w, Signed(w, i))
    case Uint(w, u) => Uint(w, Unsigned(w, u))
    case _ => s
  }

  /** reflect.Indirect: the pointee of a pointer (nothing for nil), any other value itself. */
  function Indirect(v: Value): Option<Value> {
    match v
    case Ptr(p) => p
    case _ => Some(v)
  }

  /** `Interface()` on a value: a value of interface type yields the value
      boxed in it, a nil interface the untyped nil; any other value itself. */
  function Opened(v: Value): Value {
    match v
    case Iface(Some(x)) => x
    case _ => v
  }

  /** `fieldValueAny`: dereference one pointer level, surface numeric and
      string kinds as plain scalars, and anything else (booleans included)
      as its address when addressable, as what `Interface()` yields when it
      may be exported, else as nil. */
  function Surface(h: Handle): (r: Surfaced)
    ensures Indirect(h.current).None? ==> r == Nil
    ensures Indirect(h.current).Some? && Indirect(h.current).value.Prim?
              && !Indirect(h.current).value.scalar.Bool?
            ==> r.Plain? && KindOf(r.s) == KindOf(Indirect(h.current).value.scalar)
                && (Representable(Indirect(h.current).value.scalar) ==> r.s == Indirect(h.current).value.scalar)
    ensures Indirect(h.current).Some? && !(Indirect(h.current).value.Prim? && !Indirect(h.current).value.scalar.Bool?)
            ==> var z := Indirect(h.current).value;
                && !r.Plain?
                && (r.Ref? <==> h.current.Ptr? || h.addressable)
                && (r.Ref? ==> r.at == if h.current.Ptr? then h.slot + [Deref] else h.slot)
                && (r.Boxed? <==> !h.current.Ptr? && !h.addressable && !h.readOnly && z != Iface(None))
                && (r.Boxed? ==> r.v == Opened(z))
    ensures r.Plain? ==> !r.s.Bool?
  {
    match h.current
    case Ptr(None) => Nil
    case Ptr(Some(z)) => Classify(z, h.slot + [Deref], true, h.readOnly)
    case _ => Classify(h.current, h.slot, h.addressable, h.readOnly)
  }

  function Classify(z: Value, at: Loc, addressable: bool, readOnly: bool): Surfaced {
    if z.Prim? && !z.scalar.Bool? then Plain(ScalarLeaf(z.scalar))
    else if addressable then Ref(at)
    else if readOnly then Nil
    else match z
      case Iface(None) => Nil
      case Iface(Some(y)) => Boxed(y)
      case _ => Boxed(z)
  }
}

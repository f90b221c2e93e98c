/** The path-driven visitor of each.go. `Visits` and `WalkFrom` are the
    specification: the ordered list of visitor calls one walk makes (the
    leaf value, the owner, the field handle); the methods `Each` and
    `EachFrom` are the walk itself, proved to make exactly those calls. */
module Engine {
  import opened Results
  import opened Values
  import opened Leaf

  /** One segment of a compiled path as the walk consumes it:
      `name`, `name[index]`, `name[*]`. */
  datatype Segment =
    | Member(name: string)
    | Element(name: string, index: nat)
    | AllElements(name: string)

  /** One visitor call: the value `fn` receives and its PathInfo (the owner,
      and the field handle that Set writes through). */
  datatype Visit = Visit(leaf: Surfaced, owner: Loc, field: Handle)

  /** The pointee of the (non-nil) pointer the walk is standing on, with its location. */
  datatype Target = Target(node: Value, at: Loc)

  /** Go exports a field whose name starts with an upper-case letter. */
  predicate Exported(name: string) {
    |name| > 0 && 'A' <= name[0] <= 'Z'
  }

  /** `elem`: the pointee, with one interface box opened. A value taken out
      of an interface is not addressable. */
  function Elem(t: Target): (h: Handle)
    ensures !h.readOnly
    ensures h.current == t.node || t.node == Iface(Some(h.current))
    ensures t.node.Iface? && t.node.held.Some?
            ==> h.slot == t.at + [Unbox] && Child(t.node, Unbox) == Some(h.current) && !h.addressable
    ensures !(t.node.Iface? && t.node.held.Some?) ==> h.current == t.node && h.slot == t.at && h.addressable
  {
    match t.node
    case Iface(Some(x)) => Handle(x, t.at + [Unbox], false, false)
    case _ => Handle(t.node, t.at, true, false)
  }

  function FieldOf(c: Handle, name: string): Handle
    requires c.current.Struct? && name in c.current.fields
  {
    Handle(c.current.fields[name], c.slot + [Field(name)], c.addressable, c.readOnly || !Exported(name))
  }

  /** `fv.Index(i)`: slice elements are addressable whatever holds the slice. */
  function ElementOf(fv: Handle, i: nat): Handle
    requires fv.current.Slice? && i < |fv.current.elems|
  {
    Handle(fv.current.elems[i], fv.slot + [Index(i)], true, fv.readOnly)
  }

  /** What a non-wildcard segment selects in the field it named. */
  function Pick(fv: Handle, seg: Segment): Result<Option<Handle>, Fault>
    requires !seg.AllElements?
  {
    match seg
    case Member(_) => Ok(Some(fv))
    case Element(_, i) =>
      if !fv.current.Slice? then Err(NotSlice)
      else if i >= |fv.current.elems| then Ok(None)
      else Ok(Some(ElementOf(fv, i)))
  }

  /** The next target below a non-terminal field: a pointer is followed (nil
      ends the branch), any other value is taken by address. The next level
      calls `Interface()` on it, which panics for a read-only handle. */
  function Next(h: Handle): Result<Option<Target>, Fault> {
    match h.current
    case Ptr(None) => Ok(None)
    case Ptr(Some(z)) => if h.readOnly then Err(ReadOnly) else Ok(Some(Target(z, h.slot + [Deref])))
    case _ =>
      if !h.addressable then Err(NotAddressable)
      else if h.readOnly then Err(ReadOnly)
      else Ok(Some(Target(h.current, h.slot)))
  }

  function Rank(segs: seq<Segment>): nat {
    if segs == [] then 0 else if segs[0].AllElements? then 3 else 1
  }

  /** The visitor calls of `each` from target `t` along `segs`, in order. */
  function WalkFrom(t: Target, segs: seq<Segment>): Result<seq<Visit>, Fault>
    decreases |segs|, Rank(segs), 0
  {
    if segs == [] then Ok([])
    else
      var c := Elem(t);
      if !c.current.Struct? then Err(NotStruct)
      else if segs[0].name !in c.current.fields then Ok([])
      else
        var fv := FieldOf(c, segs[0].name);
        if segs[0].AllElements? then
          if !fv.current.Slice? then Err(NotSlice)
          else FanOut(t, segs[0].name, segs[1..], |fv.current.elems|)
        else
          match Pick(fv, segs[0])
          case Err(e) => Err(e)
          case Ok(None) => Ok([])
          case Ok(Some(h)) =>
            if |segs| == 1 then Ok([Visit(Surface(h), t.at, h)])
            else match Next(h)
              case Err(e) => Err(e)
              case Ok(None) => Ok([])
              case Ok(Some(n)) => WalkFrom(n, segs[1..])
  }

  /** Wildcard expansion: the walks for `name[0]`, ..., `name[count-1]`
      followed by `rest`, from the same target, concatenated in index
      order; the first fault stops the expansion. */
  function FanOut(t: Target, name: string, rest: seq<Segment>, count: nat): Result<seq<Visit>, Fault>
    decreases |rest| + 1, 2, count
  {
    if count == 0 then Ok([])
    else match FanOut(t, name, rest, count - 1)
      case Err(e) => Err(e)
      case Ok(before) =>
        match WalkFrom(t, [Element(name, count - 1)] + rest)
        case Err(e) => Err(e)
        case Ok(after) => Ok(before + after)
  }

  /** The visitor calls of `Each(root, path, fn)`: the root must be a
      pointer; a nil root, like an empty path, gives no calls. */
  function Visits(root: Value, segs: seq<Segment>): Result<seq<Visit>, Fault> {
    if segs == [] then Ok([])
    else match root
      case Ptr(None) => Ok([])
      case Ptr(Some(x)) => WalkFrom(Target(x, [Deref]), segs)
      case _ => Err(NotWalkable)
  }

  /** Once one expansion faults, every longer expansion faults the same way. */
  lemma {:induction false} FanOutFaultPersists(t: Target, name: string, rest: seq<Segment>, j: nat, n: nat)
    requires j <= n && FanOut(t, name, rest, j).Err?
    ensures FanOut(t, name, rest, n) == FanOut(t, name, rest, j)
    decreases n
  {
    if j < n {
      FanOutFaultPersists(t, name, rest, j, n - 1);
    }
  }

  /** `each`: resolve the first segment against the target's struct, fan a
      wildcard out into one fixed-index walk per element, call the visitor
      on the last segment, or descend into the field. */
  method EachFrom(t: Target, segs: seq<Segment>) returns (r: Result<seq<Visit>, Fault>)
    ensures r == WalkFrom(t, segs)
    decreases |segs|, Rank(segs)
  {
    if segs == [] {
      return Ok([]);
    }
    var owner := t.at;
    var c := Elem(t);
    if !c.current.Struct? {
      return Err(NotStruct);
    }
    var current := segs[0];
    if current.name !in c.current.fields {
      return Ok([]);
    }
    var fv := FieldOf(c, current.name);
    match current {
      case AllElements(name) =>
        if !fv.current.Slice? {
          return Err(NotSlice);
        }
        var visits := [];
        var i := 0;
        while i < |fv.current.elems|
          invariant i <= |fv.current.elems|
          invariant FanOut(t, name, segs[1..], i) == Ok(visits)
        {
          var sub := EachFrom(t, [Element(name, i)] + segs[1..]);
          if sub.Err? {
            FanOutFaultPersists(t, name, segs[1..], i + 1, |fv.current.elems|);
            return sub;
          }
          visits := visits + sub.value;
          i := i + 1;
        }
        return Ok(visits);
      case Element(_, index) =>
        if !fv.current.Slice? {
          return Err(NotSlice);
        }
        if index >= |fv.current.elems| {
          return Ok([]);
        }
        fv := ElementOf(fv, index);
      case Member(_) =>
    }
    if |segs| == 1 {
      return Ok([Visit(Surface(fv), owner, fv)]);
    }
    var next: Target;
    match fv.current {
      case Ptr(None) =>
        return Ok([]);
      case Ptr(Some(z)) =>
        next := Target(z, fv.slot + [Deref]);
      case _ =>
        if !fv.addressable {
          return Err(NotAddressable);
        }
        next := Target(fv.current, fv.slot);
    }
    if fv.readOnly {
      return Err(ReadOnly);
    }
    r := EachFrom(next, segs[1..]);
  }

  /** `Each`: the walk from the root pointer. */
  method Each(root: Value, segs: seq<Segment>) returns (r: Result<seq<Visit>, Fault>)
    ensures r == Visits(root, segs)
  {
    if segs == [] {
      return Ok([]);
    }
    match root {
      case Ptr(None) =>
        return Ok([]);
      case Ptr(Some(x)) =>
        r := EachFrom(Target(x, [Deref]), segs);
      case _ =>
        return Err(NotWalkable);
    }
  }
}

/** What the walk of each.go guarantees: how many visits a path can make,
    in which order, with which owner, and that every field handle it hands
    out addresses a distinct leaf of the graph. */
module EngineFacts {
  import opened Results
  import opened Values
  import opened Leaf
  import opened Engine

  predicate NoWildcard(segs: seq<Segment>) {
    forall k :: 0 <= k < |segs| ==> !segs[k].AllElements?
  }

  /** The location of the field a segment names, in the struct behind `t`. */
  function FieldSlot(t: Target, name: string): Loc {
    Elem(t).slot + [Field(name)]
  }

  /** The location a segment selects: the field, or the element of it. */
  function SegmentSlot(t: Target, seg: Segment): Loc {
    match seg
    case Element(n, i) => FieldSlot(t, n) + [Index(i)]
    case _ => FieldSlot(t, seg.name)
  }

  /** The steps from an owner to the leaf its last segment selects. */
  predicate Hop(tail: Loc, last: Segment) {
    match last
    case Member(n) => tail == [Field(n)]
    case Element(n, i) => tail == [Field(n), Index(i)]
    case AllElements(n) => |tail| == 2 && tail[0] == Field(n) && tail[1].Index?
  }

  /** The owner of a visit is the container in which the last field was
      looked up: the leaf is one field (and element) step below it, or below
      the value held in the interface it points to. */
  predicate Immediate(w: Visit, last: Segment) {
    var slot := w.field.slot;
    w.owner <= slot
    && (Hop(slot[|w.owner|..], last)
        || (|slot| > |w.owner| && slot[|w.owner|] == Unbox && Hop(slot[|w.owner| + 1..], last)))
  }

  /** A visit whose handle really addresses its field inside `root`, whose
      value is what `fieldValueAny` makes of that field, and whose owner is
      the immediate container. */
  predicate Sound(root: Value, w: Visit, last: Segment) {
    && Lookup(root, w.field.slot) == Some(w.field.current)
    && Lookup(root, w.owner).Some?
    && w.leaf == Surface(w.field)
    && Immediate(w, last)
  }

  /** Two visits of graphs with the same skeleton that differ at most in the
      leaf they read. */
  predicate Corresponds(a: Visit, b: Visit) {
    && a.owner == b.owner
    && a.field.slot == b.field.slot
    && a.field.addressable == b.field.addressable
    && a.field.readOnly == b.field.readOnly
    && Same(a.field.current, b.field.current)
  }

  // ---------------------------------------------------------------------
  // Visit count

  lemma {:induction false} WalkAtMostOnce(t: Target, segs: seq<Segment>)
    requires NoWildcard(segs) && WalkFrom(t, segs).Ok?
    ensures |WalkFrom(t, segs).value| <= 1
    decreases |segs|
  {
    if segs != [] {
      var c := Elem(t);
      if c.current.Struct? && segs[0].name in c.current.fields {
        var fv := FieldOf(c, segs[0].name);
        match Pick(fv, segs[0])
        case Ok(Some(h)) =>
          if |segs| > 1 {
            match Next(h)
            case Ok(Some(n)) =>
              assert NoWildcard(segs[1..]) by {
                forall k | 0 <= k < |segs[1..]| ensures !segs[1..][k].AllElements? {
                  assert segs[1..][k] == segs[k + 1];
                }
              }
              WalkAtMostOnce(n, segs[1..]);
            case _ =>
          }
        case _ =>
      }
    }
  }

  /** Without a wildcard segment the visitor fires at most once. */
  lemma EachAtMostOnce(root: Value, segs: seq<Segment>)
    requires NoWildcard(segs) && Visits(root, segs).Ok?
    ensures |Visits(root, segs).value| <= 1
  {
    if segs != [] && root.Ptr? && root.to.Some? {
      WalkAtMostOnce(Target(root.to.value, [Deref]), segs);
    }
  }

  /** The visit the walk makes for element i of the slice handle `fv`. */
  function ElementVisit(t: Target, fv: Handle, i: nat): Visit
    requires fv.current.Slice? && i < |fv.current.elems|
  {
    Visit(Surface(ElementOf(fv, i)), t.at, ElementOf(fv, i))
  }

  /** A wildcard as the last segment over a slice of n elements makes
      exactly n visits, the i-th for element i, all with the same owner. */
  lemma WildcardVisitsEveryElement(t: Target, name: string)
    requires Elem(t).current.Struct? && name in Elem(t).current.fields
    requires FieldOf(Elem(t), name).current.Slice?
    ensures var fv := FieldOf(Elem(t), name);
            var n := |fv.current.elems|;
            && WalkFrom(t, [AllElements(name)]).Ok?
            && |WalkFrom(t, [AllElements(name)]).value| == n
            && forall i | 0 <= i < n :: WalkFrom(t, [AllElements(name)]).value[i] == ElementVisit(t, fv, i)
  {
    var fv := FieldOf(Elem(t), name);
    assert [AllElements(name)][1..] == [];
    FanOutOverElements(t, name, fv, |fv.current.elems|);
  }

  lemma {:induction false} FanOutOverElements(t: Target, name: string, fv: Handle, count: nat)
    requires Elem(t).current.Struct? && name in Elem(t).current.fields
    requires fv == FieldOf(Elem(t), name) && fv.current.Slice? && count <= |fv.current.elems|
    ensures FanOut(t, name, [], count).Ok? && |FanOut(t, name, [], count).value| == count
    ensures forall i | 0 <= i < count :: FanOut(t, name, [], count).value[i] == ElementVisit(t, fv, i)
    decreases count
  {
    if count > 0 {
      FanOutOverElements(t, name, fv, count - 1);
      assert [Element(name, count - 1)] + [] == [Element(name, count - 1)];
      assert WalkFrom(t, [Element(name, count - 1)]) == Ok([ElementVisit(t, fv, count - 1)]);
    }
  }

  /** The silent misses of one step: a missing field, an index at or beyond
      the slice length and a nil pointer in the middle of the path end the
      branch with no visit and no fault; an index in range continues with
      exactly that element: as the last segment it is visited, otherwise
      the walk goes on from it (through it when it is a pointer), unless it
      was reached through an unexported field. */
  lemma SilentMisses(t: Target, seg: Segment, rest: seq<Segment>)
    requires Elem(t).current.Struct?
    ensures seg.name !in Elem(t).current.fields ==> WalkFrom(t, [seg] + rest) == Ok([])
    ensures seg.name in Elem(t).current.fields && seg.Element? && FieldOf(Elem(t), seg.name).current.Slice?
              && seg.index >= |FieldOf(Elem(t), seg.name).current.elems|
            ==> WalkFrom(t, [seg] + rest) == Ok([])
    ensures seg.name in Elem(t).current.fields && seg.Element? && FieldOf(Elem(t), seg.name).current.Slice?
              && seg.index < |FieldOf(Elem(t), seg.name).current.elems|
            ==> var e := ElementOf(FieldOf(Elem(t), seg.name), seg.index);
                && e.readOnly == !Exported(seg.name)
                && (rest == [] ==> WalkFrom(t, [seg] + rest) == Ok([Visit(Surface(e), t.at, e)]))
                && (rest != [] && e.current == Ptr(None) ==> WalkFrom(t, [seg] + rest) == Ok([]))
                && (rest != [] && e.current != Ptr(None) && e.readOnly ==> WalkFrom(t, [seg] + rest) == Err(ReadOnly))
                && (rest != [] && e.current.Ptr? && e.current.to.Some? && !e.readOnly
                    ==> WalkFrom(t, [seg] + rest) == WalkFrom(Target(e.current.to.value, e.slot + [Deref]), rest))
                && (rest != [] && !e.current.Ptr? && !e.readOnly
                    ==> WalkFrom(t, [seg] + rest) == WalkFrom(Target(e.current, e.slot), rest))
    ensures seg.name in Elem(t).current.fields && seg.Member? && rest != []
              && FieldOf(Elem(t), seg.name).current == Ptr(None)
            ==> WalkFrom(t, [seg] + rest) == Ok([])
  {
    assert ([seg] + rest)[0] == seg && ([seg] + rest)[1..] == rest;
  }

  /** `elem` opens at most one interface box, at the location it was found. */
  lemma ElemResolves(root: Value, t: Target)
    requires Lookup(root, t.at) == Some(t.node)
    ensures Lookup(root, Elem(t).slot) == Some(Elem(t).current)
  {
    LookupSnoc(root, t.at, Unbox);
  }

  // ---------------------------------------------------------------------
  // Soundness of the visits

  /** The handle a non-wildcard segment picks really sits at its location,
      one field (and element) step below the struct behind the target. */
  lemma PickResolves(root: Value, t: Target, seg: Segment, h: Handle)
    requires Lookup(root, t.at) == Some(t.node)
    requires Elem(t).current.Struct? && seg.name in Elem(t).current.fields && !seg.AllElements?
    requires Pick(FieldOf(Elem(t), seg.name), seg) == Ok(Some(h))
    ensures Lookup(root, h.slot) == Some(h.current)
    ensures h.slot == SegmentSlot(t, seg)
    ensures Lookup(root, Elem(t).slot) == Some(Elem(t).current)
    ensures Elem(t).slot == t.at || Elem(t).slot == t.at + [Unbox]
  {
    var c := Elem(t);
    var fv := FieldOf(c, seg.name);
    ElemResolves(root, t);
    LookupSnoc(root, c.slot, Field(seg.name));
    if seg.Element? {
      LookupSnoc(root, fv.slot, Index(seg.index));
    }
  }

  lemma TerminalSound(root: Value, t: Target, seg: Segment, h: Handle)
    requires Lookup(root, t.at) == Some(t.node)
    requires Elem(t).current.Struct? && seg.name in Elem(t).current.fields && !seg.AllElements?
    requires Pick(FieldOf(Elem(t), seg.name), seg) == Ok(Some(h))
    ensures Sound(root, Visit(Surface(h), t.at, h), seg)
  {
    PickResolves(root, t, seg, h);
    var hop := [Field(seg.name)] + (if seg.Element? then [Index(seg.index)] else []);
    assert Hop(hop, seg);
    if Elem(t).slot == t.at {
      assert h.slot == t.at + hop;
      assert h.slot[|t.at|..] == hop;
    } else {
      assert h.slot == t.at + ([Unbox] + hop);
      assert h.slot[|t.at|..] == [Unbox] + hop;
      assert h.slot[|t.at| + 1..] == hop;
    }
  }

  lemma DescentKeepsTarget(root: Value, h: Handle, n: Target)
    requires Lookup(root, h.slot) == Some(h.current) && Next(h) == Ok(Some(n))
    ensures Lookup(root, n.at) == Some(n.node)
  {
    LookupSnoc(root, h.slot, Deref);
  }

  lemma {:induction false} WalkSound(root: Value, t: Target, segs: seq<Segment>)
    requires Lookup(root, t.at) == Some(t.node) && segs != [] && WalkFrom(t, segs).Ok?
    ensures forall w | w in WalkFrom(t, segs).value :: Sound(root, w, segs[|segs| - 1])
    decreases |segs|, Rank(segs), 0
  {
    var c := Elem(t);
    if c.current.Struct? && segs[0].name in c.current.fields {
      var fv := FieldOf(c, segs[0].name);
      if segs[0].AllElements? {
        FanOutSound(root, t, segs[0].name, segs[1..], |fv.current.elems|);
      } else {
        match Pick(fv, segs[0])
        case Ok(Some(h)) =>
          if |segs| == 1 {
            TerminalSound(root, t, segs[0], h);
          } else {
            match Next(h)
            case Ok(Some(n)) =>
              PickResolves(root, t, segs[0], h);
              DescentKeepsTarget(root, h, n);
              WalkSound(root, n, segs[1..]);
              assert segs[1..][|segs[1..]| - 1] == segs[|segs| - 1];
            case _ =>
          }
        case _ =>
      }
    }
  }

  lemma {:induction false} FanOutSound(root: Value, t: Target, name: string, rest: seq<Segment>, count: nat)
    requires Lookup(root, t.at) == Some(t.node) && FanOut(t, name, rest, count).Ok?
    ensures forall w | w in FanOut(t, name, rest, count).value
              :: Sound(root, w, if rest == [] then AllElements(name) else rest[|rest| - 1])
    decreases |rest| + 1, 2, count
  {
    if count > 0 {
      FanOutSound(root, t, name, rest, count - 1);
      var segs := [Element(name, count - 1)] + rest;
      WalkSound(root, t, segs);
      assert segs[|segs| - 1] == if rest == [] then Element(name, count - 1) else rest[|rest| - 1];
    }
  }

  /** Every visit of `Each` hands the visitor `fieldValueAny` of a field that
      is really at the handle's location in the root, with the container in
      which the last field was looked up as owner. */
  lemma EachVisitsAreSound(root: Value, segs: seq<Segment>)
    requires Visits(root, segs).Ok?
    ensures forall w | w in Visits(root, segs).value :: Sound(root, w, segs[|segs| - 1])
  {
    if segs != [] && root.Ptr? && root.to.Some? {
      WalkSound(root, Target(root.to.value, [Deref]), segs);
    }
  }

  // ---------------------------------------------------------------------
  // Disjoint handles

  lemma PrefixTrans(a: Loc, b: Loc, c: Loc)
    requires a <= b && b <= c
    ensures a <= c
  {
    assert c[..|a|] == c[..|b|][..|a|];
  }

  lemma {:induction false} WalkSlots(t: Target, segs: seq<Segment>)
    requires segs != [] && WalkFrom(t, segs).Ok?
    ensures forall w | w in WalkFrom(t, segs).value :: SegmentSlot(t, segs[0]) <= w.field.slot
    ensures var vs := WalkFrom(t, segs).value;
            forall i, j | 0 <= i < j < |vs| :: Apart(vs[i].field.slot, vs[j].field.slot)
    decreases |segs|, Rank(segs), 0
  {
    var c := Elem(t);
    if c.current.Struct? && segs[0].name in c.current.fields {
      var fv := FieldOf(c, segs[0].name);
      if segs[0].AllElements? {
        FanOutSlots(t, segs[0].name, segs[1..], |fv.current.elems|);
      } else {
        match Pick(fv, segs[0])
        case Ok(Some(h)) =>
          assert h.slot == SegmentSlot(t, segs[0]);
          if |segs| > 1 {
            match Next(h)
            case Ok(Some(n)) =>
              WalkSlots(n, segs[1..]);
              forall w | w in WalkFrom(n, segs[1..]).value ensures h.slot <= w.field.slot {
                assert h.slot <= n.at;
                assert n.at <= SegmentSlot(n, segs[1]);
                PrefixTrans(n.at, SegmentSlot(n, segs[1]), w.field.slot);
                PrefixTrans(h.slot, n.at, w.field.slot);
              }
            case _ =>
          }
        case _ =>
      }
    }
  }

  lemma {:induction false} FanOutSlots(t: Target, name: string, rest: seq<Segment>, count: nat)
    requires FanOut(t, name, rest, count).Ok?
    ensures var p := FieldSlot(t, name);
            forall w | w in FanOut(t, name, rest, count).value
              :: p <= w.field.slot && |w.field.slot| > |p| && w.field.slot[|p|].Index? && w.field.slot[|p|].i < count
    ensures var vs := FanOut(t, name, rest, count).value;
            var p := FieldSlot(t, name);
            forall i, j | 0 <= i < j < |vs|
              :: Apart(vs[i].field.slot, vs[j].field.slot) && vs[i].field.slot[|p|].i <= vs[j].field.slot[|p|].i
    decreases |rest| + 1, 2, count
  {
    if count > 0 {
      var p := FieldSlot(t, name);
      FanOutSlots(t, name, rest, count - 1);
      var segs := [Element(name, count - 1)] + rest;
      WalkSlots(t, segs);
      var before := FanOut(t, name, rest, count - 1).value;
      var after := WalkFrom(t, segs).value;
      var vs := before + after;
      assert FanOut(t, name, rest, count).value == vs;
      forall w | w in after
        ensures p <= w.field.slot && |w.field.slot| > |p| && w.field.slot[|p|] == Index(count - 1)
      {
        assert SegmentSlot(t, segs[0]) == p + [Index(count - 1)];
        PrefixTrans(p, p + [Index(count - 1)], w.field.slot);
        assert w.field.slot[|p|] == (p + [Index(count - 1)])[|p|];
      }
      forall i, j | 0 <= i < j < |vs|
        ensures Apart(vs[i].field.slot, vs[j].field.slot) && vs[i].field.slot[|p|].i <= vs[j].field.slot[|p|].i
      {
        if j < |before| {
          assert vs[i] == before[i] && vs[j] == before[j];
        } else if i >= |before| {
          assert vs[i] == after[i - |before|] && vs[j] == after[j - |before|];
        } else {
          assert vs[i] == before[i] && vs[j] == after[j - |before|];
          assert vs[i] in before && vs[j] in after;
          ApartAt(vs[i].field.slot, vs[j].field.slot, |p|);
        }
      }
    }
  }

  /** The field handles of one walk address pairwise disjoint parts of the
      graph, so writing through one never changes what another addresses. */
  lemma EachHandlesAreApart(root: Value, segs: seq<Segment>)
    requires Visits(root, segs).Ok?
    ensures var vs := Visits(root, segs).value;
            forall i, j | 0 <= i < j < |vs| :: Apart(vs[i].field.slot, vs[j].field.slot)
  {
    if segs != [] && root.Ptr? && root.to.Some? {
      WalkSlots(Target(root.to.value, [Deref]), segs);
    }
  }

  /** A wildcard walk visits the elements of the expanded slice in
      ascending index order: all visits below element i come before all
      visits below element j whenever i < j. */
  lemma WildcardInIndexOrder(t: Target, name: string, rest: seq<Segment>)
    requires WalkFrom(t, [AllElements(name)] + rest).Ok?
    ensures var vs := WalkFrom(t, [AllElements(name)] + rest).value;
            var p := FieldSlot(t, name);
            && (forall w | w in vs :: p <= w.field.slot && |w.field.slot| > |p| && w.field.slot[|p|].Index?)
            && (forall i, j | 0 <= i < j < |vs| :: vs[i].field.slot[|p|].i <= vs[j].field.slot[|p|].i)
  {
    var segs := [AllElements(name)] + rest;
    assert segs[1..] == rest;
    var c := Elem(t);
    if c.current.Struct? && name in c.current.fields {
      var fv := FieldOf(c, name);
      if fv.current.Slice? {
        FanOutSlots(t, name, rest, |fv.current.elems|);
      }
    }
  }

  // ---------------------------------------------------------------------
  // Same skeleton, same walk

  /** Two handles at the same place with the same flags over graphs of the same skeleton. */
  predicate Alike(h: Handle, k: Handle) {
    h.slot == k.slot && h.addressable == k.addressable && h.readOnly == k.readOnly && Same(h.current, k.current)
  }

  lemma ElemAlike(t: Target, u: Target)
    requires t.at == u.at && Same(t.node, u.node)
    ensures Alike(Elem(t), Elem(u))
  {
  }

  lemma FieldAlike(c: Handle, d: Handle, name: string)
    requires Alike(c, d) && c.current.Struct? && name in c.current.fields
    ensures d.current.Struct? && name in d.current.fields
    ensures Alike(FieldOf(c, name), FieldOf(d, name))
  {
  }

  lemma PickAlike(fv: Handle, gv: Handle, seg: Segment)
    requires Alike(fv, gv) && !seg.AllElements?
    ensures Pick(fv, seg).Err? ==> Pick(gv, seg) == Pick(fv, seg)
    ensures Pick(fv, seg).Err? <==> Pick(gv, seg).Err?
    ensures Pick(fv, seg).Ok? ==> (Pick(fv, seg).value.Some? <==> Pick(gv, seg).value.Some?)
    ensures Pick(fv, seg).Ok? && Pick(fv, seg).value.Some? ==> Alike(Pick(fv, seg).value.value, Pick(gv, seg).value.value)
  {
  }

  lemma NextAlike(h: Handle, k: Handle)
    requires Alike(h, k)
    ensures Next(h).Err? ==> Next(k) == Next(h)
    ensures Next(h).Err? <==> Next(k).Err?
    ensures Next(h).Ok? ==> (Next(h).value.Some? <==> Next(k).value.Some?)
    ensures Next(h).Ok? && Next(h).value.Some? ==>
              Next(h).value.value.at == Next(k).value.value.at && Same(Next(h).value.value.node, Next(k).value.value.node)
  {
  }

  lemma {:induction false} WalkFrame(t: Target, u: Target, segs: seq<Segment>)
    requires t.at == u.at && Same(t.node, u.node)
    ensures WalkFrom(t, segs).Ok? <==> WalkFrom(u, segs).Ok?
    ensures WalkFrom(t, segs).Err? ==> WalkFrom(u, segs) == WalkFrom(t, segs)
    ensures WalkFrom(t, segs).Ok? ==>
              var a := WalkFrom(t, segs).value;
              var b := WalkFrom(u, segs).value;
              |a| == |b| && forall i | 0 <= i < |a| :: Corresponds(a[i], b[i])
    decreases |segs|, Rank(segs), 0
  {
    if segs != [] {
      var c, d := Elem(t), Elem(u);
      ElemAlike(t, u);
      var name := segs[0].name;
      if c.current.Struct? && name in c.current.fields {
        FieldAlike(c, d, name);
        var fv, gv := FieldOf(c, name), FieldOf(d, name);
        if segs[0].AllElements? {
          if fv.current.Slice? {
            FanOutFrame(t, u, name, segs[1..], |fv.current.elems|);
          }
        } else {
          PickAlike(fv, gv, segs[0]);
          match Pick(fv, segs[0])
          case Ok(Some(h)) =>
            var k := Pick(gv, segs[0]).value.value;
            if |segs| > 1 {
              NextAlike(h, k);
              match Next(h)
              case Ok(Some(n)) =>
                var m := Next(k).value.value;
                WalkFrame(n, m, segs[1..]);
              case _ =>
            }
          case _ =>
        }
      }
    }
  }

  lemma {:induction false} FanOutFrame(t: Target, u: Target, name: string, rest: seq<Segment>, count: nat)
    requires t.at == u.at && Same(t.node, u.node)
    ensures FanOut(t, name, rest, count).Ok? <==> FanOut(u, name, rest, count).Ok?
    ensures FanOut(t, name, rest, count).Err? ==> FanOut(u, name, rest, count) == FanOut(t, name, rest, count)
    ensures FanOut(t, name, rest, count).Ok? ==>
              var a := FanOut(t, name, rest, count).value;
              var b := FanOut(u, name, rest, count).value;
              |a| == |b| && forall i | 0 <= i < |a| :: Corresponds(a[i], b[i])
    decreases |rest| + 1, 2, count
  {
    if count > 0 {
      FanOutFrame(t, u, name, rest, count - 1);
      WalkFrame(t, u, [Element(name, count - 1)] + rest);
    }
  }

  /** Graphs with the same skeleton are walked alike: the same faults, the
      same number of visits with the same owners and handle locations; only
      the leaves read may differ. */
  lemma EachDependsOnSkeletonOnly(r: Value, s: Value, segs: seq<Segment>)
    requires Same(r, s)
    ensures Visits(r, segs).Ok? <==> Visits(s, segs).Ok?
    ensures Visits(r, segs).Err? ==> Visits(s, segs) == Visits(r, segs)
    ensures Visits(r, segs).Ok? ==>
              var a := Visits(r, segs).value;
              var b := Visits(s, segs).value;
              |a| == |b| && forall i | 0 <= i < |a| :: Corresponds(a[i], b[i])
  {
    if segs != [] && r.Ptr? && r.to.Some? {
      WalkFrame(Target(r.to.value, [Deref]), Target(s.to.value, [Deref]), segs);
    }
  }
}

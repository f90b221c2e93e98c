/** `Set` and `SetFunc` of set.go: overwrite every visited leaf, in place,
    with `fn(current, pathInfo)`. The graph lives in a `Graph` object whose
    `root` field the methods update; `Written` is their specification. */
module Setter {
  import opened Results
  import opened Values
  import opened Leaf
  import opened Engine
  import opened EngineFacts

  /** The update function: the current value (already asserted to be a `T`)
      and the owner from PathInfo give the new value. */
  type Update = (Scalar, Loc) -> Scalar

  /** One visit `SetFunc[T]` can serve: `v.(T)` succeeds and the field
      handle is settable and holds the scalar itself, not a pointer to it. */
  predicate Writable(w: Visit, k: Kind) {
    w.leaf.Plain? && HasKind(w.leaf.s, k) && w.field.current.Prim? && Settable(w.field)
  }

  /** What `SetFunc[T](target, path, fn)` demands of its caller so as not to
      panic: a walk without fault, a `T` at every visit, a settable
      non-pointer field behind every visit; `fn` maps `T` to `T`. */
  ghost predicate CanSetAll(root: Value, segs: seq<Segment>, k: Kind, fn: Update) {
    && Visits(root, segs).Ok?
    && (forall s, o :: HasKind(s, k) ==> HasKind(fn(s, o), k))
    && forall j | 0 <= j < |Visits(root, segs).value| :: Writable(Visits(root, segs).value[j], k)
  }

  /** The value `fn` produces for one visit. */
  function NewValue(w: Visit, fn: Update): Scalar
    requires w.leaf.Plain?
  {
    fn(w.leaf.s, w.owner)
  }

  predicate AllPlain(vs: seq<Visit>) {
    forall j | 0 <= j < |vs| :: vs[j].leaf.Plain?
  }

  /** The graph after storing `fn`'s value through each visit's handle, in
      visiting order. */
  function Written(r: Value, vs: seq<Visit>, fn: Update): Value
    requires AllPlain(vs)
    decreases |vs|
  {
    if vs == [] then r
    else
      var w := vs[|vs| - 1];
      Put(Written(r, vs[..|vs| - 1], fn), w.field.slot, Prim(NewValue(w, fn)))
  }

  /** The visit the walk makes after the write: the same owner and handle,
      now holding and surfacing the new value. */
  function Rewritten(w: Visit, fn: Update): Visit
    requires w.leaf.Plain?
  {
    Visit(Plain(NewValue(w, fn)), w.owner, w.field.(current := Prim(NewValue(w, fn))))
  }

  class Graph {
    /** The object graph reached through the pointer passed as `target`. */
    var root: Value

    constructor (root: Value)
      ensures this.root == root
    {
      this.root := root;
    }

    /** `SetFunc`: walk, and at each visit store `fn(v, pathInfo)` through
        the visit's field handle. Afterwards the same path visits exactly the
        new values; every location apart from the visited fields is
        unchanged. */
    method SetFunc(segs: seq<Segment>, k: Kind, fn: Update)
      requires CanSetAll(root, segs, k, fn)
      modifies this
      ensures root == Written(old(root), Visits(old(root), segs).value, fn)
      ensures var vs := Visits(old(root), segs).value;
              && Visits(root, segs).Ok?
              && |Visits(root, segs).value| == |vs|
              && forall i | 0 <= i < |vs| :: Visits(root, segs).value[i] == Rewritten(vs[i], fn)
      ensures forall loc | (forall w | w in Visits(old(root), segs).value :: Apart(w.field.slot, loc))
                :: Lookup(root, loc) == Lookup(old(root), loc)
    {
      var visits := Each(root, segs);
      var vs := visits.value;
      var i := 0;
      while i < |vs|
        invariant i <= |vs|
        invariant AllPlain(vs)
        invariant root == Written(old(root), vs[..i], fn)
      {
        var w := vs[i];
        var newVal := fn(w.leaf.s, w.owner);
        root := Put(root, w.field.slot, Prim(newVal));
        assert vs[..i + 1][..i] == vs[..i];
        i := i + 1;
      }
      assert vs[..|vs|] == vs;
      SetFuncReadsBack(old(root), segs, k, fn);
      forall loc | (forall w | w in vs :: Apart(w.field.slot, loc))
        ensures Lookup(root, loc) == Lookup(old(root), loc)
      {
        WrittenElsewhere(old(root), vs, fn, loc);
      }
    }

    /** `Set`: `SetFunc` with a function that ignores the current value. */
    method Set(segs: seq<Segment>, v: Scalar)
      requires CanSetAll(root, segs, KindOf(v), (_, _) => v) && Representable(v)
      modifies this
      ensures root == Written(old(root), Visits(old(root), segs).value, (_, _) => v)
      ensures var n := |Visits(old(root), segs).value|;
              && Visits(root, segs).Ok?
              && |Visits(root, segs).value| == n
              && forall i | 0 <= i < n :: Visits(root, segs).value[i].leaf == Plain(v)
    {
      SetFunc(segs, KindOf(v), (_, _) => v);
    }
  }

  // -----------------------------------------------------------------------
  // The writes land, and land only, where the walk pointed

  /** Writes of primitives over primitive leaves keep the skeleton. */
  lemma {:induction false} WrittenKeepsSkeleton(root: Value, vs: seq<Visit>, fn: Update)
    requires AllPlain(vs)
    requires forall w | w in vs :: Lookup(root, w.field.slot).Some? && Lookup(root, w.field.slot).value.Prim?
    ensures Same(root, Written(root, vs, fn))
    decreases |vs|
  {
    if vs == [] {
      SameRefl(root);
    } else {
      var pre := vs[..|vs| - 1];
      var w := vs[|vs| - 1];
      WrittenKeepsSkeleton(root, pre, fn);
      var mid := Written(root, pre, fn);
      SameLookup(root, mid, w.field.slot);
      PutPrimKeepsSame(mid, w.field.slot, NewValue(w, fn));
      SameTrans(root, mid, Written(root, vs, fn));
    }
  }

  /** Each visited handle ends up holding the value `fn` produced for it:
      the handles are pairwise apart, so later writes never touch it. */
  lemma {:induction false} WrittenAt(root: Value, vs: seq<Visit>, fn: Update, i: nat)
    requires i < |vs|
    requires AllPlain(vs)
    requires forall w | w in vs :: Lookup(root, w.field.slot).Some? && Lookup(root, w.field.slot).value.Prim?
    requires forall a, b | 0 <= a < b < |vs| :: Apart(vs[a].field.slot, vs[b].field.slot)
    ensures Lookup(Written(root, vs, fn), vs[i].field.slot) == Some(Prim(NewValue(vs[i], fn)))
    decreases |vs|
  {
    var pre := vs[..|vs| - 1];
    var w := vs[|vs| - 1];
    var mid := Written(root, pre, fn);
    if i == |vs| - 1 {
      WrittenKeepsSkeleton(root, pre, fn);
      SameLookup(root, mid, w.field.slot);
      PutThenLookup(mid, w.field.slot, Prim(NewValue(w, fn)));
    } else {
      assert pre[i] == vs[i];
      WrittenAt(root, pre, fn, i);
      PutKeepsApart(mid, w.field.slot, vs[i].field.slot, Prim(NewValue(w, fn)));
    }
  }

  /** A location apart from every visited handle is not written. */
  lemma {:induction false} WrittenElsewhere(root: Value, vs: seq<Visit>, fn: Update, loc: Loc)
    requires AllPlain(vs)
    requires forall w | w in vs :: Apart(w.field.slot, loc)
    ensures Lookup(Written(root, vs, fn), loc) == Lookup(root, loc)
    decreases |vs|
  {
    if vs != [] {
      var pre := vs[..|vs| - 1];
      var w := vs[|vs| - 1];
      WrittenElsewhere(root, pre, fn, loc);
      PutKeepsApart(Written(root, pre, fn), w.field.slot, loc, Prim(NewValue(w, fn)));
    }
  }

  /** After `SetFunc(t, p, fn)`, walking `p` again visits the same owners and
      handles, in the same order, and every visit now yields exactly the
      value `fn` produced for that position. */
  lemma SetFuncReadsBack(root: Value, segs: seq<Segment>, k: Kind, fn: Update)
    requires CanSetAll(root, segs, k, fn)
    ensures var vs := Visits(root, segs).value;
            var after := Visits(Written(root, vs, fn), segs);
            && after.Ok? && |after.value| == |vs|
            && forall i | 0 <= i < |vs| :: after.value[i] == Rewritten(vs[i], fn)
  {
    var vs := Visits(root, segs).value;
    EachVisitsAreSound(root, segs);
    EachHandlesAreApart(root, segs);
    var r := Written(root, vs, fn);
    WrittenKeepsSkeleton(root, vs, fn);
    EachDependsOnSkeletonOnly(root, r, segs);
    EachVisitsAreSound(r, segs);
    var after := Visits(r, segs).value;
    forall i | 0 <= i < |vs| ensures after[i] == Rewritten(vs[i], fn) {
      assert vs[i] in vs && after[i] in after;
      WrittenAt(root, vs, fn, i);
      RewrittenVisit(vs[i], after[i], k, fn);
    }
  }

  /** A visit of the written graph that corresponds to a writable visit of
      the original and reads the stored value is that visit rewritten. */
  lemma RewrittenVisit(a: Visit, b: Visit, k: Kind, fn: Update)
    requires Writable(a, k) && a.leaf == Surface(a.field) && forall s, o :: HasKind(s, k) ==> HasKind(fn(s, o), k)
    requires Corresponds(a, b) && b.field.current == Prim(NewValue(a, fn)) && b.leaf == Surface(b.field)
    ensures b == Rewritten(a, fn)
  {
    var p := NewValue(a, fn);
    assert HasKind(p, k);
    assert !p.Bool? by {
      assert !a.leaf.s.Bool?;
      assert KindOf(p) == KindOf(a.leaf.s);
    }
  }

  /** `Set(t, p, v)` then `GetAll(t, p)`: every visit yields `v` itself. */
  lemma SetThenGet(root: Value, segs: seq<Segment>, v: Scalar)
    requires CanSetAll(root, segs, KindOf(v), (_, _) => v) && Representable(v)
    ensures var vs := Visits(root, segs).value;
            var after := Visits(Written(root, vs, (_, _) => v), segs);
            && after.Ok? && |after.value| == |vs|
            && forall i | 0 <= i < |vs| :: after.value[i].leaf == Plain(v)
  {
    SetFuncReadsBack(root, segs, KindOf(v), (_, _) => v);
  }

  /** A path that matches nothing leaves the graph unchanged. */
  lemma NoMatchNoChange(root: Value, segs: seq<Segment>, fn: Update)
    requires Visits(root, segs) == Ok([])
    ensures Written(root, Visits(root, segs).value, fn) == root
  {
  }
}

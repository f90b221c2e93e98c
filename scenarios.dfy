/** The examples of the package's tests and documentation, replayed on the
    model: each member below runs the modelled operation on the example's
    object graph and states the outcome the example expects. */
module Scenarios {
  import opened Results
  import opened Values
  import opened Leaf
  import opened Engine
  import opened Getter
  import opened Setter
  import opened FlatPath
  import opened FlatGet

  function S(text: string): Value {
    Prim(Str(text))
  }

  function N(i: int): Value {
    Prim(Int(Word, i))
  }

  /** `team` of the GetAll example: a name and a slice of member pointers. */
  function Team(): Value {
    Struct(map[
      "Name" := S("TEAM-A"),
      "Members" := Slice([Ptr(Some(Struct(map["Name" := S("Alice")]))),
                          Ptr(Some(Struct(map["Name" := S("Bob")])))])])
  }

  /** `GetAll[string](&team, "Name")` is `[TEAM-A]`. */
  method TeamName() returns (r: Result<seq<Surfaced>, Fault>)
    ensures r == Ok([Plain(Str("TEAM-A"))])
  {
    var t := Target(Team(), [Deref]);
    var h := Handle(S("TEAM-A"), [Deref, Field("Name")], true, false);
    assert Elem(t) == Handle(Team(), [Deref], true, false);
    assert FieldOf(Elem(t), "Name") == h;
    assert Surface(h) == Plain(Str("TEAM-A"));
    assert Visits(Ptr(Some(Team())), [Member("Name")]) == Ok([Visit(Plain(Str("TEAM-A")), [Deref], h)]);
    r := GetAll(Ptr(Some(Team())), [Member("Name")], ScalarType(StringKind));
    assert r.Ok? && |r.value| == 1 && r.value[0] == Plain(Str("TEAM-A"));
    assert r.value == [Plain(Str("TEAM-A"))];
  }

  /** A wildcard over two elements: the two fixed-index walks, in order. */
  lemma FanOutOfTwo(t: Target, name: string, rest: seq<Segment>)
    requires WalkFrom(t, [Element(name, 0)] + rest).Ok? && WalkFrom(t, [Element(name, 1)] + rest).Ok?
    ensures FanOut(t, name, rest, 2) ==
            Ok(WalkFrom(t, [Element(name, 0)] + rest).value + WalkFrom(t, [Element(name, 1)] + rest).value)
  {
    var w0 := WalkFrom(t, [Element(name, 0)] + rest).value;
    assert [] + w0 == w0;
    assert FanOut(t, name, rest, 1) == Ok(w0);
  }

  function MemberNames(): seq<string> {
    ["Alice", "Bob"]
  }

  function MemberVisits(): seq<Visit> {
    WalkFrom(TeamAt(), [Element("Members", 0), Member("Name")]).value
      + WalkFrom(TeamAt(), [Element("Members", 1), Member("Name")]).value
  }

  function TeamAt(): Target {
    Target(Team(), [Deref])
  }

  /** The one visit of `Members[i].Name` on `&team`: the member's name, owned
      by the member the i-th pointer points to. */
  lemma MemberVisit(i: nat)
    requires i < 2
    ensures WalkFrom(TeamAt(), [Element("Members", i), Member("Name")]) ==
            Ok([Visit(Plain(Str(MemberNames()[i])), [Deref, Field("Members"), Index(i), Deref],
                      Handle(S(MemberNames()[i]), [Deref, Field("Members"), Index(i), Deref, Field("Name")], true, false))])
  {
    var t := TeamAt();
    var member := Struct(map["Name" := S(MemberNames()[i])]);
    var fv := FieldOf(Elem(t), "Members");
    assert Elem(t) == Handle(Team(), [Deref], true, false);
    assert fv.current.elems[i] == Ptr(Some(member));
    var h := ElementOf(fv, i);
    assert fv.slot == [Deref, Field("Members")] && !fv.readOnly;
    assert h == Handle(Ptr(Some(member)), [Deref, Field("Members"), Index(i)], true, false);
    assert Pick(fv, Element("Members", i)) == Ok(Some(h));
    var n := Target(member, [Deref, Field("Members"), Index(i), Deref]);
    assert h.slot + [Deref] == n.at;
    assert Next(h) == Ok(Some(n));
    assert Elem(n) == Handle(member, n.at, true, false);
    var leaf := FieldOf(Elem(n), "Name");
    assert n.at + [Field("Name")] == [Deref, Field("Members"), Index(i), Deref, Field("Name")];
    assert Surface(leaf) == Plain(Str(MemberNames()[i]));
    assert [Element("Members", i), Member("Name")][1..] == [Member("Name")];
  }

  /** `GetAll[string](&team, "Members[0].Name")` is `[Alice]`. */
  method FirstMemberName() returns (r: Result<seq<Surfaced>, Fault>)
    ensures r == Ok([Plain(Str("Alice"))])
  {
    MemberVisit(0);
    r := GetAll(Ptr(Some(Team())), [Element("Members", 0), Member("Name")], ScalarType(StringKind));
    assert r.value == [Plain(Str("Alice"))];
  }

  /** `Members[*].Name` on `&team` visits Alice's name, then Bob's. */
  lemma AllMembersVisits()
    ensures var vs := Visits(Ptr(Some(Team())), [AllElements("Members"), Member("Name")]);
            vs.Ok? && |vs.value| == 2 && vs.value[0].leaf == Plain(Str("Alice")) && vs.value[1].leaf == Plain(Str("Bob"))
  {
    MemberVisit(0);
    MemberVisit(1);
    var t := TeamAt();
    assert FieldOf(Elem(t), "Members").current.Slice?;
    FanOutOfTwo(t, "Members", [Member("Name")]);
    assert Visits(Ptr(Some(Team())), [AllElements("Members"), Member("Name")]) == Ok(MemberVisits());
  }

  /** `GetAll[string](&team, "Members[*].Name")` is `[Alice Bob]`. */
  method AllMemberNames() returns (r: Result<seq<Surfaced>, Fault>)
    ensures r == Ok([Plain(Str("Alice")), Plain(Str("Bob"))])
  {
    AllMembersVisits();
    r := GetAll(Ptr(Some(Team())), [AllElements("Members"), Member("Name")], ScalarType(StringKind));
    assert r.value == [Plain(Str("Alice")), Plain(Str("Bob"))];
  }

  /** `Ts[*].Vars[2]` over two records: `c` then `C`, owned by `&Ts[0]` and `&Ts[1]`. */
  function Inner(i: nat): Value
    requires i < 2
  {
    if i == 0 then Struct(map["Vars" := Slice([S("a"), S("b"), S("c")])])
    else Struct(map["Vars" := Slice([S("A"), S("B"), S("C")])])
  }

  function Outer(): Value {
    Struct(map["Ts" := Slice([Inner(0), Inner(1)])])
  }

  lemma InnerVisit(i: nat)
    requires i < 2
    ensures WalkFrom(Target(Outer(), [Deref]), [Element("Ts", i)] + [Element("Vars", 2)]) ==
            Ok([Visit(Plain(Str(if i == 0 then "c" else "C")), [Deref, Field("Ts"), Index(i)],
                      Handle(S(if i == 0 then "c" else "C"), [Deref, Field("Ts"), Index(i), Field("Vars"), Index(2)], true, false))])
  {
    var t := Target(Outer(), [Deref]);
    var segs := [Element("Ts", i)] + [Element("Vars", 2)];
    assert segs[0] == Element("Ts", i) && segs[1..] == [Element("Vars", 2)] && |segs| == 2;
    assert Elem(t) == Handle(Outer(), [Deref], true, false);
    var fv := FieldOf(Elem(t), "Ts");
    assert fv == Handle(Slice([Inner(0), Inner(1)]), [Deref, Field("Ts")], true, false);
    var h := ElementOf(fv, i);
    assert h == Handle(Inner(i), [Deref, Field("Ts"), Index(i)], true, false);
    var n := Target(Inner(i), h.slot);
    assert Next(h) == Ok(Some(n));
    assert Elem(n) == Handle(Inner(i), n.at, true, false);
    var vars := FieldOf(Elem(n), "Vars");
    assert vars.slot == [Deref, Field("Ts"), Index(i), Field("Vars")] && !vars.readOnly;
    var leaf := ElementOf(vars, 2);
    assert leaf.slot == [Deref, Field("Ts"), Index(i), Field("Vars"), Index(2)];
    assert leaf.current == S(if i == 0 then "c" else "C");
  }

  method ThirdVarOfEach() returns (r: Result<seq<Visit>, Fault>)
    ensures r.Ok? && |r.value| == 2
    ensures r.value[0].leaf == Plain(Str("c")) && r.value[0].owner == [Deref, Field("Ts"), Index(0)]
    ensures r.value[1].leaf == Plain(Str("C")) && r.value[1].owner == [Deref, Field("Ts"), Index(1)]
  {
    var t := Target(Outer(), [Deref]);
    InnerVisit(0);
    InnerVisit(1);
    assert FieldOf(Elem(t), "Ts").current == Slice([Inner(0), Inner(1)]);
    FanOutOfTwo(t, "Ts", [Element("Vars", 2)]);
    r := Each(Ptr(Some(Outer())), [AllElements("Ts"), Element("Vars", 2)]);
  }

  /** `Nested.v` where `Nested` is a struct field: the owner is `&target.Nested`. */
  method NestedStructOwner() returns (r: Result<seq<Visit>, Fault>)
    ensures r.Ok? && |r.value| == 1
    ensures r.value[0].leaf == Plain(Str("foobar")) && r.value[0].owner == [Deref, Field("Nested")]
  {
    var inner := Struct(map["v" := S("foobar")]);
    var t := Target(Struct(map["Nested" := inner]), [Deref]);
    var h := FieldOf(Elem(t), "Nested");
    assert h == Handle(inner, [Deref, Field("Nested")], true, false);
    assert Next(h) == Ok(Some(Target(inner, [Deref, Field("Nested")])));
    r := Each(Ptr(Some(t.node)), [Member("Nested"), Member("v")]);
  }

  /** `Nested.v` where `Nested` is a pointer: the owner is the pointee. */
  method NestedPointerOwner() returns (r: Result<seq<Visit>, Fault>)
    ensures r.Ok? && |r.value| == 1
    ensures r.value[0].leaf == Plain(Str("foobar")) && r.value[0].owner == [Deref, Field("Nested"), Deref]
  {
    var inner := Struct(map["v" := S("foobar")]);
    var t := Target(Struct(map["Nested" := Ptr(Some(inner))]), [Deref]);
    var h := FieldOf(Elem(t), "Nested");
    assert h == Handle(Ptr(Some(inner)), [Deref, Field("Nested")], true, false);
    assert h.slot + [Deref] == [Deref, Field("Nested"), Deref];
    assert Next(h) == Ok(Some(Target(inner, [Deref, Field("Nested"), Deref])));
    r := Each(Ptr(Some(t.node)), [Member("Nested"), Member("v")]);
  }

  /** `Nested.v` where `Nested` is a nil pointer: no visit and no fault. */
  method NestedNilPointer() returns (r: Result<seq<Visit>, Fault>)
    ensures r == Ok([])
  {
    var t := Target(Struct(map["Nested" := Ptr(None)]), [Deref]);
    assert FieldOf(Elem(t), "Nested").current == Ptr(None);
    r := Each(Ptr(Some(t.node)), [Member("Nested"), Member("v")]);
  }

  /** `str` where the unexported field `str` points to a string: the visitor
      receives the string itself, owned by the target. */
  method PointerLeaf() returns (r: Result<seq<Visit>, Fault>)
    ensures r.Ok? && |r.value| == 1
    ensures r.value[0].leaf == Plain(Str("foobar")) && r.value[0].owner == [Deref]
  {
    var t := Target(Struct(map["str" := Ptr(Some(S("foobar"))), "num" := N(0)]), [Deref]);
    var h := FieldOf(Elem(t), "str");
    assert h.current == Ptr(Some(S("foobar")));
    assert Surface(h) == Plain(Str("foobar"));
    r := Each(Ptr(Some(t.node)), [Member("str")]);
  }

  /** `&person` of the GetAll tests: an embedded address and a pointer to another. */
  function PersonAt(): Value {
    Ptr(Some(Struct(map[
      "Name" := S("Alice"),
      "Age" := N(25),
      "Address" := Struct(map["CountryCode" := N(81), "PostalCode" := S("1000001")]),
      "PtrAddress" := Ptr(Some(Struct(map["CountryCode" := N(1), "PostalCode" := S("0000002")])))])))
  }

  /** `GetAll[any](&person, "Address.CountryCode")` is `[81]`. */
  method NestedCountryCode() returns (r: Result<seq<Surfaced>, Fault>)
    ensures r == Ok([Plain(Int(Word, 81))])
  {
    var t := Target(PersonAt().to.value, [Deref]);
    var h := FieldOf(Elem(t), "Address");
    assert h.slot == [Deref, Field("Address")] && !h.readOnly && h.addressable;
    var n := Target(h.current, h.slot);
    assert Next(h) == Ok(Some(n));
    assert Elem(n).current == h.current;
    assert Surface(FieldOf(Elem(n), "CountryCode")) == Plain(Int(Word, 81));
    r := GetAll(PersonAt(), [Member("Address"), Member("CountryCode")], AnyType);
    assert r.value == [Plain(Int(Word, 81))];
  }

  /** `GetAll[any](&person, "PtrAddress.PostalCode")` is `["0000002"]`. */
  method PointerPostalCode() returns (r: Result<seq<Surfaced>, Fault>)
    ensures r == Ok([Plain(Str("0000002"))])
  {
    var t := Target(PersonAt().to.value, [Deref]);
    var h := FieldOf(Elem(t), "PtrAddress");
    assert h.slot == [Deref, Field("PtrAddress")] && !h.readOnly;
    var n := Target(h.current.to.value, h.slot + [Deref]);
    assert Next(h) == Ok(Some(n));
    assert Elem(n).current == n.node;
    assert Surface(FieldOf(Elem(n), "PostalCode")) == Plain(Str("0000002"));
    r := GetAll(PersonAt(), [Member("PtrAddress"), Member("PostalCode")], AnyType);
    assert r.value == [Plain(Str("0000002"))];
  }

  function ThreeStrings(first: string): Value {
    Ptr(Some(Struct(map["V" := Slice([S(first), S("a"), S("b")])])))
  }

  function FirstSlot(): Loc {
    [Deref, Field("V"), Index(0)]
  }

  /** `V[0]` visits the first element through an addressable, settable handle. */
  lemma FirstElementVisit()
    ensures Visits(ThreeStrings("foo"), [Element("V", 0)]) ==
            Ok([Visit(Plain(Str("foo")), [Deref], Handle(S("foo"), FirstSlot(), true, false))])
  {
    var t := Target(ThreeStrings("foo").to.value, [Deref]);
    var fv := FieldOf(Elem(t), "V");
    assert fv == Handle(Slice([S("foo"), S("a"), S("b")]), [Deref, Field("V")], true, false);
    assert ElementOf(fv, 0) == Handle(S("foo"), FirstSlot(), true, false);
  }

  lemma FirstElementPut()
    ensures Put(ThreeStrings("foo"), FirstSlot(), S("bar")) == ThreeStrings("bar")
  {
    var v := Slice([S("foo"), S("a"), S("b")]);
    assert Put(v, [Index(0)], S("bar")) == Slice([S("bar"), S("a"), S("b")]);
    assert FirstSlot()[1..] == [Field("V"), Index(0)];
    assert Put(Struct(map["V" := v]), [Field("V"), Index(0)], S("bar")) == ThreeStrings("bar").to.value;
  }

  /** `Set(&S{V: ["foo", "a", "b"]}, "V[0]", "bar")`: only element 0 changes. */
  method SetFirstElement() returns (after: Value)
    ensures after == ThreeStrings("bar")
  {
    var w := Visit(Plain(Str("foo")), [Deref], Handle(S("foo"), FirstSlot(), true, false));
    FirstElementVisit();
    var g := new Graph(ThreeStrings("foo"));
    g.Set([Element("V", 0)], Str("bar"));
    assert [w][..0] == [];
    assert g.root == Put(ThreeStrings("foo"), FirstSlot(), S("bar"));
    FirstElementPut();
    after := g.root;
  }

  function OneString(text: string): Value {
    Ptr(Some(Struct(map["V" := S(text)])))
  }

  lemma FieldVisit()
    ensures Visits(OneString("foo"), [Member("V")]) ==
            Ok([Visit(Plain(Str("foo")), [Deref], Handle(S("foo"), [Deref, Field("V")], true, false))])
  {
    assert FieldOf(Elem(Target(OneString("foo").to.value, [Deref])), "V") == Handle(S("foo"), [Deref, Field("V")], true, false);
  }

  lemma FieldPut()
    ensures Put(OneString("foo"), [Deref, Field("V")], S("bar")) == OneString("bar")
  {
    assert Put(Struct(map["V" := S("foo")]), [Field("V")], S("bar")) == Struct(map["V" := S("bar")]);
  }

  /** `Set(&S{V: "foo"}, "V", "bar")`. */
  method SetField() returns (after: Value)
    ensures after == OneString("bar")
  {
    var w := Visit(Plain(Str("foo")), [Deref], Handle(S("foo"), [Deref, Field("V")], true, false));
    FieldVisit();
    var g := new Graph(OneString("foo"));
    g.Set([Member("V")], Str("bar"));
    assert [w][..0] == [];
    assert g.root == Put(OneString("foo"), [Deref, Field("V")], S("bar"));
    FieldPut();
    after := g.root;
  }

  /** `person` of the Get tests, held by value. */
  function Person(): Value {
    Struct(map[
      "Name" := S("Alice"),
      "Age" := N(25),
      "Address" := Address()])
  }

  function Address(): Value {
    Struct(map["CountryCode" := N(81), "PostalCode" := S("1000001")])
  }

  /** `Get(person, "Name")` is `"Alice"`. */
  lemma GetName()
    ensures Get(Person(), "Name") == Ok(S("Alice"))
  {
    ParseJoin(["Name"]);
  }

  /** `Get(person, "Address.CountryCode")` is `81`. */
  lemma GetNestedCountryCode()
    ensures Get(Person(), "Address.CountryCode") == Ok(N(81))
  {
    ParseAddressCountryCode();
    var path: Path := ["Address", "CountryCode"];
    AddressOfPerson();
    CountryCodeOfAddress();
    assert path[1..] == ["CountryCode"];
    assert GetPath(Person(), path) == GetPath(Address(), ["CountryCode"]);
  }

  lemma AddressOfPerson()
    ensures Resolve(Person(), "Address") == Ok(Address())
  {
    assert Person().fields["Address"] == Address();
  }

  lemma CountryCodeOfAddress()
    ensures GetPath(Address(), ["CountryCode"]) == Ok(N(81))
  {
    assert Resolve(Address(), "CountryCode") == Ok(N(81));
  }

  lemma ParseAddressCountryCode()
    ensures Parse("Address.CountryCode") == ["Address", "CountryCode"]
  {
    assert Join(["Address", "CountryCode"]) == "Address.CountryCode";
    ParseJoin(["Address", "CountryCode"]);
  }

  /** A `*any` holding a struct whose field `X` is an interface: the struct
      is reached through the box, so `X` is not addressable and reaches the
      visitor as what `Interface()` yields. */
  function BoxedHolder(x: Value): Value {
    Ptr(Some(Iface(Some(Struct(map["X" := x])))))
  }

  lemma BoxedFieldVisit(x: Value)
    ensures Visits(BoxedHolder(x), [Member("X")]) ==
            Ok([Visit(Surface(Handle(x, [Deref, Unbox, Field("X")], false, false)), [Deref],
                      Handle(x, [Deref, Unbox, Field("X")], false, false))])
  {
    var t := Target(Iface(Some(Struct(map["X" := x]))), [Deref]);
    var c := Handle(Struct(map["X" := x]), [Deref, Unbox], false, false);
    assert Elem(t) == c;
    assert FieldOf(c, "X") == Handle(x, [Deref, Unbox, Field("X")], false, false);
    assert Pick(FieldOf(c, "X"), Member("X")) == Ok(Some(FieldOf(c, "X")));
  }

  /** `GetAll[int]` on an interface field holding 5 is `[5]`. */
  method InterfaceFieldOpened() returns (r: Result<seq<Surfaced>, Fault>)
    ensures r == Ok([Boxed(N(5))])
  {
    BoxedFieldVisit(Iface(Some(N(5))));
    assert Surface(Handle(Iface(Some(N(5))), [Deref, Unbox, Field("X")], false, false)) == Boxed(N(5));
    r := GetAll(BoxedHolder(Iface(Some(N(5)))), [Member("X")], ScalarType(IntKind(Word)));
    assert r.value == [Boxed(N(5))];
  }

  /** `GetAll[any]` on a nil interface field fails: the visitor receives the
      untyped nil, which is not an `any`. */
  method NilInterfaceField() returns (r: Result<seq<Surfaced>, Fault>)
    ensures r == Err(TypeMismatch)
  {
    BoxedFieldVisit(Iface(None));
    assert Surface(Handle(Iface(None), [Deref, Unbox, Field("X")], false, false)) == Nil;
    r := GetAll(BoxedHolder(Iface(None)), [Member("X")], AnyType);
  }
}

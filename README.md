# goval, modelled in Dafny

goval reads and writes the fields of a Go object graph along a path such as
`Members[*].Name`. This project models its core:

- the path-driven visitor `Each`/`each` of each.go;
- the leaf conversion `fieldValueAny`/`fieldValueInt`/`fieldValueUint` and `elem` of each.go;
- `GetAll` (get.go), which collects what the visitor sees;
- `Set`/`SetFunc` (set.go), which overwrite every visited field in place;
- the older flat accessor: `parse` (path.go) and `Get`/`get` (goval.go).

Go reflection is replaced by a tree (`Values.Value`). It has five kinds of node:
records, pointers, interface boxes, slices and primitive leaves. A
location (`Loc`) is the list of steps from the root to a node. Locations
stand for the Go addresses the package hands out: the owner of a visit, and
the field handle that `Set` writes through. Go panics are `Err(Fault)`
results of the pure specification functions.

Modules, one file each:

- `Results`: Option and Result.
- `Values`: the graph, locations, lookup and store.
- `Leaf`: field handles and `fieldValueAny`.
- `Engine`: the walk.
  - `Visits`/`WalkFrom`/`FanOut` are the specification: the ordered list of visitor calls.
  - `Each`/`EachFrom` are the imperative walk, proved equal to it.
- `EngineFacts`: what the walk guarantees.
- `Getter`: `GetAll`.
- `Setter`: `Set`/`SetFunc`.
  - `Graph` is a class whose `root` field the methods update.
  - `Written` is their specification.
- `FlatPath`: `parse`.
- `FlatGet`: `Get`/`get`.
- `Scenarios`: the examples of the package's tests, replayed on the model.

Reflection behaviour the model keeps:

- A field reached through an unexported name is read-only. Descending
  through it calls `Interface()`, which panics (`ReadOnly`), and `Set` refuses it.
- A value taken out of an interface is not addressable. `Addr()` on it panics (`NotAddressable`).
- Slice elements are always addressable.
- Numeric and string leaves reach the visitor as plain values, truncated to their own width.
- Any other leaf reaches the visitor in one of three forms:
  - its address, when it is addressable;
  - otherwise, when it may be exported, what `Interface()` yields: the value held by an interface field (nil for a nil interface), any other value itself;
  - otherwise nil.

  Booleans are in this group.
- A nil pointer leaf reaches the visitor as nil.

## Model

| member | source | states |
|---|---|---|
| Engine.Each | each.go:14-36 | The walk from the root makes exactly the visitor calls `Visits` lists. An empty path or a nil root gives none. Any root that is not a pointer is a fault. |
| Engine.EachFrom | each.go:25-94 | The recursive walk with its wildcard loop returns exactly `WalkFrom(t, segs)`: the same visits in the same order, or the same fault. |
| Engine.FanOutFaultPersists | each.go:60-74 | Once one fixed-index sub-walk of a wildcard faults, the whole expansion ends with that fault. |
| Leaf.Surface | each.go:96-117 | `fieldValueAny` dereferences one pointer level. A nil pointer gives nil. A non-boolean primitive gives a plain value of the same kind, and exactly the stored value when that value fits its type. Any other leaf gives its address exactly when it is addressable (always after a dereference): the pointee's location for a pointer field, the field's own otherwise. It gives `Interface()` of the value (an interface opened) exactly when it is not addressable, not read-only and not a nil interface, and nil in every remaining case. |
| Engine.Elem | each.go:179-185 | `elem` opens at most one interface box and is never read-only. An opened value sits one `Unbox` step below the target and is not addressable. Any other value is the target itself, addressable. |
| EngineFacts.ElemResolves | each.go:179-185 | The value `elem` yields is really found at its location in the graph. |
| Leaf.ScalarLeaf | each.go:101-110 | Every scalar keeps its kind and becomes a value of its type. A value that already fits is unchanged. |
| Leaf.Signed | each.go:119-135 | `int8(n)` … `int64(n)` give a value in the width's range, and leave a value already in range unchanged. |
| Leaf.Unsigned | each.go:137-153 | `uint8(n)` … `uint64(n)` give a value in the width's range, and leave a value already in range unchanged. |
| EngineFacts.WalkAtMostOnce | each.go:77-93 | From any target, a path without a wildcard makes at most one visit. |
| EngineFacts.EachAtMostOnce | each.go:77-81 | `Each` with a path without a wildcard makes at most one visit. |
| EngineFacts.FanOutOverElements | each.go:58-74 | A wildcard expansion of the first n elements as the last segment gives exactly n visits. The i-th visit is for element i, with the same owner. |
| EngineFacts.WildcardVisitsEveryElement | each.go:58-74 | A wildcard as the last segment over a slice of n elements visits all n elements, in index order, with the same owner. |
| EngineFacts.SilentMisses | each.go:39-93 | These cases end the branch with no visit and no fault: a missing field, an index at or beyond the length, and a nil pointer (a named field or a selected element) before the last segment. An index in range continues with exactly that element. As the last segment it makes exactly one visit, for that element. Otherwise the walk goes on from the element's pointee or, for a non-pointer, from the element itself, and a non-nil element reached through an unexported field is a read-only fault. |
| EngineFacts.PickResolves | each.go:39-57 | The field or element a segment selects is really at its location in the graph. That location is one field step (and one index step) below the struct behind the target. |
| EngineFacts.TerminalSound | each.go:77-81 | A terminal visit reads its field's true value through `fieldValueAny`. Its owner is the container in which the field was looked up. |
| EngineFacts.DescentKeepsTarget | each.go:83-93 | Descending through a pointer or by address lands on the node really found at the new target location. |
| EngineFacts.WalkSound | each.go:37-93 | Every visit of a walk is sound. The handle addresses its field in the graph, the value is `fieldValueAny` of it, and the owner is the immediate container. |
| EngineFacts.FanOutSound | each.go:58-74 | Every visit of a wildcard expansion is sound. |
| EngineFacts.EachVisitsAreSound | each.go:37 | Every visit of `Each` is sound. In particular, the owner is never the root of a deeper path. |
| EngineFacts.WalkSlots | each.go:44-57 | The handles of one walk lie below the field the first segment selects, and are pairwise disjoint. |
| EngineFacts.FanOutSlots | each.go:58-74 | The handles of a wildcard expansion lie below the expanded slice, below element indices less than the count. They are pairwise disjoint and in ascending index order. |
| EngineFacts.EachHandlesAreApart | each.go:44-57 | The field handles of one `Each` address pairwise disjoint parts of the graph. |
| EngineFacts.WildcardInIndexOrder | each.go:60-73 | A wildcard walk visits elements in ascending index order: every visit below element i comes before every visit below element j when i < j. |
| EngineFacts.WalkFrame | each.go:25-94 | Two graphs with the same skeleton (leaf values may differ) give walks with the same faults and the same number of visits. Corresponding visits have the same owners, handle locations and flags. |
| EngineFacts.FanOutFrame | each.go:58-74 | The same holds for wildcard expansions. |
| EngineFacts.EachDependsOnSkeletonOnly | each.go:14-20 | The same holds for `Each`. So rewriting leaves cannot change what a path visits. |
| Getter.GetAll | get.go:4-14 | A fault of the walk is passed through. Otherwise the result is one entry per visit, in visit order, with no visit giving the empty sequence. The result is a success exactly when every visited value is a `T`, and is otherwise a type-mismatch fault. |
| Setter.Graph.SetFunc | set.go:15-24 | The new graph stores `fn(value, owner)` through every visited handle, in visit order. Walking the path again gives the same visits, each now reading the value `fn` produced for it. Every location disjoint from the visited handles is unchanged. |
| Setter.Graph.Set | set.go:8-12 | This is `SetFunc` with a function that ignores the current value. Afterwards every visit reads `v`. |
| Setter.WrittenKeepsSkeleton | set.go:20-23 | Storing primitives over primitive leaves keeps the graph's skeleton. |
| Setter.WrittenAt | set.go:22 | Each visited handle ends up holding the value `fn` produced for it. Later stores never overwrite it. |
| Setter.WrittenElsewhere | set.go:20-23 | A location disjoint from every visited handle is not written. |
| Setter.SetFuncReadsBack | set.go:15-24 | After the stores, the walk makes the same number of visits with the same owners and handles. Each visit reads exactly the value written for it. |
| Setter.RewrittenVisit | set.go:21-22 | A visit of the written graph that corresponds to a writable visit, and reads the stored value, is that visit with the new value. |
| Setter.SetThenGet | set.go:8-12 | After `Set(t, p, v)`, every visit of `p` reads `v` itself. |
| Setter.NoMatchNoChange | set.go:20-23 | A path that visits nothing leaves the graph unchanged. |
| Values.PutThenLookup | set.go:22 | A store lands where it was aimed: the location then holds the stored value. |
| Values.PutKeepsApart | set.go:22 | A store leaves every location disjoint from its target unchanged. |
| FlatPath.Parse | path.go:8-10 | `parse` never returns an empty list. |
| FlatPath.ParsePiecesHaveNoDot | path.go:9 | No piece produced by `parse` contains a dot. |
| FlatPath.ParseCountsDots | path.go:9 | There is one piece more than the path has dots. |
| FlatPath.JoinParse | path.go:9 | Joining the pieces with dots gives back the input. Nothing is lost or reordered. |
| FlatPath.ParseJoin | path.go:9 | Parsing dot-free names joined with dots gives back those names. |
| FlatPath.ParseSingle | path.go:9 | A path without a dot parses to the single piece that is the path itself. |
| FlatGet.Resolve | goval.go:15-19 | One step succeeds exactly when the value is a struct that has an exported field of that name, and then it yields the field's value with an interface box opened. A non-struct gives `NotStruct`, a missing field gives `NoField`. |
| FlatGet.GetPath | goval.go:11-21 | An empty path returns the target unchanged. Every failure is `NotStruct`, `NoField` or `ReadOnly`. |
| FlatGet.Get | goval.go:6-9 | `Get(t, s)` is `get(t, parse(s))`. A string without a dot is one field name, resolved in a single `FieldByName`/`Interface` step. |
| FlatGet.GetJoin | goval.go:6-9 | `Get` on dot-free names joined with dots is `get` on exactly those names. |
| FlatGet.GetIsLookup | goval.go:6-20 | Without interface boxes and with exported names, `Get(t, s)` succeeds exactly when the dot-separated names of `s` spell a location of the graph, and then it yields the node there. |
| FlatGet.GetPathAppend | goval.go:15-20 | Looking up `p + q` is looking up `p`, then looking up `q` in the result. Consuming one name per step, `get(t, n::rest)` is `get(field n of t, rest)`. |
| FlatGet.GetPathIsLookup | goval.go:15-20 | Without interface boxes and with exported names, `get` succeeds exactly when the names spell a location of the graph, and then it yields the node there. |
| Scenarios.TeamName | get_test.go:110-111 | `GetAll[string](&team, "Name")` is `[TEAM-A]`. |
| Scenarios.FirstMemberName | get_test.go:112-113 | `GetAll[string](&team, "Members[0].Name")` is `[Alice]`. |
| Scenarios.AllMemberNames | get_test.go:114-115 | `GetAll[string](&team, "Members[*].Name")` is `[Alice Bob]`. |
| Scenarios.MemberVisit | get_test.go:94-109 | `Members[i].Name` visits the i-th member's name, owned by that member. |
| Scenarios.NestedCountryCode | get_test.go:64-69 | `GetAll[any](&person, "Address.CountryCode")` is `[81]`. |
| Scenarios.PointerPostalCode | get_test.go:71-76 | `GetAll[any](&person, "PtrAddress.PostalCode")` is `["0000002"]`. |
| Scenarios.PointerLeaf | each_test.go:50-67 | A pointer-to-string field reaches the visitor as the string itself, owned by the target. |
| Scenarios.NestedStructOwner | each_test.go:68-91 | For `Nested.v` with a struct field, the owner is `&target.Nested`. |
| Scenarios.NestedPointerOwner | each_test.go:92-115 | For `Nested.v` with a pointer field, the owner is the pointee. |
| Scenarios.NestedNilPointer | each_test.go:116-131 | For `Nested.v` with a nil pointer, there is no visit and no fault. |
| Scenarios.ThirdVarOfEach | each_test.go:192-230 | `Ts[*].Vars[2]` visits `c` then `C`, owned by `&Ts[0]` and `&Ts[1]`. |
| Scenarios.SetFirstElement | set_test.go:43-67 | Setting `V[0]` to `bar` changes element 0 only. `V[1]` and `V[2]` are untouched. |
| Scenarios.SetField | set_test.go:100-116 | Setting `V` to `bar` turns `&S{V: "foo"}` into `&S{V: "bar"}`. |
| Scenarios.GetName | goval_test.go:51-56 | `Get(person, "Name")` is `"Alice"`. |
| Scenarios.GetNestedCountryCode | goval_test.go:58-63 | `Get(person, "Address.CountryCode")` is `81`. |
| Scenarios.BoxedFieldVisit | each.go:111-114 | On a `*any` holding a struct, field `X` is visited through the interface box, not addressable, owned by the root's pointee. |
| Scenarios.InterfaceFieldOpened | each.go:113-114 | `GetAll[int]` on such an interface field holding 5 is `[5]`. |
| Scenarios.NilInterfaceField | get.go:7-10 | `GetAll[any]` on such a nil interface field is a type-mismatch fault, since the visitor receives the untyped nil. |

## Left out

- The bracketed path grammar is not part of this model. This covers `Parse`, `Path.Split`, `PathInfo`, `pathList`, `pathListAll` and `PathTypeValue`, which live in a file that is not part of this model. The walk takes the segment list it consumes: `Member`, `Element` and `AllElements`. Every `Member` and `Element` segment is taken to be value-typed, so it can fire the visitor as the last segment.
- `PathInfo.RequirePath` is not carried. It is only ever copied.
- Go arrays, nil slices and maps are not modelled. A slice is never nil.
- Engine.Each: treats every root that is not a pointer as a fault. Go lets an array or slice root pass the kind check at each.go:30. An array root then panics in `IsNil` at each.go:34. A nil slice root returns silently there, and a non-nil slice root panics in `FieldByName` at each.go:40. The model has no arrays and no nil slices.
- Indexing a string field (`Len` and `Index` on a string) is not modelled. An index or wildcard on anything but a slice is a `NotSlice` fault.
- Embedded-field promotion in `FieldByName` is not modelled. A name finds only a field declared in the struct itself.
- Go's export rule is modelled for ASCII only: a name is exported when it starts with `A`…`Z`. Unicode upper-case letters are not considered.
- Floating-point and complex leaves are opaque bit patterns that keep their kind. `fieldValueFloat` and `fieldValueComplex` are not modelled, because they do floating-point arithmetic.
- Pointer aliasing, shared substructure and pointer identity are not modelled. The graph is a tree, and an owner is a location rather than a Go pointer.
- Getter.GetAll: when a visited value has the wrong type and the walk would also fault at a later step, the model reports the walk's fault. Go panics at the type assertion first. Both outcomes are a panic.
- Setter.Graph.SetFunc: requires that no panic occurs: the walk succeeds, every visit holds a `T`, and every handle is settable and not pointer-typed. The stores Go makes before a panic are not modelled.
- Setter.Graph.SetFunc: stores after the walk has listed the visits, where Go stores during the walk. `EachDependsOnSkeletonOnly` and `EachHandlesAreApart` show that the two orders visit the same fields and write the same values.
- Setter.Graph.SetFunc: takes `fn` as a pure function, so how often and when Go calls it is not observable. The model evaluates it once per visit, in visit order.
- Setting through a pointer-typed leaf is excluded by `Setter.Writable`. The visitor receives the pointee, but Go's `Set` would write into the pointer field and panic.
- A boolean leaf reaches the visitor as an address handle when addressable (each.go:111-112) and as a boxed value otherwise (each.go:113-114), never as a plain `bool`. `Set` with a boolean value therefore never satisfies its precondition.
- The type argument `T` of `GetAll` is reduced to three cases: `any`, a scalar kind, or the address handle. Named and composite types are not modelled.
- Setter.Graph.SetFunc: takes `T` as one scalar kind, with `fn` mapping scalars to scalars, and writes only fields holding a non-boolean primitive. Go's `SetFunc[any]` also writes interface-typed, struct, slice and boolean fields with any assignable value; those writes are not modelled.
- Setter.Graph.Set: likewise stores only a non-boolean scalar `v` into fields holding a primitive of `v`'s kind. Go's `Set[any]` also stores into interface-typed fields (e.g. `Set[any](&s, "X", 5)` with `X any`) and into struct, slice and boolean fields; those stores are not modelled.

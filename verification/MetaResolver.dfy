/** Lazy resolution of types from stored metadata.

    Asking the pool for a type that it does not know may build an interface, which asks for its base and
    for the types of its methods, and so on through a graph that may be cyclic.  The recursion ends because
    each interface is registered before its methods are built: the measure is the number of interfaces that
    are not registered, then the length of the chain of bases.  When it ends, whatever a finished interface
    refers to is registered (`Closed`), unless the pool cannot fetch it at all. */
module MetaResolvers {
  import opened Wrappers
  import opened Namespaces
  import opened MetaModel
  import MetaReferences

  datatype TypeKind = PrimitiveType | InterfaceType | EnumerationType | PointerType

  /** A method of a built interface. */
  datatype BuiltMethod = BuiltMethod(name: string, returnType: Object?, parameters: seq<BuiltParameter>)
  datatype BuiltParameter = BuiltParameter(name: string, attribute: int, ty: Object?)

  /** A type in the pool. */
  class Object {
    const mName: string
    const mKind: TypeKind
    var mBaseInterface: Object?
    var mMethods: seq<BuiltMethod>

    constructor (name: string, kind: TypeKind)
      ensures mName == name && mKind == kind && mBaseInterface == null && mMethods == []
    {
      mName, mKind, mBaseInterface, mMethods := name, kind, null, [];
    }
  }

  // ---------------------------------------------------------------- names

  /** LastIndexOf("::") */
  function LastSeparator(s: string): (r: Option<nat>)
    ensures r.Some? ==> SeparatorAt(s, r.value)
    ensures forall k: nat :: k < |s| && (r.Some? ==> k > r.value) ==> !SeparatorAt(s, k)
  {
    if s == [] then None
    else match LastSeparator(s[1..])
      case Some(k) =>
        assert forall j: nat :: 0 < j < |s| && SeparatorAt(s, j) ==> SeparatorAt(s[1..], j - 1);
        Some(k + 1)
      case None =>
        assert forall j: nat :: 0 < j < |s| && SeparatorAt(s, j) ==> SeparatorAt(s[1..], j - 1);
        if SeparatorAt(s, 0) then Some(0) else None
  }

  /** What FindType takes for the name of the namespace. */
  function Qualifier(typeName: string): Name {
    match LastSeparator(typeName)
    case None => GlobalName
    case Some(k) => Prefix(typeName, k as int - 1)
  }

  /** What Resolve takes for the path of the namespace and for the name in it. */
  function Path(fullName: string): string {
    match LastSeparator(fullName) case None => "" case Some(k) => fullName[..k + 2]
  }

  function Simple(fullName: string): string {
    match LastSeparator(fullName) case None => fullName case Some(k) => fullName[k + 2..]
  }

  lemma PathAndSimple(fullName: string)
    ensures Path(fullName) + Simple(fullName) == fullName
  {
  }

  /** A namespace of the pool, as far as FindType looks at it. */
  datatype Entry = Entry(name: Name, resolved: bool)

  /** The first namespace with the name is there and not resolved. */
  predicate FindsUnresolved(entries: seq<Entry>, name: Name) {
    entries != [] && (if entries[0].name == name then !entries[0].resolved else FindsUnresolved(entries[1..], name))
  }

  /** The pool would ask the metadata for the name. */
  predicate Lazy(entries: seq<Entry>, typeName: string) {
    typeName != "" && FindsUnresolved(entries, Qualifier(typeName))
  }

  // ---------------------------------------------------------------- the metadata

  datatype Found = EnumerationAt(e: nat) | InterfaceAt(i: nat)

  predicate IndexesFit(mc: ModuleView) {
    forall n :: 0 <= n < |mc.namespaces| ==> NamespaceFits(mc, mc.namespaces[n])
  }

  predicate NamespaceFits(mc: ModuleView, ns: NamespaceView) {
    && (forall k :: 0 <= k < |ns.enumerationIndexes| ==> 0 <= ns.enumerationIndexes[k] < |mc.enumerations|)
    && (forall k :: 0 <= k < |ns.interfaceIndexes| ==> 0 <= ns.interfaceIndexes[k] < |mc.interfaces|)
    && (forall k :: 0 <= k < |ns.enumerationIndexes| ==> mc.enumerations[ns.enumerationIndexes[k]].namespace == ns.name)
    && (forall k :: 0 <= k < |ns.interfaceIndexes| ==> mc.interfaces[ns.interfaceIndexes[k]].namespace == ns.name)
  }

  function FirstEnumeration(mc: ModuleView, indexes: seq<int>, name: string): (r: Option<nat>)
    requires forall k :: 0 <= k < |indexes| ==> 0 <= indexes[k] < |mc.enumerations|
    ensures r.Some? ==> r.value < |mc.enumerations| && r.value in indexes && mc.enumerations[r.value].name == name
  {
    if indexes == [] then None
    else if mc.enumerations[indexes[0]].name == name then Some(indexes[0])
    else FirstEnumeration(mc, indexes[1..], name)
  }

  function FirstInterface(mc: ModuleView, indexes: seq<int>, name: string): (r: Option<nat>)
    requires forall k :: 0 <= k < |indexes| ==> 0 <= indexes[k] < |mc.interfaces|
    ensures r.Some? ==> r.value < |mc.interfaces| && r.value in indexes && mc.interfaces[r.value].name == name
  {
    if indexes == [] then None
    else if mc.interfaces[indexes[0]].name == name then Some(indexes[0])
    else FirstInterface(mc, indexes[1..], name)
  }

  /** Enumerations are searched before interfaces. */
  function LocateIn(mc: ModuleView, ns: NamespaceView, name: string): Option<Found>
    requires NamespaceFits(mc, ns)
  {
    match FirstEnumeration(mc, ns.enumerationIndexes, name)
    case Some(e) => Some(EnumerationAt(e))
    case None =>
      match FirstInterface(mc, ns.interfaceIndexes, name)
      case Some(i) => Some(InterfaceAt(i))
      case None => None
  }

  /** Only the first namespace with the path is searched. */
  function LocateFrom(mc: ModuleView, n: nat, path: string, name: string): Option<Found>
    requires IndexesFit(mc) && n <= |mc.namespaces|
    decreases |mc.namespaces| - n
  {
    if n == |mc.namespaces| then None
    else if mc.namespaces[n].name == path then LocateIn(mc, mc.namespaces[n], name)
    else LocateFrom(mc, n + 1, path, name)
  }

  function Locate(mc: ModuleView, fullName: string): Option<Found>
    requires IndexesFit(mc)
  {
    LocateFrom(mc, 0, Path(fullName), Simple(fullName))
  }

  function InterfaceName(mc: ModuleView, i: nat): string
    requires i < |mc.interfaces|
  {
    mc.interfaces[i].namespace + mc.interfaces[i].name
  }

  function EnumerationName(mc: ModuleView, e: nat): string
    requires e < |mc.enumerations|
  {
    mc.enumerations[e].namespace + mc.enumerations[e].name
  }

  /** What is located under a name has that name. */
  lemma LocatedHasName(mc: ModuleView, fullName: string)
    requires IndexesFit(mc) && Locate(mc, fullName).Some?
    ensures match Locate(mc, fullName).value
      case InterfaceAt(i) => i < |mc.interfaces| && InterfaceName(mc, i) == fullName
      case EnumerationAt(e) => e < |mc.enumerations| && EnumerationName(mc, e) == fullName
  {
    PathAndSimple(fullName);
    LocatedFrom(mc, 0, Path(fullName), Simple(fullName));
  }

  lemma {:induction false} LocatedFrom(mc: ModuleView, n: nat, path: string, name: string)
    requires IndexesFit(mc) && n <= |mc.namespaces|
    requires LocateFrom(mc, n, path, name).Some?
    ensures match LocateFrom(mc, n, path, name).value
      case InterfaceAt(i) => i < |mc.interfaces| && mc.interfaces[i].namespace == path && mc.interfaces[i].name == name
      case EnumerationAt(e) => e < |mc.enumerations| && mc.enumerations[e].namespace == path && mc.enumerations[e].name == name
    decreases |mc.namespaces| - n
  {
    if mc.namespaces[n].name == path {
      var ns := mc.namespaces[n];
      assert NamespaceFits(mc, ns);
      match FirstEnumeration(mc, ns.enumerationIndexes, name)
      case Some(e) => assert e in ns.enumerationIndexes;
      case None =>
        var i := FirstInterface(mc, ns.interfaceIndexes, name).value;
        assert i in ns.interfaceIndexes;
    } else {
      LocatedFrom(mc, n + 1, path, name);
    }
  }

  /** The name under which a type is asked for; kinds without one ask for nothing. */
  function TypeName(mc: ModuleView, t: TypeRec): string
    requires TypeFits(mc, t)
  {
    match t.kind
    case Char => "ccm::Char"
    case Byte => "ccm::Byte"
    case Short => "ccm::Short"
    case Integer => "ccm::Integer"
    case Long => "ccm::Long"
    case Float => "ccm::Float"
    case Double => "ccm::Double"
    case Boolean => "ccm::Boolean"
    case String => "ccm::String"
    case CoclassID => "ccm::CoclassID"
    case ComponentID => "ccm::ComponentID"
    case InterfaceID => "ccm::InterfaceID"
    case HANDLE => "ccm::HANDLE"
    case ECode => "ccm::ECode"
    case Triple => "ccm::Triple"
    case Enum => EnumerationName(mc, t.index)
    case Interface => InterfaceName(mc, t.index)
    case _ => ""
  }

  /** Arrays are not part of the model. */
  predicate TypeFits(mc: ModuleView, t: TypeRec) {
    && t.kind != Kind.Array
    && (t.kind == Kind.Enum ==> 0 <= t.index < |mc.enumerations|)
    && (t.kind == Kind.Interface ==> 0 <= t.index < |mc.interfaces|)
  }

  predicate AllTypesFit(mc: ModuleView) {
    forall k :: 0 <= k < |mc.types| ==> TypeFits(mc, mc.types[k])
  }

  predicate MethodFits(mc: ModuleView, m: MethodView) {
    && 0 <= m.returnTypeIndex < |mc.types|
    && forall k :: 0 <= k < |m.parameters| ==> 0 <= m.parameters[k].typeIndex < |mc.types|
  }

  const WholeNames: set<string> := {"ccm::Byte", "ccm::Short", "ccm::Integer", "ccm::Long", "ccm::Char"}
  const ValueNames: set<string> := {"ccm::Float", "ccm::Double", "ccm::Boolean", "ccm::String", "ccm::HANDLE"}
  const IdNames: set<string> := {"ccm::ECode", "ccm::CoclassID", "ccm::ComponentID", "ccm::InterfaceID", "ccm::Triple"}
  const Primitives: set<string> := WholeNames + ValueNames + IdNames

  predicate Fetchable(mc: ModuleView, entries: seq<Entry>, name: string)
    requires IndexesFit(mc)
  {
    Lazy(entries, name) && Locate(mc, name).Some?
  }

  predicate Starred(name: string) {
    '*' in name
  }

  function Rank(rank: map<string, nat>, name: string): nat {
    if name in rank then rank[name] else 0
  }

  /** Indices lead somewhere, interfaces have different names without stars, chains of bases end, and what
      a method of an interface points to is there when the method is built. */
  ghost predicate Sound(mc: ModuleView, entries: seq<Entry>, rank: map<string, nat>, bound: nat) {
    && IndexesFit(mc)
    && AllTypesFit(mc)
    && (forall i :: 0 <= i < |mc.interfaces| ==> InterfaceFits(mc, entries, rank, i))
    && (forall i, j :: 0 <= i < j < |mc.interfaces| ==> InterfaceName(mc, i) != InterfaceName(mc, j))
    && (forall n :: n in rank ==> rank[n] < bound) && bound > 0
  }

  ghost predicate Resolvable(mc: ModuleView, entries: seq<Entry>) {
    exists rank, bound: nat :: Sound(mc, entries, rank, bound)
  }

  lemma RankOf(mc: ModuleView, entries: seq<Entry>) returns (rank: map<string, nat>, bound: nat)
    requires Resolvable(mc, entries)
    ensures Sound(mc, entries, rank, bound)
  {
    rank, bound :| Sound(mc, entries, rank, bound);
  }

  lemma SoundFits(mc: ModuleView, entries: seq<Entry>, rank: map<string, nat>, bound: nat)
    requires Sound(mc, entries, rank, bound)
    ensures IndexesFit(mc)
  {
  }

  ghost predicate InterfaceFits(mc: ModuleView, entries: seq<Entry>, rank: map<string, nat>, i: nat)
    requires IndexesFit(mc) && i < |mc.interfaces|
    requires AllTypesFit(mc)
  {
    var x, name := mc.interfaces[i], InterfaceName(mc, i);
    && name != "" && !Starred(name)
    && (x.baseIndex == -1 || BaseFits(mc, rank, x.baseIndex, name))
    && forall k :: 0 <= k < |x.methods| ==> MethodFits(mc, x.methods[k]) && PointeesFit(mc, entries, i, x.methods[k])
  }

  ghost predicate BaseFits(mc: ModuleView, rank: map<string, nat>, b: int, name: string)
    requires IndexesFit(mc)
  {
    && 0 <= b < |mc.interfaces| && Rank(rank, InterfaceName(mc, b)) < Rank(rank, name)
    && Locate(mc, InterfaceName(mc, b)) == Some(InterfaceAt(b))
  }

  ghost predicate PointeesFit(mc: ModuleView, entries: seq<Entry>, i: nat, m: MethodView)
    requires IndexesFit(mc) && MethodFits(mc, m)
    requires AllTypesFit(mc)
  {
    && PointeeFits(mc, entries, i, mc.types[m.returnTypeIndex])
    && forall k :: 0 <= k < |m.parameters| ==> PointeeFits(mc, entries, i, mc.types[m.parameters[k].typeIndex])
  }

  /** What interface `i` may point to: a primitive type, a type that can be fetched, itself, and its bases. */
  ghost predicate PointeeFits(mc: ModuleView, entries: seq<Entry>, i: nat, t: TypeRec)
    requires IndexesFit(mc) && TypeFits(mc, t)
  {
    t.pointerNumber > 0 ==>
      || TypeName(mc, t) in Primitives || Fetchable(mc, entries, TypeName(mc, t))
      || (t.kind == Kind.Interface && exists n: nat :: IsBase(mc, i, t.index, n))
  }

  /** Going from interface `i` to its base `n` times leads to interface `j`. */
  ghost predicate IsBase(mc: ModuleView, i: int, j: int, n: nat)
    decreases n
  {
    if n == 0 then i == j
    else 0 <= i < |mc.interfaces| && IsBase(mc, mc.interfaces[i].baseIndex, j, n - 1)
  }

  // ---------------------------------------------------------------- what is registered

  type Types = map<string, Object>

  ghost predicate Registered(types: Types, name: string) {
    name in types && types[name].mKind == InterfaceType
  }

  /** Names stay known, and a registered interface stays the same object. */
  ghost predicate Grows(was: Types, now: Types) {
    && was.Keys <= now.Keys
    && forall n :: n in was && Registered(was, n) && !Starred(n) ==> n in now && now[n] == was[n]
  }

  /** Known names stay known, and interfaces stay interfaces. */
  ghost predicate StaysKnown(was: Types, now: Types) {
    was.Keys <= now.Keys && forall n :: n in was && Registered(was, n) && !Starred(n) ==> Registered(now, n)
  }

  lemma GrowthStaysKnown(was: Types, now: Types)
    requires Grows(was, now)
    ensures StaysKnown(was, now)
  {
  }

  ghost function Missing(mc: ModuleView, types: Types): set<string> {
    set i | 0 <= i < |mc.interfaces| && !Registered(types, InterfaceName(mc, i)) :: InterfaceName(mc, i)
  }

  lemma GrowsTrans(a: Types, b: Types, c: Types)
    requires Grows(a, b) && Grows(b, c)
    ensures Grows(a, c)
  {
  }

  ghost predicate ProperNames(mc: ModuleView) {
    forall i :: 0 <= i < |mc.interfaces| ==> InterfaceName(mc, i) != "" && !Starred(InterfaceName(mc, i))
  }

  lemma SubsetSize<T>(a: set<T>, b: set<T>)
    requires a <= b
    ensures |a| <= |b| && (a != b ==> |a| < |b|)
  {
    var rest := b - a;
    assert b == a + rest && a !! rest;
    assert |b| == |a| + |rest|;
    if a != b {
      assert rest != {};
    }
  }

  lemma MissingShrinks(mc: ModuleView, was: Types, now: Types)
    requires ProperNames(mc) && Grows(was, now)
    ensures |Missing(mc, now)| <= |Missing(mc, was)|
  {
    forall n | n in Missing(mc, now)
      ensures n in Missing(mc, was)
    {
      var i :| 0 <= i < |mc.interfaces| && !Registered(now, InterfaceName(mc, i)) && n == InterfaceName(mc, i);
      assert !Registered(was, InterfaceName(mc, i));
    }
    SubsetSize(Missing(mc, now), Missing(mc, was));
  }

  lemma MissingLess(mc: ModuleView, was: Types, now: Types, i: nat)
    requires ProperNames(mc) && Grows(was, now) && i < |mc.interfaces|
    requires !Registered(was, InterfaceName(mc, i)) && Registered(now, InterfaceName(mc, i))
    ensures |Missing(mc, now)| < |Missing(mc, was)|
  {
    forall n | n in Missing(mc, now)
      ensures n in Missing(mc, was)
    {
      var j :| 0 <= j < |mc.interfaces| && !Registered(now, InterfaceName(mc, j)) && n == InterfaceName(mc, j);
      assert !Registered(was, InterfaceName(mc, j));
    }
    var name := InterfaceName(mc, i);
    assert name in Missing(mc, was);
    assert name !in Missing(mc, now);
    SubsetSize(Missing(mc, now), Missing(mc, was));
  }

  /** A type reference leads to something registered, unless the pool cannot fetch an interface for it. */
  ghost predicate TypeKnown(mc: ModuleView, entries: seq<Entry>, types: Types, t: TypeRec)
    requires IndexesFit(mc) && TypeFits(mc, t)
  {
    var name := TypeName(mc, t);
    Fetchable(mc, entries, name) && Locate(mc, name).value.InterfaceAt? ==> name in types
  }

  ghost predicate IndexKnown(mc: ModuleView, entries: seq<Entry>, types: Types, k: int)
    requires IndexesFit(mc)
  {
    0 <= k < |mc.types| && TypeFits(mc, mc.types[k]) ==> TypeKnown(mc, entries, types, mc.types[k])
  }

  ghost predicate MethodKnown(mc: ModuleView, entries: seq<Entry>, types: Types, m: MethodView)
    requires IndexesFit(mc)
  {
    && IndexKnown(mc, entries, types, m.returnTypeIndex)
    && forall k :: 0 <= k < |m.parameters| ==> IndexKnown(mc, entries, types, m.parameters[k].typeIndex)
  }

  ghost predicate BaseKnown(mc: ModuleView, types: Types, b: int) {
    0 <= b < |mc.interfaces| ==> Registered(types, InterfaceName(mc, b))
  }

  /** Types are known by their names.  Every known name without a star is that of a primitive type or of an interface, and the base of a
      registered interface is registered, even while the interface is being worked on. */
  ghost predicate TypesFit(mc: ModuleView, types: Types) {
    && (forall n :: n in types ==> types[n].mName == n)
    && (forall n :: n in types && !Starred(n) ==> n in Primitives || Registered(types, n))
    && (forall i :: 0 <= i < |mc.interfaces| && Registered(types, InterfaceName(mc, i)) ==>
          BaseKnown(mc, types, mc.interfaces[i].baseIndex))
  }

  ghost predicate AllPrimitive(types: Types) {
    forall n :: n in types ==> types[n].mKind == PrimitiveType && types[n].mName == n
  }

  lemma OnlyPrimitives(mc: ModuleView, entries: seq<Entry>, types: Types)
    requires types.Keys == Primitives && AllPrimitive(types)
    ensures TypesFit(mc, types) && (IndexesFit(mc) ==> Closed(mc, entries, types, {}))
  {
    hide ReferencesKnown, Primitives, IndexesFit;
  }

  lemma InterfaceKeepsFit(mc: ModuleView, types: Types, i: nat, r: Object)
    requires TypesFit(mc, types) && ProperNames(mc) && i < |mc.interfaces|
    requires r.mKind == InterfaceType && r.mName == InterfaceName(mc, i)
    requires BaseKnown(mc, types, mc.interfaces[i].baseIndex)
    requires forall j :: 0 <= j < |mc.interfaces| && j != i ==> InterfaceName(mc, j) != InterfaceName(mc, i)
    ensures TypesFit(mc, types[InterfaceName(mc, i) := r])
  {
    var now := types[InterfaceName(mc, i) := r];
    hide InterfaceName;
    forall j | 0 <= j < |mc.interfaces| && Registered(now, InterfaceName(mc, j))
      ensures BaseKnown(mc, now, mc.interfaces[j].baseIndex)
    {
      assert j != i ==> Registered(types, InterfaceName(mc, j));
      assert BaseKnown(mc, types, mc.interfaces[j].baseIndex);
    }
  }

  lemma PointerKeepsFit(mc: ModuleView, types: Types, name: string, t: Object)
    requires TypesFit(mc, types) && ProperNames(mc) && Starred(name) && t.mName == name
    ensures TypesFit(mc, types[name := t])
  {
    var now := types[name := t];
    hide InterfaceName;
    forall j | 0 <= j < |mc.interfaces| && Registered(now, InterfaceName(mc, j))
      ensures BaseKnown(mc, now, mc.interfaces[j].baseIndex)
    {
      assert Registered(types, InterfaceName(mc, j));
      assert BaseKnown(mc, types, mc.interfaces[j].baseIndex);
    }
  }

  /** So all the bases of a registered interface are registered. */
  lemma {:induction false} BasesRegistered(mc: ModuleView, types: Types, i: int, j: int, n: nat)
    requires TypesFit(mc, types) && 0 <= i < |mc.interfaces| && Registered(types, InterfaceName(mc, i))
    requires IsBase(mc, i, j, n) && 0 <= j < |mc.interfaces|
    ensures Registered(types, InterfaceName(mc, j))
    decreases n
  {
    hide InterfaceName;
    if n > 0 {
      var b := mc.interfaces[i].baseIndex;
      assert BaseKnown(mc, types, b);
      if n > 1 || b == j {
        BasesRegistered(mc, types, b, j, n - 1);
      }
    }
  }

  /** Everything that the interface refers to is known. */
  ghost predicate ReferencesKnown(mc: ModuleView, entries: seq<Entry>, types: Types, x: InterfaceView)
    requires IndexesFit(mc)
  {
    && BaseKnown(mc, types, x.baseIndex)
    && forall k :: 0 <= k < |x.methods| ==> MethodKnown(mc, entries, types, x.methods[k])
  }

  /** Every registered interface of the metadata that is not being worked on refers to known types. */
  ghost predicate Closed(mc: ModuleView, entries: seq<Entry>, types: Types, busy: set<string>)
    requires IndexesFit(mc)
  {
    forall i :: 0 <= i < |mc.interfaces| && Registered(types, InterfaceName(mc, i)) && InterfaceName(mc, i) !in busy ==>
      ReferencesKnown(mc, entries, types, mc.interfaces[i])
  }

  lemma MethodStaysKnown(mc: ModuleView, entries: seq<Entry>, was: Types, now: Types, m: MethodView)
    requires IndexesFit(mc) && was.Keys <= now.Keys && MethodKnown(mc, entries, was, m)
    ensures MethodKnown(mc, entries, now, m)
  {
    hide Fetchable, Locate, TypeName;
  }

  lemma ReferencesStayKnown(mc: ModuleView, entries: seq<Entry>, was: Types, now: Types, x: InterfaceView)
    requires IndexesFit(mc) && ProperNames(mc) && StaysKnown(was, now) && ReferencesKnown(mc, entries, was, x)
    ensures ReferencesKnown(mc, entries, now, x)
  {
    BaseStaysKnown(mc, was, now, x.baseIndex);
    hide MethodKnown, BaseKnown;
    forall k | 0 <= k < |x.methods|
      ensures MethodKnown(mc, entries, now, x.methods[k])
    {
      MethodStaysKnown(mc, entries, was, now, x.methods[k]);
    }
  }

  /** Putting something under another name keeps what is closed closed. */
  lemma PutKeepsClosed(mc: ModuleView, entries: seq<Entry>, types: Types, busy: set<string>, name: string, t: Object)
    requires IndexesFit(mc) && ProperNames(mc) && Closed(mc, entries, types, busy) && t.mKind == InterfaceType
    ensures Closed(mc, entries, types[name := t], busy + {name})
  {
    var now := types[name := t];
    assert StaysKnown(types, now);
    hide ReferencesKnown;
    forall i | 0 <= i < |mc.interfaces| && Registered(now, InterfaceName(mc, i)) && InterfaceName(mc, i) !in busy + {name}
      ensures ReferencesKnown(mc, entries, now, mc.interfaces[i])
    {
      ReferencesStayKnown(mc, entries, types, now, mc.interfaces[i]);
    }
  }

  lemma PointerKeepsClosed(mc: ModuleView, entries: seq<Entry>, types: Types, busy: set<string>, name: string, t: Object)
    requires IndexesFit(mc) && Closed(mc, entries, types, busy) && ProperNames(mc) && Starred(name)
    ensures Closed(mc, entries, types[name := t], busy) && Grows(types, types[name := t])
  {
    var now := types[name := t];
    GrowthStaysKnown(types, now);
    hide ReferencesKnown;
    forall i | 0 <= i < |mc.interfaces| && Registered(now, InterfaceName(mc, i)) && InterfaceName(mc, i) !in busy
      ensures ReferencesKnown(mc, entries, now, mc.interfaces[i])
    {
      assert InterfaceName(mc, i) != name;
      ReferencesStayKnown(mc, entries, types, now, mc.interfaces[i]);
    }
  }

  /** An interface whose references are known is finished. */
  lemma FinishedIsClosed(mc: ModuleView, entries: seq<Entry>, types: Types, busy: set<string>, i: nat)
    requires IndexesFit(mc) && i < |mc.interfaces| && Closed(mc, entries, types, busy + {InterfaceName(mc, i)})
    requires ReferencesKnown(mc, entries, types, mc.interfaces[i])
    requires forall j :: 0 <= j < |mc.interfaces| && j != i ==> InterfaceName(mc, j) != InterfaceName(mc, i)
    ensures Closed(mc, entries, types, busy)
  {
    hide ReferencesKnown;
  }

  // ---------------------------------------------------------------- what the calls promise

  /** The registered types have grown and are closed again. */
  ghost predicate Progress(mc: ModuleView, entries: seq<Entry>, was: Types, now: Types, busy: set<string>)
    requires IndexesFit(mc)
  {
    Grows(was, now) && Closed(mc, entries, now, busy)
  }

  ghost predicate IsInterface(mc: ModuleView, name: string)
    requires IndexesFit(mc)
  {
    Locate(mc, name).Some? && Locate(mc, name).value.InterfaceAt?
  }

  /** The answer of FindType.  A known name is answered from the map; an interface that is returned is the
      one registered under the name. */
  ghost predicate Answer(mc: ModuleView, entries: seq<Entry>, was: Types, now: Types, name: string, r: Object?)
    requires IndexesFit(mc)
  {
    && (r != null <==> name != "" && (name in was || Fetchable(mc, entries, name))) && (r != null ==> r.mName == name)
    && (name != "" && name in was ==> now == was && r == was[name])
    && (r != null && r.mKind == InterfaceType ==> name in now && now[name] == r)
    && (r == null || r.mKind != InterfaceType ==> now == was)
    && (name != "" && name !in was && Fetchable(mc, entries, name) && IsInterface(mc, name) ==> r != null && r.mKind == InterfaceType)
  }

  /** The answer of Resolve, which does not look at the map. */
  ghost predicate Resolution(mc: ModuleView, was: Types, now: Types, name: string, r: Object?)
    requires IndexesFit(mc)
  {
    && (r != null <==> Locate(mc, name).Some?) && (r != null ==> r.mName == name)
    && (IsInterface(mc, name) ==> r != null && r.mKind == InterfaceType && name in now && now[name] == r)
    && (!IsInterface(mc, name) ==> now == was && (r != null ==> r.mKind == EnumerationType))
  }

  lemma SameIsProgress(mc: ModuleView, entries: seq<Entry>, types: Types, busy: set<string>)
    requires IndexesFit(mc) && Closed(mc, entries, types, busy)
    ensures Progress(mc, entries, types, types, busy)
  {
  }

  lemma ProgressTrans(mc: ModuleView, entries: seq<Entry>, a: Types, b: Types, c: Types, busy: set<string>)
    requires IndexesFit(mc) && Grows(a, b) && Progress(mc, entries, b, c, busy)
    ensures Progress(mc, entries, a, c, busy)
  {
    GrowsTrans(a, b, c);
  }

  lemma ProgressIs(mc: ModuleView, entries: seq<Entry>, was: Types, now: Types, busy: set<string>)
    requires IndexesFit(mc) && ProperNames(mc) && Progress(mc, entries, was, now, busy)
    ensures Grows(was, now) && Closed(mc, entries, now, busy) && was.Keys <= now.Keys
    ensures |Missing(mc, now)| <= |Missing(mc, was)|
  {
    MissingShrinks(mc, was, now);
  }

  /** Known already. */
  lemma AnswerKnown(mc: ModuleView, entries: seq<Entry>, types: Types, name: string)
    requires IndexesFit(mc) && name != "" && name in types && types[name].mName == name
    ensures Answer(mc, entries, types, types, name, types[name])
  {
  }

  lemma KnownByName(mc: ModuleView, types: Types, name: string)
    requires TypesFit(mc, types) && name in types
    ensures types[name].mName == name
  {
  }

  /** Not to be fetched. */
  lemma AnswerNone(mc: ModuleView, entries: seq<Entry>, types: Types, name: string)
    requires IndexesFit(mc) && (name == "" || (name !in types && !Lazy(entries, name)))
    ensures Answer(mc, entries, types, types, name, null)
  {
  }

  /** Fetched. */
  lemma AnswerResolved(mc: ModuleView, entries: seq<Entry>, was: Types, now: Types, name: string, r: Object?)
    requires IndexesFit(mc) && name != "" && name !in was && Lazy(entries, name) && Resolution(mc, was, now, name, r)
    ensures Answer(mc, entries, was, now, name, r)
  {
  }

  lemma NotRegistered(types: Types, name: string)
    requires name !in types
    ensures !Registered(types, name)
  {
  }

  // ---------------------------------------------------------------- the pool

  class TypePool {
    const mMetaComponent: ModuleView
    const mNamespaces: seq<Entry>
    ghost const rank: map<string, nat>
    ghost const bound: nat
    var mTypes: Types
    var mInterfaces: seq<Object>
    var mTempTypes: seq<Object>
    ghost var mUnfinished: set<Object>  // interfaces whose methods are being built

    /** The primitive types are known from the start, and nothing else. */
    constructor (component: ModuleView, namespaces: seq<Entry>)
      requires Resolvable(component, namespaces)
      ensures mMetaComponent == component && mNamespaces == namespaces
      ensures Ready({}) && mTypes.Keys == Primitives && mInterfaces == [] && mUnfinished == {}
    {
      hide *;
      mMetaComponent, mNamespaces := component, namespaces;
      ghost var k, n := RankOf(component, namespaces);
      rank, bound := k, n;
      mInterfaces, mTempTypes, mUnfinished := [], [], {};
      mTypes := map[];
      new;
      mTypes := PrimitiveTypes();
      NoneListed(component, namespaces, mTypes);
      OnlyPrimitives(component, namespaces, mTypes);
      SoundFits(component, namespaces, rank, bound);
      NowReady(mTypes, {});
    }

    static method PrimitiveTypes() returns (types: Types)
      ensures types.Keys == Primitives && AllPrimitive(types)
    {
      types := WholeTypes(map[]);
      types := ValueTypes(types);
      types := IdTypes(types);
    }

    static method WholeTypes(before: Types) returns (types: Types)
      requires AllPrimitive(before)
      ensures types.Keys == before.Keys + WholeNames && AllPrimitive(types)
    {
      types := before;
      types := PutPrimitive(types, "ccm::Byte");
      types := PutPrimitive(types, "ccm::Short");
      types := PutPrimitive(types, "ccm::Integer");
      types := PutPrimitive(types, "ccm::Long");
      types := PutPrimitive(types, "ccm::Char");
    }

    static method ValueTypes(before: Types) returns (types: Types)
      requires AllPrimitive(before)
      ensures types.Keys == before.Keys + ValueNames && AllPrimitive(types)
    {
      types := before;
      types := PutPrimitive(types, "ccm::Float");
      types := PutPrimitive(types, "ccm::Double");
      types := PutPrimitive(types, "ccm::Boolean");
      types := PutPrimitive(types, "ccm::String");
      types := PutPrimitive(types, "ccm::HANDLE");
    }

    static method IdTypes(before: Types) returns (types: Types)
      requires AllPrimitive(before)
      ensures types.Keys == before.Keys + IdNames && AllPrimitive(types)
    {
      types := before;
      types := PutPrimitive(types, "ccm::ECode");
      types := PutPrimitive(types, "ccm::CoclassID");
      types := PutPrimitive(types, "ccm::ComponentID");
      types := PutPrimitive(types, "ccm::InterfaceID");
      types := PutPrimitive(types, "ccm::Triple");
    }

    static method PutPrimitive(types: Types, name: string) returns (r: Types)
      requires AllPrimitive(types)
      ensures AllPrimitive(r) && r.Keys == types.Keys + {name}
    {
      var t := new Object(name, PrimitiveType);
      r := types[name := t];
    }

    ghost predicate Valid()
      reads this`mTypes
    {
      Sound(mMetaComponent, mNamespaces, rank, bound) && Primitives <= mTypes.Keys && TypesFit(mMetaComponent, mTypes)
    }

    ghost predicate Ready(busy: set<string>)
      reads this`mTypes, this`mInterfaces, this`mUnfinished, mInterfaces`mBaseInterface, mInterfaces`mMethods
    {
      && Valid() && IndexesFit(mMetaComponent) && Closed(mMetaComponent, mNamespaces, mTypes, busy)
      && Listed(mTypes, mInterfaces) && BasesRight(mMetaComponent, mInterfaces)
      && FinishedRight(mMetaComponent, mNamespaces, mInterfaces, mUnfinished)
    }

    lemma ReadyIs(busy: set<string>)
      requires Ready(busy)
      ensures IndexesFit(mMetaComponent) && ProperNames(mMetaComponent) && bound > 0
      ensures Sound(mMetaComponent, mNamespaces, rank, bound) && Primitives <= mTypes.Keys && TypesFit(mMetaComponent, mTypes)
      ensures Closed(mMetaComponent, mNamespaces, mTypes, busy)
      ensures Listed(mTypes, mInterfaces) && BasesRight(mMetaComponent, mInterfaces)
      ensures FinishedRight(mMetaComponent, mNamespaces, mInterfaces, mUnfinished)
      ensures forall name :: Rank(rank, name) < bound
    {
      var mc := mMetaComponent;
      forall i | 0 <= i < |mc.interfaces|
        ensures InterfaceName(mc, i) != "" && !Starred(InterfaceName(mc, i))
      {
        assert InterfaceFits(mc, mNamespaces, rank, i);
      }
    }

    lemma NowReady(was: Types, busy: set<string>)
      requires Sound(mMetaComponent, mNamespaces, rank, bound) && IndexesFit(mMetaComponent)
      requires Primitives <= was.Keys <= mTypes.Keys && Closed(mMetaComponent, mNamespaces, mTypes, busy)
      requires TypesFit(mMetaComponent, mTypes) && Listed(mTypes, mInterfaces) && BasesRight(mMetaComponent, mInterfaces)
      requires FinishedRight(mMetaComponent, mNamespaces, mInterfaces, mUnfinished)
      ensures Ready(busy)
    {
    }

    lemma BaseIs(i: nat)
      requires Sound(mMetaComponent, mNamespaces, rank, bound) && i < |mMetaComponent.interfaces|
      ensures var b := mMetaComponent.interfaces[i].baseIndex;
        b == -1 || (0 <= b < |mMetaComponent.interfaces| && InterfaceName(mMetaComponent, b) != ""
                    && Rank(rank, InterfaceName(mMetaComponent, b)) < Rank(rank, InterfaceName(mMetaComponent, i))
                    && IndexesFit(mMetaComponent) && IsInterface(mMetaComponent, InterfaceName(mMetaComponent, b))
                    && Locate(mMetaComponent, InterfaceName(mMetaComponent, b)) == Some(InterfaceAt(b)))
    {
      var mc := mMetaComponent;
      assert InterfaceFits(mc, mNamespaces, rank, i);
      var b := mc.interfaces[i].baseIndex;
      if b != -1 {
        assert InterfaceFits(mc, mNamespaces, rank, b);
      }
    }

    lemma NamesDiffer(i: nat)
      requires Sound(mMetaComponent, mNamespaces, rank, bound) && i < |mMetaComponent.interfaces|
      ensures var mc := mMetaComponent;
        forall j :: 0 <= j < |mc.interfaces| && j != i ==> InterfaceName(mc, j) != InterfaceName(mc, i)
    {
    }

    lemma MethodsFit(i: nat)
      requires Sound(mMetaComponent, mNamespaces, rank, bound) && i < |mMetaComponent.interfaces|
      ensures var x := mMetaComponent.interfaces[i];
        && AllTypesFit(mMetaComponent)
        && forall k :: 0 <= k < |x.methods| ==>
             MethodFits(mMetaComponent, x.methods[k]) && PointeesFit(mMetaComponent, mNamespaces, i, x.methods[k])
    {
      assert InterfaceFits(mMetaComponent, mNamespaces, rank, i);
    }

    lemma TypeIs(k: nat)
      requires Sound(mMetaComponent, mNamespaces, rank, bound) && IndexesFit(mMetaComponent) && k < |mMetaComponent.types|
      ensures TypeFits(mMetaComponent, mMetaComponent.types[k])
    {
    }

    /** A request from outside, while nothing is being worked on: afterwards every interface that can be
        reached from a registered one is registered, and an interface that is answered has the bases and the
        methods of its metadata. */
    method RequestType(typeName: string) returns (r: Object?)
      requires Ready({}) && IndexesFit(mMetaComponent) && mUnfinished == {}
      modifies this`mTypes, this`mInterfaces, this`mTempTypes, this`mUnfinished
      ensures mUnfinished == old(mUnfinished)
      ensures Ready({}) && Progress(mMetaComponent, mNamespaces, old(mTypes), mTypes, {})
      ensures Answer(mMetaComponent, mNamespaces, old(mTypes), mTypes, typeName, r)
      ensures NoPrimitiveNames(mMetaComponent) ==> ReachablesRegistered(mMetaComponent, mNamespaces, mTypes)
      ensures r != null && r.mKind == InterfaceType ==>
        && r in mInterfaces && ChainRight(mMetaComponent, mInterfaces, r) && ChainEnds(mInterfaces, r)
        && MethodsRight(mMetaComponent, mNamespaces, r)
    {
      hide *;
      ghost var was := mTypes;
      r := FindType(typeName, {});
      ReadyIs({});
      if r != null && r.mKind == InterfaceType {
        AnsweredInterface(mMetaComponent, mNamespaces, was, mTypes, typeName, r);
        StaysListed(mTypes, mInterfaces, typeName, r);
        ChainIsRight(mMetaComponent, mNamespaces, rank, bound, mInterfaces, r);
        ListedIsFinished(mMetaComponent, mNamespaces, mInterfaces, r);
      }
      if NoPrimitiveNames(mMetaComponent) {
        AllReachable(mMetaComponent, mNamespaces, mTypes);
      }
    }

    /** Known types are answered at once; others are asked for if their namespace was not resolved. */
    method FindType(typeName: string, ghost busy: set<string>) returns (r: Object?)
      requires Ready(busy) && IndexesFit(mMetaComponent)
      modifies this`mTypes, this`mInterfaces, this`mTempTypes, this`mUnfinished
      ensures mUnfinished == old(mUnfinished)
      ensures Ready(busy) && Progress(mMetaComponent, mNamespaces, old(mTypes), mTypes, busy)
      ensures Answer(mMetaComponent, mNamespaces, old(mTypes), mTypes, typeName, r)
      decreases |Missing(mMetaComponent, mTypes)|, Rank(rank, typeName), 3
    {
      hide *;
      ReadyIs(busy);
      SameIsProgress(mMetaComponent, mNamespaces, mTypes, busy);
      if typeName == "" {
        AnswerNone(mMetaComponent, mNamespaces, mTypes, typeName);
        return null;
      }
      if typeName in mTypes {
        KnownByName(mMetaComponent, mTypes, typeName);
        AnswerKnown(mMetaComponent, mNamespaces, mTypes, typeName);
        return mTypes[typeName];
      }
      if Lazy(mNamespaces, typeName) {
        NotRegistered(mTypes, typeName);
        ghost var was := mTypes;
        r := ResolveType(typeName, busy);
        AnswerResolved(mMetaComponent, mNamespaces, was, mTypes, typeName, r);
      } else {
        AnswerNone(mMetaComponent, mNamespaces, mTypes, typeName);
        r := null;
      }
    }

    /** A resolver of its own for each request. */
    method ResolveType(fullName: string, ghost busy: set<string>) returns (r: Object?)
      requires Ready(busy) && IndexesFit(mMetaComponent) && !Registered(mTypes, fullName)
      modifies this`mTypes, this`mInterfaces, this`mTempTypes, this`mUnfinished
      ensures mUnfinished == old(mUnfinished)
      ensures Ready(busy) && Progress(mMetaComponent, mNamespaces, old(mTypes), mTypes, busy)
      ensures Resolution(mMetaComponent, old(mTypes), mTypes, fullName, r)
      decreases |Missing(mMetaComponent, mTypes)|, Rank(rank, fullName), 2
    {
      hide *;
      var resolver := new MetaResolver(this);
      r := resolver.Resolve(fullName, busy);
    }

    method FindInterface(itfFullName: string, ghost busy: set<string>) returns (r: Object?)
      requires Ready(busy) && IndexesFit(mMetaComponent) && itfFullName != ""
      modifies this`mTypes, this`mInterfaces, this`mTempTypes, this`mUnfinished
      ensures mUnfinished == old(mUnfinished)
      ensures Ready(busy) && Progress(mMetaComponent, mNamespaces, old(mTypes), mTypes, busy)
      ensures r != null ==> Registered(mTypes, itfFullName) && mTypes[itfFullName] == r
      ensures r == null ==> !Registered(mTypes, itfFullName)
      decreases |Missing(mMetaComponent, mTypes)|, Rank(rank, itfFullName), 4
    {
      ghost var was := mTypes;
      hide *;
      r := FindType(itfFullName, busy);
      InterfaceAnswer(mMetaComponent, mNamespaces, was, mTypes, itfFullName, r);
      if r == null || r.mKind != InterfaceType {
        r := null;
      }
    }

    method AddInterface(interface: Object)
      modifies this`mTypes, this`mInterfaces
      ensures mInterfaces == old(mInterfaces) + [interface] && mTypes == old(mTypes)[interface.mName := interface]
    {
      mInterfaces := mInterfaces + [interface];
      mTypes := mTypes[interface.mName := interface];
    }

    method AddTemporaryType(type_: Object)
      modifies this`mTypes, this`mTempTypes
      ensures mTempTypes == old(mTempTypes) + [type_] && mTypes == old(mTypes)[type_.mName := type_]
    {
      mTempTypes := mTempTypes + [type_];
      mTypes := mTypes[type_.mName := type_];
    }
  }

  lemma InterfaceAnswer(mc: ModuleView, entries: seq<Entry>, was: Types, now: Types, name: string, r: Object?)
    requires IndexesFit(mc) && Answer(mc, entries, was, now, name, r)
    requires name != ""
    ensures r != null && r.mKind == InterfaceType ==> Registered(now, name) && now[name] == r
    ensures r == null || r.mKind != InterfaceType ==> !Registered(now, name)
  {
    hide Fetchable, Locate;
  }

  // ---------------------------------------------------------------- the resolver

  class MetaResolver {
    const mPool: TypePool
    var mResolvingTypename: string
    var mResolvingType: Object?

    constructor (pool: TypePool)
      ensures mPool == pool && mResolvingType == null
    {
      mPool := pool;
      mResolvingTypename := "";
      mResolvingType := null;
    }

    /** Searches the first namespace with the path of the name. */
    method Resolve(fullName: string, ghost busy: set<string>) returns (r: Object?)
      requires mPool.Ready(busy) && IndexesFit(mPool.mMetaComponent) && !Registered(mPool.mTypes, fullName)
      modifies this`mResolvingTypename, this`mResolvingType, mPool`mTypes, mPool`mInterfaces, mPool`mTempTypes, mPool`mUnfinished
      ensures mPool.mUnfinished == old(mPool.mUnfinished)
      ensures mPool.Ready(busy) && Progress(mPool.mMetaComponent, mPool.mNamespaces, old(mPool.mTypes), mPool.mTypes, busy)
      ensures Resolution(mPool.mMetaComponent, old(mPool.mTypes), mPool.mTypes, fullName, r)
      ensures IsInterface(mPool.mMetaComponent, fullName) ==>
        mResolvingTypename in mPool.mTypes
        && Remembers(mPool.mMetaComponent, Locate(mPool.mMetaComponent, fullName).value.i, mResolvingTypename)
      decreases |Missing(mPool.mMetaComponent, mPool.mTypes)|, Rank(mPool.rank, fullName), 1
    {
      hide *;
      mResolvingTypename := fullName;
      var ns := Path(fullName);
      var typeName := Simple(fullName);
      var mc := mPool.mMetaComponent;
      mPool.ReadyIs(busy);
      SameIsProgress(mc, mPool.mNamespaces, mPool.mTypes, busy);
      LocateStarts(mc, fullName);
      ghost var was := mPool.mTypes;
      var i := 0;
      while i < |mc.namespaces|
        invariant mPool.mTypes == was && mPool.Ready(busy) && mResolvingTypename == fullName
        invariant mPool.mUnfinished == old(mPool.mUnfinished)
        invariant 0 <= i <= |mc.namespaces| && LocateFrom(mc, i, ns, typeName) == Locate(mc, fullName)
      {
        LocateStep(mc, i, ns, typeName);
        if mc.namespaces[i].name == ns {
          r := ResolveType(mc.namespaces[i], typeName, fullName, busy);
          return;
        }
        i := i + 1;
      }
      LocateEnds(mc, ns, typeName);
      NothingResolved(mc, mPool.mTypes, fullName);
      return null;
    }

    /** Enumerations first, then interfaces. */
    method ResolveType(mn: NamespaceView, typeName: string, ghost fullName: string, ghost busy: set<string>) returns (r: Object?)
      requires mPool.Ready(busy) && IndexesFit(mPool.mMetaComponent) && !Registered(mPool.mTypes, fullName)
      requires NamespaceFits(mPool.mMetaComponent, mn) && LocateIn(mPool.mMetaComponent, mn, typeName) == Locate(mPool.mMetaComponent, fullName)
      requires mResolvingTypename == fullName
      modifies this`mResolvingTypename, this`mResolvingType, mPool`mTypes, mPool`mInterfaces, mPool`mTempTypes, mPool`mUnfinished
      ensures mPool.mUnfinished == old(mPool.mUnfinished)
      ensures mPool.Ready(busy) && Progress(mPool.mMetaComponent, mPool.mNamespaces, old(mPool.mTypes), mPool.mTypes, busy)
      ensures Resolution(mPool.mMetaComponent, old(mPool.mTypes), mPool.mTypes, fullName, r)
      ensures IsInterface(mPool.mMetaComponent, fullName) ==>
        mResolvingTypename in mPool.mTypes
        && Remembers(mPool.mMetaComponent, Locate(mPool.mMetaComponent, fullName).value.i, mResolvingTypename)
      decreases |Missing(mPool.mMetaComponent, mPool.mTypes)|, Rank(mPool.rank, fullName), 0, 2
    {
      hide *;
      var mc := mPool.mMetaComponent;
      ghost var was := mPool.mTypes;
      mPool.ReadyIs(busy);
      SameIsProgress(mc, mPool.mNamespaces, was, busy);
      var e := SearchEnumerations(mc, mn, typeName);
      var i := SearchInterfaces(mc, mn, typeName);
      LocateInIs(mc, mn, typeName);
      if e.Some? {
        r := new Object(mc.enumerations[e.value].namespace + mc.enumerations[e.value].name, EnumerationType);
        LocatedHasName(mc, fullName);
        EnumerationNameIs(mc, e.value);
        EnumerationResolved(mc, was, fullName, r);
      } else if i.Some? {
        IsLocated(mc, fullName, i.value);
        LocatedHasName(mc, fullName);
        r := BuildInterface(i.value, busy);
        InterfaceResolved(mc, was, mPool.mTypes, fullName, r);
      } else {
        NothingResolved(mc, was, fullName);
        r := null;
      }
    }

    static method SearchEnumerations(mc: ModuleView, mn: NamespaceView, typeName: string) returns (r: Option<nat>)
      requires NamespaceFits(mc, mn)
      ensures r == FirstEnumeration(mc, mn.enumerationIndexes, typeName) && (r.Some? ==> r.value < |mc.enumerations|)
    {
      var indexes := mn.enumerationIndexes;
      var i := 0;
      assert indexes[0..] == indexes;
      while i < |indexes|
        invariant 0 <= i <= |indexes| && FirstEnumeration(mc, indexes, typeName) == FirstEnumeration(mc, indexes[i..], typeName)
      {
        if mc.enumerations[indexes[i]].name == typeName {
          return Some(indexes[i]);
        }
        assert indexes[i..][1..] == indexes[i + 1..];
        i := i + 1;
      }
      return None;
    }

    static method SearchInterfaces(mc: ModuleView, mn: NamespaceView, typeName: string) returns (r: Option<nat>)
      requires NamespaceFits(mc, mn)
      ensures r == FirstInterface(mc, mn.interfaceIndexes, typeName) && (r.Some? ==> r.value < |mc.interfaces|)
    {
      var indexes := mn.interfaceIndexes;
      var i := 0;
      assert indexes[0..] == indexes;
      while i < |indexes|
        invariant 0 <= i <= |indexes| && FirstInterface(mc, indexes, typeName) == FirstInterface(mc, indexes[i..], typeName)
      {
        if mc.interfaces[indexes[i]].name == typeName {
          return Some(indexes[i]);
        }
        assert indexes[i..][1..] == indexes[i + 1..];
        i := i + 1;
      }
      return None;
    }

    /** Registers the interface after its base and before its methods. */
    method BuildInterface(i: nat, ghost busy: set<string>) returns (r: Object)
      requires mPool.Ready(busy) && IndexesFit(mPool.mMetaComponent) && i < |mPool.mMetaComponent.interfaces|
      requires mResolvingTypename == InterfaceName(mPool.mMetaComponent, i)
      requires !Registered(mPool.mTypes, InterfaceName(mPool.mMetaComponent, i))
      modifies this`mResolvingTypename, this`mResolvingType, mPool`mTypes, mPool`mInterfaces, mPool`mTempTypes, mPool`mUnfinished
      ensures mPool.mUnfinished == old(mPool.mUnfinished)
      ensures mPool.Ready(busy) && Progress(mPool.mMetaComponent, mPool.mNamespaces, old(mPool.mTypes), mPool.mTypes, busy)
      ensures var name := InterfaceName(mPool.mMetaComponent, i);
        r.mKind == InterfaceType && r.mName == name && name in mPool.mTypes && mPool.mTypes[name] == r
      ensures fresh(r) && r in mPool.mInterfaces && r !in mPool.mUnfinished
      ensures mResolvingTypename in mPool.mTypes && Remembers(mPool.mMetaComponent, i, mResolvingTypename)
      decreases |Missing(mPool.mMetaComponent, mPool.mTypes)|, Rank(mPool.rank, InterfaceName(mPool.mMetaComponent, i)), 0, 1
    {
      hide *;
      var mc := mPool.mMetaComponent;
      ghost var name, was, entries := InterfaceName(mc, i), mPool.mTypes, mPool.mNamespaces;
      ghost var unfinished := mPool.mUnfinished;
      NameIs(mc, i);
      mPool.ReadyIs(busy);
      var baseIntf := BuildBase(i, busy);
      r := new Object(mc.interfaces[i].namespace + mc.interfaces[i].name, InterfaceType);
      r.mBaseInterface := baseIntf;
      mResolvingType := r;
      ghost var based, interfaces := mPool.mTypes, mPool.mInterfaces;
      mPool.ReadyIs(busy);
      mPool.AddInterface(r);
      mPool.mUnfinished := unfinished + {r};
      ghost var added, busier := mPool.mTypes, busy + {name};
      InterfaceAdded(mc, entries, was, based, busy, i, r);
      mPool.NamesDiffer(i);
      InterfaceKeepsFit(mc, based, i, r);
      OneMoreListed(based, interfaces, name, r);
      OneMoreBase(mc, based, interfaces, i, r);
      OneMoreUnfinished(mc, entries, interfaces, unfinished, r);
      mPool.NowReady(based, busier);
      BuildMethods(r, i, busier);
      mPool.ReadyIs(busier);
      IsMethodsRight(mc, entries, i, mResolvingTypename, r);
      OneMoreFinished(mc, entries, mPool.mInterfaces, unfinished, r);
      mPool.mUnfinished := unfinished;
      mPool.NowReady(mPool.mTypes, busier);
      BaseStaysKnown(mc, based, added, mc.interfaces[i].baseIndex);
      AllFinished(mPool, was, added, i, r, busy);
      StaysListed(mPool.mTypes, mPool.mInterfaces, name, r);
    }

    /** The base from the pool, or resolved directly if the pool does not fetch it. */
    method BuildBase(i: nat, ghost busy: set<string>) returns (baseIntf: Object?)
      requires mPool.Ready(busy) && IndexesFit(mPool.mMetaComponent) && i < |mPool.mMetaComponent.interfaces|
      requires mResolvingTypename == InterfaceName(mPool.mMetaComponent, i)
      modifies this`mResolvingTypename, this`mResolvingType, mPool`mTypes, mPool`mInterfaces, mPool`mTempTypes, mPool`mUnfinished
      ensures mPool.mUnfinished == old(mPool.mUnfinished)
      ensures mPool.Ready(busy) && Progress(mPool.mMetaComponent, mPool.mNamespaces, old(mPool.mTypes), mPool.mTypes, busy)
      ensures BaseKnown(mPool.mMetaComponent, mPool.mTypes, mPool.mMetaComponent.interfaces[i].baseIndex)
      ensures IsBaseOf(mPool.mMetaComponent, mPool.mTypes, i, baseIntf)
      ensures mResolvingTypename == old(mResolvingTypename) || mResolvingTypename in mPool.mTypes
      ensures Remembers(mPool.mMetaComponent, i, mResolvingTypename)
      decreases |Missing(mPool.mMetaComponent, mPool.mTypes)|, Rank(mPool.rank, InterfaceName(mPool.mMetaComponent, i)), 0, 0
    {
      hide *;
      var mc := mPool.mMetaComponent;
      var b := mc.interfaces[i].baseIndex;
      ghost var was := mPool.mTypes;
      mPool.ReadyIs(busy);
      mPool.BaseIs(i);
      RemembersItself(mc, i);
      baseIntf := null;
      if b != -1 {
        var baseIntfFullName := mc.interfaces[b].namespace + mc.interfaces[b].name;
        NameIs(mc, b);
        baseIntf := mPool.FindInterface(baseIntfFullName, busy);
        if baseIntf == null {
          ghost var half := mPool.mTypes;
          ProgressIs(mc, mPool.mNamespaces, was, half, busy);
          var type_ := Resolve(baseIntfFullName, busy);
          ResolvedBase(mc, half, mPool.mTypes, b, type_);
          RemembersBase(mc, i, b, mResolvingTypename);
          ProgressTrans(mc, mPool.mNamespaces, was, half, mPool.mTypes, busy);
          if type_ != null && type_.mKind == InterfaceType {
            baseIntf := type_;
          }
        }
        BaseIsKnown(mc, mPool.mTypes, b);
        mPool.ReadyIs(busy);
        FoundBase(mc, mPool.mTypes, i, baseIntf);
      } else {
        SameIsProgress(mc, mPool.mNamespaces, was, busy);
        NoBaseIsKnown(mc, was);
        NoBase(mc, was, i);
      }
    }

    method BuildMethods(interface: Object, i: nat, ghost busy: set<string>)
      requires mPool.Ready(busy) && IndexesFit(mPool.mMetaComponent) && i < |mPool.mMetaComponent.interfaces|
      requires mResolvingType != null && mResolvingTypename in mPool.mTypes && interface.mMethods == []
      requires Registered(mPool.mTypes, InterfaceName(mPool.mMetaComponent, i)) && interface in mPool.mUnfinished
      modifies interface`mMethods, mPool`mTypes, mPool`mInterfaces, mPool`mTempTypes, mPool`mUnfinished
      ensures mPool.mUnfinished == old(mPool.mUnfinished)
      ensures mPool.Ready(busy) && Progress(mPool.mMetaComponent, mPool.mNamespaces, old(mPool.mTypes), mPool.mTypes, busy)
      ensures MethodsKnown(mPool.mMetaComponent, mPool.mNamespaces, mPool.mTypes, mPool.mMetaComponent.interfaces[i].methods)
      ensures LooksLike(mPool.mMetaComponent, mPool.mNamespaces, mResolvingTypename, mResolvingType.mName, interface.mMethods,
                        mPool.mMetaComponent.interfaces[i].methods)
      decreases |Missing(mPool.mMetaComponent, mPool.mTypes)|, mPool.bound, 8
    {
      hide *;
      var mc := mPool.mMetaComponent;
      ghost var entries, was, unfinished := mPool.mNamespaces, mPool.mTypes, mPool.mUnfinished;
      ghost var asked, actual := mResolvingTypename, mResolvingType.mName;
      var methods := mc.interfaces[i].methods;
      ghost var done := [];
      mPool.ReadyIs(busy);
      mPool.MethodsFit(i);
      SameIsProgress(mc, entries, was, busy);
      NoMethods(mc, entries, asked, actual, was, methods);
      var k := 0;
      while k < |methods|
        invariant 0 <= k <= |methods| && mPool.Ready(busy) && Progress(mc, entries, was, mPool.mTypes, busy)
        invariant IsFirst(done, methods, k) && MethodsKnown(mc, entries, mPool.mTypes, done)
        invariant LooksLike(mc, entries, asked, actual, interface.mMethods, done)
        invariant mResolvingType != null && mResolvingTypename == asked && mResolvingType.mName == actual
        invariant mResolvingTypename in mPool.mTypes && mPool.mUnfinished == unfinished
      {
        ghost var now := mPool.mTypes;
        ProgressIs(mc, entries, was, now, busy);
        StillRegistered(mc, was, now, i);
        FirstFits(done, methods, k);
        var method_ := BuildMethod(methods[k], i, busy);
        ProgressTrans(mc, entries, was, now, mPool.mTypes, busy);
        ProgressIs(mc, entries, now, mPool.mTypes, busy);
        MethodAdded(mc, entries, asked, actual, now, mPool.mTypes, done, methods[k], interface.mMethods, method_);
        mPool.ReadyIs(busy);
        ghost var interfaces := mPool.mInterfaces;
        FinishedAre(mc, entries, interfaces, unfinished);
        interface.mMethods := interface.mMethods + [method_];
        AreFinished(mc, entries, interfaces, unfinished);
        mPool.NowReady(mPool.mTypes, busy);
        done := done + [methods[k]];
        k := k + 1;
      }
      FirstIsAll(done, methods);
    }

    method BuildMethod(mm: MethodView, ghost i: nat, ghost busy: set<string>) returns (r: BuiltMethod)
      requires mPool.Ready(busy) && IndexesFit(mPool.mMetaComponent) && MethodFits(mPool.mMetaComponent, mm)
      requires AllTypesFit(mPool.mMetaComponent) && PointeesFit(mPool.mMetaComponent, mPool.mNamespaces, i, mm)
      requires i < |mPool.mMetaComponent.interfaces| && Registered(mPool.mTypes, InterfaceName(mPool.mMetaComponent, i))
      requires mResolvingType != null && mResolvingTypename in mPool.mTypes
      modifies mPool`mTypes, mPool`mInterfaces, mPool`mTempTypes, mPool`mUnfinished
      ensures mPool.mUnfinished == old(mPool.mUnfinished)
      ensures mPool.Ready(busy) && Progress(mPool.mMetaComponent, mPool.mNamespaces, old(mPool.mTypes), mPool.mTypes, busy)
      ensures MethodKnown(mPool.mMetaComponent, mPool.mNamespaces, mPool.mTypes, mm)
      ensures MethodLooks(mPool.mMetaComponent, mPool.mNamespaces, mResolvingTypename, mResolvingType.mName, r, mm)
      decreases |Missing(mPool.mMetaComponent, mPool.mTypes)|, mPool.bound, 7
    {
      hide *;
      var mc := mPool.mMetaComponent;
      ghost var entries, was := mPool.mNamespaces, mPool.mTypes;
      mPool.ReadyIs(busy);
      MethodIndexes(mc, mm);
      PointeesServed(mc, entries, was, i, mm);
      var returnType := BuildType(mm.returnTypeIndex, busy);
      var parameters: seq<BuiltParameter> := [];
      NoParameters(mc, entries, mPool.mTypes, mm);
      ghost var asked, actual := mResolvingTypename, mResolvingType.mName;
      var k := 0;
      while k < |mm.parameters|
        invariant 0 <= k <= |mm.parameters| == |mm.parameters| && |parameters| == k && mPool.Ready(busy)
        invariant Progress(mc, entries, was, mPool.mTypes, busy)
        invariant KnownUpto(mc, entries, mPool.mTypes, mm, k) && mPool.mUnfinished == old(mPool.mUnfinished)
        invariant forall j :: 0 <= j < k ==> ParameterLooks(mc, entries, asked, actual, parameters[j], mm.parameters[j])
        invariant mResolvingType != null && mResolvingTypename in mPool.mTypes
      {
        ghost var now := mPool.mTypes;
        ProgressIs(mc, entries, was, now, busy);
        StillRegistered(mc, was, now, i);
        mPool.ReadyIs(busy);
        PointeesServed(mc, entries, now, i, mm);
        var mp := mm.parameters[k];
        var type_ := BuildType(mp.typeIndex, busy);
        var param := BuiltParameter(mp.name, mp.attribute, type_);
        IsParameterLooks(mc, entries, asked, actual, param, mp);
        ProgressTrans(mc, entries, was, now, mPool.mTypes, busy);
        ProgressIs(mc, entries, now, mPool.mTypes, busy);
        ParameterKnown(mc, entries, now, mPool.mTypes, mm, k);
        parameters := parameters + [param];
        k := k + 1;
      }
      AllParametersKnown(mc, entries, mPool.mTypes, mm);
      r := BuiltMethod(mm.name, returnType, parameters);
      IsMethodLooks(mc, entries, asked, actual, r, mm);
    }

    /** The type from the pool, or the one being resolved if its name was asked for; then a pointer to it. */
    method BuildType(k: int, ghost busy: set<string>) returns (r: Object?)
      requires mPool.Ready(busy) && IndexesFit(mPool.mMetaComponent) && 0 <= k < |mPool.mMetaComponent.types|
      requires mResolvingType != null && mResolvingTypename in mPool.mTypes
      requires Served(mPool.mMetaComponent, mPool.mNamespaces, mPool.mTypes, k)
      modifies mPool`mTypes, mPool`mInterfaces, mPool`mTempTypes, mPool`mUnfinished
      ensures mPool.mUnfinished == old(mPool.mUnfinished)
      ensures mPool.Ready(busy) && Progress(mPool.mMetaComponent, mPool.mNamespaces, old(mPool.mTypes), mPool.mTypes, busy)
      ensures IndexKnown(mPool.mMetaComponent, mPool.mNamespaces, mPool.mTypes, k)
      ensures mResolvingTypename in mPool.mTypes
      ensures StandsFor(mPool.mMetaComponent, mPool.mNamespaces, mResolvingTypename, mResolvingType.mName, k, r)
      decreases |Missing(mPool.mMetaComponent, mPool.mTypes)|, mPool.bound, 6
    {
      hide *;
      var mc := mPool.mMetaComponent;
      ghost var entries, was := mPool.mNamespaces, mPool.mTypes;
      mPool.ReadyIs(busy);
      mPool.TypeIs(k);
      SameIsProgress(mc, entries, was, busy);
      var mt := mc.types[k];
      var typeStr := TypeString(mc, mt);
      if mResolvingTypename == typeStr {
        r := mResolvingType;
        NamedIsKnown(mc, entries, was, k);
      } else {
        r := mPool.FindType(typeStr, busy);
        FoundIsKnown(mc, entries, was, mPool.mTypes, k, r);
        ProgressIs(mc, entries, was, mPool.mTypes, busy);
      }
      StandsBase(mc, entries, was, mPool.mTypes, mResolvingTypename, mResolvingType, k, r);
      if mt.pointerNumber != 0 {
        ghost var now := mPool.mTypes;
        var baseType := r;
        r := BuildPointer(baseType, typeStr, mt.pointerNumber, busy);
        StandsPointer(mc, entries, mResolvingTypename, mResolvingType.mName, k, baseType, r);
        ProgressIs(mc, entries, was, now, busy);
        ProgressTrans(mc, entries, was, now, mPool.mTypes, busy);
        ProgressIs(mc, entries, now, mPool.mTypes, busy);
        IndexStaysKnown(mc, entries, now, mPool.mTypes, k);
      } else {
        StandsPlain(mc, entries, mResolvingTypename, mResolvingType.mName, k, r);
      }
    }

    /** The name that a kind is looked up by. */
    static method TypeString(mc: ModuleView, mt: TypeRec) returns (typeStr: string)
      requires TypeFits(mc, mt)
      ensures typeStr == TypeName(mc, mt)
    {
      typeStr := "";
      match mt.kind {
        case Char => typeStr := "ccm::Char";
        case Byte => typeStr := "ccm::Byte";
        case Short => typeStr := "ccm::Short";
        case Integer => typeStr := "ccm::Integer";
        case Long => typeStr := "ccm::Long";
        case Float => typeStr := "ccm::Float";
        case Double => typeStr := "ccm::Double";
        case Boolean => typeStr := "ccm::Boolean";
        case String => typeStr := "ccm::String";
        case CoclassID => typeStr := "ccm::CoclassID";
        case ComponentID => typeStr := "ccm::ComponentID";
        case InterfaceID => typeStr := "ccm::InterfaceID";
        case HANDLE => typeStr := "ccm::HANDLE";
        case ECode => typeStr := "ccm::ECode";
        case Enum =>
          var me := mc.enumerations[mt.index];
          typeStr := me.namespace + me.name;
        case Interface =>
          var mi := mc.interfaces[mt.index];
          typeStr := mi.namespace + mi.name;
        case Triple => typeStr := "ccm::Triple";
        case _ =>
      }
    }

    /** The pointer from the pool, or a new one, which is named after what it points to. */
    method BuildPointer(baseType: Object, name: string, pointerNumber: nat, ghost busy: set<string>) returns (r: Object)
      requires mPool.Ready(busy) && IndexesFit(mPool.mMetaComponent) && pointerNumber > 0
      modifies mPool`mTypes, mPool`mInterfaces, mPool`mTempTypes, mPool`mUnfinished
      ensures mPool.mUnfinished == old(mPool.mUnfinished)
      ensures mPool.Ready(busy) && Progress(mPool.mMetaComponent, mPool.mNamespaces, old(mPool.mTypes), mPool.mTypes, busy)
      ensures r.mName == name + Stars(pointerNumber) || r.mName == baseType.mName + Stars(pointerNumber)
      decreases |Missing(mPool.mMetaComponent, mPool.mTypes)|, mPool.bound, 5
    {
      hide *;
      var mc := mPool.mMetaComponent;
      ghost var entries, was := mPool.mNamespaces, mPool.mTypes;
      mPool.ReadyIs(busy);
      var typeStr := WithStars(name, pointerNumber);
      var found := mPool.FindType(typeStr, busy);
      AnsweredName(mc, entries, was, mPool.mTypes, typeStr, found);
      if found != null {
        r := found;
      } else {
        ghost var now := mPool.mTypes;
        mPool.ReadyIs(busy);
        var ptrName := WithStars(baseType.mName, pointerNumber);
        r := new Object(ptrName, PointerType);
        PointerKeepsClosed(mc, entries, now, busy, ptrName, r);
        PointerKeepsFit(mc, now, ptrName, r);
        StarsListed(now, mPool.mInterfaces, ptrName, r);
        mPool.AddTemporaryType(r);
        PutGrows(now, ptrName, r);
        mPool.NowReady(now, busy);
        PointerAdded(mc, entries, was, now, busy, ptrName, r);
      }
    }

    static method WithStars(name: string, n: nat) returns (r: string)
      ensures r == name + Stars(n) && (n > 0 ==> Starred(r))
    {
      r := name;
      var i := 0;
      while i < n
        invariant 0 <= i <= n && r == name + Stars(i) && (i > 0 ==> Starred(r))
      {
        r := r + "*";
        i := i + 1;
      }
    }
  }

  // ---------------------------------------------------------------- steps of the proofs

  function Stars(n: nat): string {
    if n == 0 then "" else Stars(n - 1) + "*"
  }

  /** The name of a type that is asked for while the resolver remembers `asked` for the interface `actual`. */
  function NameFor(name: string, asked: string, actual: string): string {
    if name == asked then actual else name
  }

  /** The object stands for a type record: it has the name of the type and, for a pointer, its stars.  It is
      missing only where the type can neither be known nor fetched. */
  ghost predicate StandsFor(mc: ModuleView, entries: seq<Entry>, asked: string, actual: string, k: int, o: Object?)
    requires IndexesFit(mc)
  {
    && 0 <= k < |mc.types| && TypeFits(mc, mc.types[k])
    && var t := mc.types[k];
       var name := TypeName(mc, t);
       if t.pointerNumber == 0 then StandsForName(mc, entries, name, asked, actual, o)
       else o != null && (o.mName == name + Stars(t.pointerNumber) || o.mName == NameFor(name, asked, actual) + Stars(t.pointerNumber))
  }

  ghost predicate StandsForName(mc: ModuleView, entries: seq<Entry>, name: string, asked: string, actual: string, o: Object?)
    requires IndexesFit(mc)
  {
    && (o != null ==> o.mName == NameFor(name, asked, actual))
    && (name == asked || name in Primitives || Fetchable(mc, entries, name) ==> o != null)
  }

  ghost predicate ParameterLooks(mc: ModuleView, entries: seq<Entry>, asked: string, actual: string, built: BuiltParameter, p: ParameterView)
    requires IndexesFit(mc)
  {
    built.name == p.name && built.attribute == p.attribute && StandsFor(mc, entries, asked, actual, p.typeIndex, built.ty)
  }

  ghost predicate MethodLooks(mc: ModuleView, entries: seq<Entry>, asked: string, actual: string, built: BuiltMethod, m: MethodView)
    requires IndexesFit(mc)
  {
    && built.name == m.name && StandsFor(mc, entries, asked, actual, m.returnTypeIndex, built.returnType)
    && |built.parameters| == |m.parameters|
    && forall k :: 0 <= k < |m.parameters| ==> ParameterLooks(mc, entries, asked, actual, built.parameters[k], m.parameters[k])
  }

  /** The built methods follow the stored ones, one for one. */
  ghost predicate LooksLike(mc: ModuleView, entries: seq<Entry>, asked: string, actual: string,
                            built: seq<BuiltMethod>, stored: seq<MethodView>)
    requires IndexesFit(mc)
  {
    |built| == |stored| && forall k :: 0 <= k < |stored| ==> MethodLooks(mc, entries, asked, actual, built[k], stored[k])
  }

  /** While interface `i` is built the resolver remembers its name, or that of a base that it had to resolve
      itself. */
  ghost predicate Remembers(mc: ModuleView, i: nat, asked: string) {
    exists n: nat, j: nat :: IsBase(mc, i, j, n) && j < |mc.interfaces| && asked == InterfaceName(mc, j)
  }

  // ---------------------------------------------------------------- the interfaces of the pool

  /** The registered interfaces are interfaces of the pool. */
  ghost predicate Listed(types: Types, interfaces: seq<Object>) {
    forall n :: n in types && types[n].mKind == InterfaceType ==> types[n] in interfaces
  }

  /** The object is an interface of the metadata, and its base is the object of its base. */
  ghost predicate BaseRight(mc: ModuleView, interfaces: seq<Object>, o: Object)
    reads o`mBaseInterface
  {
    && o.mKind == InterfaceType
    && exists i: nat :: i < |mc.interfaces| && o.mName == InterfaceName(mc, i)
         && HasBase(mc, interfaces, mc.interfaces[i].baseIndex, o.mBaseInterface)
  }

  ghost predicate HasBase(mc: ModuleView, interfaces: seq<Object>, b: int, base: Object?) {
    if b == -1 then base == null
    else 0 <= b < |mc.interfaces| && base != null && base in interfaces && base.mName == InterfaceName(mc, b)
  }

  ghost predicate BasesRight(mc: ModuleView, interfaces: seq<Object>)
    reads interfaces`mBaseInterface
  {
    forall k :: 0 <= k < |interfaces| ==> BaseRight(mc, interfaces, interfaces[k])
  }

  /** The object has the methods of its interface. */
  ghost predicate MethodsRight(mc: ModuleView, entries: seq<Entry>, o: Object)
    requires IndexesFit(mc)
    reads o`mMethods
  {
    exists i: nat, asked :: i < |mc.interfaces| && o.mName == InterfaceName(mc, i) && Remembers(mc, i, asked)
      && LooksLike(mc, entries, asked, o.mName, o.mMethods, mc.interfaces[i].methods)
  }

  ghost predicate FinishedRight(mc: ModuleView, entries: seq<Entry>, interfaces: seq<Object>, unfinished: set<Object>)
    requires IndexesFit(mc)
    reads interfaces`mMethods
  {
    forall k :: 0 <= k < |interfaces| && interfaces[k] !in unfinished ==> MethodsRight(mc, entries, interfaces[k])
  }

  /** The base of interface `i`, at the time it has been found: the object registered under its name. */
  ghost predicate IsBaseOf(mc: ModuleView, types: Types, i: nat, base: Object?)
    requires i < |mc.interfaces|
  {
    var b := mc.interfaces[i].baseIndex;
    if b == -1 then base == null
    else 0 <= b < |mc.interfaces| && base != null && Registered(types, InterfaceName(mc, b)) && types[InterfaceName(mc, b)] == base
         && base.mName == InterfaceName(mc, b)
  }

  /** The object that is reached by `n` steps from an object to its base. */
  ghost function NthBase(interfaces: seq<Object>, o: Object?, n: nat): Object?
    reads interfaces`mBaseInterface
  {
    if o == null || n == 0 then o
    else if o in interfaces then NthBase(interfaces, o.mBaseInterface, n - 1)
    else null
  }

  /** Walking to the bases of the object passes the interfaces that the metadata has for bases, each by an
      object of its name, and ends where they end. */
  ghost predicate ChainRight(mc: ModuleView, interfaces: seq<Object>, o: Object)
    reads interfaces`mBaseInterface
  {
    exists i: nat :: i < |mc.interfaces| && o.mName == InterfaceName(mc, i)
      && forall n: nat, j: int :: IsBase(mc, i, j, n) ==> ReachesBase(mc, interfaces, o, n, j)
  }

  ghost predicate ReachesBase(mc: ModuleView, interfaces: seq<Object>, o: Object?, n: nat, j: int)
    reads interfaces`mBaseInterface
  {
    var base := NthBase(interfaces, o, n);
    if j == -1 then base == null else 0 <= j < |mc.interfaces| && base != null && base.mName == InterfaceName(mc, j)
  }

  ghost predicate ChainEnds(interfaces: seq<Object>, o: Object)
    reads interfaces`mBaseInterface
  {
    exists n: nat :: NthBase(interfaces, o, n) == null
  }

  lemma ChainIsRight(mc: ModuleView, entries: seq<Entry>, rank: map<string, nat>, bound: nat, interfaces: seq<Object>, o: Object)
    requires Sound(mc, entries, rank, bound) && BasesRight(mc, interfaces) && o in interfaces
    ensures ChainRight(mc, interfaces, o) && ChainEnds(interfaces, o)
  {
    hide *;
    var i := IndexOfObject(mc, interfaces, o);
    forall n: nat, j: int | IsBase(mc, i, j, n)
      ensures ReachesBase(mc, interfaces, o, n, j)
    {
      BasesAreReached(mc, entries, rank, bound, interfaces, o, i, n, j);
    }
    IsChainRight(mc, interfaces, o, i);
    var n := ChainLength(mc, entries, rank, bound, interfaces, o, i);
    IsChainEnds(interfaces, o, n);
  }

  lemma IsChainRight(mc: ModuleView, interfaces: seq<Object>, o: Object, i: nat)
    requires i < |mc.interfaces| && o.mName == InterfaceName(mc, i)
    requires forall n: nat, j: int :: IsBase(mc, i, j, n) ==> ReachesBase(mc, interfaces, o, n, j)
    ensures ChainRight(mc, interfaces, o)
  {
    hide InterfaceName, ReachesBase;
  }

  lemma IsChainEnds(interfaces: seq<Object>, o: Object, n: nat)
    requires NthBase(interfaces, o, n) == null
    ensures ChainEnds(interfaces, o)
  {
    hide NthBase;
  }

  lemma IndexOfObject(mc: ModuleView, interfaces: seq<Object>, o: Object) returns (i: nat)
    requires BasesRight(mc, interfaces) && o in interfaces
    ensures i < |mc.interfaces| && o.mName == InterfaceName(mc, i) && HasBase(mc, interfaces, mc.interfaces[i].baseIndex, o.mBaseInterface)
  {
    hide InterfaceName, HasBase;
    var k :| 0 <= k < |interfaces| && interfaces[k] == o;
    assert BaseRight(mc, interfaces, interfaces[k]);
    i :| i < |mc.interfaces| && o.mName == InterfaceName(mc, i) && HasBase(mc, interfaces, mc.interfaces[i].baseIndex, o.mBaseInterface);
  }

  lemma SameName(mc: ModuleView, entries: seq<Entry>, rank: map<string, nat>, bound: nat, i: nat, j: nat)
    requires Sound(mc, entries, rank, bound) && i < |mc.interfaces| && j < |mc.interfaces|
    requires InterfaceName(mc, i) == InterfaceName(mc, j)
    ensures i == j
  {
    hide InterfaceName, IndexesFit, AllTypesFit, InterfaceFits;
  }

  /** The base of an interface object, by the base of its interface. */
  lemma NextBase(mc: ModuleView, entries: seq<Entry>, rank: map<string, nat>, bound: nat, interfaces: seq<Object>, o: Object, i: nat)
    requires Sound(mc, entries, rank, bound) && BasesRight(mc, interfaces) && o in interfaces
    requires i < |mc.interfaces| && o.mName == InterfaceName(mc, i)
    ensures HasBase(mc, interfaces, mc.interfaces[i].baseIndex, o.mBaseInterface)
  {
    hide *;
    var j := IndexOfObject(mc, interfaces, o);
    SameName(mc, entries, rank, bound, i, j);
  }

  lemma {:induction false} BasesAreReached(mc: ModuleView, entries: seq<Entry>, rank: map<string, nat>, bound: nat,
                                           interfaces: seq<Object>, o: Object, i: nat, n: nat, j: int)
    requires Sound(mc, entries, rank, bound) && BasesRight(mc, interfaces) && o in interfaces
    requires i < |mc.interfaces| && o.mName == InterfaceName(mc, i) && IsBase(mc, i, j, n)
    ensures ReachesBase(mc, interfaces, o, n, j)
    decreases n
  {
    hide Sound, BasesRight, InterfaceName;
    if n > 0 {
      NextBase(mc, entries, rank, bound, interfaces, o, i);
      var b := mc.interfaces[i].baseIndex;
      assert NthBase(interfaces, o, n) == NthBase(interfaces, o.mBaseInterface, n - 1);
      assert IsBase(mc, b, j, n - 1);
      if b == -1 {
        assert n == 1 && j == -1;
      } else {
        BasesAreReached(mc, entries, rank, bound, interfaces, o.mBaseInterface, b, n - 1, j);
      }
    }
  }

  lemma {:induction false} ChainLength(mc: ModuleView, entries: seq<Entry>, rank: map<string, nat>, bound: nat,
                                       interfaces: seq<Object>, o: Object, i: nat) returns (n: nat)
    requires Sound(mc, entries, rank, bound) && BasesRight(mc, interfaces) && o in interfaces
    requires i < |mc.interfaces| && o.mName == InterfaceName(mc, i)
    ensures NthBase(interfaces, o, n) == null
    decreases Rank(rank, InterfaceName(mc, i))
  {
    hide Sound, BasesRight, InterfaceName, Rank;
    NextBase(mc, entries, rank, bound, interfaces, o, i);
    var b := mc.interfaces[i].baseIndex;
    if b == -1 {
      n := 1;
    } else {
      BaseRanksLower(mc, entries, rank, bound, i);
      n := ChainLength(mc, entries, rank, bound, interfaces, o.mBaseInterface, b);
      n := n + 1;
    }
  }

  lemma BaseRanksLower(mc: ModuleView, entries: seq<Entry>, rank: map<string, nat>, bound: nat, i: nat)
    requires Sound(mc, entries, rank, bound) && i < |mc.interfaces| && 0 <= mc.interfaces[i].baseIndex < |mc.interfaces|
    ensures Rank(rank, InterfaceName(mc, mc.interfaces[i].baseIndex)) < Rank(rank, InterfaceName(mc, i))
  {
    assert InterfaceFits(mc, entries, rank, i);
    hide InterfaceName, Rank;
  }

  lemma ListedIsFinished(mc: ModuleView, entries: seq<Entry>, interfaces: seq<Object>, o: Object)
    requires IndexesFit(mc) && FinishedRight(mc, entries, interfaces, {}) && o in interfaces
    ensures MethodsRight(mc, entries, o)
  {
    hide MethodsRight, IndexesFit;
    var k :| 0 <= k < |interfaces| && interfaces[k] == o;
  }

  lemma AnsweredInterface(mc: ModuleView, entries: seq<Entry>, was: Types, now: Types, name: string, r: Object)
    requires IndexesFit(mc) && Answer(mc, entries, was, now, name, r) && r.mKind == InterfaceType
    ensures name in now && now[name] == r
  {
    hide Fetchable, Locate;
  }

  lemma NoneListed(mc: ModuleView, entries: seq<Entry>, types: Types)
    requires AllPrimitive(types)
    ensures Listed(types, []) && BasesRight(mc, []) && (IndexesFit(mc) ==> FinishedRight(mc, entries, [], {}))
  {
    hide IndexesFit;
  }

  lemma OneMoreListed(types: Types, interfaces: seq<Object>, name: string, r: Object)
    requires Listed(types, interfaces)
    ensures Listed(types[name := r], interfaces + [r])
  {
  }

  lemma StarsListed(types: Types, interfaces: seq<Object>, name: string, r: Object)
    requires Listed(types, interfaces) && r.mKind == PointerType
    ensures Listed(types[name := r], interfaces)
  {
  }

  lemma StaysListed(types: Types, interfaces: seq<Object>, name: string, r: Object)
    requires Listed(types, interfaces) && name in types && types[name] == r && r.mKind == InterfaceType
    ensures r in interfaces
  {
  }

  lemma OneMoreBase(mc: ModuleView, types: Types, interfaces: seq<Object>, i: nat, r: Object)
    requires BasesRight(mc, interfaces) && Listed(types, interfaces) && i < |mc.interfaces|
    requires r.mKind == InterfaceType && r.mName == InterfaceName(mc, i) && IsBaseOf(mc, types, i, r.mBaseInterface)
    ensures BasesRight(mc, interfaces + [r])
  {
    hide InterfaceName;
    forall k | 0 <= k <= |interfaces|
      ensures BaseRight(mc, interfaces + [r], (interfaces + [r])[k])
    {
      if k < |interfaces| {
        assert BaseRight(mc, interfaces, interfaces[k]);
        BaseStaysRight(mc, interfaces, r, interfaces[k]);
      } else {
        assert HasBase(mc, interfaces + [r], mc.interfaces[i].baseIndex, r.mBaseInterface);
      }
    }
  }

  lemma BaseStaysRight(mc: ModuleView, interfaces: seq<Object>, r: Object, o: Object)
    requires BaseRight(mc, interfaces, o)
    ensures BaseRight(mc, interfaces + [r], o)
  {
    hide InterfaceName;
    var i: nat :| i < |mc.interfaces| && o.mName == InterfaceName(mc, i)
                  && HasBase(mc, interfaces, mc.interfaces[i].baseIndex, o.mBaseInterface);
    assert HasBase(mc, interfaces + [r], mc.interfaces[i].baseIndex, o.mBaseInterface);
  }

  lemma OneMoreUnfinished(mc: ModuleView, entries: seq<Entry>, interfaces: seq<Object>, unfinished: set<Object>, r: Object)
    requires IndexesFit(mc) && FinishedRight(mc, entries, interfaces, unfinished)
    ensures FinishedRight(mc, entries, interfaces + [r], unfinished + {r})
  {
    hide MethodsRight, IndexesFit;
  }

  lemma OneMoreFinished(mc: ModuleView, entries: seq<Entry>, interfaces: seq<Object>, unfinished: set<Object>, r: Object)
    requires IndexesFit(mc) && FinishedRight(mc, entries, interfaces, unfinished + {r}) && MethodsRight(mc, entries, r)
    ensures FinishedRight(mc, entries, interfaces, unfinished)
  {
    hide MethodsRight, IndexesFit;
  }

  lemma FinishedAre(mc: ModuleView, entries: seq<Entry>, interfaces: seq<Object>, unfinished: set<Object>)
    requires IndexesFit(mc) && FinishedRight(mc, entries, interfaces, unfinished)
    ensures forall k :: 0 <= k < |interfaces| && interfaces[k] !in unfinished ==> MethodsRight(mc, entries, interfaces[k])
  {
    hide MethodsRight, IndexesFit;
  }

  lemma AreFinished(mc: ModuleView, entries: seq<Entry>, interfaces: seq<Object>, unfinished: set<Object>)
    requires IndexesFit(mc)
    requires forall k :: 0 <= k < |interfaces| && interfaces[k] !in unfinished ==> MethodsRight(mc, entries, interfaces[k])
    ensures FinishedRight(mc, entries, interfaces, unfinished)
  {
    hide MethodsRight, IndexesFit;
  }

  lemma IsMethodsRight(mc: ModuleView, entries: seq<Entry>, i: nat, asked: string, r: Object)
    requires IndexesFit(mc) && i < |mc.interfaces| && r.mName == InterfaceName(mc, i) && Remembers(mc, i, asked)
    requires LooksLike(mc, entries, asked, r.mName, r.mMethods, mc.interfaces[i].methods)
    ensures MethodsRight(mc, entries, r)
  {
    hide IndexesFit, LooksLike, Remembers, InterfaceName;
  }

  lemma RemembersItself(mc: ModuleView, i: nat)
    requires i < |mc.interfaces|
    ensures Remembers(mc, i, InterfaceName(mc, i))
  {
    hide InterfaceName;
    assert IsBase(mc, i, i, 0);
  }

  lemma RemembersBase(mc: ModuleView, i: nat, b: nat, asked: string)
    requires i < |mc.interfaces| && mc.interfaces[i].baseIndex == b && Remembers(mc, b, asked)
    ensures Remembers(mc, i, asked)
  {
    hide InterfaceName;
    var n: nat, j: nat :| IsBase(mc, b, j, n) && j < |mc.interfaces| && asked == InterfaceName(mc, j);
    assert IsBase(mc, i, j, n + 1);
  }

  lemma FoundBase(mc: ModuleView, types: Types, i: nat, base: Object?)
    requires i < |mc.interfaces| && 0 <= mc.interfaces[i].baseIndex < |mc.interfaces|
    requires var name := InterfaceName(mc, mc.interfaces[i].baseIndex);
      base != null && Registered(types, name) && types[name] == base && TypesFit(mc, types)
    ensures IsBaseOf(mc, types, i, base)
  {
    hide InterfaceName;
  }

  lemma NoBase(mc: ModuleView, types: Types, i: nat)
    requires i < |mc.interfaces| && mc.interfaces[i].baseIndex == -1
    ensures IsBaseOf(mc, types, i, null)
  {
  }

  lemma EnumerationNameIs(mc: ModuleView, e: nat)
    requires e < |mc.enumerations|
    ensures EnumerationName(mc, e) == mc.enumerations[e].namespace + mc.enumerations[e].name
  {
  }

  lemma AnsweredName(mc: ModuleView, entries: seq<Entry>, was: Types, now: Types, name: string, r: Object?)
    requires IndexesFit(mc) && Answer(mc, entries, was, now, name, r)
    ensures r != null ==> r.mName == name
  {
    hide Fetchable, Locate;
  }

  /** The object found for the name of a type, before it is perhaps pointed to. */
  lemma StandsBase(mc: ModuleView, entries: seq<Entry>, was: Types, now: Types, asked: string, resolving: Object, k: int, r: Object?)
    requires IndexesFit(mc) && 0 <= k < |mc.types| && TypeFits(mc, mc.types[k]) && Primitives <= was.Keys
    requires var name := TypeName(mc, mc.types[k]);
      if asked == name then r == resolving else Answer(mc, entries, was, now, name, r)
    ensures StandsForName(mc, entries, TypeName(mc, mc.types[k]), asked, resolving.mName, r)
  {
    PrimitivesHaveNames();
    hide TypeName, Locate, Primitives, Lazy;
    var name := TypeName(mc, mc.types[k]);
    if Fetchable(mc, entries, name) {
      FetchableHasName(mc, entries, name);
    }
  }

  lemma StandsPlain(mc: ModuleView, entries: seq<Entry>, asked: string, actual: string, k: int, r: Object?)
    requires IndexesFit(mc) && 0 <= k < |mc.types| && TypeFits(mc, mc.types[k]) && mc.types[k].pointerNumber == 0
    requires StandsForName(mc, entries, TypeName(mc, mc.types[k]), asked, actual, r)
    ensures StandsFor(mc, entries, asked, actual, k, r)
  {
    hide TypeName, StandsForName, IndexesFit;
  }

  lemma StandsPointer(mc: ModuleView, entries: seq<Entry>, asked: string, actual: string, k: int, base: Object, r: Object)
    requires IndexesFit(mc) && 0 <= k < |mc.types| && TypeFits(mc, mc.types[k]) && mc.types[k].pointerNumber > 0
    requires StandsForName(mc, entries, TypeName(mc, mc.types[k]), asked, actual, base)
    requires var n := mc.types[k].pointerNumber;
      r.mName == TypeName(mc, mc.types[k]) + Stars(n) || r.mName == base.mName + Stars(n)
    ensures StandsFor(mc, entries, asked, actual, k, r)
  {
    hide TypeName, Fetchable, IndexesFit, Stars;
  }

  lemma IsParameterLooks(mc: ModuleView, entries: seq<Entry>, asked: string, actual: string, b: BuiltParameter, p: ParameterView)
    requires IndexesFit(mc) && b.name == p.name && b.attribute == p.attribute && StandsFor(mc, entries, asked, actual, p.typeIndex, b.ty)
    ensures ParameterLooks(mc, entries, asked, actual, b, p)
  {
  }

  lemma IsMethodLooks(mc: ModuleView, entries: seq<Entry>, asked: string, actual: string, b: BuiltMethod, m: MethodView)
    requires IndexesFit(mc) && b.name == m.name && StandsFor(mc, entries, asked, actual, m.returnTypeIndex, b.returnType)
    requires |b.parameters| == |m.parameters|
    requires forall k :: 0 <= k < |m.parameters| ==> ParameterLooks(mc, entries, asked, actual, b.parameters[k], m.parameters[k])
    ensures MethodLooks(mc, entries, asked, actual, b, m)
  {
    hide StandsFor, ParameterLooks, IndexesFit;
  }

  ghost predicate MethodsKnown(mc: ModuleView, entries: seq<Entry>, types: Types, methods: seq<MethodView>)
    requires IndexesFit(mc)
  {
    forall k :: 0 <= k < |methods| ==> MethodKnown(mc, entries, types, methods[k])
  }

  ghost predicate IsFirst<T>(done: seq<T>, all: seq<T>, k: nat) {
    k <= |all| && done == all[..k]
  }

  lemma FirstFits<T>(done: seq<T>, all: seq<T>, k: nat)
    requires k < |all| && IsFirst(done, all, k)
    ensures IsFirst(done + [all[k]], all, k + 1)
  {
  }

  lemma FirstIsAll<T>(done: seq<T>, all: seq<T>)
    requires IsFirst(done, all, |all|)
    ensures done == all
  {
  }

  lemma NoMethods(mc: ModuleView, entries: seq<Entry>, asked: string, actual: string, types: Types, methods: seq<MethodView>)
    requires IndexesFit(mc)
    ensures IsFirst([], methods, 0) && MethodsKnown(mc, entries, types, []) && LooksLike(mc, entries, asked, actual, [], [])
  {
  }

  lemma MethodAdded(mc: ModuleView, entries: seq<Entry>, asked: string, actual: string, was: Types, now: Types,
                    done: seq<MethodView>, m: MethodView, built: seq<BuiltMethod>, b: BuiltMethod)
    requires IndexesFit(mc) && was.Keys <= now.Keys && MethodsKnown(mc, entries, was, done)
    requires LooksLike(mc, entries, asked, actual, built, done)
    requires MethodKnown(mc, entries, now, m) && MethodLooks(mc, entries, asked, actual, b, m)
    ensures MethodsKnown(mc, entries, now, done + [m]) && LooksLike(mc, entries, asked, actual, built + [b], done + [m])
  {
    hide MethodKnown, MethodLooks, IndexesFit;
    forall k | 0 <= k < |done|
      ensures MethodKnown(mc, entries, now, done[k])
    {
      MethodStaysKnown(mc, entries, was, now, done[k]);
    }
  }

  ghost predicate KnownUpto(mc: ModuleView, entries: seq<Entry>, types: Types, m: MethodView, n: nat)
    requires IndexesFit(mc) && n <= |m.parameters|
  {
    && IndexKnown(mc, entries, types, m.returnTypeIndex)
    && forall k :: 0 <= k < n ==> IndexKnown(mc, entries, types, m.parameters[k].typeIndex)
  }

  lemma MethodIndexes(mc: ModuleView, m: MethodView)
    requires MethodFits(mc, m)
    ensures 0 <= m.returnTypeIndex < |mc.types|
    ensures forall k :: 0 <= k < |m.parameters| ==> 0 <= m.parameters[k].typeIndex < |mc.types|
  {
  }

  lemma NoParameters(mc: ModuleView, entries: seq<Entry>, types: Types, m: MethodView)
    requires IndexesFit(mc) && IndexKnown(mc, entries, types, m.returnTypeIndex)
    ensures KnownUpto(mc, entries, types, m, 0)
  {
  }

  lemma IndexStaysKnown(mc: ModuleView, entries: seq<Entry>, was: Types, now: Types, k: int)
    requires IndexesFit(mc) && was.Keys <= now.Keys && IndexKnown(mc, entries, was, k)
    ensures IndexKnown(mc, entries, now, k)
  {
    hide Fetchable, Locate, TypeName;
  }

  lemma ParameterKnown(mc: ModuleView, entries: seq<Entry>, was: Types, now: Types, m: MethodView, k: nat)
    requires IndexesFit(mc) && was.Keys <= now.Keys && k < |m.parameters| && KnownUpto(mc, entries, was, m, k)
    requires IndexKnown(mc, entries, now, m.parameters[k].typeIndex)
    ensures KnownUpto(mc, entries, now, m, k + 1)
  {
    hide IndexKnown;
    IndexStaysKnown(mc, entries, was, now, m.returnTypeIndex);
    forall j | 0 <= j < k
      ensures IndexKnown(mc, entries, now, m.parameters[j].typeIndex)
    {
      IndexStaysKnown(mc, entries, was, now, m.parameters[j].typeIndex);
    }
  }

  lemma AllParametersKnown(mc: ModuleView, entries: seq<Entry>, types: Types, m: MethodView)
    requires IndexesFit(mc) && KnownUpto(mc, entries, types, m, |m.parameters|)
    ensures MethodKnown(mc, entries, types, m)
  {
    hide IndexKnown;
  }

  lemma NamedIsKnown(mc: ModuleView, entries: seq<Entry>, types: Types, k: int)
    requires IndexesFit(mc) && 0 <= k < |mc.types| && TypeFits(mc, mc.types[k]) && TypeName(mc, mc.types[k]) in types
    ensures IndexKnown(mc, entries, types, k)
  {
    hide TypeName, Fetchable, Locate;
  }

  /** What FindType answers is known, and there is something to point to where a pointer is wanted. */
  lemma FoundIsKnown(mc: ModuleView, entries: seq<Entry>, was: Types, now: Types, k: int, r: Object?)
    requires IndexesFit(mc) && 0 <= k < |mc.types| && TypeFits(mc, mc.types[k]) && Served(mc, entries, was, k)
    requires Answer(mc, entries, was, now, TypeName(mc, mc.types[k]), r) && Primitives <= was.Keys
    ensures IndexKnown(mc, entries, now, k)
    ensures mc.types[k].pointerNumber > 0 ==> r != null
  {
    var name := TypeName(mc, mc.types[k]);
    assert "" !in Primitives;
    hide TypeName, Locate;
  }

  /** A pointer can be built: what it points to is known or can be fetched. */
  ghost predicate Served(mc: ModuleView, entries: seq<Entry>, types: Types, k: int)
    requires IndexesFit(mc)
  {
    && 0 <= k < |mc.types| && TypeFits(mc, mc.types[k])
    && (mc.types[k].pointerNumber > 0 ==>
          var name := TypeName(mc, mc.types[k]);
          name != "" && (name in types || Fetchable(mc, entries, name)))
  }

  lemma PointeesServed(mc: ModuleView, entries: seq<Entry>, types: Types, i: nat, m: MethodView)
    requires IndexesFit(mc) && AllTypesFit(mc) && ProperNames(mc) && TypesFit(mc, types) && Primitives <= types.Keys
    requires MethodFits(mc, m) && PointeesFit(mc, entries, i, m)
    requires i < |mc.interfaces| && Registered(types, InterfaceName(mc, i))
    ensures Served(mc, entries, types, m.returnTypeIndex)
    ensures forall k :: 0 <= k < |m.parameters| ==> Served(mc, entries, types, m.parameters[k].typeIndex)
  {
    hide Served, PointeeFits, TypesFit;
    PointeeServed(mc, entries, types, i, m.returnTypeIndex);
    forall k | 0 <= k < |m.parameters|
      ensures Served(mc, entries, types, m.parameters[k].typeIndex)
    {
      PointeeServed(mc, entries, types, i, m.parameters[k].typeIndex);
    }
  }

  lemma PointeeServed(mc: ModuleView, entries: seq<Entry>, types: Types, i: nat, k: int)
    requires IndexesFit(mc) && AllTypesFit(mc) && TypesFit(mc, types) && Primitives <= types.Keys
    requires 0 <= k < |mc.types| && PointeeFits(mc, entries, i, mc.types[k])
    requires i < |mc.interfaces| && Registered(types, InterfaceName(mc, i))
    requires ProperNames(mc)
    ensures Served(mc, entries, types, k)
  {
    hide *;
    var t := mc.types[k];
    PointeeIs(mc, entries, i, k);
    PrimitivesHaveNames();
    if t.pointerNumber > 0 {
      if TypeName(mc, t) !in Primitives && !Fetchable(mc, entries, TypeName(mc, t)) {
        var n: nat :| IsBase(mc, i, t.index, n);
        BasesRegistered(mc, types, i, t.index, n);
        RegisteredIsKnown(mc, types, t.index);
      } else if Fetchable(mc, entries, TypeName(mc, t)) {
        FetchableHasName(mc, entries, TypeName(mc, t));
      }
    }
    IsServed(mc, entries, types, k);
  }

  lemma PointeeIs(mc: ModuleView, entries: seq<Entry>, i: nat, k: int)
    requires IndexesFit(mc) && AllTypesFit(mc) && 0 <= k < |mc.types| && PointeeFits(mc, entries, i, mc.types[k])
    ensures var t := mc.types[k];
      && TypeFits(mc, t) && (t.kind == Kind.Interface ==> 0 <= t.index < |mc.interfaces| && TypeName(mc, t) == InterfaceName(mc, t.index))
      && (t.pointerNumber > 0 && TypeName(mc, t) !in Primitives && !Fetchable(mc, entries, TypeName(mc, t)) ==>
            t.kind == Kind.Interface && exists n: nat :: IsBase(mc, i, t.index, n))
  {
    hide Fetchable, IsBase, InterfaceName, Primitives;
  }

  lemma PrimitivesHaveNames()
    ensures "" !in Primitives
  {
  }

  lemma RegisteredIsKnown(mc: ModuleView, types: Types, j: nat)
    requires ProperNames(mc) && j < |mc.interfaces| && Registered(types, InterfaceName(mc, j))
    ensures InterfaceName(mc, j) in types && InterfaceName(mc, j) != ""
  {
    hide InterfaceName;
  }

  lemma FetchableHasName(mc: ModuleView, entries: seq<Entry>, name: string)
    requires IndexesFit(mc) && Fetchable(mc, entries, name)
    ensures name != ""
  {
  }

  lemma IsServed(mc: ModuleView, entries: seq<Entry>, types: Types, k: int)
    requires IndexesFit(mc) && 0 <= k < |mc.types| && TypeFits(mc, mc.types[k])
    requires mc.types[k].pointerNumber > 0 ==>
      TypeName(mc, mc.types[k]) != "" && (TypeName(mc, mc.types[k]) in types || Fetchable(mc, entries, TypeName(mc, mc.types[k])))
    ensures Served(mc, entries, types, k)
  {
    hide Fetchable, TypeName;
  }

  lemma StillRegistered(mc: ModuleView, was: Types, now: Types, i: nat)
    requires i < |mc.interfaces| && ProperNames(mc) && Grows(was, now) && Registered(was, InterfaceName(mc, i))
    ensures Registered(now, InterfaceName(mc, i))
  {
    hide InterfaceName;
  }

  lemma PutGrows(types: Types, name: string, t: Object)
    ensures types.Keys <= types[name := t].Keys
  {
  }

  lemma PointerAdded(mc: ModuleView, entries: seq<Entry>, was: Types, now: Types, busy: set<string>, name: string, t: Object)
    requires IndexesFit(mc) && Progress(mc, entries, was, now, busy) && Grows(now, now[name := t])
    requires Closed(mc, entries, now[name := t], busy)
    ensures Progress(mc, entries, was, now[name := t], busy)
  {
    hide Closed;
    GrowsTrans(was, now, now[name := t]);
  }

  lemma LocateStarts(mc: ModuleView, fullName: string)
    requires IndexesFit(mc)
    ensures LocateFrom(mc, 0, Path(fullName), Simple(fullName)) == Locate(mc, fullName)
  {
  }

  lemma LocateStep(mc: ModuleView, n: nat, path: string, name: string)
    requires IndexesFit(mc) && n < |mc.namespaces|
    ensures NamespaceFits(mc, mc.namespaces[n])
    ensures LocateFrom(mc, n, path, name)
      == if mc.namespaces[n].name == path then LocateIn(mc, mc.namespaces[n], name) else LocateFrom(mc, n + 1, path, name)
  {
  }

  lemma LocateEnds(mc: ModuleView, path: string, name: string)
    requires IndexesFit(mc)
    ensures LocateFrom(mc, |mc.namespaces|, path, name) == None
  {
  }

  lemma LocateInIs(mc: ModuleView, ns: NamespaceView, name: string)
    requires NamespaceFits(mc, ns)
    ensures LocateIn(mc, ns, name) ==
      match FirstEnumeration(mc, ns.enumerationIndexes, name)
      case Some(e) => Some(EnumerationAt(e))
      case None =>
        match FirstInterface(mc, ns.interfaceIndexes, name)
        case Some(i) => Some(InterfaceAt(i))
        case None => None
  {
  }

  lemma IsLocated(mc: ModuleView, fullName: string, i: nat)
    requires IndexesFit(mc) && Locate(mc, fullName) == Some(InterfaceAt(i))
    ensures IsInterface(mc, fullName)
  {
  }

  lemma NothingResolved(mc: ModuleView, types: Types, name: string)
    requires IndexesFit(mc) && Locate(mc, name) == None
    ensures Resolution(mc, types, types, name, null) && !IsInterface(mc, name)
  {
  }

  lemma EnumerationResolved(mc: ModuleView, types: Types, name: string, r: Object)
    requires IndexesFit(mc) && Locate(mc, name).Some? && Locate(mc, name).value.EnumerationAt? && r.mKind == EnumerationType
    requires r.mName == name
    ensures Resolution(mc, types, types, name, r) && !IsInterface(mc, name)
  {
  }

  lemma InterfaceResolved(mc: ModuleView, was: Types, now: Types, name: string, r: Object)
    requires IndexesFit(mc) && IsInterface(mc, name) && r.mKind == InterfaceType && name in now && now[name] == r && r.mName == name
    ensures Resolution(mc, was, now, name, r)
  {
  }

  lemma NameIs(mc: ModuleView, i: nat)
    requires i < |mc.interfaces|
    ensures InterfaceName(mc, i) == mc.interfaces[i].namespace + mc.interfaces[i].name
  {
  }

  lemma ResolvedBase(mc: ModuleView, was: Types, now: Types, b: nat, r: Object?)
    requires IndexesFit(mc) && b < |mc.interfaces| && IsInterface(mc, InterfaceName(mc, b))
    requires Resolution(mc, was, now, InterfaceName(mc, b), r)
    ensures r != null && r.mKind == InterfaceType && Registered(now, InterfaceName(mc, b)) && now[InterfaceName(mc, b)] == r
  {
  }

  lemma BaseIsKnown(mc: ModuleView, types: Types, b: nat)
    requires b < |mc.interfaces| && Registered(types, InterfaceName(mc, b))
    ensures BaseKnown(mc, types, b)
  {
  }

  lemma BaseStaysKnown(mc: ModuleView, was: Types, now: Types, b: int)
    requires ProperNames(mc) && StaysKnown(was, now) && BaseKnown(mc, was, b)
    ensures BaseKnown(mc, now, b)
  {
    hide InterfaceName;
  }

  lemma NoBaseIsKnown(mc: ModuleView, types: Types)
    ensures BaseKnown(mc, types, -1)
  {
  }

  /** Registering the interface makes one fewer missing, and closes what is not being worked on. */
  lemma InterfaceAdded(mc: ModuleView, entries: seq<Entry>, was: Types, now: Types, busy: set<string>, i: nat, r: Object)
    requires IndexesFit(mc) && ProperNames(mc) && i < |mc.interfaces| && Progress(mc, entries, was, now, busy)
    requires !Registered(was, InterfaceName(mc, i)) && r.mKind == InterfaceType
    ensures var name := InterfaceName(mc, i);
      var added := now[name := r];
      && Grows(was, added) && Closed(mc, entries, added, busy + {name}) && now.Keys <= added.Keys
      && name in added && added[name] == r && |Missing(mc, added)| < |Missing(mc, was)|
      && Registered(added, name) && StaysKnown(now, added)
  {
    var name := InterfaceName(mc, i);
    PutKeepsClosed(mc, entries, now, busy, name, r);
    hide Closed;
    var added := now[name := r];
    assert Registered(added, name);
    assert Grows(was, added);
    MissingLess(mc, was, added, i);
  }

  /** When the methods are done, the interface is finished. */
  lemma AllFinished(pool: TypePool, was: Types, added: Types, i: nat, r: Object, busy: set<string>)
    requires IndexesFit(pool.mMetaComponent) && i < |pool.mMetaComponent.interfaces| && r.mKind == InterfaceType
    requires pool.Ready(busy + {InterfaceName(pool.mMetaComponent, i)})
    requires Progress(pool.mMetaComponent, pool.mNamespaces, added, pool.mTypes, busy + {InterfaceName(pool.mMetaComponent, i)})
    requires Grows(was, added) && InterfaceName(pool.mMetaComponent, i) in added && added[InterfaceName(pool.mMetaComponent, i)] == r
    requires BaseKnown(pool.mMetaComponent, added, pool.mMetaComponent.interfaces[i].baseIndex)
    requires MethodsKnown(pool.mMetaComponent, pool.mNamespaces, pool.mTypes, pool.mMetaComponent.interfaces[i].methods)
    ensures pool.Ready(busy) && Progress(pool.mMetaComponent, pool.mNamespaces, was, pool.mTypes, busy)
    ensures var name := InterfaceName(pool.mMetaComponent, i);
      name in pool.mTypes && pool.mTypes[name] == r
    ensures added.Keys <= pool.mTypes.Keys
  {
    hide *;
    var mc, entries, now := pool.mMetaComponent, pool.mNamespaces, pool.mTypes;
    var name := InterfaceName(mc, i);
    pool.ReadyIs(busy + {name});
    ProgressIs(mc, entries, added, now, busy + {name});
    StaysRegistered(mc, added, now, i, r);
    GrowthStaysKnown(added, now);
    ReferencesAreKnown(mc, entries, added, now, i);
    pool.NamesDiffer(i);
    FinishedIsClosed(mc, entries, now, busy, i);
    GrowsTrans(was, added, now);
    IsProgress(mc, entries, was, now, busy);
    pool.NowReady(now, busy);
  }

  lemma StaysRegistered(mc: ModuleView, was: Types, now: Types, i: nat, r: Object)
    requires i < |mc.interfaces| && ProperNames(mc) && Grows(was, now) && r.mKind == InterfaceType
    requires InterfaceName(mc, i) in was && was[InterfaceName(mc, i)] == r
    ensures InterfaceName(mc, i) in now && now[InterfaceName(mc, i)] == r
  {
    assert Registered(was, InterfaceName(mc, i));
  }

  lemma ReferencesAreKnown(mc: ModuleView, entries: seq<Entry>, was: Types, now: Types, i: nat)
    requires IndexesFit(mc) && ProperNames(mc) && i < |mc.interfaces| && StaysKnown(was, now)
    requires BaseKnown(mc, was, mc.interfaces[i].baseIndex) && MethodsKnown(mc, entries, now, mc.interfaces[i].methods)
    ensures ReferencesKnown(mc, entries, now, mc.interfaces[i])
  {
    hide MethodKnown;
    BaseStaysKnown(mc, was, now, mc.interfaces[i].baseIndex);
  }

  lemma IsProgress(mc: ModuleView, entries: seq<Entry>, was: Types, now: Types, busy: set<string>)
    requires IndexesFit(mc) && Grows(was, now) && Closed(mc, entries, now, busy)
    ensures Progress(mc, entries, was, now, busy)
  {
  }

  // ---------------------------------------------------------------- consequences

  /** Asking again for an interface gives the same object and resolves nothing. */
  lemma AskingAgain(mc: ModuleView, entries: seq<Entry>, was: Types, now: Types, later: Types, name: string, r: Object, again: Object?)
    requires IndexesFit(mc) && Answer(mc, entries, was, now, name, r) && r.mKind == InterfaceType
    requires Answer(mc, entries, now, later, name, again)
    ensures later == now && again == r
  {
    hide Fetchable, Locate;
  }

  /** Interface `i` has `j` as its base, or one of its methods mentions `j` under a name that can be fetched. */
  ghost predicate Refers(mc: ModuleView, entries: seq<Entry>, i: nat, j: nat)
    requires IndexesFit(mc) && i < |mc.interfaces| && j < |mc.interfaces|
  {
    || mc.interfaces[i].baseIndex == j
    || (Fetchable(mc, entries, InterfaceName(mc, j)) && IsInterface(mc, InterfaceName(mc, j))
        && exists k :: 0 <= k < |mc.interfaces[i].methods| && Mentions(mc, mc.interfaces[i].methods[k], j))
  }

  ghost predicate Mentions(mc: ModuleView, m: MethodView, j: nat) {
    || IsType(mc, m.returnTypeIndex, j)
    || exists k :: 0 <= k < |m.parameters| && IsType(mc, m.parameters[k].typeIndex, j)
  }

  predicate IsType(mc: ModuleView, t: int, j: nat) {
    0 <= t < |mc.types| && mc.types[t].kind == Kind.Interface && mc.types[t].index == j
  }

  lemma ReferenceIsKnown(mc: ModuleView, entries: seq<Entry>, types: Types, i: nat, j: nat)
    requires IndexesFit(mc) && i < |mc.interfaces| && j < |mc.interfaces| && Refers(mc, entries, i, j)
    requires ReferencesKnown(mc, entries, types, mc.interfaces[i])
    ensures InterfaceName(mc, j) in types
  {
    var x := mc.interfaces[i];
    if x.baseIndex == j {
      assert BaseKnown(mc, types, j);
    } else {
      var k :| 0 <= k < |x.methods| && Mentions(mc, x.methods[k], j);
      var m := x.methods[k];
      assert MethodKnown(mc, entries, types, m);
      if IsType(mc, m.returnTypeIndex, j) {
        MentionedIsKnown(mc, entries, types, m.returnTypeIndex, j);
      } else {
        var l :| 0 <= l < |m.parameters| && IsType(mc, m.parameters[l].typeIndex, j);
        MentionedIsKnown(mc, entries, types, m.parameters[l].typeIndex, j);
      }
    }
  }

  lemma MentionedIsKnown(mc: ModuleView, entries: seq<Entry>, types: Types, t: int, j: nat)
    requires IndexesFit(mc) && j < |mc.interfaces| && IsType(mc, t, j) && IndexKnown(mc, entries, types, t)
    requires Fetchable(mc, entries, InterfaceName(mc, j)) && IsInterface(mc, InterfaceName(mc, j))
    ensures InterfaceName(mc, j) in types
  {
    var rec := mc.types[t];
    assert TypeFits(mc, rec) && TypeName(mc, rec) == InterfaceName(mc, j);
    hide Fetchable, Locate, InterfaceName;
  }

  /** Each interface on the way refers to the next. */
  ghost predicate IsWay(mc: ModuleView, entries: seq<Entry>, way: seq<nat>)
    requires IndexesFit(mc)
  {
    && way != [] && (forall k :: 0 <= k < |way| ==> way[k] < |mc.interfaces|)
    && forall k :: 0 <= k < |way| - 1 ==> Refers(mc, entries, way[k], way[k + 1])
  }

  ghost predicate NoPrimitiveNames(mc: ModuleView) {
    forall i :: 0 <= i < |mc.interfaces| ==> InterfaceName(mc, i) !in Primitives
  }

  ghost predicate ReachablesRegistered(mc: ModuleView, entries: seq<Entry>, types: Types)
    requires IndexesFit(mc)
  {
    forall way: seq<nat> :: IsWay(mc, entries, way) && Registered(types, InterfaceName(mc, way[0])) ==>
      Registered(types, InterfaceName(mc, way[|way| - 1]))
  }

  lemma AllReachable(mc: ModuleView, entries: seq<Entry>, types: Types)
    requires IndexesFit(mc) && ProperNames(mc) && NoPrimitiveNames(mc)
    requires TypesFit(mc, types) && Closed(mc, entries, types, {})
    ensures ReachablesRegistered(mc, entries, types)
  {
    hide Refers, Registered, InterfaceName, TypesFit, Closed, Primitives;
    forall way: seq<nat> | IsWay(mc, entries, way) && Registered(types, InterfaceName(mc, way[0]))
      ensures Registered(types, InterfaceName(mc, way[|way| - 1]))
    {
      ReachableIsRegistered(mc, entries, types, way);
    }
  }

  /** While nothing is being worked on, every interface that can be reached from a registered one by
      references is registered as well, however the references run in circles. */
  lemma {:induction false} ReachableIsRegistered(mc: ModuleView, entries: seq<Entry>, types: Types, way: seq<nat>)
    requires IndexesFit(mc) && ProperNames(mc) && NoPrimitiveNames(mc)
    requires TypesFit(mc, types) && Closed(mc, entries, types, {})
    requires IsWay(mc, entries, way) && Registered(types, InterfaceName(mc, way[0]))
    ensures Registered(types, InterfaceName(mc, way[|way| - 1]))
    decreases |way|
  {
    if |way| > 1 {
      hide Refers, ReferencesKnown, Registered, InterfaceName, TypesFit, Closed, Primitives;
      var rest := way[1..];
      assert Refers(mc, entries, way[0], way[0 + 1]);
      FinishedRefers(mc, entries, types, way[0]);
      ReferenceIsKnown(mc, entries, types, way[0], way[1]);
      KnownIsRegistered(mc, types, way[1]);
      forall k | 0 <= k < |rest| - 1
        ensures Refers(mc, entries, rest[k], rest[k + 1])
      {
        assert Refers(mc, entries, way[k + 1], way[k + 1 + 1]);
      }
      ReachableIsRegistered(mc, entries, types, rest);
    }
  }

  lemma FinishedRefers(mc: ModuleView, entries: seq<Entry>, types: Types, i: nat)
    requires IndexesFit(mc) && i < |mc.interfaces| && Closed(mc, entries, types, {}) && Registered(types, InterfaceName(mc, i))
    ensures ReferencesKnown(mc, entries, types, mc.interfaces[i])
  {
    hide ReferencesKnown, InterfaceName;
  }

  lemma KnownIsRegistered(mc: ModuleView, types: Types, i: nat)
    requires ProperNames(mc) && NoPrimitiveNames(mc) && TypesFit(mc, types) && i < |mc.interfaces|
    requires InterfaceName(mc, i) in types
    ensures Registered(types, InterfaceName(mc, i))
  {
    hide InterfaceName, Primitives;
  }

  // ---------------------------------------------------------------- compiled modules

  /** The interfaces and enumerations that a namespace lists have its path for their namespace. */
  ghost predicate OwnMembers(m: Module) {
    && (forall n, k, j :: 0 <= n < |m.namespaces| && 0 <= k < |m.namespaces[n].interfaces| && 0 <= j < |m.interfaces| ==>
      (m.interfaces[j].id == m.namespaces[n].interfaces[k].id ==> m.interfaces[j].namespace.Text() == m.namespaces[n].path.Text()))
    && (forall n, k, j :: 0 <= n < |m.namespaces| && 0 <= k < |m.namespaces[n].enumerations| && 0 <= j < |m.enumerations| ==>
      (m.enumerations[j].id == m.namespaces[n].enumerations[k].id ==> m.enumerations[j].namespace.Text() == m.namespaces[n].path.Text()))
  }

  ghost predicate ReturnSomething(m: Module) {
    forall i, k :: 0 <= i < |m.interfaces| && 0 <= k < |m.interfaces[i].methods| ==> m.interfaces[i].methods[k].returnType.Some?
  }

  ghost predicate NoArrays(m: Module) {
    forall k :: 0 <= k < |m.types| ==> KindOf(Peeled(m.types[k])) != Kind.Array
  }

  /** In what is read back from the block of a closed module, every index that the resolver follows is in
      range. */
  lemma CompiledFits(m: Module, size: int)
    requires MetaReferences.Closed(m) && OwnMembers(m) && ReturnSomething(m) && NoArrays(m)
    ensures var mc := ViewModule(m, size);
      && IndexesFit(mc) && AllTypesFit(mc)
      && forall i :: 0 <= i < |mc.interfaces| ==>
           && -1 <= mc.interfaces[i].baseIndex < |mc.interfaces|
           && forall k :: 0 <= k < |mc.interfaces[i].methods| ==> MethodFits(mc, mc.interfaces[i].methods[k])
  {
    var mc := ViewModule(m, size);
    hide NamespaceFits, TypeFits, MethodFits, OwnMembers, ReturnSomething, NoArrays, MetaReferences.Closed, ViewNamespace,
      ViewType, ViewInterface;
    forall n | 0 <= n < |mc.namespaces|
      ensures NamespaceFits(mc, mc.namespaces[n])
    {
      CompiledNamespaceFits(m, size, n);
    }
    forall k | 0 <= k < |mc.types|
      ensures TypeFits(mc, mc.types[k])
    {
      CompiledTypeFits(m, size, k);
    }
    forall i | 0 <= i < |mc.interfaces|
      ensures -1 <= mc.interfaces[i].baseIndex < |mc.interfaces|
      ensures forall k :: 0 <= k < |mc.interfaces[i].methods| ==> MethodFits(mc, mc.interfaces[i].methods[k])
    {
      CompiledInterfaceFits(m, size, i);
    }
  }

  lemma CompiledNamespaceFits(m: Module, size: int, n: nat)
    requires MetaReferences.Closed(m) && OwnMembers(m) && n < |m.namespaces|
    ensures var mc := ViewModule(m, size);
      NamespaceFits(mc, mc.namespaces[n])
  {
    var mc := ViewModule(m, size);
    var x, v := m.namespaces[n], mc.namespaces[n];
    hide FirstIndex;
    assert MetaReferences.NamespaceClosed(m, x);
    forall k | 0 <= k < |v.enumerationIndexes|
      ensures 0 <= v.enumerationIndexes[k] < |mc.enumerations| && mc.enumerations[v.enumerationIndexes[k]].namespace == v.name
    {
      assert Ids(x.enumerations)[k] in m.EnumerationIds();
      var j := v.enumerationIndexes[k];
      assert m.enumerations[j].id == x.enumerations[k].id;
    }
    forall k | 0 <= k < |v.interfaceIndexes|
      ensures 0 <= v.interfaceIndexes[k] < |mc.interfaces| && mc.interfaces[v.interfaceIndexes[k]].namespace == v.name
    {
      assert Ids(x.interfaces)[k] in m.InterfaceIds();
      var j := v.interfaceIndexes[k];
      assert m.interfaces[j].id == x.interfaces[k].id;
    }
  }

  lemma CompiledTypeFits(m: Module, size: int, k: nat)
    requires MetaReferences.Closed(m) && NoArrays(m) && k < |m.types|
    ensures var mc := ViewModule(m, size);
      TypeFits(mc, mc.types[k])
  {
    hide FirstIndex;
    assert MetaReferences.TypeClosed(m, m.types[k]);
    var v := ViewModule(m, size).types[k];
    assert v == ViewType(m, m.types[k]);
  }

  lemma CompiledInterfaceFits(m: Module, size: int, i: nat)
    requires MetaReferences.Closed(m) && ReturnSomething(m) && i < |m.interfaces|
    ensures var mc := ViewModule(m, size);
      && -1 <= mc.interfaces[i].baseIndex < |mc.interfaces|
      && forall k :: 0 <= k < |mc.interfaces[i].methods| ==> MethodFits(mc, mc.interfaces[i].methods[k])
  {
    var mc := ViewModule(m, size);
    var x, v := m.interfaces[i], mc.interfaces[i];
    hide FirstIndex;
    assert MetaReferences.InterfaceClosed(m, x) && v == ViewInterface(m, x);
    forall k | 0 <= k < |v.methods|
      ensures MethodFits(mc, v.methods[k])
    {
      assert MetaReferences.MethodClosed(m, x.methods[k]) && v.methods[k] == ViewMethod(m, x.methods[k]);
      assert x.methods[k].returnType.Some?;
      forall l | 0 <= l < |v.methods[k].parameters|
        ensures 0 <= v.methods[k].parameters[l].typeIndex < |mc.types|
      {
        assert x.methods[k].parameters[l].ty.id in m.TypeIds();
      }
    }
  }

  // ---------------------------------------------------------------- what can be fetched

  function PathsOf(mc: ModuleView): (r: seq<string>)
    ensures |r| == |mc.namespaces| && forall n :: 0 <= n < |r| ==> r[n] == mc.namespaces[n].name
  {
    seq(|mc.namespaces|, n requires 0 <= n < |mc.namespaces| => mc.namespaces[n].name)
  }

  /** Parses the path of every namespace of the metadata and marks what it leads to as not resolved. */
  method InitializeModule(pool: Pool, mc: ModuleView)
    requires pool.Valid()
    modifies pool`mNamespaces, pool`mForest, pool.mNamespaces`mNamespaces, pool.mNamespaces`mResolved
    ensures WellFormed(old(pool.mForest)) && pool.Valid()
    ensures var (f, marks) := Marked(old(pool.mForest), PathsOf(mc));
      pool.mForest == f && pool.Unresolved() == old(pool.Unresolved()) + marks
  {
    hide *;
    ghost var was, f, before, done := pool.mNamespaces, pool.mForest, pool.Unresolved(), [];
    pool.FitsForest();
    NothingMarked(f);
    FirstPaths(mc);
    assert before + {} == before;
    var i := 0;
    while i < |mc.namespaces|
      invariant 0 <= i <= |mc.namespaces| && pool.Valid() && WellFormed(f) && IsFirst(done, PathsOf(mc), i)
      invariant was <= pool.mNamespaces && fresh(pool.mNamespaces[|was|..])
      invariant pool.mForest == Marked(f, done).0 && pool.Unresolved() == before + Marked(f, done).1
    {
      ghost var nss, now, marks := pool.mNamespaces, pool.mForest, Marked(f, done).1;
      var path := mc.namespaces[i].name;
      MarkedStep(f, done, path);
      FirstFits(done, PathsOf(mc), i);
      assert nss == was + nss[|was|..];
      ResolveNamespace(pool, path);
      assert pool.mNamespaces[|was|..] == nss[|was|..] + pool.mNamespaces[|nss|..];
      assert before + marks + {Parsed(now, path).1} == before + (marks + {Parsed(now, path).1});
      done := done + [path];
      i := i + 1;
    }
    FirstIsAll(done, PathsOf(mc));
  }

  lemma FirstPaths(mc: ModuleView)
    ensures IsFirst([], PathsOf(mc), 0)
  {
  }

  method ResolveNamespace(pool: Pool, path: string)
    requires pool.Valid()
    modifies pool`mNamespaces, pool`mForest, pool.mNamespaces`mNamespaces, pool.mNamespaces`mResolved
    ensures WellFormed(old(pool.mForest)) && pool.Valid() && pool.mForest == Parsed(old(pool.mForest), path).0
    ensures pool.Unresolved() == old(pool.Unresolved()) + {Parsed(old(pool.mForest), path).1}
    ensures old(pool.mNamespaces) <= pool.mNamespaces && fresh(pool.mNamespaces[|old(pool.mNamespaces)|..])
  {
    hide *;
    pool.FitsForest();
    pool.UnresolvedIs();
    ghost var nss, k := pool.mNamespaces, Parsed(pool.mForest, path).1;
    var ns := pool.ParseNamespace(path);
    ghost var all := pool.mNamespaces;
    pool.FitsForest();
    assert if k < |nss| then ns == nss[k] else ns == all[|nss|..][k - |nss|];
    ns.mResolved := false;
    pool.UnresolvedIs();
    pool.FitsForest();
    assert forall j: nat :: j < |nss| ==> all[j] == nss[j];
  }

  /** The namespaces of a forest as FindType sees them. */
  ghost function EntriesOf(f: Forest, unresolved: set<nat>): (r: seq<Entry>)
    ensures |r| == |f| && forall k :: 0 <= k < |f| ==> r[k] == Entry(f[k].name, k !in unresolved)
  {
    seq(|f|, k requires 0 <= k < |f| => Entry(f[k].name, k !in unresolved))
  }

  /** `k` is the first namespace with the short name. */
  ghost predicate IsFirstNamed(f: Forest, k: nat, name: Name) {
    k < |f| && f[k].name == name && forall j :: 0 <= j < k ==> f[j].name != name
  }

  lemma {:induction false} FindsFirst(entries: seq<Entry>, name: Name, k: nat)
    requires k < |entries| && entries[k].name == name && forall j :: 0 <= j < k ==> entries[j].name != name
    ensures FindsUnresolved(entries, name) <==> !entries[k].resolved
  {
    if k > 0 {
      FindsFirst(entries[1..], name, k - 1);
    }
  }

  lemma {:induction false} FoundHasName(entries: seq<Entry>, name: Name) returns (k: nat)
    requires FindsUnresolved(entries, name)
    ensures k < |entries| && entries[k].name == name && forall j :: 0 <= j < k ==> entries[j].name != name
  {
    if entries[0].name == name {
      k := 0;
    } else {
      k := FoundHasName(entries[1..], name);
      k := k + 1;
    }
  }

  /** In a pool that was initialised with the metadata, a type can be fetched exactly if the metadata has
      it and the first namespace with the qualifier as its short name, wherever it stands in the tree, is
      one to which a path of the metadata leads. */
  lemma FetchableIff(f: Forest, mc: ModuleView, typeName: string)
    requires WellFormed(f) && IndexesFit(mc)
    ensures var (g, marks) := Marked(f, PathsOf(mc));
      Fetchable(mc, EntriesOf(g, marks), typeName) <==>
      typeName != "" && Locate(mc, typeName).Some?
      && exists k: nat :: IsFirstNamed(g, k, Qualifier(typeName)) && LedTo(g, PathsOf(mc), k)
  {
    hide *;
    var (g, marks) := Marked(f, PathsOf(mc));
    var entries, name := EntriesOf(g, marks), Qualifier(typeName);
    MarkedIffLedTo(f, PathsOf(mc));
    FetchableIs(mc, entries, typeName);
    if FindsUnresolved(entries, name) {
      var k := FoundHasName(entries, name);
      FindsFirst(entries, name, k);
      EntryFirst(g, marks, k, name);
      assert IsFirstNamed(g, k, name) && LedTo(g, PathsOf(mc), k);
    }
    if exists k: nat :: IsFirstNamed(g, k, name) && LedTo(g, PathsOf(mc), k) {
      var k: nat :| IsFirstNamed(g, k, name) && LedTo(g, PathsOf(mc), k);
      EntryFirst(g, marks, k, name);
      FindsFirst(entries, name, k);
    }
  }

  lemma EntryFirst(f: Forest, unresolved: set<nat>, k: nat, name: Name)
    ensures var entries := EntriesOf(f, unresolved);
      && (IsFirstNamed(f, k, name) <==>
            k < |entries| && entries[k].name == name && forall j :: 0 <= j < k ==> entries[j].name != name)
      && (k < |entries| ==> (entries[k].resolved <==> k !in unresolved))
  {
  }

  lemma FetchableIs(mc: ModuleView, entries: seq<Entry>, typeName: string)
    requires IndexesFit(mc)
    ensures Fetchable(mc, entries, typeName) <==>
      typeName != "" && Locate(mc, typeName).Some? && FindsUnresolved(entries, Qualifier(typeName))
  {
  }

  /** A type in the global namespace is never fetched: the path of that namespace is empty, and parsing
      the empty path makes another namespace. */
  lemma GlobalIsNeverFetched(f: Forest, mc: ModuleView, typeName: string)
    requires WellFormed(f) && IndexesFit(mc) && LastSeparator(typeName).None?
    ensures var (g, marks) := Marked(f, PathsOf(mc));
      !Fetchable(mc, EntriesOf(g, marks), typeName)
  {
    var (g, marks) := Marked(f, PathsOf(mc));
    FetchableIff(f, mc, typeName);
    GlobalIsNotLedTo(g, PathsOf(mc));
    hide LedTo, Fetchable, Marked, LastSeparator, Locate;
    assert Qualifier(typeName) == GlobalName == g[0].name;
    FirstIsGlobal(g);
  }

  lemma FirstIsGlobal(f: Forest)
    requires f != [] && f[0].name == GlobalName
    ensures forall k: nat :: IsFirstNamed(f, k, GlobalName) ==> k == 0
  {
  }

  lemma {:induction false} NotAmong(entries: seq<Entry>, name: Name)
    requires forall k :: 0 <= k < |entries| ==> entries[k].name != name
    ensures !FindsUnresolved(entries, name)
  {
    if entries != [] {
      NotAmong(entries[1..], name);
    }
  }

  /** The pool looks for the whole qualifier among short names, so a type in a nested namespace is never
      asked for. */
  lemma NestedIsNeverFetched(entries: seq<Entry>, typeName: string)
    requires forall k :: 0 <= k < |entries| && entries[k].name.Some? ==> FindSeparator(entries[k].name.value).None?
    requires Qualifier(typeName).Some? && FindSeparator(Qualifier(typeName).value).Some?
    ensures !Lazy(entries, typeName)
  {
    hide FindSeparator, Qualifier;
    NotAmong(entries, Qualifier(typeName));
  }

  /** "a::b::I" is not asked for although "b" waits in "a": the pool looks for "a::b". */
  lemma WaitingInVain()
    ensures !Lazy([Entry(GlobalName, true), Entry(Some("a"), true), Entry(Some("b"), false)], "a::b::I")
  {
    var name := "a::b::I";
    assert SeparatorAt(name, 4) && forall k: nat :: 4 < k < |name| ==> !SeparatorAt(name, k);
    assert LastSeparator(name) == Some(4);
    assert name[..4] == "a::b";
    var entries := [Entry(GlobalName, true), Entry(Some("a"), true), Entry(Some("b"), false)];
    hide *;
    NotAmong(entries, Some("a::b"));
  }
}

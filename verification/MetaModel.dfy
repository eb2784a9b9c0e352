/** The module tree that the metadata compiler walks, the records it stores for it, and the
    description of the tree that a reader of the finished block should recover.

    Objects that the source compares by pointer (types, interfaces, enumerations, coclasses,
    constants) carry an `id`; a reference to one is its id. */
module MetaModel {
  import opened Wrappers
  import opened MetaLayout

  // ---------------------------------------------------------------- strings and values

  /** A `ccdl::String`: a null handle or a C string. */
  datatype CString = Null | Str(chars: NulFree) {
    /** What the string pool hands back for this string. */
    function Text(): string {
      if Null? then "" else chars
    }
  }

  datatype Kind =
    | Unknown | Char | Byte | Short | Integer | Long | Float | Double | Boolean | String
    | CoclassID | ComponentID | InterfaceID | HANDLE | ECode | Enum | Array | Interface | Coclass | Triple

  /** The union in a `MetaValue`; `S` is how a string is represented. */
  datatype Value<+S> =
    | Unset | BooleanV(b: bool) | IntegerV(i: int) | LongV(l: int) | FloatV(f: real) | DoubleV(d: real) | TextV(s: S)

  /** The expressions behind constants and default values, as far as the compiler asks. */
  datatype Expression = Expression(integer: int, long: int, character: int, boolean: bool,
                                   float: real, double: real, text: CString, enumerator: CString, radix: nat,
                                   positiveInfinity: bool, negativeInfinity: bool, notANumber: bool, scientific: bool)
  {
    /** SCIENTIFIC_NOTATION_MASK, POSITIVE_INFINITY_MASK, NEGATIVE_INFINITY_MASK and NAN_MASK. */
    function FloatFlags(): nat {
      (if positiveInfinity then 0x20 else 0) + (if negativeInfinity then 0x40 else 0)
      + (if notANumber then 0x80 else 0) + (if scientific then 0x10 else 0)
    }
  }

  // ---------------------------------------------------------------- the module tree

  datatype Type = Type(id: nat, shape: Shape)
  datatype Shape = Plain(kind: Kind) | ArrayOf(element: Type) | PointerTo(base: Type, stars: nat) | ReferenceTo(base: Type)

  function KindOf(t: Type): Kind {
    match t.shape
    case Plain(k) => k
    case ArrayOf(_) => Kind.Array
    case _ => Kind.Unknown
  }

  datatype Parameter = Parameter(name: CString, attribute: int, ty: Type, default: Option<Expression>)
  datatype Method = Method(name: CString, signature: CString, returnType: Option<nat>, parameters: seq<Parameter>,
                           deleted: bool, reference: bool)
  datatype Constant = Constant(id: nat, name: CString, ty: Type, value: Expression)
  datatype Enumerator = Enumerator(name: CString, value: int)
  datatype Enumeration = Enumeration(id: nat, name: CString, namespace: CString, enumerators: seq<Enumerator>,
                                     external: bool, predecl: bool)
  datatype Interface = Interface(id: nat, uuid: nat, name: CString, namespace: CString,
                                 base: Option<nat>, outer: Option<nat>, nested: seq<nat>,
                                 constants: seq<Constant>, methods: seq<Method>, external: bool, predecl: bool)
  datatype Coclass = Coclass(id: nat, uuid: nat, name: CString, namespace: CString, interfaces: seq<nat>,
                             constructorDefault: bool, constructorDeleted: bool)
  datatype Member = Member(id: nat, external: bool)
  datatype Namespace = Namespace(path: CString, wrapped: Option<nat>, constants: seq<nat>, coclasses: seq<nat>,
                                 enumerations: seq<Member>, interfaces: seq<Member>)
  datatype Module = Module(uuid: nat, name: CString, url: CString, namespaces: seq<Namespace>,
                           constants: seq<Constant>, coclasses: seq<Coclass>, enumerations: seq<Enumeration>,
                           interfaces: seq<Interface>, types: seq<Type>)
  {
    function ConstantIds(): seq<nat> { seq(|constants|, i requires 0 <= i < |constants| => constants[i].id) }
    function CoclassIds(): seq<nat> { seq(|coclasses|, i requires 0 <= i < |coclasses| => coclasses[i].id) }
    function EnumerationIds(): seq<nat> { seq(|enumerations|, i requires 0 <= i < |enumerations| => enumerations[i].id) }
    function InterfaceIds(): seq<nat> { seq(|interfaces|, i requires 0 <= i < |interfaces| => interfaces[i].id) }
    function TypeIds(): seq<nat> { seq(|types|, i requires 0 <= i < |types| => types[i].id) }

    function IdsOf(table: Table): seq<nat> {
      match table
      case ConstantTable => ConstantIds()
      case CoclassTable => CoclassIds()
      case EnumerationTable => EnumerationIds()
      case InterfaceTable => InterfaceIds()
      case TypeTable => TypeIds()
    }
  }

  /** The arrays of the component record to whose positions indexes refer. */
  datatype Table = ConstantTable | CoclassTable | EnumerationTable | InterfaceTable | TypeTable

  /** Where the index of a type record points. */
  function TableOf(kind: Kind): Table {
    match kind
    case Enum => EnumerationTable
    case Interface => InterfaceTable
    case Coclass => CoclassTable
    case _ => TypeTable
  }

  function Unreferenced(t: Type): Type {
    if t.shape.ReferenceTo? then t.shape.base else t
  }

  /** What is left after one reference and then one pointer. */
  function Peeled(t: Type): Type {
    var u := Unreferenced(t);
    if u.shape.PointerTo? then u.shape.base else u
  }

  function Ids(ms: seq<Member>): seq<nat> {
    seq(|ms|, i requires 0 <= i < |ms| => ms[i].id)
  }

  function Externals(ms: seq<Member>): nat {
    if ms == [] then 0 else Externals(ms[..|ms| - 1]) + (if ms[|ms| - 1].external then 1 else 0)
  }

  /** The position of the first occurrence of `data`, or -1. */
  function FirstIndex(elements: seq<nat>, data: nat): (r: int)
    ensures data in elements ==> 0 <= r < |elements| && elements[r] == data
    ensures data in elements ==> data !in elements[..r]
    ensures data !in elements ==> r == -1
  {
    if elements == [] then -1
    else if elements[0] == data then 0
    else
      var r := FirstIndex(elements[1..], data);
      assert elements == [elements[0]] + elements[1..];
      if r == -1 then -1 else
        assert elements[..r + 1] == [elements[0]] + elements[1..][..r];
        r + 1
  }

  lemma {:induction false} FirstIndexUnique(elements: seq<nat>, data: nat, i: nat)
    requires i < |elements| && elements[i] == data && data !in elements[..i]
    ensures FirstIndex(elements, data) == i
  {
    if i > 0 {
      assert elements[..i][0] == elements[0];
      assert elements[1..][..i - 1] == elements[..i][1..];
      FirstIndexUnique(elements[1..], data, i - 1);
    }
  }

  function OptionalIndex(elements: seq<nat>, data: Option<nat>): int {
    if data.None? then -1 else FirstIndex(elements, data.value)
  }

  function Indexes(elements: seq<nat>, data: seq<nat>): (r: seq<int>)
    ensures |r| == |data| && forall i :: 0 <= i < |r| ==> r[i] == FirstIndex(elements, data[i])
  {
    seq(|data|, i requires 0 <= i < |data| => FirstIndex(elements, data[i]))
  }

  // ---------------------------------------------------------------- the stored records

  /** `S` stands for a string, `I` for an index array, `C` and `M` for arrays of records: addresses in
      the block, contents in the description a reader recovers. */
  datatype ParameterRec<+S> = ParameterRec(name: S, attribute: int, typeIndex: int, hasDefault: bool, value: Value<S>, attributes: nat)
  datatype MethodRec<+S, +C> = MethodRec(name: S, signature: S, returnTypeIndex: int, parameterNumber: nat, parameters: C, deleted: bool, reference: bool)
  datatype ConstantRec<+S> = ConstantRec(name: S, typeIndex: int, value: Value<S>, attributes: nat)
  datatype EnumeratorRec<+S> = EnumeratorRec(name: S, value: int)
  datatype EnumerationRec<+S, +C> = EnumerationRec(name: S, namespace: S, enumeratorNumber: nat, enumerators: C, external: bool)
  datatype InterfaceRec<+S, +I, +C, +M> =
    InterfaceRec(uuid: nat, name: S, namespace: S, baseIndex: int, outerIndex: int, nestedNumber: nat, constantNumber: nat,
                 methodNumber: nat, nestedIndexes: I, constants: C, methods: M, external: bool)
  datatype CoclassRec<+S, +I> = CoclassRec(uuid: nat, name: S, namespace: S, interfaceNumber: nat, interfaceIndexes: I,
                                           constructorDefault: bool, constructorDeleted: bool)
  datatype NamespaceRec<+S, +I> =
    NamespaceRec(name: S, wrappedIndex: int, constantNumber: nat, coclassNumber: nat, enumerationNumber: nat,
                 externalEnumerationNumber: nat, interfaceNumber: nat, externalInterfaceNumber: nat,
                 constantIndexes: I, coclassIndexes: I, enumerationIndexes: I, interfaceIndexes: I)
  datatype TypeRec = TypeRec(kind: Kind, index: int, nestedIndex: int, pointerNumber: nat, reference: bool)
  datatype ComponentRec<+S, +N, +K, +C, +E, +I, +T> =
    ComponentRec(magic: nat, size: int, uuid: nat, name: S, url: S, namespaceNumber: nat, constantNumber: nat, coclassNumber: nat,
                 enumerationNumber: nat, externalEnumerationNumber: nat, interfaceNumber: nat, externalInterfaceNumber: nat,
                 typeNumber: nat, namespaces: N, constants: K, coclasses: C, enumerations: E, interfaces: I, types: T)

  type ParameterView = ParameterRec<string>
  type MethodView = MethodRec<string, seq<ParameterView>>
  type ConstantView = ConstantRec<string>
  type EnumeratorView = EnumeratorRec<string>
  type EnumerationView = EnumerationRec<string, seq<EnumeratorView>>
  type InterfaceView = InterfaceRec<string, seq<int>, seq<ConstantView>, seq<MethodView>>
  type CoclassView = CoclassRec<string, seq<int>>
  type NamespaceView = NamespaceRec<string, seq<int>>
  type ModuleView = ComponentRec<string, seq<NamespaceView>, seq<ConstantView>, seq<CoclassView>, seq<EnumerationView>, seq<InterfaceView>, seq<TypeRec>>

  const CCM_MAGIC: nat := 0x12E20FD

  // ---------------------------------------------------------------- what a reader should recover

  /** The value stored for a constant, and its attribute byte. */
  function ConstantValue<S>(kind: Kind, e: Expression, text: S, enumerator: S): Value<S> {
    match kind
    case Byte | Short | Integer => IntegerV(e.integer)
    case Long => LongV(e.long)
    case Char => IntegerV(e.character)
    case Float => FloatV(e.float)
    case Double => DoubleV(e.double)
    case Boolean => BooleanV(e.boolean)
    case String => TextV(text)
    case Enum => TextV(enumerator)
    case _ => Unset
  }

  function ConstantAttributes(kind: Kind, e: Expression): nat {
    match kind
    case Byte | Short | Integer | Long | Char => e.radix % 16
    case Float | Double => e.FloatFlags()
    case _ => 0
  }

  /** The value stored for a default argument: strings and enumerators are not stored. */
  function DefaultValue<S>(ty: Type, e: Expression): Value<S> {
    if ty.shape.PointerTo? then LongV(e.long) else
    match KindOf(ty)
    case Byte | Short | Integer => IntegerV(e.integer)
    case Long => LongV(e.long)
    case Char => IntegerV(e.character)
    case Float => FloatV(e.float)
    case Double => DoubleV(e.double)
    case Boolean => BooleanV(e.boolean)
    case _ => Unset
  }

  function DefaultAttributes(ty: Type, e: Expression): nat {
    if KindOf(ty) == Kind.Float || KindOf(ty) == Kind.Double then e.FloatFlags() else 0
  }

  function ViewParameter(m: Module, x: Parameter): ParameterView {
    ParameterRec(x.name.Text(), x.attribute, FirstIndex(m.TypeIds(), x.ty.id), x.default.Some?,
                 if x.default.Some? then DefaultValue(x.ty, x.default.value) else Unset,
                 if x.default.Some? then DefaultAttributes(x.ty, x.default.value) else 0)
  }

  function ViewParameters(m: Module, xs: seq<Parameter>): (r: seq<ParameterView>)
    ensures |r| == |xs| && forall i :: 0 <= i < |xs| ==> r[i] == ViewParameter(m, xs[i])
  {
    seq(|xs|, i requires 0 <= i < |xs| => ViewParameter(m, xs[i]))
  }

  function ViewMethod(m: Module, x: Method): MethodView {
    MethodRec(x.name.Text(), x.signature.Text(), OptionalIndex(m.TypeIds(), x.returnType), |x.parameters|,
              ViewParameters(m, x.parameters),
              x.deleted, x.reference)
  }

  function ViewMethods(m: Module, xs: seq<Method>): (r: seq<MethodView>)
    ensures |r| == |xs| && forall i :: 0 <= i < |xs| ==> r[i] == ViewMethod(m, xs[i])
  {
    seq(|xs|, i requires 0 <= i < |xs| => ViewMethod(m, xs[i]))
  }

  function ViewConstant(m: Module, x: Constant): ConstantView {
    ConstantRec(x.name.Text(), FirstIndex(m.TypeIds(), x.ty.id),
                ConstantValue(KindOf(x.ty), x.value, x.value.text.Text(), x.value.enumerator.Text()),
                ConstantAttributes(KindOf(x.ty), x.value))
  }

  function ViewConstants(m: Module, xs: seq<Constant>): (r: seq<ConstantView>)
    ensures |r| == |xs| && forall i :: 0 <= i < |xs| ==> r[i] == ViewConstant(m, xs[i])
  {
    seq(|xs|, i requires 0 <= i < |xs| => ViewConstant(m, xs[i]))
  }

  function ViewEnumerator(x: Enumerator): EnumeratorView {
    EnumeratorRec(x.name.Text(), x.value)
  }

  function ViewEnumerators(xs: seq<Enumerator>): (r: seq<EnumeratorView>)
    ensures |r| == |xs| && forall i :: 0 <= i < |xs| ==> r[i] == ViewEnumerator(xs[i])
  {
    seq(|xs|, i requires 0 <= i < |xs| => ViewEnumerator(xs[i]))
  }

  function ViewEnumeration(x: Enumeration): EnumerationView {
    EnumerationRec(x.name.Text(), x.namespace.Text(), |x.enumerators|,
                   ViewEnumerators(x.enumerators), x.external)
  }

  function ViewEnumerations(xs: seq<Enumeration>): (r: seq<EnumerationView>)
    ensures |r| == |xs| && forall i :: 0 <= i < |xs| ==> r[i] == ViewEnumeration(xs[i])
  {
    seq(|xs|, i requires 0 <= i < |xs| => ViewEnumeration(xs[i]))
  }

  function ViewInterface(m: Module, x: Interface): InterfaceView {
    InterfaceRec(x.uuid, x.name.Text(), x.namespace.Text(), OptionalIndex(m.InterfaceIds(), x.base),
                 OptionalIndex(m.InterfaceIds(), x.outer), |x.nested|, |x.constants|, |x.methods|,
                 Indexes(m.InterfaceIds(), x.nested),
                 ViewConstants(m, x.constants),
                 ViewMethods(m, x.methods), x.external)
  }

  function ViewInterfaces(m: Module, xs: seq<Interface>): (r: seq<InterfaceView>)
    ensures |r| == |xs| && forall i :: 0 <= i < |xs| ==> r[i] == ViewInterface(m, xs[i])
  {
    seq(|xs|, i requires 0 <= i < |xs| => ViewInterface(m, xs[i]))
  }

  function ViewCoclass(m: Module, x: Coclass): CoclassView {
    CoclassRec(x.uuid, x.name.Text(), x.namespace.Text(), |x.interfaces|, Indexes(m.InterfaceIds(), x.interfaces),
               x.constructorDefault, x.constructorDeleted)
  }

  function ViewCoclasses(m: Module, xs: seq<Coclass>): (r: seq<CoclassView>)
    ensures |r| == |xs| && forall i :: 0 <= i < |xs| ==> r[i] == ViewCoclass(m, xs[i])
  {
    seq(|xs|, i requires 0 <= i < |xs| => ViewCoclass(m, xs[i]))
  }

  function ViewNamespace(m: Module, x: Namespace): NamespaceView {
    NamespaceRec(x.path.Text(), OptionalIndex(m.InterfaceIds(), x.wrapped), |x.constants|, |x.coclasses|, |x.enumerations|,
                 Externals(x.enumerations), |x.interfaces|, Externals(x.interfaces),
                 Indexes(m.ConstantIds(), x.constants), Indexes(m.CoclassIds(), x.coclasses),
                 Indexes(m.EnumerationIds(), Ids(x.enumerations)), Indexes(m.InterfaceIds(), Ids(x.interfaces)))
  }

  function ViewNamespaces(m: Module, xs: seq<Namespace>): (r: seq<NamespaceView>)
    ensures |r| == |xs| && forall i :: 0 <= i < |xs| ==> r[i] == ViewNamespace(m, xs[i])
  {
    seq(|xs|, i requires 0 <= i < |xs| => ViewNamespace(m, xs[i]))
  }

  /** The index is a position in the array that the kind selects. */
  function ViewType(m: Module, t: Type): TypeRec {
    var u, v := Unreferenced(t), Peeled(t);
    TypeRec(KindOf(v), FirstIndex(m.IdsOf(TableOf(KindOf(v))), v.id),
            if v.shape.ArrayOf? then FirstIndex(m.TypeIds(), v.shape.element.id) else -1,
            if u.shape.PointerTo? then u.shape.stars % 256 else 0, t.shape.ReferenceTo?)
  }

  function ViewTypes(m: Module, xs: seq<Type>): (r: seq<TypeRec>)
    ensures |r| == |xs| && forall i :: 0 <= i < |xs| ==> r[i] == ViewType(m, xs[i])
  {
    seq(|xs|, i requires 0 <= i < |xs| => ViewType(m, xs[i]))
  }

  function TotalExternalEnumerations(nss: seq<Namespace>): nat {
    if nss == [] then 0 else TotalExternalEnumerations(nss[..|nss| - 1]) + Externals(nss[|nss| - 1].enumerations)
  }

  function TotalExternalInterfaces(nss: seq<Namespace>): nat {
    if nss == [] then 0 else TotalExternalInterfaces(nss[..|nss| - 1]) + Externals(nss[|nss| - 1].interfaces)
  }

  function ViewModule(m: Module, size: int): ModuleView {
    ComponentRec(CCM_MAGIC, size, m.uuid, m.name.Text(), m.url.Text(), |m.namespaces|, |m.constants|, |m.coclasses|,
                 |m.enumerations|, TotalExternalEnumerations(m.namespaces), |m.interfaces|, TotalExternalInterfaces(m.namespaces),
                 |m.types|,
                 ViewNamespaces(m, m.namespaces),
                 ViewConstants(m, m.constants),
                 ViewCoclasses(m, m.coclasses),
                 ViewEnumerations(m.enumerations),
                 ViewInterfaces(m, m.interfaces),
                 ViewTypes(m, m.types))
  }

  // ---------------------------------------------------------------- layout of each record

  /** Pointer size and alignment, and the size of each record type. */
  datatype Platform = Platform(big: nat, componentSize: nat, namespaceSize: nat, constantSize: nat, coclassSize: nat, enumerationSize: nat,
                               enumeratorSize: nat, interfaceSize: nat, methodSize: nat, parameterSize: nat, typeSize: nat)
  {
    predicate Valid() {
      && (big == 4 || big == 8)
      && componentSize >= 1 && namespaceSize >= 1 && constantSize >= 1 && coclassSize >= 1 && enumerationSize >= 1
      && enumeratorSize >= 1 && interfaceSize >= 1 && methodSize >= 1 && parameterSize >= 1 && typeSize >= 1
    }

    /** The size of `n` pointers. */
    function Span(n: nat): nat {
      if big == 8 then 8 * n else 4 * n
    }

    /** `size` bytes at `a`, with the machine alignment. */
    function Extent(a: nat, size: nat): Region {
      Region(a, a + size, big)
    }

    function OfParameter(x: Parameter): seq<Chunk> { [Chunk(big, parameterSize)] }
    function OfMethodHead(x: Method): seq<Chunk> { [Chunk(big, methodSize), Chunk(big, Span(|x.parameters|))] }
    function OfMethod(x: Method): seq<Chunk> { OfMethodHead(x) + Flat(OfParameter, x.parameters) }
    function OfConstant(x: Constant): seq<Chunk> { [Chunk(big, constantSize)] }
    function OfEnumerator(x: Enumerator): seq<Chunk> { [Chunk(big, enumeratorSize)] }
    function OfEnumerationHead(x: Enumeration): seq<Chunk> { [Chunk(big, enumerationSize), Chunk(big, Span(|x.enumerators|))] }
    function OfEnumeration(x: Enumeration): seq<Chunk> { OfEnumerationHead(x) + Flat(OfEnumerator, x.enumerators) }
    function OfInterfaceHead(x: Interface): seq<Chunk> {
      [Chunk(big, interfaceSize), Chunk(big, 4 * |x.nested|), Chunk(big, Span(|x.constants|)), Chunk(big, Span(|x.methods|))]
    }
    function OfInterface(x: Interface): seq<Chunk> {
      OfInterfaceHead(x) + Flat(OfConstant, x.constants) + Flat(OfMethod, x.methods)
    }
    function OfCoclass(x: Coclass): seq<Chunk> { [Chunk(big, coclassSize), Chunk(4, 4 * |x.interfaces|)] }
    function OfNamespace(x: Namespace): seq<Chunk> {
      [Chunk(big, namespaceSize), Chunk(4, 4 * |x.constants|), Chunk(4, 4 * |x.coclasses|),
       Chunk(4, 4 * |x.enumerations|), Chunk(4, 4 * |x.interfaces|)]
    }
    function OfType(x: Type): seq<Chunk> { [Chunk(big, typeSize)] }

    /** The component record and its six pointer arrays. */
    function Header(m: Module): seq<Chunk> {
      [Chunk(big, componentSize), Chunk(big, Span(|m.namespaces|)), Chunk(big, Span(|m.constants|)), Chunk(big, Span(|m.coclasses|)),
       Chunk(big, Span(|m.enumerations|)), Chunk(big, Span(|m.interfaces|)), Chunk(big, Span(|m.types|))]
    }

    /** Every other record, in the order both passes visit them. */
    function Records(m: Module): seq<Chunk> {
      Flat(OfNamespace, m.namespaces) + Flat(OfConstant, m.constants) + Flat(OfCoclass, m.coclasses)
      + Flat(OfEnumeration, m.enumerations) + Flat(OfInterface, m.interfaces) + Flat(OfType, m.types)
    }
  }

  // ---------------------------------------------------------------- the cursor inside each record

  /** An array of `n` indexes. */
  function Indices(arr: nat, n: nat): Region {
    Region(arr, arr + 4 * n, 4)
  }

  /** Where a record that starts at `c` puts its first array. */
  function AfterRecord(pl: Platform, size: nat, c: nat): nat
    requires pl.Valid()
  {
    AlignUp(AlignUp(c, pl.big) + size, pl.big)
  }

  lemma MethodCursor(pl: Platform, x: Method, c: nat)
    requires pl.Valid()
    ensures Run(pl.OfMethod(x), c) == Run(Flat(pl.OfParameter, x.parameters), AfterRecord(pl, pl.methodSize, c) + pl.Span(|x.parameters|))
    ensures var arr, size := AfterRecord(pl, pl.methodSize, c), pl.Span(|x.parameters|);
      Regions(pl.OfMethod(x), c)
      == [pl.Extent(AlignUp(c, pl.big), pl.methodSize), pl.Extent(arr, size)] + Regions(Flat(pl.OfParameter, x.parameters), arr + size)
  {
    hide AlignUp, Run, Flat, Regions, Platform.Span;
    RunPair(Chunk(pl.big, pl.methodSize), Chunk(pl.big, pl.Span(|x.parameters|)), c);
    RunConcat(pl.OfMethodHead(x), Flat(pl.OfParameter, x.parameters), c);
    RegionsConcat(pl.OfMethodHead(x), Flat(pl.OfParameter, x.parameters), c);
  }

  lemma EnumerationCursor(pl: Platform, x: Enumeration, c: nat)
    requires pl.Valid()
    ensures Run(pl.OfEnumeration(x), c)
         == Run(Flat(pl.OfEnumerator, x.enumerators), AfterRecord(pl, pl.enumerationSize, c) + pl.Span(|x.enumerators|))
    ensures var arr, size := AfterRecord(pl, pl.enumerationSize, c), pl.Span(|x.enumerators|);
      Regions(pl.OfEnumeration(x), c)
      == [pl.Extent(AlignUp(c, pl.big), pl.enumerationSize), pl.Extent(arr, size)]
         + Regions(Flat(pl.OfEnumerator, x.enumerators), arr + size)
  {
    hide AlignUp, Run, Flat, Regions, Platform.Span;
    RunPair(Chunk(pl.big, pl.enumerationSize), Chunk(pl.big, pl.Span(|x.enumerators|)), c);
    RunConcat(pl.OfEnumerationHead(x), Flat(pl.OfEnumerator, x.enumerators), c);
    RegionsConcat(pl.OfEnumerationHead(x), Flat(pl.OfEnumerator, x.enumerators), c);
  }

  /** The three arrays behind an interface record. */
  function InterfaceArrays(pl: Platform, x: Interface, c: nat): (r: (nat, nat, nat, nat))
    requires pl.Valid()
  {
    var nested := AfterRecord(pl, pl.interfaceSize, c);
    var constants := AlignUp(nested + 4 * |x.nested|, pl.big);
    var methods := AlignUp(constants + pl.Span(|x.constants|), pl.big);
    (nested, constants, methods, methods + pl.Span(|x.methods|))
  }

  lemma InterfaceHeadCursor(pl: Platform, x: Interface, c: nat)
    requires pl.Valid()
    ensures Run(pl.OfInterfaceHead(x), c) == InterfaceArrays(pl, x, c).3
    ensures var a := InterfaceArrays(pl, x, c);
      Regions(pl.OfInterfaceHead(x), c)
      == [pl.Extent(AlignUp(c, pl.big), pl.interfaceSize), pl.Extent(a.0, 4 * |x.nested|),
          pl.Extent(a.1, pl.Span(|x.constants|)), pl.Extent(a.2, pl.Span(|x.methods|))]
  {
    hide *;
    InterfaceHeadIs(pl, x, c);
    RunFourAligned(Chunk(pl.big, pl.interfaceSize), Chunk(pl.big, 4 * |x.nested|), Chunk(pl.big, pl.Span(|x.constants|)),
                   Chunk(pl.big, pl.Span(|x.methods|)), c, pl.big);
  }

  lemma InterfaceHeadIs(pl: Platform, x: Interface, c: nat)
    requires pl.Valid()
    ensures IsAlignment(pl.big)
    ensures pl.OfInterfaceHead(x)
         == [Chunk(pl.big, pl.interfaceSize), Chunk(pl.big, 4 * |x.nested|), Chunk(pl.big, pl.Span(|x.constants|)),
             Chunk(pl.big, pl.Span(|x.methods|))]
    ensures var a := InterfaceArrays(pl, x, c);
      && a.0 == AlignUp(AlignUp(c, pl.big) + pl.interfaceSize, pl.big)
      && a.1 == AlignUp(a.0 + 4 * |x.nested|, pl.big) && a.2 == AlignUp(a.1 + pl.Span(|x.constants|), pl.big)
      && a.3 == a.2 + pl.Span(|x.methods|)
    ensures forall p: nat, size: nat :: pl.Extent(p, size) == Region(p, p + size, pl.big)
  {
    hide AlignUp, Platform.Span;
  }

  lemma InterfaceCursor(pl: Platform, x: Interface, c: nat)
    requires pl.Valid()
    ensures Run(pl.OfInterface(x), c)
         == Run(Flat(pl.OfMethod, x.methods), Run(Flat(pl.OfConstant, x.constants), InterfaceArrays(pl, x, c).3))
    ensures var a := InterfaceArrays(pl, x, c);
      Regions(pl.OfInterface(x), c)
      == [pl.Extent(AlignUp(c, pl.big), pl.interfaceSize), pl.Extent(a.0, 4 * |x.nested|),
          pl.Extent(a.1, pl.Span(|x.constants|)), pl.Extent(a.2, pl.Span(|x.methods|))]
         + Regions(Flat(pl.OfConstant, x.constants), a.3)
         + Regions(Flat(pl.OfMethod, x.methods), Run(Flat(pl.OfConstant, x.constants), a.3))
  {
    hide AlignUp, Run, Regions, Platform.Span, Flat, InterfaceArrays, Platform.OfInterfaceHead;
    InterfaceHeadCursor(pl, x, c);
    RunConcat(pl.OfInterfaceHead(x) + Flat(pl.OfConstant, x.constants), Flat(pl.OfMethod, x.methods), c);
    RegionsConcat(pl.OfInterfaceHead(x) + Flat(pl.OfConstant, x.constants), Flat(pl.OfMethod, x.methods), c);
    RunConcat(pl.OfInterfaceHead(x), Flat(pl.OfConstant, x.constants), c);
    RegionsConcat(pl.OfInterfaceHead(x), Flat(pl.OfConstant, x.constants), c);
  }

  lemma CoclassCursor(pl: Platform, x: Coclass, c: nat)
    requires pl.Valid()
    ensures Run(pl.OfCoclass(x), c) == AlignUp(AlignUp(c, pl.big) + pl.coclassSize, 4) + 4 * |x.interfaces|
    ensures Regions(pl.OfCoclass(x), c)
         == [pl.Extent(AlignUp(c, pl.big), pl.coclassSize),
             Indices(AlignUp(AlignUp(c, pl.big) + pl.coclassSize, 4), |x.interfaces|)]
  {
    hide AlignUp;
    RunPair(Chunk(pl.big, pl.coclassSize), Chunk(4, 4 * |x.interfaces|), c);
  }

  /** The four index arrays behind a namespace record. */
  function NamespaceArrays(pl: Platform, x: Namespace, c: nat): (r: (nat, nat, nat, nat))
    requires pl.Valid()
  {
    var constants := AlignUp(AlignUp(c, pl.big) + pl.namespaceSize, 4);
    var coclasses := AlignUp(constants + 4 * |x.constants|, 4);
    var enumerations := AlignUp(coclasses + 4 * |x.coclasses|, 4);
    (constants, coclasses, enumerations, AlignUp(enumerations + 4 * |x.enumerations|, 4))
  }

  lemma NamespaceCursor(pl: Platform, x: Namespace, c: nat)
    requires pl.Valid()
    ensures Run(pl.OfNamespace(x), c) == NamespaceArrays(pl, x, c).3 + 4 * |x.interfaces|
    ensures var a := NamespaceArrays(pl, x, c);
      Regions(pl.OfNamespace(x), c)
      == [pl.Extent(AlignUp(c, pl.big), pl.namespaceSize), Indices(a.0, |x.constants|), Indices(a.1, |x.coclasses|),
          Indices(a.2, |x.enumerations|), Indices(a.3, |x.interfaces|)]
  {
    hide AlignUp, Run, Regions, Place, RegionOf;
    var c0, c1, c2, c3, c4 := Chunk(pl.big, pl.namespaceSize), Chunk(4, 4 * |x.constants|), Chunk(4, 4 * |x.coclasses|),
                              Chunk(4, 4 * |x.enumerations|), Chunk(4, 4 * |x.interfaces|);
    assert pl.OfNamespace(x) == [c0, c1, c2, c3] + [c4];
    RunConcat([c0, c1, c2, c3], [c4], c);
    RegionsConcat([c0, c1, c2, c3], [c4], c);
    RunFour(c0, c1, c2, c3, c);
    RunOne(c4, Run([c0, c1, c2, c3], c));
    PlaceIs(c0, c);
    PlaceIs(c1, Place(c0, c));
    PlaceIs(c2, Place(c1, Place(c0, c)));
    PlaceIs(c3, Place(c2, Place(c1, Place(c0, c))));
    PlaceIs(c4, Run([c0, c1, c2, c3], c));
  }

  /** The six pointer arrays behind the component record, and the end of the last one. */
  function HeaderArrays(pl: Platform, m: Module, c: nat): (r: (nat, nat, nat, nat, nat, nat, nat))
    requires pl.Valid()
  {
    var namespaces := AfterRecord(pl, pl.componentSize, c);
    var constants := AlignUp(namespaces + pl.Span(|m.namespaces|), pl.big);
    var coclasses := AlignUp(constants + pl.Span(|m.constants|), pl.big);
    var enumerations := AlignUp(coclasses + pl.Span(|m.coclasses|), pl.big);
    var interfaces := AlignUp(enumerations + pl.Span(|m.enumerations|), pl.big);
    var types := AlignUp(interfaces + pl.Span(|m.interfaces|), pl.big);
    (namespaces, constants, coclasses, enumerations, interfaces, types, types + pl.Span(|m.types|))
  }

  lemma HeaderCursor(pl: Platform, m: Module, c: nat)
    requires pl.Valid()
    ensures Run(pl.Header(m), c) == HeaderArrays(pl, m, c).6
    ensures var a := HeaderArrays(pl, m, c);
      Regions(pl.Header(m), c)
      == [pl.Extent(AlignUp(c, pl.big), pl.componentSize), pl.Extent(a.0, pl.Span(|m.namespaces|)),
          pl.Extent(a.1, pl.Span(|m.constants|)), pl.Extent(a.2, pl.Span(|m.coclasses|)),
          pl.Extent(a.3, pl.Span(|m.enumerations|)), pl.Extent(a.4, pl.Span(|m.interfaces|)),
          pl.Extent(a.5, pl.Span(|m.types|))]
  {
    hide *;
    var big := pl.big;
    var s0, s1, s2, s3, s4, s5 := pl.Span(|m.namespaces|), pl.Span(|m.constants|), pl.Span(|m.coclasses|),
                                  pl.Span(|m.enumerations|), pl.Span(|m.interfaces|), pl.Span(|m.types|);
    var c0, c1, c2, c3, c4, c5, c6 := Chunk(big, pl.componentSize), Chunk(big, s0), Chunk(big, s1), Chunk(big, s2),
                                      Chunk(big, s3), Chunk(big, s4), Chunk(big, s5);
    HeaderIs(pl, m, c);
    RunSeven(c0, c1, c2, c3, c4, c5, c6, c, big);
  }

  lemma HeaderIs(pl: Platform, m: Module, c: nat)
    requires pl.Valid()
    ensures IsAlignment(pl.big)
    ensures pl.Header(m)
         == [Chunk(pl.big, pl.componentSize), Chunk(pl.big, pl.Span(|m.namespaces|)), Chunk(pl.big, pl.Span(|m.constants|)),
             Chunk(pl.big, pl.Span(|m.coclasses|)), Chunk(pl.big, pl.Span(|m.enumerations|)),
             Chunk(pl.big, pl.Span(|m.interfaces|)), Chunk(pl.big, pl.Span(|m.types|))]
    ensures var a := HeaderArrays(pl, m, c);
      && a.0 == AlignUp(AlignUp(c, pl.big) + pl.componentSize, pl.big)
      && a.1 == AlignUp(a.0 + pl.Span(|m.namespaces|), pl.big) && a.2 == AlignUp(a.1 + pl.Span(|m.constants|), pl.big)
      && a.3 == AlignUp(a.2 + pl.Span(|m.coclasses|), pl.big) && a.4 == AlignUp(a.3 + pl.Span(|m.enumerations|), pl.big)
      && a.5 == AlignUp(a.4 + pl.Span(|m.interfaces|), pl.big) && a.6 == a.5 + pl.Span(|m.types|)
    ensures forall p: nat, size: nat :: pl.Extent(p, size) == Region(p, p + size, pl.big)
  {
    hide AlignUp, Platform.Span;
  }

  /** The record is followed by its arrays, in order and aligned. */
  lemma HeaderOrder(pl: Platform, m: Module, c: nat)
    requires pl.Valid() && Aligned(c, pl.big)
    ensures var a := HeaderArrays(pl, m, c);
      && c + pl.componentSize <= a.0 && a.0 + pl.Span(|m.namespaces|) <= a.1 && a.1 + pl.Span(|m.constants|) <= a.2
      && a.2 + pl.Span(|m.coclasses|) <= a.3 && a.3 + pl.Span(|m.enumerations|) <= a.4
      && a.4 + pl.Span(|m.interfaces|) <= a.5 && a.5 + pl.Span(|m.types|) == a.6
      && Aligned(a.0, pl.big) && Aligned(a.1, pl.big) && Aligned(a.2, pl.big)
      && Aligned(a.3, pl.big) && Aligned(a.4, pl.big) && Aligned(a.5, pl.big)
  {
    hide AlignUp, Platform.Span, Aligned;
  }

  lemma InterfaceOrder(pl: Platform, x: Interface, c: nat)
    requires pl.Valid()
    ensures var a := InterfaceArrays(pl, x, c);
      && AlignUp(c, pl.big) + pl.interfaceSize <= a.0 && a.0 + 4 * |x.nested| <= a.1 && a.1 + pl.Span(|x.constants|) <= a.2
      && a.2 + pl.Span(|x.methods|) == a.3
      && Aligned(a.0, pl.big) && Aligned(a.1, pl.big) && Aligned(a.2, pl.big)
  {
    hide AlignUp, Platform.Span, Aligned;
  }

  lemma SpanStep(pl: Platform, i: nat, n: nat)
    requires pl.Valid() && i < n
    ensures pl.Span(i) + pl.big == pl.Span(i + 1) <= pl.Span(n)
  {
  }

  lemma SpanAligned(pl: Platform, n: nat)
    requires pl.Valid()
    ensures Aligned(pl.Span(n), pl.big)
  {
  }

  lemma HeaderAligned(pl: Platform, m: Module, c: nat)
    requires pl.Valid()
    ensures Aligned(Run(pl.Header(m), c), pl.big)
  {
    hide AlignUp;
    HeaderCursor(pl, m, c);
    SpanAligned(pl, |m.types|);
    AlignedSum(HeaderArrays(pl, m, c).5, pl.Span(|m.types|), pl.big);
  }

  function AfterNamespaces(pl: Platform, m: Module, c: nat): nat { Run(Flat(pl.OfNamespace, m.namespaces), c) }
  function AfterConstants(pl: Platform, m: Module, c: nat): nat { Run(Flat(pl.OfConstant, m.constants), AfterNamespaces(pl, m, c)) }
  function AfterCoclasses(pl: Platform, m: Module, c: nat): nat { Run(Flat(pl.OfCoclass, m.coclasses), AfterConstants(pl, m, c)) }
  function AfterEnumerations(pl: Platform, m: Module, c: nat): nat { Run(Flat(pl.OfEnumeration, m.enumerations), AfterCoclasses(pl, m, c)) }
  function AfterInterfaces(pl: Platform, m: Module, c: nat): nat { Run(Flat(pl.OfInterface, m.interfaces), AfterEnumerations(pl, m, c)) }

  lemma RecordsCursor(pl: Platform, m: Module, c: nat)
    ensures Run(pl.Records(m), c) == Run(Flat(pl.OfType, m.types), AfterInterfaces(pl, m, c))
    ensures Regions(pl.Records(m), c)
         == Regions(Flat(pl.OfNamespace, m.namespaces), c) + Regions(Flat(pl.OfConstant, m.constants), AfterNamespaces(pl, m, c))
            + Regions(Flat(pl.OfCoclass, m.coclasses), AfterConstants(pl, m, c))
            + Regions(Flat(pl.OfEnumeration, m.enumerations), AfterCoclasses(pl, m, c))
            + Regions(Flat(pl.OfInterface, m.interfaces), AfterEnumerations(pl, m, c))
            + Regions(Flat(pl.OfType, m.types), AfterInterfaces(pl, m, c))
  {
    hide Regions, Run, Flat;
    var n, k, l, e, i, t := Flat(pl.OfNamespace, m.namespaces), Flat(pl.OfConstant, m.constants), Flat(pl.OfCoclass, m.coclasses),
                            Flat(pl.OfEnumeration, m.enumerations), Flat(pl.OfInterface, m.interfaces), Flat(pl.OfType, m.types);
    RunConcat(n + k + l + e + i, t, c);
    RunConcat(n + k + l + e, i, c);
    RunConcat(n + k + l, e, c);
    RunConcat(n + k, l, c);
    RunConcat(n, k, c);
    RegionsConcat(n + k + l + e + i, t, c);
    RegionsConcat(n + k + l + e, i, c);
    RegionsConcat(n + k + l, e, c);
    RegionsConcat(n + k, l, c);
    RegionsConcat(n, k, c);
  }

  // ---------------------------------------------------------------- the chunks of a module

  lemma ChunksAreValid(pl: Platform)
    requires pl.Valid()
    ensures forall x :: AllValid(pl.OfNamespace(x), pl.big)
    ensures forall x :: AllValid(pl.OfConstant(x), pl.big)
    ensures forall x :: AllValid(pl.OfCoclass(x), pl.big)
    ensures forall x :: AllValid(pl.OfParameter(x), pl.big)
    ensures forall x :: AllValid(pl.OfEnumerator(x), pl.big)
    ensures forall x :: AllValid(pl.OfType(x), pl.big)
  {
  }

  lemma TreesAreValid(pl: Platform)
    requires pl.Valid()
    ensures forall x :: AllValid(pl.OfMethod(x), pl.big)
    ensures forall x :: AllValid(pl.OfEnumeration(x), pl.big)
    ensures forall x :: AllValid(pl.OfInterface(x), pl.big)
  {
    ChunksAreValid(pl);
    forall x: Method
      ensures AllValid(pl.OfMethod(x), pl.big)
    {
      FlatValid(pl.OfParameter, x.parameters, pl.big);
    }
    forall x: Enumeration
      ensures AllValid(pl.OfEnumeration(x), pl.big)
    {
      FlatValid(pl.OfEnumerator, x.enumerators, pl.big);
    }
    forall x: Interface
      ensures AllValid(pl.OfInterface(x), pl.big)
    {
      FlatValid(pl.OfConstant, x.constants, pl.big);
      FlatValid(pl.OfMethod, x.methods, pl.big);
    }
  }

  /** Each record starts with a chunk that has the machine alignment; so the first record does. */
  lemma {:induction false} FlatStartsAligned<T>(f: T -> seq<Chunk>, xs: seq<T>, big: nat)
    requires forall x :: f(x) != [] && f(x)[0].align == big
    ensures xs != [] ==> Flat(f, xs) != []
    ensures Flat(f, xs) != [] ==> Flat(f, xs)[0].align == big
  {
    if xs != [] {
      FlatStartsAligned(f, xs[..|xs| - 1], big);
    }
  }

  /** Valid chunks, the first of which (if any) has the machine alignment. */
  ghost predicate WellPlaced(cs: seq<Chunk>, big: nat) {
    AllValid(cs, big) && (cs != [] ==> cs[0].align == big)
  }

  lemma WellPlacedJoin(a: seq<Chunk>, b: seq<Chunk>, big: nat)
    requires WellPlaced(a, big) && WellPlaced(b, big)
    ensures WellPlaced(a + b, big)
  {
  }

  lemma WellPlacedFlat<T(!new)>(f: T -> seq<Chunk>, xs: seq<T>, big: nat)
    requires forall x :: f(x) != [] && f(x)[0].align == big && AllValid(f(x), big)
    ensures WellPlaced(Flat(f, xs), big)
  {
    FlatValid(f, xs, big);
    FlatStartsAligned(f, xs, big);
  }

  lemma RecordsWellPlaced(pl: Platform, m: Module)
    requires pl.Valid()
    ensures WellPlaced(pl.Records(m), pl.big)
  {
    ChunksAreValid(pl);
    TreesAreValid(pl);
    hide WellPlaced, AllValid, Flat;
    WellPlacedFlat(pl.OfNamespace, m.namespaces, pl.big);
    WellPlacedFlat(pl.OfConstant, m.constants, pl.big);
    WellPlacedFlat(pl.OfCoclass, m.coclasses, pl.big);
    WellPlacedFlat(pl.OfEnumeration, m.enumerations, pl.big);
    WellPlacedFlat(pl.OfInterface, m.interfaces, pl.big);
    WellPlacedFlat(pl.OfType, m.types, pl.big);
    var n, k, l, e, i, t := Flat(pl.OfNamespace, m.namespaces), Flat(pl.OfConstant, m.constants), Flat(pl.OfCoclass, m.coclasses),
                            Flat(pl.OfEnumeration, m.enumerations), Flat(pl.OfInterface, m.interfaces), Flat(pl.OfType, m.types);
    WellPlacedJoin(n, k, pl.big);
    WellPlacedJoin(n + k, l, pl.big);
    WellPlacedJoin(n + k + l, e, pl.big);
    WellPlacedJoin(n + k + l + e, i, pl.big);
    WellPlacedJoin(n + k + l + e + i, t, pl.big);
  }

  /** The layout of a module meets what the arithmetic of the two passes needs, and ends with the
      record of its last type. */
  lemma LayoutIsValid(pl: Platform, m: Module)
    requires pl.Valid() && m.types != []
    ensures AllValid(pl.Header(m), pl.big) && AllValid(pl.Records(m), pl.big)
    ensures pl.Records(m) != [] && pl.Records(m)[0].align == pl.big
    ensures pl.Records(m)[|pl.Records(m)| - 1] == Chunk(pl.big, pl.typeSize)
  {
    RecordsWellPlaced(pl, m);
    assert Flat(pl.OfType, m.types) == Flat(pl.OfType, m.types[..|m.types| - 1]) + [Chunk(pl.big, pl.typeSize)];
  }
}

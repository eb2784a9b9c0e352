/** The metadata block as memory, and a reader that follows its pointers.

    A byte of the block is untouched (`Zero`, as calloc left it), one character of the string pool, or
    the k-th byte of the representation of some object.  Reading an object needs all of its bytes, so
    an object that was partly overwritten cannot be read back. */
module MetaBlock {
  import opened Wrappers
  import opened MetaLayout
  import opened MetaModel

  datatype Object =
    | OPointer(a: nat)
    | OInt(v: int)
    | OParameter(parameter: ParameterRec<nat>)
    | OMethod(method_: MethodRec<nat, nat>)
    | OConstant(constant: ConstantRec<nat>)
    | OEnumerator(enumerator: EnumeratorRec<nat>)
    | OEnumeration(enumeration: EnumerationRec<nat, nat>)
    | OInterface(interface: InterfaceRec<nat, nat, nat, nat>)
    | OCoclass(coclass: CoclassRec<nat, nat>)
    | ONamespace(namespace: NamespaceRec<nat, nat>)
    | OType(ty: TypeRec)
    | OComponent(component: ComponentRec<nat, nat, nat, nat, nat, nat, nat>)

  datatype Cell = Zero | Part(o: Object, k: nat) | Chr(c: char)

  datatype Block = Block(pl: Platform, base: nat, cells: seq<Cell>) {
    predicate Has(a: nat, size: nat) {
      base <= a && a + size <= base + |cells|
    }

    function At(a: nat): Cell
      requires Has(a, 1)
    {
      cells[a - base]
    }

    /** The object whose bytes fill `[a, a + size)`, if there is one and it is aligned. */
    function Load(a: nat, size: nat, align: nat): Option<Object> {
      if size >= 1 && Has(a, size) && Aligned(a, align) && At(a).Part?
         && forall i :: a - base <= i < a - base + size ==> cells[i] == Part(At(a).o, i - (a - base))
      then Some(At(a).o)
      else None
    }

    function LoadPointer(a: nat): Option<nat> {
      match Load(a, pl.big, pl.big)
      case Some(OPointer(p)) => Some(p)
      case _ => None
    }

    function LoadInt(a: nat): Option<int> {
      match Load(a, 4, 4)
      case Some(OInt(v)) => Some(v)
      case _ => None
    }

    /** The NUL-terminated string at `a`. */
    function ReadText(a: nat): Option<string>
      decreases base + |cells| - a
    {
      if !Has(a, 1) then None else
      match At(a)
      case Chr(c) => if c == '\0' then Some("") else (var rest :- ReadText(a + 1); Some([c] + rest))
      case _ => None
    }

    function Store(a: nat, size: nat, o: Object): Block
      requires Has(a, size)
    {
      this.(cells := cells[..a - base] + seq(size, (k: nat) => Part(o, k)) + cells[a - base + size..])
    }

    ghost predicate ZeroIn(lo: nat, hi: nat) {
      forall i :: 0 <= i < |cells| && lo <= base + i < hi ==> cells[i] == Zero
    }

    ghost predicate ZeroFrom(lo: nat) {
      forall i :: 0 <= i < |cells| && lo <= base + i ==> cells[i] == Zero
    }
  }

  /** Two objects that can both be read share no byte, unless they are the same object. */
  lemma ObjectsDoNotOverlap(b: Block, p: nat, m: nat, a: nat, q: nat, n: nat, c: nat)
    requires b.Load(p, m, a).Some? && b.Load(q, n, c).Some?
    ensures p + m <= q || q + n <= p || (p == q && b.Load(p, m, a) == b.Load(q, n, c))
  {
    if p < q + n && q < p + m {
      var x := if p <= q then q else p;
      assert b.cells[x - b.base] == Part(b.At(p).o, x - p);
      assert b.cells[x - b.base] == Part(b.At(q).o, x - q);
    }
  }

  // ---------------------------------------------------------------- growth

  /** Every byte that was written in `b` is still there in `c`. */
  ghost predicate Extends(b: Block, c: Block) {
    && c.pl == b.pl && c.base == b.base && |c.cells| == |b.cells|
    && forall i :: 0 <= i < |b.cells| && b.cells[i] != Zero ==> c.cells[i] == b.cells[i]
  }

  /** Nothing below `lo` differs. */
  ghost predicate SameBelow(b: Block, c: Block, lo: nat) {
    && c.pl == b.pl && c.base == b.base && |c.cells| == |b.cells|
    && forall i :: 0 <= i < |b.cells| && b.base + i < lo ==> c.cells[i] == b.cells[i]
  }

  lemma GrowthExtends(b: Block, c: Block, lo: nat)
    requires SameBelow(b, c, lo) && b.ZeroFrom(lo)
    ensures Extends(b, c)
  {
  }

  lemma StoreFacts(b: Block, a: nat, size: nat, align: nat, o: Object)
    requires b.Has(a, size) && size >= 1 && Aligned(a, align)
    ensures var c := b.Store(a, size, o);
      && c.Load(a, size, align) == Some(o)
      && c.pl == b.pl && c.base == b.base && |c.cells| == |b.cells|
      && (forall i :: 0 <= i < |b.cells| && !(a <= b.base + i < a + size) ==> c.cells[i] == b.cells[i])
  {
  }

  /** A block with the bytes of the object in place and all others as before. */
  lemma StoredIs(b: Block, c: Block, a: nat, size: nat, o: Object)
    requires b.Has(a, size) && c.pl == b.pl && c.base == b.base && |c.cells| == |b.cells|
    requires forall i :: 0 <= i < |b.cells| ==>
      c.cells[i] == if a - b.base <= i < a - b.base + size then Part(o, i - (a - b.base)) else b.cells[i]
    ensures c == b.Store(a, size, o)
  {
  }

  lemma StoreExtends(b: Block, a: nat, size: nat, o: Object)
    requires b.Has(a, size) && b.ZeroIn(a, a + size)
    ensures Extends(b, b.Store(a, size, o))
  {
  }

  lemma LoadKeeps(b: Block, c: Block, a: nat, size: nat, align: nat)
    requires Extends(b, c) && b.Load(a, size, align).Some?
    ensures c.Load(a, size, align) == b.Load(a, size, align)
  {
    assert c.At(a) == b.At(a);
  }

  lemma {:induction false} TextKeeps(b: Block, c: Block, a: nat)
    requires Extends(b, c) && b.ReadText(a).Some?
    ensures c.ReadText(a) == b.ReadText(a)
    decreases b.base + |b.cells| - a
  {
    assert c.At(a) == b.At(a);
    if b.At(a).c != '\0' {
      TextKeeps(b, c, a + 1);
    }
  }

  // ---------------------------------------------------------------- arrays

  /** What was read, and the memory it was read from: the region of each record and of each array. */
  datatype Seen<+V> = Seen(view: V, regions: seq<Region>)

  /** The records that the `n` pointers at `arr` lead to. */
  function DecodeArray<V>(b: Block, arr: nat, n: nat, d: nat -> Option<Seen<V>>): Option<Seen<seq<V>>> {
    if n == 0 then Some(Seen([], [])) else
    var before :- DecodeArray(b, arr, n - 1, d);
    var p :- b.LoadPointer(arr + b.pl.Span(n - 1));
    var v :- d(p);
    Some(Seen(before.view + [v.view], before.regions + v.regions))
  }

  function DecodeInts(b: Block, arr: nat, n: nat): Option<seq<int>> {
    if n == 0 then Some([]) else
    var before :- DecodeInts(b, arr, n - 1);
    var v :- b.LoadInt(arr + (n - 1) * 4);
    Some(before + [v])
  }

  /** Whatever `d` can read, `e` reads the same. */
  ghost predicate Keeps<V(!new)>(d: nat -> Option<V>, e: nat -> Option<V>) {
    forall p :: d(p).Some? ==> e(p) == d(p)
  }

  lemma {:induction false} ArrayKeeps<V(!new)>(b: Block, c: Block, arr: nat, n: nat, d: nat -> Option<Seen<V>>, e: nat -> Option<Seen<V>>)
    requires Extends(b, c) && Keeps(d, e) && DecodeArray(b, arr, n, d).Some?
    ensures DecodeArray(c, arr, n, e) == DecodeArray(b, arr, n, d)
  {
    hide Block.Load;
    if n != 0 {
      ArrayKeeps(b, c, arr, n - 1, d, e);
      LoadKeeps(b, c, arr + b.pl.Span(n - 1), b.pl.big, b.pl.big);
    }
  }

  lemma {:induction false} IntsKeep(b: Block, c: Block, arr: nat, n: nat)
    requires Extends(b, c) && DecodeInts(b, arr, n).Some?
    ensures DecodeInts(c, arr, n) == DecodeInts(b, arr, n)
  {
    hide Block.Load;
    if n != 0 {
      IntsKeep(b, c, arr, n - 1);
      LoadKeeps(b, c, arr + (n - 1) * 4, 4, 4);
    }
  }

  // ---------------------------------------------------------------- the reader

  function DecodeValue(b: Block, v: Value<nat>): Option<Value<string>> {
    match v
    case TextV(a) => (var s :- b.ReadText(a); Some(TextV(s)))
    case Unset => Some(Unset)
    case BooleanV(x) => Some(BooleanV(x))
    case IntegerV(x) => Some(IntegerV(x))
    case LongV(x) => Some(LongV(x))
    case FloatV(x) => Some(FloatV(x))
    case DoubleV(x) => Some(DoubleV(x))
  }

  /** Default arguments hold no address ... */
  lemma DefaultReads(b: Block, ty: Type, e: Expression)
    ensures DecodeValue(b, DefaultValue(ty, e)) == Some(DefaultValue(ty, e))
    ensures DecodeValue(b, Unset) == Some(Unset)
  {
  }

  /** ... and constants at most one. */
  lemma ConstantReads(b: Block, kind: Kind, e: Expression, textAt: nat, enumeratorAt: nat, text: string, enumerator: string)
    requires kind == Kind.String ==> b.ReadText(textAt) == Some(text)
    requires kind == Kind.Enum ==> b.ReadText(enumeratorAt) == Some(enumerator)
    ensures DecodeValue(b, ConstantValue(kind, e, textAt, enumeratorAt)) == Some(ConstantValue(kind, e, text, enumerator))
  {
  }

  function DecodeParameter(b: Block, p: nat): Option<Seen<ParameterView>> {
    match b.Load(p, b.pl.parameterSize, b.pl.big)
    case Some(OParameter(r)) =>
      var name :- b.ReadText(r.name);
      var value :- DecodeValue(b, r.value);
      Some(Seen(ParameterRec(name, r.attribute, r.typeIndex, r.hasDefault, value, r.attributes),
                [b.pl.Extent(p, b.pl.parameterSize)]))
    case _ => None
  }

  function ParameterReader(b: Block): nat -> Option<Seen<ParameterView>> { (p: nat) => DecodeParameter(b, p) }

  function DecodeMethod(b: Block, p: nat): Option<Seen<MethodView>> {
    match b.Load(p, b.pl.methodSize, b.pl.big)
    case Some(OMethod(r)) =>
      var name :- b.ReadText(r.name);
      var signature :- b.ReadText(r.signature);
      var parameters :- DecodeArray(b, r.parameters, r.parameterNumber, ParameterReader(b));
      Some(Seen(MethodRec(name, signature, r.returnTypeIndex, r.parameterNumber, parameters.view, r.deleted, r.reference),
                [b.pl.Extent(p, b.pl.methodSize), b.pl.Extent(r.parameters, b.pl.Span(r.parameterNumber))] + parameters.regions))
    case _ => None
  }

  function MethodReader(b: Block): nat -> Option<Seen<MethodView>> { (p: nat) => DecodeMethod(b, p) }

  function DecodeConstant(b: Block, p: nat): Option<Seen<ConstantView>> {
    match b.Load(p, b.pl.constantSize, b.pl.big)
    case Some(OConstant(r)) =>
      var name :- b.ReadText(r.name);
      var value :- DecodeValue(b, r.value);
      Some(Seen(ConstantRec(name, r.typeIndex, value, r.attributes), [b.pl.Extent(p, b.pl.constantSize)]))
    case _ => None
  }

  function ConstantReader(b: Block): nat -> Option<Seen<ConstantView>> { (p: nat) => DecodeConstant(b, p) }

  function DecodeEnumerator(b: Block, p: nat): Option<Seen<EnumeratorView>> {
    match b.Load(p, b.pl.enumeratorSize, b.pl.big)
    case Some(OEnumerator(r)) =>
      var name :- b.ReadText(r.name);
      Some(Seen(EnumeratorRec(name, r.value), [b.pl.Extent(p, b.pl.enumeratorSize)]))
    case _ => None
  }

  function EnumeratorReader(b: Block): nat -> Option<Seen<EnumeratorView>> { (p: nat) => DecodeEnumerator(b, p) }

  function DecodeEnumeration(b: Block, p: nat): Option<Seen<EnumerationView>> {
    match b.Load(p, b.pl.enumerationSize, b.pl.big)
    case Some(OEnumeration(r)) =>
      var name :- b.ReadText(r.name);
      var namespace :- b.ReadText(r.namespace);
      var enumerators :- DecodeArray(b, r.enumerators, r.enumeratorNumber, EnumeratorReader(b));
      Some(Seen(EnumerationRec(name, namespace, r.enumeratorNumber, enumerators.view, r.external),
                [b.pl.Extent(p, b.pl.enumerationSize), b.pl.Extent(r.enumerators, b.pl.Span(r.enumeratorNumber))] + enumerators.regions))
    case _ => None
  }

  function EnumerationReader(b: Block): nat -> Option<Seen<EnumerationView>> { (p: nat) => DecodeEnumeration(b, p) }

  function DecodeInterface(b: Block, p: nat): Option<Seen<InterfaceView>> {
    match b.Load(p, b.pl.interfaceSize, b.pl.big)
    case Some(OInterface(r)) =>
      var name :- b.ReadText(r.name);
      var namespace :- b.ReadText(r.namespace);
      var nested :- DecodeInts(b, r.nestedIndexes, r.nestedNumber);
      var constants :- DecodeArray(b, r.constants, r.constantNumber, ConstantReader(b));
      var methods :- DecodeArray(b, r.methods, r.methodNumber, MethodReader(b));
      Some(Seen(InterfaceRec(r.uuid, name, namespace, r.baseIndex, r.outerIndex, r.nestedNumber, r.constantNumber,
                             r.methodNumber, nested, constants.view, methods.view, r.external),
                [b.pl.Extent(p, b.pl.interfaceSize), b.pl.Extent(r.nestedIndexes, 4 * r.nestedNumber),
                 b.pl.Extent(r.constants, b.pl.Span(r.constantNumber)), b.pl.Extent(r.methods, b.pl.Span(r.methodNumber))]
                + constants.regions + methods.regions))
    case _ => None
  }

  function InterfaceReader(b: Block): nat -> Option<Seen<InterfaceView>> { (p: nat) => DecodeInterface(b, p) }

  function DecodeCoclass(b: Block, p: nat): Option<Seen<CoclassView>> {
    match b.Load(p, b.pl.coclassSize, b.pl.big)
    case Some(OCoclass(r)) =>
      var name :- b.ReadText(r.name);
      var namespace :- b.ReadText(r.namespace);
      var interfaces :- DecodeInts(b, r.interfaceIndexes, r.interfaceNumber);
      Some(Seen(CoclassRec(r.uuid, name, namespace, r.interfaceNumber, interfaces, r.constructorDefault, r.constructorDeleted),
                [b.pl.Extent(p, b.pl.coclassSize), Indices(r.interfaceIndexes, r.interfaceNumber)]))
    case _ => None
  }

  function CoclassReader(b: Block): nat -> Option<Seen<CoclassView>> { (p: nat) => DecodeCoclass(b, p) }

  function DecodeNamespace(b: Block, p: nat): Option<Seen<NamespaceView>> {
    match b.Load(p, b.pl.namespaceSize, b.pl.big)
    case Some(ONamespace(r)) =>
      var name :- b.ReadText(r.name);
      var constants :- DecodeInts(b, r.constantIndexes, r.constantNumber);
      var coclasses :- DecodeInts(b, r.coclassIndexes, r.coclassNumber);
      var enumerations :- DecodeInts(b, r.enumerationIndexes, r.enumerationNumber);
      var interfaces :- DecodeInts(b, r.interfaceIndexes, r.interfaceNumber);
      Some(Seen(NamespaceRec(name, r.wrappedIndex, r.constantNumber, r.coclassNumber, r.enumerationNumber,
                             r.externalEnumerationNumber, r.interfaceNumber, r.externalInterfaceNumber,
                             constants, coclasses, enumerations, interfaces),
                [b.pl.Extent(p, b.pl.namespaceSize), Indices(r.constantIndexes, r.constantNumber),
                 Indices(r.coclassIndexes, r.coclassNumber), Indices(r.enumerationIndexes, r.enumerationNumber),
                 Indices(r.interfaceIndexes, r.interfaceNumber)]))
    case _ => None
  }

  function NamespaceReader(b: Block): nat -> Option<Seen<NamespaceView>> { (p: nat) => DecodeNamespace(b, p) }

  function DecodeType(b: Block, p: nat): Option<Seen<TypeRec>> {
    match b.Load(p, b.pl.typeSize, b.pl.big)
    case Some(OType(r)) => Some(Seen(r, [b.pl.Extent(p, b.pl.typeSize)]))
    case _ => None
  }

  function TypeReader(b: Block): nat -> Option<Seen<TypeRec>> { (p: nat) => DecodeType(b, p) }

  /** The component record and its six arrays. */
  function HeaderRegions(b: Block, p: nat, r: ComponentRec<nat, nat, nat, nat, nat, nat, nat>): seq<Region> {
    [b.pl.Extent(p, b.pl.componentSize), b.pl.Extent(r.namespaces, b.pl.Span(r.namespaceNumber)),
     b.pl.Extent(r.constants, b.pl.Span(r.constantNumber)), b.pl.Extent(r.coclasses, b.pl.Span(r.coclassNumber)),
     b.pl.Extent(r.enumerations, b.pl.Span(r.enumerationNumber)), b.pl.Extent(r.interfaces, b.pl.Span(r.interfaceNumber)),
     b.pl.Extent(r.types, b.pl.Span(r.typeNumber))]
  }

  /** The whole block, from the component record at its start. */
  function DecodeModule(b: Block, p: nat): Option<Seen<ModuleView>> {
    match b.Load(p, b.pl.componentSize, b.pl.big)
    case Some(OComponent(r)) =>
      var name :- b.ReadText(r.name);
      var url :- b.ReadText(r.url);
      var namespaces :- DecodeArray(b, r.namespaces, r.namespaceNumber, NamespaceReader(b));
      var constants :- DecodeArray(b, r.constants, r.constantNumber, ConstantReader(b));
      var coclasses :- DecodeArray(b, r.coclasses, r.coclassNumber, CoclassReader(b));
      var enumerations :- DecodeArray(b, r.enumerations, r.enumerationNumber, EnumerationReader(b));
      var interfaces :- DecodeArray(b, r.interfaces, r.interfaceNumber, InterfaceReader(b));
      var types :- DecodeArray(b, r.types, r.typeNumber, TypeReader(b));
      Some(Seen(ComponentRec(r.magic, r.size, r.uuid, name, url, r.namespaceNumber, r.constantNumber, r.coclassNumber,
                             r.enumerationNumber, r.externalEnumerationNumber, r.interfaceNumber, r.externalInterfaceNumber,
                             r.typeNumber, namespaces.view, constants.view, coclasses.view, enumerations.view,
                             interfaces.view, types.view),
                HeaderRegions(b, p, r)
                + namespaces.regions + constants.regions + coclasses.regions + enumerations.regions + interfaces.regions
                + types.regions))
    case _ => None
  }

  // ---------------------------------------------------------------- what was readable stays readable

  lemma ValueKeeps(b: Block, c: Block, v: Value<nat>)
    requires Extends(b, c) && DecodeValue(b, v).Some?
    ensures DecodeValue(c, v) == DecodeValue(b, v)
  {
    if v.TextV? {
      TextKeeps(b, c, v.s);
    }
  }

  lemma ParametersKeep(b: Block, c: Block)
    requires Extends(b, c)
    ensures Keeps(ParameterReader(b), ParameterReader(c))
  {
    forall p | DecodeParameter(b, p).Some?
      ensures DecodeParameter(c, p) == DecodeParameter(b, p)
    {
      LoadKeeps(b, c, p, b.pl.parameterSize, b.pl.big);
      var r := b.Load(p, b.pl.parameterSize, b.pl.big).value.parameter;
      TextKeeps(b, c, r.name);
      ValueKeeps(b, c, r.value);
    }
  }

  lemma MethodsKeep(b: Block, c: Block)
    requires Extends(b, c)
    ensures Keeps(MethodReader(b), MethodReader(c))
  {
    ParametersKeep(b, c);
    forall p | DecodeMethod(b, p).Some?
      ensures DecodeMethod(c, p) == DecodeMethod(b, p)
    {
      LoadKeeps(b, c, p, b.pl.methodSize, b.pl.big);
      var r := b.Load(p, b.pl.methodSize, b.pl.big).value.method_;
      TextKeeps(b, c, r.name);
      TextKeeps(b, c, r.signature);
      ArrayKeeps(b, c, r.parameters, r.parameterNumber, ParameterReader(b), ParameterReader(c));
    }
  }

  lemma ConstantsKeep(b: Block, c: Block)
    requires Extends(b, c)
    ensures Keeps(ConstantReader(b), ConstantReader(c))
  {
    forall p | DecodeConstant(b, p).Some?
      ensures DecodeConstant(c, p) == DecodeConstant(b, p)
    {
      LoadKeeps(b, c, p, b.pl.constantSize, b.pl.big);
      var r := b.Load(p, b.pl.constantSize, b.pl.big).value.constant;
      TextKeeps(b, c, r.name);
      ValueKeeps(b, c, r.value);
    }
  }

  lemma EnumeratorsKeep(b: Block, c: Block)
    requires Extends(b, c)
    ensures Keeps(EnumeratorReader(b), EnumeratorReader(c))
  {
    forall p | DecodeEnumerator(b, p).Some?
      ensures DecodeEnumerator(c, p) == DecodeEnumerator(b, p)
    {
      LoadKeeps(b, c, p, b.pl.enumeratorSize, b.pl.big);
      TextKeeps(b, c, b.Load(p, b.pl.enumeratorSize, b.pl.big).value.enumerator.name);
    }
  }

  lemma EnumerationsKeep(b: Block, c: Block)
    requires Extends(b, c)
    ensures Keeps(EnumerationReader(b), EnumerationReader(c))
  {
    EnumeratorsKeep(b, c);
    forall p | DecodeEnumeration(b, p).Some?
      ensures DecodeEnumeration(c, p) == DecodeEnumeration(b, p)
    {
      LoadKeeps(b, c, p, b.pl.enumerationSize, b.pl.big);
      var r := b.Load(p, b.pl.enumerationSize, b.pl.big).value.enumeration;
      TextKeeps(b, c, r.name);
      TextKeeps(b, c, r.namespace);
      ArrayKeeps(b, c, r.enumerators, r.enumeratorNumber, EnumeratorReader(b), EnumeratorReader(c));
    }
  }

  lemma InterfacesKeep(b: Block, c: Block)
    requires Extends(b, c)
    ensures Keeps(InterfaceReader(b), InterfaceReader(c))
  {
    ConstantsKeep(b, c);
    MethodsKeep(b, c);
    forall p | DecodeInterface(b, p).Some?
      ensures DecodeInterface(c, p) == DecodeInterface(b, p)
    {
      InterfaceKeeps(b, c, p);
    }
  }

  lemma InterfaceKeeps(b: Block, c: Block, p: nat)
    requires Extends(b, c) && DecodeInterface(b, p).Some?
    requires Keeps(ConstantReader(b), ConstantReader(c)) && Keeps(MethodReader(b), MethodReader(c))
    ensures DecodeInterface(c, p) == DecodeInterface(b, p)
  {
    hide Block.Load, Block.ReadText, DecodeArray, DecodeInts, Keeps, ConstantReader, MethodReader;
    assert c.pl == b.pl;
    LoadKeeps(b, c, p, b.pl.interfaceSize, b.pl.big);
    var r := b.Load(p, b.pl.interfaceSize, b.pl.big).value.interface;
    TextKeeps(b, c, r.name);
    TextKeeps(b, c, r.namespace);
    IntsKeep(b, c, r.nestedIndexes, r.nestedNumber);
    ArrayKeeps(b, c, r.constants, r.constantNumber, ConstantReader(b), ConstantReader(c));
    ArrayKeeps(b, c, r.methods, r.methodNumber, MethodReader(b), MethodReader(c));
    hide Extends;
  }

  lemma CoclassesKeep(b: Block, c: Block)
    requires Extends(b, c)
    ensures Keeps(CoclassReader(b), CoclassReader(c))
  {
    forall p | DecodeCoclass(b, p).Some?
      ensures DecodeCoclass(c, p) == DecodeCoclass(b, p)
    {
      LoadKeeps(b, c, p, b.pl.coclassSize, b.pl.big);
      var r := b.Load(p, b.pl.coclassSize, b.pl.big).value.coclass;
      TextKeeps(b, c, r.name);
      TextKeeps(b, c, r.namespace);
      IntsKeep(b, c, r.interfaceIndexes, r.interfaceNumber);
    }
  }

  lemma NamespacesKeep(b: Block, c: Block)
    requires Extends(b, c)
    ensures Keeps(NamespaceReader(b), NamespaceReader(c))
  {
    forall p | DecodeNamespace(b, p).Some?
      ensures DecodeNamespace(c, p) == DecodeNamespace(b, p)
    {
      LoadKeeps(b, c, p, b.pl.namespaceSize, b.pl.big);
      var r := b.Load(p, b.pl.namespaceSize, b.pl.big).value.namespace;
      TextKeeps(b, c, r.name);
      IntsKeep(b, c, r.constantIndexes, r.constantNumber);
      IntsKeep(b, c, r.coclassIndexes, r.coclassNumber);
      IntsKeep(b, c, r.enumerationIndexes, r.enumerationNumber);
      IntsKeep(b, c, r.interfaceIndexes, r.interfaceNumber);
    }
  }

  lemma TypesKeep(b: Block, c: Block)
    requires Extends(b, c)
    ensures Keeps(TypeReader(b), TypeReader(c))
  {
    forall p | DecodeType(b, p).Some?
      ensures DecodeType(c, p) == DecodeType(b, p)
    {
      LoadKeeps(b, c, p, b.pl.typeSize, b.pl.big);
    }
  }
}

/** What the values in the finished block mean to a reader that knows nothing of the writer.

    A value is a union and one byte of attributes; which member of the union counts, and what the bits of
    the byte say, is decided by the type record that the index beside the value leads to.  `Meaning` reads
    values that way.  `ValuesMean` says that every constant and every default argument reads as the value
    of its own expression, or, where its type has no place in the union, as zero. */
module MetaValues {
  import opened Wrappers
  import opened MetaModel
  import opened MetaBlock
  import opened MetaReferences

  datatype Number = Finite(value: real) | PositiveInfinity | NegativeInfinity | NotANumber

  datatype Base = Octal | Decimal | Hexadecimal

  /** What is written into generated code for a value. */
  datatype Literal =
    | Nothing | Character(code: int) | Whole(value: int, base: Base) | Long(value: int, base: Base)
    | Fraction(number: Number, scientific: bool) | Truth(b: bool) | Quoted(text: Option<string>)
    | Named(name: Option<string>) | Code(value: int) | Handle(value: int) | Address(value: int)

  // ---------------------------------------------------------------- the reader

  // The members of the union; untouched memory is zero in each of them.

  function AsInteger(v: Value<string>): Option<int> {
    match v
    case IntegerV(i) => Some(i)
    case Unset => Some(0)
    case _ => None
  }

  function AsLong(v: Value<string>): Option<int> {
    match v
    case LongV(l) => Some(l)
    case Unset => Some(0)
    case _ => None
  }

  function AsFloat(v: Value<string>): Option<real> {
    match v
    case FloatV(f) => Some(f)
    case Unset => Some(0.0)
    case _ => None
  }

  function AsDouble(v: Value<string>): Option<real> {
    match v
    case DoubleV(d) => Some(d)
    case Unset => Some(0.0)
    case _ => None
  }

  function AsBoolean(v: Value<string>): Option<bool> {
    match v
    case BooleanV(b) => Some(b)
    case Unset => Some(false)
    case _ => None
  }

  function AsString(v: Value<string>): Option<Option<string>> {
    match v
    case TextV(s) => Some(Some(s))
    case Unset => Some(None)
    case _ => None
  }

  /** The casts to char and to short. */
  function AsByte(i: int): int { (i + 128) % 256 - 128 }
  function AsShort(i: int): int { (i + 32768) % 65536 - 32768 }

  function BaseOf(radix: nat): Base {
    if radix == 8 then Octal else if radix == 10 then Decimal else Hexadecimal
  }

  /** The low four bits are the radix, the high three mark what is no finite number. */
  function RadixBits(attributes: nat): nat { attributes % 16 }
  predicate ScientificBit(attributes: nat) { attributes / 16 % 2 == 1 }

  function NumberOf(x: real, attributes: nat): Number {
    if attributes / 32 % 2 == 1 then PositiveInfinity
    else if attributes / 64 % 2 == 1 then NegativeInfinity
    else if attributes / 128 % 2 == 1 then NotANumber
    else Finite(x)
  }

  /** `None` if the union holds something else than what the type reads. */
  function Meaning(t: TypeRec, v: Value<string>, attributes: nat): Option<Literal> {
    if t.pointerNumber > 0 then (var l :- AsLong(v); Some(Address(l))) else MeaningOf(t.kind, v, attributes)
  }

  function MeaningOf(kind: Kind, v: Value<string>, attributes: nat): Option<Literal> {
    match kind
    case Char => (var i :- AsInteger(v); Some(Character(i)))
    case Byte => (var i :- AsInteger(v); Some(Whole(AsByte(i), BaseOf(RadixBits(attributes)))))
    case Short => (var i :- AsInteger(v); Some(Whole(AsShort(i), BaseOf(RadixBits(attributes)))))
    case Integer => (var i :- AsInteger(v); Some(Whole(i, BaseOf(RadixBits(attributes)))))
    case Long => (var l :- AsLong(v); Some(Literal.Long(l, BaseOf(RadixBits(attributes)))))
    case Float => (var f :- AsFloat(v); Some(Fraction(NumberOf(f, attributes), ScientificBit(attributes))))
    case Double => (var d :- AsDouble(v); Some(Fraction(NumberOf(d, attributes), ScientificBit(attributes))))
    case Boolean => (var b :- AsBoolean(v); Some(Truth(b)))
    case String => (var s :- AsString(v); Some(Quoted(s)))
    case Enum => (var s :- AsString(v); Some(Named(s)))
    case ECode => (var i :- AsInteger(v); Some(Code(i)))
    case HANDLE => (var l :- AsLong(v); Some(Handle(l)))
    case _ => Some(Nothing)
  }

  // ---------------------------------------------------------------- the values of expressions

  /** The number that an expression is, given its finite value. */
  function NumberIs(x: real, e: Expression): Number {
    if e.positiveInfinity then PositiveInfinity
    else if e.negativeInfinity then NegativeInfinity
    else if e.notANumber then NotANumber
    else Finite(x)
  }

  /** The value of an expression of a plain type, as the expression itself has it. */
  function OwnValue(kind: Kind, e: Expression, base: Base): Literal {
    match kind
    case Char => Character(e.character)
    case Byte => Whole(AsByte(e.integer), base)
    case Short => Whole(AsShort(e.integer), base)
    case Integer => Whole(e.integer, base)
    case Long => Literal.Long(e.long, base)
    case Float => Fraction(NumberIs(e.float, e), e.scientific)
    case Double => Fraction(NumberIs(e.double, e), e.scientific)
    case Boolean => Truth(e.boolean)
    case String => Quoted(Some(e.text.Text()))
    case Enum => Named(Some(e.enumerator.Text()))
    case ECode => Code(e.integer)
    case HANDLE => Handle(e.long)
    case _ => Nothing
  }

  /** What a type reads from untouched memory. */
  function Zero(t: Type): Literal {
    if Unreferenced(t).shape.PointerTo? then Address(0) else ZeroOf(KindOf(Peeled(t)))
  }

  function ZeroOf(kind: Kind): Literal {
    match kind
    case Char => Character(0)
    case Byte => Whole(0, Hexadecimal)
    case Short => Whole(0, Hexadecimal)
    case Integer => Whole(0, Hexadecimal)
    case Long => Literal.Long(0, Hexadecimal)
    case Float => Fraction(Finite(0.0), false)
    case Double => Fraction(Finite(0.0), false)
    case Boolean => Truth(false)
    case String => Quoted(None)
    case Enum => Named(None)
    case ECode => Code(0)
    case HANDLE => Handle(0)
    case _ => Nothing
  }

  /** The plain types whose numbers, characters and truth values have a place in the union. */
  predicate IsNumeric(t: Type) {
    t.shape.Plain? && NumericKind(t.shape.kind)
  }

  predicate NumericKind(kind: Kind) {
    kind in {Kind.Char, Kind.Byte, Kind.Short, Kind.Integer, Kind.Long, Kind.Float, Kind.Double, Kind.Boolean}
  }

  /** A constant keeps its value if its type is numeric, String or an enumeration; references, pointers,
      ECode and HANDLE are lost. */
  function ConstantMeaning(x: Constant): Literal {
    if IsNumeric(x.ty) || (x.ty.shape.Plain? && x.ty.shape.kind in {Kind.String, Kind.Enum})
    then OwnValue(x.ty.shape.kind, x.value, BaseOf(x.value.radix))
    else Zero(x.ty)
  }

  /** A default argument keeps its value if its type is numeric, but not its radix, or a pointer; strings
      and enumerators are lost. */
  function DefaultMeaning(ty: Type, e: Expression): Literal {
    if IsNumeric(ty) then OwnValue(ty.shape.kind, e, Hexadecimal)
    else if ty.shape.PointerTo? then Address(e.long)
    else Zero(ty)
  }

  /** The number of stars fits into the type record. */
  predicate StarsFit(t: Type) {
    var u := Unreferenced(t);
    u.shape.PointerTo? ==> 0 < u.shape.stars < 256
  }

  lemma CastsFit(i: int)
    ensures -128 <= i < 128 ==> AsByte(i) == i
    ensures -32768 <= i < 32768 ==> AsShort(i) == i
  {
  }

  /** Flags and radix do not get in each other's way. */
  lemma FlagsRead(e: Expression, x: real)
    ensures NumberOf(x, e.FloatFlags()) == NumberIs(x, e) && (ScientificBit(e.FloatFlags()) <==> e.scientific)
    ensures e.FloatFlags() < 256 && RadixBits(e.FloatFlags()) == 0
  {
  }

  lemma RadixReads(radix: nat)
    requires radix <= 16
    ensures BaseOf(RadixBits(radix % 16)) == BaseOf(radix)
  {
  }

  lemma ZeroReads()
    ensures forall x :: NumberOf(x, 0) == Finite(x)
    ensures !ScientificBit(0) && BaseOf(RadixBits(0)) == Hexadecimal && AsByte(0) == 0 && AsShort(0) == 0
  {
  }

  /** Nothing stored reads as zero. */
  lemma UnsetReads(kind: Kind)
    ensures MeaningOf(kind, Unset, 0) == Some(ZeroOf(kind))
  {
    ZeroReads();
    hide NumberOf, ScientificBit, BaseOf, RadixBits, AsByte, AsShort;
  }

  lemma ConstantKindReads(kind: Kind, e: Expression, text: string, enumerator: string)
    requires e.radix <= 16 && text == e.text.Text() && enumerator == e.enumerator.Text()
    ensures MeaningOf(kind, ConstantValue(kind, e, text, enumerator), ConstantAttributes(kind, e))
         == Some(if NumericKind(kind) || kind in {Kind.String, Kind.Enum} then OwnValue(kind, e, BaseOf(e.radix)) else ZeroOf(kind))
  {
    RadixReads(e.radix);
    FlagsRead(e, e.float);
    FlagsRead(e, e.double);
    UnsetReads(kind);
    hide NumberOf, NumberIs, ScientificBit, BaseOf, RadixBits, AsByte, AsShort, Expression.FloatFlags, CString.Text;
  }

  /** What is stored for a constant reads as its value. */
  lemma ConstantReadsAs(m: Module, x: Constant)
    requires StarsFit(x.ty) && x.value.radix <= 16
    ensures var v := ViewConstant(m, x);
      Meaning(ViewType(m, x.ty), v.value, v.attributes) == Some(ConstantMeaning(x))
  {
    hide *;
    ConstantKindReads(KindOf(x.ty), x.value, x.value.text.Text(), x.value.enumerator.Text());
    TypeRecordIs(m, x.ty);
    ViewConstantIs(m, x);
    if x.ty.shape.Plain? {
      PlainMeaning(ViewType(m, x.ty), ViewConstant(m, x).value, ViewConstant(m, x).attributes);
      PlainConstant(x);
    } else {
      NothingStored(x.ty, x.value, x.value.text.Text(), x.value.enumerator.Text());
      UnsetMeaning(m, x.ty);
      OtherConstant(x);
    }
  }

  lemma ViewConstantIs(m: Module, x: Constant)
    ensures var v := ViewConstant(m, x);
      && v.value == ConstantValue(KindOf(x.ty), x.value, x.value.text.Text(), x.value.enumerator.Text())
      && v.attributes == ConstantAttributes(KindOf(x.ty), x.value)
  {
  }

  lemma TypeRecordIs(m: Module, t: Type)
    ensures var v, u := ViewType(m, t), Unreferenced(t);
      && v.kind == KindOf(Peeled(t))
      && v.pointerNumber == (if u.shape.PointerTo? then u.shape.stars % 256 else 0)
    ensures t.shape.Plain? ==> ViewType(m, t).kind == t.shape.kind == KindOf(t) && ViewType(m, t).pointerNumber == 0
  {
    hide FirstIndex;
  }

  lemma PlainMeaning(t: TypeRec, v: Value<string>, attributes: nat)
    requires t.pointerNumber == 0
    ensures Meaning(t, v, attributes) == MeaningOf(t.kind, v, attributes)
  {
  }

  lemma PlainConstant(x: Constant)
    requires x.ty.shape.Plain?
    ensures var kind := x.ty.shape.kind;
      ConstantMeaning(x)
      == if NumericKind(kind) || kind in {Kind.String, Kind.Enum} then OwnValue(kind, x.value, BaseOf(x.value.radix)) else ZeroOf(kind)
  {
    hide OwnValue, ZeroOf, NumericKind, BaseOf;
  }

  lemma OtherConstant(x: Constant)
    requires !x.ty.shape.Plain?
    ensures ConstantMeaning(x) == Zero(x.ty)
  {
  }

  lemma NothingStored(t: Type, e: Expression, text: string, enumerator: string)
    requires !t.shape.Plain?
    ensures ConstantValue(KindOf(t), e, text, enumerator) == Unset && ConstantAttributes(KindOf(t), e) == 0
  {
  }

  lemma UnsetMeaning(m: Module, t: Type)
    requires StarsFit(t)
    ensures Meaning(ViewType(m, t), Unset, 0) == Some(Zero(t))
  {
    TypeRecordIs(m, t);
    UnsetReads(KindOf(Peeled(t)));
    hide ViewType, MeaningOf, ZeroOf, KindOf, Peeled;
  }

  lemma DefaultKindReads(ty: Type, e: Expression)
    requires ty.shape.Plain?
    ensures MeaningOf(ty.shape.kind, DefaultValue(ty, e), DefaultAttributes(ty, e))
         == Some(if NumericKind(ty.shape.kind) then OwnValue(ty.shape.kind, e, Hexadecimal) else ZeroOf(ty.shape.kind))
  {
    hide *;
    DefaultIs(ty, e);
    if NumericKind(ty.shape.kind) {
      NumericReads(ty.shape.kind, e);
    } else {
      UnsetReads(ty.shape.kind);
    }
  }

  /** Numbers are stored as for a constant, without the radix. */
  lemma DefaultIs(ty: Type, e: Expression)
    requires ty.shape.Plain?
    ensures var kind := ty.shape.kind;
      && DefaultValue(ty, e) == (if NumericKind(kind) then ConstantValue(kind, e, "", "") else Unset)
      && DefaultAttributes(ty, e) == (if kind == Kind.Float || kind == Kind.Double then e.FloatFlags() else 0)
      && (kind == Kind.Float || kind == Kind.Double ==> NumericKind(kind))
  {
    hide Expression.FloatFlags;
  }

  lemma NumericReads(kind: Kind, e: Expression)
    requires NumericKind(kind)
    ensures MeaningOf(kind, ConstantValue(kind, e, "", ""), if kind == Kind.Float || kind == Kind.Double then e.FloatFlags() else 0)
         == Some(OwnValue(kind, e, Hexadecimal))
  {
    ZeroReads();
    FlagsRead(e, e.float);
    FlagsRead(e, e.double);
    hide NumberOf, NumberIs, ScientificBit, BaseOf, RadixBits, AsByte, AsShort, Expression.FloatFlags, CString.Text;
  }

  /** What is stored for a default argument reads as its value. */
  lemma DefaultReadsAs(m: Module, x: Parameter)
    requires StarsFit(x.ty) && x.default.Some?
    ensures var v := ViewParameter(m, x);
      v.hasDefault && Meaning(ViewType(m, x.ty), v.value, v.attributes) == Some(DefaultMeaning(x.ty, x.default.value))
  {
    hide *;
    TypeRecordIs(m, x.ty);
    ViewDefaultIs(m, x);
    if x.ty.shape.Plain? {
      DefaultKindReads(x.ty, x.default.value);
      PlainMeaning(ViewType(m, x.ty), ViewParameter(m, x).value, ViewParameter(m, x).attributes);
      PlainDefault(x.ty, x.default.value);
    } else if x.ty.shape.PointerTo? {
      PointerMeaning(m, x.ty, x.default.value);
    } else {
      OtherDefault(x.ty, x.default.value);
      UnsetMeaning(m, x.ty);
    }
  }

  lemma ViewDefaultIs(m: Module, x: Parameter)
    requires x.default.Some?
    ensures var v := ViewParameter(m, x);
      && v.hasDefault && v.value == DefaultValue(x.ty, x.default.value) && v.attributes == DefaultAttributes(x.ty, x.default.value)
  {
  }

  lemma PlainDefault(ty: Type, e: Expression)
    requires ty.shape.Plain?
    ensures DefaultMeaning(ty, e) == if NumericKind(ty.shape.kind) then OwnValue(ty.shape.kind, e, Hexadecimal) else ZeroOf(ty.shape.kind)
  {
    hide OwnValue, ZeroOf, NumericKind;
  }

  lemma PointerMeaning(m: Module, ty: Type, e: Expression)
    requires ty.shape.PointerTo? && StarsFit(ty)
    ensures Meaning(ViewType(m, ty), DefaultValue(ty, e), DefaultAttributes(ty, e)) == Some(Address(e.long)) == Some(DefaultMeaning(ty, e))
  {
    TypeRecordIs(m, ty);
    hide ViewType, MeaningOf, OwnValue, Zero;
  }

  lemma OtherDefault(ty: Type, e: Expression)
    requires !ty.shape.Plain? && !ty.shape.PointerTo?
    ensures DefaultMeaning(ty, e) == Zero(ty) && DefaultValue<string>(ty, e) == Unset && DefaultAttributes(ty, e) == 0
  {
    hide Zero;
  }

  // ---------------------------------------------------------------- what is kept and what is lost

  /** The value of an expression in a type, through one reference. */
  function OwnMeaning(t: Type, e: Expression): Literal {
    if Unreferenced(t).shape.PointerTo? then Address(e.long) else OwnValue(KindOf(Peeled(t)), e, BaseOf(e.radix))
  }

  predicate HasRadix(kind: Kind) {
    kind in {Kind.Byte, Kind.Short, Kind.Integer, Kind.Long}
  }

  /** A constant reads as its own value exactly if its type has a place in the union, or the value is zero
      anyway. */
  lemma ConstantIsKeptIff(m: Module, x: Constant)
    requires StarsFit(x.ty) && x.value.radix <= 16
    ensures var v, t := ViewConstant(m, x), x.ty;
      Meaning(ViewType(m, t), v.value, v.attributes) == Some(OwnMeaning(t, x.value))
      <==> (t.shape.Plain? && (NumericKind(t.shape.kind) || t.shape.kind in {Kind.String, Kind.Enum})) || OwnMeaning(t, x.value) == Zero(t)
  {
    ConstantReadsAs(m, x);
    hide Meaning, ViewConstant, ViewType, OwnValue, BaseOf, Zero, NumericKind;
  }

  /** A default argument reads as its own value exactly if it is a number written in hexadecimal digits, a
      number without a radix, or a pointer, or the value is zero anyway. */
  lemma DefaultIsKeptIff(m: Module, x: Parameter)
    requires StarsFit(x.ty) && x.default.Some?
    ensures var v, t, e := ViewParameter(m, x), x.ty, x.default.value;
      Meaning(ViewType(m, t), v.value, v.attributes) == Some(OwnMeaning(t, e))
      <==> (t.shape.Plain? && NumericKind(t.shape.kind) && (HasRadix(t.shape.kind) ==> e.radix != 8 && e.radix != 10))
           || t.shape.PointerTo? || OwnMeaning(t, e) == Zero(t)
  {
    hide *;
    DefaultReadsAs(m, x);
    KeptIff(x.ty, x.default.value);
  }

  lemma KeptIff(t: Type, e: Expression)
    ensures DefaultMeaning(t, e) == OwnMeaning(t, e)
      <==> (t.shape.Plain? && NumericKind(t.shape.kind) && (HasRadix(t.shape.kind) ==> e.radix != 8 && e.radix != 10))
           || t.shape.PointerTo? || OwnMeaning(t, e) == Zero(t)
  {
    hide AsByte, AsShort, NumberIs, CString.Text;
  }

  /** The default argument 10 of an Integer reads as 0xa, and the default argument "a" of a String as none. */
  lemma DefaultsAreLost(e: Expression, id: nat)
    requires e.integer == 10 && e.radix == 10 && e.text == Str("a")
    ensures DefaultMeaning(Type(id, Plain(Kind.Integer)), e) == Whole(10, Hexadecimal) != OwnMeaning(Type(id, Plain(Kind.Integer)), e)
    ensures DefaultMeaning(Type(id, Plain(Kind.String)), e) == Quoted(None)
         && OwnMeaning(Type(id, Plain(Kind.String)), e) == Quoted(Some("a"))
  {
  }

  // ---------------------------------------------------------------- all values of a module

  /** The type records stand for the types: a type is one object, whoever mentions it. */
  ghost predicate SameObject(m: Module, t: Type) {
    forall k :: 0 <= k < |m.types| && m.types[k].id == t.id ==> m.types[k] == t
  }

  ghost predicate ConstantRegular(m: Module, x: Constant) {
    SameObject(m, x.ty) && StarsFit(x.ty) && x.value.radix <= 16
  }

  ghost predicate ParameterRegular(m: Module, x: Parameter) {
    SameObject(m, x.ty) && StarsFit(x.ty)
  }

  ghost predicate MethodRegular(m: Module, x: Method) {
    forall k :: 0 <= k < |x.parameters| ==> ParameterRegular(m, x.parameters[k])
  }

  ghost predicate InterfaceRegular(m: Module, x: Interface) {
    && (forall k :: 0 <= k < |x.constants| ==> ConstantRegular(m, x.constants[k]))
    && (forall k :: 0 <= k < |x.methods| ==> MethodRegular(m, x.methods[k]))
  }

  /** Objects are told apart by their ids, radices are those of C and stars can be counted. */
  ghost predicate Regular(m: Module) {
    && (forall i :: 0 <= i < |m.constants| ==> ConstantRegular(m, m.constants[i]))
    && (forall i :: 0 <= i < |m.interfaces| ==> InterfaceRegular(m, m.interfaces[i]))
  }

  ghost predicate ConstantMeans(types: seq<TypeRec>, x: Constant, v: ConstantView) {
    0 <= v.typeIndex < |types| && Meaning(types[v.typeIndex], v.value, v.attributes) == Some(ConstantMeaning(x))
  }

  ghost predicate ParameterMeans(types: seq<TypeRec>, x: Parameter, v: ParameterView) {
    && (v.hasDefault <==> x.default.Some?)
    && (x.default.Some? ==>
          0 <= v.typeIndex < |types|
          && Meaning(types[v.typeIndex], v.value, v.attributes) == Some(DefaultMeaning(x.ty, x.default.value)))
  }

  ghost predicate MethodMeans(types: seq<TypeRec>, x: Method, v: MethodView) {
    |v.parameters| == |x.parameters|
    && forall k :: 0 <= k < |x.parameters| ==> ParameterMeans(types, x.parameters[k], v.parameters[k])
  }

  ghost predicate InterfaceMeans(types: seq<TypeRec>, x: Interface, v: InterfaceView) {
    && |v.constants| == |x.constants| && |v.methods| == |x.methods|
    && (forall k :: 0 <= k < |x.constants| ==> ConstantMeans(types, x.constants[k], v.constants[k]))
    && (forall k :: 0 <= k < |x.methods| ==> MethodMeans(types, x.methods[k], v.methods[k]))
  }

  ghost predicate ViewMeans(m: Module, v: ModuleView) {
    && |v.constants| == |m.constants| && |v.interfaces| == |m.interfaces|
    && (forall i :: 0 <= i < |m.constants| ==> ConstantMeans(v.types, m.constants[i], v.constants[i]))
    && (forall i :: 0 <= i < |m.interfaces| ==> InterfaceMeans(v.types, m.interfaces[i], v.interfaces[i]))
  }

  /** The block can be read, and the values in it mean what their expressions are. */
  ghost predicate ValuesMean(f: Compiled) {
    match DecodeModule(f.b, f.base)
    case Some(seen) => ViewMeans(f.m, seen.view)
    case None => false
  }

  /** The type record at the index of a type is the one of that type. */
  lemma TypeFound(m: Module, t: Type)
    requires SameObject(m, t) && t.id in m.TypeIds()
    ensures var k := FirstIndex(m.TypeIds(), t.id);
      0 <= k < |m.types| && ViewTypes(m, m.types)[k] == ViewType(m, t)
  {
    hide ViewType;
  }

  lemma ConstantIsMeant(m: Module, x: Constant)
    requires ConstantRegular(m, x) && x.ty.id in m.TypeIds()
    ensures ConstantMeans(ViewTypes(m, m.types), x, ViewConstant(m, x))
  {
    hide *;
    ConstantParts(m, x);
    TypeFound(m, x.ty);
    ConstantReadsAs(m, x);
    IsConstantMeans(ViewTypes(m, m.types), x, ViewConstant(m, x));
  }

  lemma ConstantParts(m: Module, x: Constant)
    ensures ConstantRegular(m, x) ==> SameObject(m, x.ty) && StarsFit(x.ty) && x.value.radix <= 16
    ensures ViewConstant(m, x).typeIndex == FirstIndex(m.TypeIds(), x.ty.id)
  {
  }

  lemma IsConstantMeans(types: seq<TypeRec>, x: Constant, v: ConstantView)
    requires 0 <= v.typeIndex < |types| && Meaning(types[v.typeIndex], v.value, v.attributes) == Some(ConstantMeaning(x))
    ensures ConstantMeans(types, x, v)
  {
  }

  lemma ParameterIsMeant(m: Module, x: Parameter)
    requires ParameterRegular(m, x) && x.ty.id in m.TypeIds()
    ensures ParameterMeans(ViewTypes(m, m.types), x, ViewParameter(m, x))
  {
    if x.default.Some? {
      TypeFound(m, x.ty);
      DefaultReadsAs(m, x);
    }
    hide Meaning, DefaultMeaning, FirstIndex, ViewTypes, DefaultValue, DefaultAttributes;
  }

  lemma MethodIsMeant(m: Module, x: Method)
    requires MethodRegular(m, x) && MethodClosed(m, x)
    ensures MethodMeans(ViewTypes(m, m.types), x, ViewMethod(m, x))
  {
    hide ParameterMeans, ParameterRegular, ViewParameter, ViewTypes, FirstIndex;
    forall k | 0 <= k < |x.parameters|
      ensures ParameterMeans(ViewTypes(m, m.types), x.parameters[k], ViewMethod(m, x).parameters[k])
    {
      ParameterIsMeant(m, x.parameters[k]);
    }
  }

  lemma InterfaceIsMeant(m: Module, x: Interface)
    requires InterfaceRegular(m, x) && InterfaceClosed(m, x)
    ensures InterfaceMeans(ViewTypes(m, m.types), x, ViewInterface(m, x))
  {
    hide MethodMeans, MethodRegular, MethodClosed, ConstantMeans, ConstantRegular, ViewMethod, ViewConstant, ViewTypes, FirstIndex,
      Within;
    var v := ViewInterface(m, x);
    forall k | 0 <= k < |x.constants|
      ensures ConstantMeans(ViewTypes(m, m.types), x.constants[k], v.constants[k])
    {
      ConstantIsMeant(m, x.constants[k]);
    }
    forall k | 0 <= k < |x.methods|
      ensures MethodMeans(ViewTypes(m, m.types), x.methods[k], v.methods[k])
    {
      MethodIsMeant(m, x.methods[k]);
    }
  }

  /** In a block that reads as a closed module, all values mean what their expressions are. */
  lemma AllValuesMean(f: Compiled)
    requires ReadsBack(f) && Closed(f.m) && Regular(f.m)
    ensures ValuesMean(f)
  {
    hide DecodeModule, ConstantMeans, ConstantRegular, InterfaceMeans, InterfaceRegular, InterfaceClosed, ViewConstant, ViewInterface,
      ViewTypes, NamespaceClosed, TypeClosed, Within;
    var m, v := f.m, DecodeModule(f.b, f.base).value.view;
    forall i | 0 <= i < |m.constants|
      ensures ConstantMeans(v.types, m.constants[i], v.constants[i])
    {
      ConstantIsMeant(m, m.constants[i]);
    }
    forall i | 0 <= i < |m.interfaces|
      ensures InterfaceMeans(v.types, m.interfaces[i], v.interfaces[i])
    {
      InterfaceIsMeant(m, m.interfaces[i]);
    }
  }
}

/** Indexes in the finished block stand for objects: exactly when the module is closed under its
    references, every index leads to the record of the object it was computed from. */
module MetaReferences {
  import opened Wrappers
  import opened MetaLayout
  import opened MetaModel
  import opened MetaBlock

  /** A module, and the block that it was compiled to, from address `base` on. */
  datatype Compiled = Compiled(m: Module, b: Block, base: nat)

  /** The record to which slot `k` of the pointer array at `arr` leads. */
  function Follow<V>(b: Block, arr: nat, k: nat, d: nat -> Option<Seen<V>>): Option<V> {
    var p :- b.LoadPointer(arr + b.pl.Span(k));
    var v :- d(p);
    Some(v.view)
  }

  /** From the component record, slot `k` of a table leads to the record of the object that is the
      `k`-th of its kind in the module. */
  ghost predicate Arrives(f: Compiled, table: Table, k: nat)
    requires k < |f.m.IdsOf(table)|
  {
    match f.b.Load(f.base, f.b.pl.componentSize, f.b.pl.big)
    case Some(OComponent(r)) =>
      (match table
       case ConstantTable => Follow(f.b, r.constants, k, ConstantReader(f.b)) == Some(ViewConstant(f.m, f.m.constants[k]))
       case CoclassTable => Follow(f.b, r.coclasses, k, CoclassReader(f.b)) == Some(ViewCoclass(f.m, f.m.coclasses[k]))
       case EnumerationTable => Follow(f.b, r.enumerations, k, EnumerationReader(f.b)) == Some(ViewEnumeration(f.m.enumerations[k]))
       case InterfaceTable => Follow(f.b, r.interfaces, k, InterfaceReader(f.b)) == Some(ViewInterface(f.m, f.m.interfaces[k]))
       case TypeTable => Follow(f.b, r.types, k, TypeReader(f.b)) == Some(ViewType(f.m, f.m.types[k])))
    case _ => false
  }

  /** `idx` is a position in the table, the object there is `ref`, and the slot leads to its record. */
  ghost predicate Leads(f: Compiled, table: Table, ref: nat, idx: int) {
    0 <= idx < |f.m.IdsOf(table)| && f.m.IdsOf(table)[idx] == ref && Arrives(f, table, idx)
  }

  /** An absent object is recorded as -1. */
  ghost predicate LeadsIfAny(f: Compiled, table: Table, ref: Option<nat>, idx: int) {
    if ref.None? then idx == -1 else Leads(f, table, ref.value, idx)
  }

  ghost predicate AllLead(f: Compiled, table: Table, refs: seq<nat>, idxs: seq<int>) {
    |idxs| == |refs| && forall i :: 0 <= i < |refs| ==> Leads(f, table, refs[i], idxs[i])
  }

  ghost predicate ParameterLeads(f: Compiled, x: Parameter, v: ParameterView) {
    Leads(f, TypeTable, x.ty.id, v.typeIndex)
  }

  ghost predicate MethodLeads(f: Compiled, x: Method, v: MethodView) {
    && LeadsIfAny(f, TypeTable, x.returnType, v.returnTypeIndex)
    && |v.parameters| == |x.parameters|
    && forall i :: 0 <= i < |x.parameters| ==> ParameterLeads(f, x.parameters[i], v.parameters[i])
  }

  ghost predicate ConstantLeads(f: Compiled, x: Constant, v: ConstantView) {
    Leads(f, TypeTable, x.ty.id, v.typeIndex)
  }

  ghost predicate InterfaceLeads(f: Compiled, x: Interface, v: InterfaceView) {
    && LeadsIfAny(f, InterfaceTable, x.base, v.baseIndex)
    && LeadsIfAny(f, InterfaceTable, x.outer, v.outerIndex)
    && AllLead(f, InterfaceTable, x.nested, v.nestedIndexes)
    && |v.constants| == |x.constants| && |v.methods| == |x.methods|
    && (forall i :: 0 <= i < |x.constants| ==> ConstantLeads(f, x.constants[i], v.constants[i]))
    && (forall i :: 0 <= i < |x.methods| ==> MethodLeads(f, x.methods[i], v.methods[i]))
  }

  ghost predicate CoclassLeads(f: Compiled, x: Coclass, v: CoclassView) {
    AllLead(f, InterfaceTable, x.interfaces, v.interfaceIndexes)
  }

  ghost predicate NamespaceLeads(f: Compiled, x: Namespace, v: NamespaceView) {
    && LeadsIfAny(f, InterfaceTable, x.wrapped, v.wrappedIndex)
    && AllLead(f, ConstantTable, x.constants, v.constantIndexes)
    && AllLead(f, CoclassTable, x.coclasses, v.coclassIndexes)
    && AllLead(f, EnumerationTable, Ids(x.enumerations), v.enumerationIndexes)
    && AllLead(f, InterfaceTable, Ids(x.interfaces), v.interfaceIndexes)
  }

  /** The stored kind selects the table of the index. */
  ghost predicate TypeLeads(f: Compiled, x: Type, v: TypeRec) {
    var t := Peeled(x);
    && (match t.shape case Plain(kind) => v.kind == kind case ArrayOf(_) => v.kind == Kind.Array case _ => v.kind == Kind.Unknown)
    && Leads(f, TableOf(v.kind), t.id, v.index)
    && if t.shape.ArrayOf? then Leads(f, TypeTable, t.shape.element.id, v.nestedIndex) else v.nestedIndex == -1
  }

  /** The block can be read, and every index in its records leads to the object it stands for. */
  ghost predicate ModuleLeads(f: Compiled) {
    match DecodeModule(f.b, f.base)
    case Some(seen) => ViewLeads(f, seen.view)
    case None => false
  }

  ghost predicate ViewLeads(f: Compiled, v: ModuleView) {
    && |v.namespaces| == |f.m.namespaces| && |v.constants| == |f.m.constants|
    && |v.coclasses| == |f.m.coclasses| && |v.interfaces| == |f.m.interfaces| && |v.types| == |f.m.types|
    && (forall i :: 0 <= i < |f.m.namespaces| ==> NamespaceLeads(f, f.m.namespaces[i], v.namespaces[i]))
    && (forall i :: 0 <= i < |f.m.constants| ==> ConstantLeads(f, f.m.constants[i], v.constants[i]))
    && (forall i :: 0 <= i < |f.m.coclasses| ==> CoclassLeads(f, f.m.coclasses[i], v.coclasses[i]))
    && (forall i :: 0 <= i < |f.m.interfaces| ==> InterfaceLeads(f, f.m.interfaces[i], v.interfaces[i]))
    && (forall i :: 0 <= i < |f.m.types| ==> TypeLeads(f, f.m.types[i], v.types[i]))
  }

  // ---------------------------------------------------------------- closed modules

  ghost predicate Within(ids: seq<nat>, refs: seq<nat>) {
    forall i :: 0 <= i < |refs| ==> refs[i] in ids
  }

  ghost predicate MethodClosed(m: Module, x: Method) {
    && (x.returnType.Some? ==> x.returnType.value in m.TypeIds())
    && forall i :: 0 <= i < |x.parameters| ==> x.parameters[i].ty.id in m.TypeIds()
  }

  ghost predicate InterfaceClosed(m: Module, x: Interface) {
    && (x.base.Some? ==> x.base.value in m.InterfaceIds())
    && (x.outer.Some? ==> x.outer.value in m.InterfaceIds())
    && Within(m.InterfaceIds(), x.nested)
    && (forall i :: 0 <= i < |x.constants| ==> x.constants[i].ty.id in m.TypeIds())
    && (forall i :: 0 <= i < |x.methods| ==> MethodClosed(m, x.methods[i]))
  }

  ghost predicate NamespaceClosed(m: Module, x: Namespace) {
    && (x.wrapped.Some? ==> x.wrapped.value in m.InterfaceIds())
    && Within(m.ConstantIds(), x.constants) && Within(m.CoclassIds(), x.coclasses)
    && Within(m.EnumerationIds(), Ids(x.enumerations)) && Within(m.InterfaceIds(), Ids(x.interfaces))
  }

  ghost predicate TypeClosed(m: Module, x: Type) {
    var t := Peeled(x);
    && t.id in m.IdsOf(TableOf(KindOf(t)))
    && (t.shape.ArrayOf? ==> t.shape.element.id in m.TypeIds())
  }

  /** Every object that the module refers to is one of its own. */
  ghost predicate Closed(m: Module) {
    && (forall i :: 0 <= i < |m.namespaces| ==> NamespaceClosed(m, m.namespaces[i]))
    && (forall i :: 0 <= i < |m.constants| ==> m.constants[i].ty.id in m.TypeIds())
    && (forall i :: 0 <= i < |m.coclasses| ==> Within(m.InterfaceIds(), m.coclasses[i].interfaces))
    && (forall i :: 0 <= i < |m.interfaces| ==> InterfaceClosed(m, m.interfaces[i]))
    && (forall i :: 0 <= i < |m.types| ==> TypeClosed(m, m.types[i]))
  }

  // ---------------------------------------------------------------- following pointers

  /** What an array decodes to, slot by slot. */
  lemma {:induction false} SlotDecoded<V>(b: Block, arr: nat, n: nat, d: nat -> Option<Seen<V>>, k: nat)
    requires DecodeArray(b, arr, n, d).Some? && k < n
    ensures |DecodeArray(b, arr, n, d).value.view| == n
    ensures Follow(b, arr, k, d) == Some(DecodeArray(b, arr, n, d).value.view[k])
  {
    hide Block.LoadPointer;
    if n > 1 {
      SlotDecoded(b, arr, n - 1, d, if k < n - 1 then k else 0);
    }
  }

  /** The block reads as the description of the module. */
  ghost predicate ReadsBack(f: Compiled) {
    match DecodeModule(f.b, f.base)
    case Some(seen) => seen.view == ViewModule(f.m, seen.view.size)
    case None => false
  }

  lemma TablesRead(f: Compiled) returns (r: ComponentRec<nat, nat, nat, nat, nat, nat, nat>)
    requires ReadsBack(f)
    ensures f.b.Load(f.base, f.b.pl.componentSize, f.b.pl.big) == Some(OComponent(r))
    ensures var k := DecodeArray(f.b, r.constants, r.constantNumber, ConstantReader(f.b));
      k.Some? && k.value.view == ViewConstants(f.m, f.m.constants) && r.constantNumber == |f.m.constants|
    ensures var c := DecodeArray(f.b, r.coclasses, r.coclassNumber, CoclassReader(f.b));
      c.Some? && c.value.view == ViewCoclasses(f.m, f.m.coclasses) && r.coclassNumber == |f.m.coclasses|
    ensures var e := DecodeArray(f.b, r.enumerations, r.enumerationNumber, EnumerationReader(f.b));
      e.Some? && e.value.view == ViewEnumerations(f.m.enumerations) && r.enumerationNumber == |f.m.enumerations|
    ensures var i := DecodeArray(f.b, r.interfaces, r.interfaceNumber, InterfaceReader(f.b));
      i.Some? && i.value.view == ViewInterfaces(f.m, f.m.interfaces) && r.interfaceNumber == |f.m.interfaces|
    ensures var t := DecodeArray(f.b, r.types, r.typeNumber, TypeReader(f.b));
      t.Some? && t.value.view == ViewTypes(f.m, f.m.types) && r.typeNumber == |f.m.types|
  {
    hide Block.Load, Block.ReadText, DecodeArray, HeaderRegions, ViewConstants, ViewCoclasses, ViewEnumerations,
      ViewInterfaces, ViewTypes;
    r := f.b.Load(f.base, f.b.pl.componentSize, f.b.pl.big).value.component;
  }

  /** In a block that reads as its module, every slot of every table leads where it should. */
  lemma TablesArrive(f: Compiled, table: Table, k: nat)
    requires ReadsBack(f) && k < |f.m.IdsOf(table)|
    ensures Arrives(f, table, k)
  {
    hide DecodeModule, ReadsBack, Block.Load, DecodeArray, Follow;
    var r := TablesRead(f);
    match table
    case ConstantTable => SlotDecoded(f.b, r.constants, r.constantNumber, ConstantReader(f.b), k);
    case CoclassTable => SlotDecoded(f.b, r.coclasses, r.coclassNumber, CoclassReader(f.b), k);
    case EnumerationTable => SlotDecoded(f.b, r.enumerations, r.enumerationNumber, EnumerationReader(f.b), k);
    case InterfaceTable => SlotDecoded(f.b, r.interfaces, r.interfaceNumber, InterfaceReader(f.b), k);
    case TypeTable => SlotDecoded(f.b, r.types, r.typeNumber, TypeReader(f.b), k);
  }

  ghost predicate AllArrive(f: Compiled) {
    forall table, k: nat :: k < |f.m.IdsOf(table)| ==> Arrives(f, table, k)
  }

  /** An index that was looked up leads to its object exactly if the object was there. */
  lemma LookedUp(f: Compiled, table: Table, ref: nat)
    requires AllArrive(f)
    ensures Leads(f, table, ref, FirstIndex(f.m.IdsOf(table), ref)) <==> ref in f.m.IdsOf(table)
  {
    hide Arrives, FirstIndex, Module.IdsOf;
  }

  lemma IndexesLead(f: Compiled, table: Table, refs: seq<nat>)
    requires AllArrive(f)
    ensures AllLead(f, table, refs, Indexes(f.m.IdsOf(table), refs)) <==> Within(f.m.IdsOf(table), refs)
  {
    hide Leads, AllArrive, Module.IdsOf, FirstIndex;
    var ids := f.m.IdsOf(table);
    forall i | 0 <= i < |refs|
      ensures Leads(f, table, refs[i], Indexes(ids, refs)[i]) <==> refs[i] in ids
    {
      LookedUp(f, table, refs[i]);
    }
  }

  lemma OptionalLookedUp(f: Compiled, table: Table, ref: Option<nat>)
    requires AllArrive(f)
    ensures LeadsIfAny(f, table, ref, OptionalIndex(f.m.IdsOf(table), ref)) <==> (ref.Some? ==> ref.value in f.m.IdsOf(table))
  {
    hide Leads, AllArrive, Module.IdsOf, FirstIndex;
    if ref.Some? {
      LookedUp(f, table, ref.value);
    }
  }

  // ---------------------------------------------------------------- record by record

  lemma MethodIndexes(f: Compiled, x: Method)
    requires AllArrive(f)
    ensures MethodLeads(f, x, ViewMethod(f.m, x)) <==> MethodClosed(f.m, x)
  {
    var v := ViewMethod(f.m, x);
    hide FirstIndex, AllArrive, Leads, LeadsIfAny;
    OptionalLookedUp(f, TypeTable, x.returnType);
    forall i | 0 <= i < |x.parameters|
      ensures ParameterLeads(f, x.parameters[i], v.parameters[i]) <==> x.parameters[i].ty.id in f.m.TypeIds()
    {
      assert v.parameters[i] == ViewParameter(f.m, x.parameters[i]);
      LookedUp(f, TypeTable, x.parameters[i].ty.id);
    }
  }

  lemma ConstantIndexes(f: Compiled, xs: seq<Constant>, i: nat)
    requires AllArrive(f) && i < |xs|
    ensures ConstantLeads(f, xs[i], ViewConstants(f.m, xs)[i]) <==> xs[i].ty.id in f.m.TypeIds()
  {
    hide FirstIndex, AllArrive, Leads;
    LookedUp(f, TypeTable, xs[i].ty.id);
  }

  lemma InterfaceIndexes(f: Compiled, x: Interface)
    requires AllArrive(f)
    ensures InterfaceLeads(f, x, ViewInterface(f.m, x)) <==> InterfaceClosed(f.m, x)
  {
    var v := ViewInterface(f.m, x);
    hide FirstIndex, MethodLeads, MethodClosed, ConstantLeads, AllArrive, Leads, LeadsIfAny, AllLead, Within, Indexes,
      OptionalIndex;
    OptionalLookedUp(f, InterfaceTable, x.base);
    OptionalLookedUp(f, InterfaceTable, x.outer);
    IndexesLead(f, InterfaceTable, x.nested);
    forall i | 0 <= i < |x.constants|
      ensures ConstantLeads(f, x.constants[i], v.constants[i]) <==> x.constants[i].ty.id in f.m.TypeIds()
    {
      ConstantIndexes(f, x.constants, i);
    }
    forall i | 0 <= i < |x.methods|
      ensures MethodLeads(f, x.methods[i], v.methods[i]) <==> MethodClosed(f.m, x.methods[i])
    {
      MethodIndexes(f, x.methods[i]);
    }
  }

  lemma NamespaceIndexes(f: Compiled, x: Namespace)
    requires AllArrive(f)
    ensures NamespaceLeads(f, x, ViewNamespace(f.m, x)) <==> NamespaceClosed(f.m, x)
  {
    hide FirstIndex, Indexes, AllLead, Within, LeadsIfAny, AllArrive, OptionalIndex, Leads;
    OptionalLookedUp(f, InterfaceTable, x.wrapped);
    IndexesLead(f, ConstantTable, x.constants);
    IndexesLead(f, CoclassTable, x.coclasses);
    IndexesLead(f, EnumerationTable, Ids(x.enumerations));
    IndexesLead(f, InterfaceTable, Ids(x.interfaces));
  }

  /** A type record: what is left after one reference and one pointer, and the element of an array. */
  lemma TypeIndexLeads(f: Compiled, x: Type)
    requires AllArrive(f)
    ensures TypeLeads(f, x, ViewType(f.m, x)) <==> TypeClosed(f.m, x)
  {
    hide FirstIndex, AllArrive, Leads, Peeled, Unreferenced, TableOf;
    var t := Peeled(x);
    LookedUp(f, TableOf(KindOf(t)), t.id);
    if t.shape.ArrayOf? {
      LookedUp(f, TypeTable, t.shape.element.id);
    }
  }

  lemma ViewLeadsIffClosed(f: Compiled, size: int)
    requires AllArrive(f)
    ensures ViewLeads(f, ViewModule(f.m, size)) <==> Closed(f.m)
  {
    var m, v := f.m, ViewModule(f.m, size);
    hide FirstIndex, NamespaceLeads, NamespaceClosed, InterfaceLeads, InterfaceClosed, TypeLeads, TypeClosed, AllLead, Within,
      ConstantLeads, CoclassLeads, AllArrive, ViewNamespace, ViewCoclass, ViewInterface, ViewType;
    forall i | 0 <= i < |m.namespaces|
      ensures NamespaceLeads(f, m.namespaces[i], v.namespaces[i]) <==> NamespaceClosed(m, m.namespaces[i])
    {
      NamespaceIndexes(f, m.namespaces[i]);
    }
    forall i | 0 <= i < |m.constants|
      ensures ConstantLeads(f, m.constants[i], v.constants[i]) <==> m.constants[i].ty.id in m.TypeIds()
    {
      ConstantIndexes(f, m.constants, i);
    }
    forall i | 0 <= i < |m.coclasses|
      ensures CoclassLeads(f, m.coclasses[i], v.coclasses[i]) <==> Within(m.InterfaceIds(), m.coclasses[i].interfaces)
    {
      CoclassIndexes(f, m.coclasses[i]);
    }
    forall i | 0 <= i < |m.interfaces|
      ensures InterfaceLeads(f, m.interfaces[i], v.interfaces[i]) <==> InterfaceClosed(m, m.interfaces[i])
    {
      InterfaceIndexes(f, m.interfaces[i]);
    }
    forall i | 0 <= i < |m.types|
      ensures TypeLeads(f, m.types[i], v.types[i]) <==> TypeClosed(m, m.types[i])
    {
      TypeIndexLeads(f, m.types[i]);
    }
  }

  lemma CoclassIndexes(f: Compiled, x: Coclass)
    requires AllArrive(f)
    ensures CoclassLeads(f, x, ViewCoclass(f.m, x)) <==> Within(f.m.InterfaceIds(), x.interfaces)
  {
    hide FirstIndex, Indexes, AllLead, Within, AllArrive;
    IndexesLead(f, InterfaceTable, x.interfaces);
  }

  lemma SeenIsReadBack(f: Compiled, size: int, regions: seq<Region>)
    requires DecodeModule(f.b, f.base) == Some(Seen(ViewModule(f.m, size), regions))
    ensures ReadsBack(f)
  {
    hide DecodeModule;
  }

  /** In a block that reads as its module, every index of every record leads by way of the pointers of
      the block to the record of the object it stands for if and only if the module is closed under its
      references. */
  lemma IndexesLeadIffClosed(f: Compiled)
    requires ReadsBack(f)
    ensures ModuleLeads(f) <==> Closed(f.m)
  {
    hide Arrives, ViewLeads, Closed, DecodeModule, ViewModule;
    forall table, k: nat | k < |f.m.IdsOf(table)|
      ensures Arrives(f, table, k)
    {
      TablesArrive(f, table, k);
    }
    ViewLeadsIffClosed(f, DecodeModule(f.b, f.base).value.view.size);
  }
}

/** The metadata compiler: two passes over the module tree with one cursor.

    `Calculate...` moves the cursor and fills the string pool; `Write...` moves the cursor again and
    stores records, pointer arrays and index arrays into the block.  `Build` joins the two: the block
    that was sized first is filled exactly, and reading it back gives the module that was walked. */
module MetaBuilders {
  import opened Wrappers
  import opened MetaLayout
  import opened MetaModel
  import opened MetaBlock
  import opened MetaReferences
  import opened MetaValues
  import opened StringPools

  // ---------------------------------------------------------------- the strings of each record

  ghost predicate Knows(keys: set<NulFree>, s: CString) {
    s.Str? ==> s.chars in keys
  }

  ghost predicate KnowsParameter(keys: set<NulFree>, x: Parameter) {
    Knows(keys, x.name)
  }

  ghost predicate KnowsMethod(keys: set<NulFree>, x: Method) {
    Knows(keys, x.name) && Knows(keys, x.signature)
    && forall i :: 0 <= i < |x.parameters| ==> KnowsParameter(keys, x.parameters[i])
  }

  ghost predicate KnowsConstant(keys: set<NulFree>, x: Constant) {
    && Knows(keys, x.name)
    && (KindOf(x.ty) == Kind.String ==> Knows(keys, x.value.text))
    && (KindOf(x.ty) == Kind.Enum ==> Knows(keys, x.value.enumerator))
  }

  ghost predicate KnowsEnumerator(keys: set<NulFree>, x: Enumerator) {
    Knows(keys, x.name)
  }

  ghost predicate KnowsEnumeration(keys: set<NulFree>, x: Enumeration) {
    Knows(keys, x.name) && Knows(keys, x.namespace)
    && forall i :: 0 <= i < |x.enumerators| ==> KnowsEnumerator(keys, x.enumerators[i])
  }

  ghost predicate KnowsInterface(keys: set<NulFree>, x: Interface) {
    Knows(keys, x.name) && Knows(keys, x.namespace)
    && (forall i :: 0 <= i < |x.constants| ==> KnowsConstant(keys, x.constants[i]))
    && (forall i :: 0 <= i < |x.methods| ==> KnowsMethod(keys, x.methods[i]))
  }

  ghost predicate KnowsCoclass(keys: set<NulFree>, x: Coclass) {
    Knows(keys, x.name) && Knows(keys, x.namespace)
  }

  ghost predicate KnowsNamespace(keys: set<NulFree>, x: Namespace) {
    Knows(keys, x.path)
  }

  ghost predicate KnowsModule(keys: set<NulFree>, m: Module) {
    && Knows(keys, m.name) && Knows(keys, m.url)
    && (forall i :: 0 <= i < |m.namespaces| ==> KnowsNamespace(keys, m.namespaces[i]))
    && (forall i :: 0 <= i < |m.constants| ==> KnowsConstant(keys, m.constants[i]))
    && (forall i :: 0 <= i < |m.coclasses| ==> KnowsCoclass(keys, m.coclasses[i]))
    && (forall i :: 0 <= i < |m.enumerations| ==> KnowsEnumeration(keys, m.enumerations[i]))
    && (forall i :: 0 <= i < |m.interfaces| ==> KnowsInterface(keys, m.interfaces[i]))
  }

  // What is known stays known while the pool grows.

  lemma ParameterGrows(j: set<NulFree>, k: set<NulFree>, xs: seq<Parameter>, n: nat)
    requires j <= k && n <= |xs| && forall i :: 0 <= i < n ==> KnowsParameter(j, xs[i])
    ensures forall i :: 0 <= i < n ==> KnowsParameter(k, xs[i])
  {
  }

  lemma MethodGrows(j: set<NulFree>, k: set<NulFree>, xs: seq<Method>, n: nat)
    requires j <= k && n <= |xs| && forall i :: 0 <= i < n ==> KnowsMethod(j, xs[i])
    ensures forall i :: 0 <= i < n ==> KnowsMethod(k, xs[i])
  {
  }

  lemma ConstantGrows(j: set<NulFree>, k: set<NulFree>, xs: seq<Constant>, n: nat)
    requires j <= k && n <= |xs| && forall i :: 0 <= i < n ==> KnowsConstant(j, xs[i])
    ensures forall i :: 0 <= i < n ==> KnowsConstant(k, xs[i])
  {
  }

  lemma EnumeratorGrows(j: set<NulFree>, k: set<NulFree>, xs: seq<Enumerator>, n: nat)
    requires j <= k && n <= |xs| && forall i :: 0 <= i < n ==> KnowsEnumerator(j, xs[i])
    ensures forall i :: 0 <= i < n ==> KnowsEnumerator(k, xs[i])
  {
  }

  lemma EnumerationGrows(j: set<NulFree>, k: set<NulFree>, xs: seq<Enumeration>, n: nat)
    requires j <= k && n <= |xs| && forall i :: 0 <= i < n ==> KnowsEnumeration(j, xs[i])
    ensures forall i :: 0 <= i < n ==> KnowsEnumeration(k, xs[i])
  {
  }

  lemma InterfaceGrows(j: set<NulFree>, k: set<NulFree>, xs: seq<Interface>, n: nat)
    requires j <= k && n <= |xs| && forall i :: 0 <= i < n ==> KnowsInterface(j, xs[i])
    ensures forall i :: 0 <= i < n ==> KnowsInterface(k, xs[i])
  {
  }

  lemma CoclassGrows(j: set<NulFree>, k: set<NulFree>, xs: seq<Coclass>, n: nat)
    requires j <= k && n <= |xs| && forall i :: 0 <= i < n ==> KnowsCoclass(j, xs[i])
    ensures forall i :: 0 <= i < n ==> KnowsCoclass(k, xs[i])
  {
  }

  lemma NamespaceGrows(j: set<NulFree>, k: set<NulFree>, xs: seq<Namespace>, n: nat)
    requires j <= k && n <= |xs| && forall i :: 0 <= i < n ==> KnowsNamespace(j, xs[i])
    ensures forall i :: 0 <= i < n ==> KnowsNamespace(k, xs[i])
  {
  }

  // ---------------------------------------------------------------- filling an array of pointers

  /** The first `i` of the `n` pointers at `arr` lead to `vs`; the other slots are untouched. */
  ghost predicate Filling<V(!new)>(b: Block, arr: nat, n: nat, i: nat, d: nat -> Option<Seen<V>>, vs: Seen<seq<V>>) {
    && b.pl.Valid() && i <= n
    && b.Has(arr, b.pl.Span(n)) && Aligned(arr, b.pl.big)
    && DecodeArray(b, arr, i, d) == Some(vs)
    && b.ZeroIn(arr + b.pl.Span(i), arr + b.pl.Span(n))
  }

  /** `c` differs from `b` only in `[arr, end)` and from `lo` on. */
  ghost predicate SameOutside(b: Block, c: Block, arr: nat, end: nat, lo: nat) {
    && c.pl == b.pl && c.base == b.base && |c.cells| == |b.cells|
    && forall i :: 0 <= i < |b.cells| && b.base + i < lo && !(arr <= b.base + i < end) ==> c.cells[i] == b.cells[i]
  }

  lemma SlotAligned(pl: Platform, arr: nat, i: nat)
    requires pl.Valid() && Aligned(arr, pl.big)
    ensures Aligned(arr + pl.Span(i), pl.big)
  {
    SpanAligned(pl, i);
    AlignedSum(arr, pl.Span(i), pl.big);
  }

  lemma OutsideThen(a: Block, b: Block, c: Block, arr: nat, end: nat, lo: nat, mid: nat)
    requires SameOutside(a, b, arr, end, lo) && SameOutside(b, c, arr, end, mid) && lo <= mid
    ensures SameOutside(a, c, arr, end, lo)
  {
  }

  /** Room for a pointer array behind everything that can still change. */
  ghost predicate FreeArray(b: Block, arr: nat, n: nat, lo: nat) {
    && b.pl.Valid() && b.Has(arr, b.pl.Span(n)) && Aligned(arr, b.pl.big)
    && arr + b.pl.Span(n) <= lo && b.ZeroIn(arr, arr + b.pl.Span(n))
  }

  lemma FillStart<V(!new)>(b: Block, arr: nat, n: nat, lo: nat, d: nat -> Option<Seen<V>>)
    requires FreeArray(b, arr, n, lo)
    ensures Filling(b, arr, n, 0, d, Seen([], []))
    ensures SameOutside(b, b, arr, arr + b.pl.Span(n), lo)
  {
    hide Aligned;
  }

  lemma FillEnd<V(!new)>(b: Block, arr: nat, n: nat, d: nat -> Option<Seen<V>>, vs: Seen<seq<V>>)
    requires Filling(b, arr, n, n, d, vs)
    ensures DecodeArray(b, arr, n, d) == Some(vs)
  {
  }

  /** One turn of a loop: a record was written behind the array (`b` to `c`), then its address goes
      into slot `i` (`c` to `e`). */
  lemma SlotStep<V(!new)>(b: Block, c: Block, e: Block, lo: nat, hi: nat, arr: nat, n: nat, i: nat, p: nat, d: nat -> Option<Seen<V>>, vs: Seen<seq<V>>,
                          ptr: nat, data: string)
    requires Filling(b, arr, n, i, d, vs) && i < n
    requires b.ZeroFrom(lo) && SameBelow(b, c, lo) && lo <= hi && c.ZeroFrom(hi)
    requires arr + b.pl.Span(n) <= lo
    requires Placed(c, ptr, data)
    requires c.Has(arr + c.pl.Span(i), c.pl.big) && e == c.Store(arr + c.pl.Span(i), c.pl.big, OPointer(p))
    ensures Extends(b, c) && Extends(c, e)
    ensures SameOutside(b, e, arr, arr + b.pl.Span(n), lo)
    ensures e.ZeroFrom(hi) && Placed(e, ptr, data)
    ensures e.ZeroIn(arr + c.pl.Span(i + 1), arr + c.pl.Span(n))
  {
    hide Block.Load, Aligned, DecodeArray;
    SpanStep(b.pl, i, n);
    hide Platform.Span;
    var slot := arr + c.pl.Span(i);
    GrowthExtends(b, c, lo);
    assert c.ZeroIn(slot, slot + c.pl.big);
    StoreExtends(c, slot, c.pl.big, OPointer(p));
  }

  lemma SlotLoads(c: Block, arr: nat, i: nat, p: nat)
    requires c.pl.Valid() && Aligned(arr, c.pl.big) && c.Has(arr + c.pl.Span(i), c.pl.big)
    ensures c.Store(arr + c.pl.Span(i), c.pl.big, OPointer(p)).LoadPointer(arr + c.pl.Span(i)) == Some(p)
  {
    hide Aligned;
    SlotAligned(c.pl, arr, i);
    StoreFacts(c, arr + c.pl.Span(i), c.pl.big, c.pl.big, OPointer(p));
  }

  /** ... and one more element can be read. */
  lemma FillStep<V(!new)>(b: Block, c: Block, e: Block, arr: nat, n: nat, i: nat, p: nat, v: Seen<V>, vs: Seen<seq<V>>,
                          db: nat -> Option<Seen<V>>, dc: nat -> Option<Seen<V>>, de: nat -> Option<Seen<V>>)
    requires Filling(b, arr, n, i, db, vs) && i < n
    requires Extends(b, c) && Extends(c, e)
    requires c.Has(arr + c.pl.Span(i), c.pl.big) && e == c.Store(arr + c.pl.Span(i), c.pl.big, OPointer(p))
    requires e.ZeroIn(arr + c.pl.Span(i + 1), arr + c.pl.Span(n))
    requires dc(p) == Some(v) && Keeps(db, dc) && Keeps(dc, de)
    ensures Filling(e, arr, n, i + 1, de, Seen(vs.view + [v.view], vs.regions + v.regions))
  {
    hide Aligned, Block.LoadPointer;
    ArrayKeeps(b, c, arr, i, db, dc);
    SlotLoads(c, arr, i, p);
    ArrayKeeps(c, e, arr, i, dc, de);
    assert de(p) == Some(v);
  }

  // ---------------------------------------------------------------- filling an index array

  ghost predicate FreeInts(b: Block, arr: nat, n: nat, lo: nat) {
    && b.Has(arr, 4 * n) && Aligned(arr, 4) && arr + 4 * n <= lo && b.ZeroIn(arr, arr + 4 * n)
  }

  ghost predicate FillingInts(b: Block, arr: nat, n: nat, i: nat, lo: nat, vs: seq<int>) {
    && i <= n && b.Has(arr, 4 * n) && Aligned(arr, 4) && arr + 4 * n <= lo
    && b.ZeroIn(arr + 4 * i, arr + 4 * n) && DecodeInts(b, arr, i) == Some(vs)
  }

  lemma IntsStart(b: Block, arr: nat, n: nat, lo: nat)
    requires FreeInts(b, arr, n, lo)
    ensures FillingInts(b, arr, n, 0, lo, [])
    ensures SameOutside(b, b, arr, arr + 4 * n, lo)
  {
  }

  lemma IntsEnd(b: Block, arr: nat, n: nat, lo: nat, vs: seq<int>)
    requires FillingInts(b, arr, n, n, lo, vs)
    ensures DecodeInts(b, arr, n) == Some(vs)
  {
  }

  lemma IntStep(b: Block, e: Block, arr: nat, n: nat, i: nat, lo: nat, v: int, vs: seq<int>, ptr: nat, data: string)
    requires FillingInts(b, arr, n, i, lo, vs) && i < n
    requires e == b.Store(arr + 4 * i, 4, OInt(v))
    requires b.ZeroFrom(lo) && Placed(b, ptr, data)
    ensures FillingInts(e, arr, n, i + 1, lo, vs + [v])
    ensures SameOutside(b, e, arr, arr + 4 * n, lo) && e.ZeroFrom(lo) && Placed(e, ptr, data)
  {
    hide *;
    var slot := arr + 4 * i;
    IntSlot(b, arr, n, i, lo, vs);
    AlignedSum4(arr, i);
    StoreFacts(b, slot, 4, 4, OInt(v));
    StoreExtends(b, slot, 4, OInt(v));
    IntsKeep(b, e, arr, i);
    LoadsInt(e, slot, v);
    SlotIs(b, e, slot);
    IntStored(b, e, arr, n, i, lo, v, vs);
    SlotOutside(b, e, arr, n, i, lo, vs, ptr, data);
  }

  lemma IntSlot(b: Block, arr: nat, n: nat, i: nat, lo: nat, vs: seq<int>)
    requires FillingInts(b, arr, n, i, lo, vs) && i < n
    ensures Aligned(arr, 4) && b.Has(arr + 4 * i, 4) && b.ZeroIn(arr + 4 * i, arr + 4 * i + 4)
    ensures DecodeInts(b, arr, i).Some?
  {
    hide Aligned;
  }

  lemma LoadsInt(b: Block, a: nat, v: int)
    requires b.Load(a, 4, 4) == Some(OInt(v))
    ensures b.LoadInt(a) == Some(v)
  {
    hide Block.Load;
  }

  lemma SlotIs(b: Block, e: Block, slot: nat)
    requires e.pl == b.pl && e.base == b.base && |e.cells| == |b.cells|
    requires forall i :: 0 <= i < |b.cells| && !(slot <= b.base + i < slot + 4) ==> e.cells[i] == b.cells[i]
    ensures SlotOnly(b, e, slot)
  {
  }

  /** `e` differs from `b` in the slot only. */
  ghost predicate SlotOnly(b: Block, e: Block, slot: nat) {
    && e.pl == b.pl && e.base == b.base && |e.cells| == |b.cells|
    && forall i :: 0 <= i < |b.cells| && !(slot <= b.base + i < slot + 4) ==> e.cells[i] == b.cells[i]
  }

  lemma IntStored(b: Block, e: Block, arr: nat, n: nat, i: nat, lo: nat, v: int, vs: seq<int>)
    requires FillingInts(b, arr, n, i, lo, vs) && i < n && SlotOnly(b, e, arr + 4 * i)
    requires DecodeInts(e, arr, i) == DecodeInts(b, arr, i) && e.LoadInt(arr + 4 * i) == Some(v)
    ensures FillingInts(e, arr, n, i + 1, lo, vs + [v])
  {
    hide Aligned, Block.LoadInt;
  }

  lemma SlotOutside(b: Block, e: Block, arr: nat, n: nat, i: nat, lo: nat, vs: seq<int>, ptr: nat, data: string)
    requires FillingInts(b, arr, n, i, lo, vs) && i < n && SlotOnly(b, e, arr + 4 * i)
    requires b.ZeroFrom(lo) && Placed(b, ptr, data) && Extends(b, e)
    ensures SameOutside(b, e, arr, arr + 4 * n, lo) && e.ZeroFrom(lo) && Placed(e, ptr, data)
  {
    PlacedKeeps(b, e, ptr, data);
    hide Aligned, DecodeInts, Placed, Extends;
  }

  lemma AlignedSum4(arr: nat, i: nat)
    requires Aligned(arr, 4)
    ensures Aligned(arr + 4 * i, 4)
  {
  }

  // ---------------------------------------------------------------- a record and its arrays

  /** An array behind everything that has been written so far. */
  lemma FreshArray(b: Block, q: nat, arr: nat, n: nat, hi: nat)
    requires b.pl.Valid() && b.ZeroFrom(q) && q <= arr && Aligned(arr, b.pl.big)
    requires b.base <= arr && arr + b.pl.Span(n) <= hi <= b.base + |b.cells|
    ensures FreeArray(b, arr, n, hi) && b.ZeroFrom(hi)
  {
    hide Aligned;
  }

  lemma FreshInts(b: Block, q: nat, arr: nat, n: nat, hi: nat)
    requires b.ZeroFrom(q) && q <= arr && Aligned(arr, 4)
    requires b.base <= arr && arr + 4 * n <= hi <= b.base + |b.cells|
    ensures FreeInts(b, arr, n, hi) && b.ZeroFrom(hi)
  {
    hide Aligned;
  }

  lemma BigIsFour(pl: Platform, a: nat)
    requires pl.Valid() && Aligned(a, pl.big)
    ensures Aligned(a, 4)
  {
  }

  /** An array that lies elsewhere stays free while another one is being filled. */
  lemma StillFreeInts(b: Block, c: Block, arr: nat, n: nat, hi: nat, other: nat, m: nat)
    requires SameOutside(b, c, arr, arr + 4 * n, hi) && FreeInts(b, other, m, hi)
    requires arr + 4 * n <= other || other + 4 * m <= arr
    ensures FreeInts(c, other, m, hi)
  {
    hide Aligned;
  }

  lemma StillFree(b: Block, c: Block, arr: nat, end: nat, lo: nat, other: nat, m: nat, hi: nat)
    requires SameOutside(b, c, arr, end, lo) && FreeArray(b, other, m, lo) && lo <= hi
    requires end <= other || other + b.pl.Span(m) <= arr
    ensures FreeArray(c, other, m, hi)
  {
    hide Aligned;
  }

  lemma IntsWritten(b: Block, c: Block, arr: nat, n: nat, hi: nat, low: nat)
    requires SameOutside(b, c, arr, arr + 4 * n, hi) && FreeInts(b, arr, n, hi) && b.ZeroFrom(hi)
    requires low <= arr
    ensures Extends(b, c) && SameBelow(b, c, low)
  {
    hide Aligned;
  }

  lemma ArrayWritten(b: Block, c: Block, arr: nat, n: nat, lo: nat, low: nat)
    requires SameOutside(b, c, arr, arr + b.pl.Span(n), lo) && FreeArray(b, arr, n, lo) && b.ZeroFrom(lo)
    requires low <= arr
    ensures Extends(b, c) && SameBelow(b, c, low)
  {
    hide Aligned;
  }

  lemma Grows(a: Block, b: Block, c: Block, low: nat)
    requires Extends(a, b) && Extends(b, c) && SameBelow(a, b, low) && SameBelow(b, c, low)
    ensures Extends(a, c) && SameBelow(a, c, low)
  {
  }

  lemma OutsideWider(b: Block, c: Block, arr: nat, end: nat, arr2: nat, end2: nat, lo: nat)
    requires SameOutside(b, c, arr, end, lo) && arr2 <= arr && end <= end2
    ensures SameOutside(b, c, arr2, end2, lo)
  {
  }

  /** `c` is `b` with the characters of `data` at `ptr`. */
  ghost predicate Copied(b: Block, c: Block, ptr: nat, data: string) {
    && c.pl == b.pl && c.base == b.base && |c.cells| == |b.cells|
    && forall i :: 0 <= i < |b.cells| ==>
         c.cells[i] == if ptr - b.base <= i < ptr - b.base + |data| then Chr(data[i - (ptr - b.base)]) else b.cells[i]
  }

  /** The pool has been copied behind a record. */
  lemma PoolCopied(b: Block, c: Block, q: nat, ptr: nat, data: string)
    requires b.ZeroFrom(q) && q <= ptr && b.Has(ptr, |data|)
    requires Copied(b, c, ptr, data)
    ensures SameBelow(b, c, ptr) && Extends(b, c) && Placed(c, ptr, data) && c.ZeroFrom(ptr + |data|)
  {
  }

  /** ... leaving the arrays between the two free. */
  lemma StillZero(b: Block, c: Block, q: nat, ptr: nat, arr: nat, n: nat, hi: nat)
    requires b.ZeroFrom(q) && SameBelow(b, c, ptr)
    requires b.pl.Valid() && q <= arr && arr + b.pl.Span(n) <= ptr <= hi && Aligned(arr, b.pl.big)
    requires b.base <= arr && hi <= b.base + |b.cells|
    ensures FreeArray(c, arr, n, hi)
  {
    hide Aligned;
  }

  /** The six pointer arrays of the component are free. */
  ghost predicate ArraysFree(b: Block, m: Module, a: (nat, nat, nat, nat, nat, nat, nat), lo: nat) {
    && FreeArray(b, a.0, |m.namespaces|, lo) && FreeArray(b, a.1, |m.constants|, lo) && FreeArray(b, a.2, |m.coclasses|, lo)
    && FreeArray(b, a.3, |m.enumerations|, lo) && FreeArray(b, a.4, |m.interfaces|, lo) && FreeArray(b, a.5, |m.types|, lo)
  }

  lemma ArraysStillZero(b: Block, c: Block, q: nat, ptr: nat, m: Module, a: (nat, nat, nat, nat, nat, nat, nat), hi: nat)
    requires b.ZeroFrom(q) && SameBelow(b, c, ptr)
    requires b.pl.Valid() && b.base <= q <= a.0 && ptr <= hi <= b.base + |b.cells|
    requires a.0 + b.pl.Span(|m.namespaces|) <= a.1 && a.1 + b.pl.Span(|m.constants|) <= a.2
    requires a.2 + b.pl.Span(|m.coclasses|) <= a.3 && a.3 + b.pl.Span(|m.enumerations|) <= a.4
    requires a.4 + b.pl.Span(|m.interfaces|) <= a.5 && a.5 + b.pl.Span(|m.types|) <= ptr
    requires Aligned(a.0, b.pl.big) && Aligned(a.1, b.pl.big) && Aligned(a.2, b.pl.big)
    requires Aligned(a.3, b.pl.big) && Aligned(a.4, b.pl.big) && Aligned(a.5, b.pl.big)
    ensures ArraysFree(c, m, a, hi)
  {
    hide Aligned, FreeArray, SameBelow, Block.ZeroFrom, Platform.Span;
    StillZero(b, c, q, ptr, a.0, |m.namespaces|, hi);
    StillZero(b, c, q, ptr, a.1, |m.constants|, hi);
    StillZero(b, c, q, ptr, a.2, |m.coclasses|, hi);
    StillZero(b, c, q, ptr, a.3, |m.enumerations|, hi);
    StillZero(b, c, q, ptr, a.4, |m.interfaces|, hi);
    StillZero(b, c, q, ptr, a.5, |m.types|, hi);
  }

  lemma NothingPlaced(b: Block, p: nat)
    requires b.Has(p, 0)
    ensures Placed(b, p, "")
  {
  }

  lemma AlignedStays(v: nat, a: nat)
    requires IsAlignment(a) && Aligned(v, a)
    ensures AlignUp(v, a) == v
  {
  }

  /** With at least one type, and a type record whose size is a multiple of the alignment, the writing
      pass fills exactly what the sizing pass counted. */
  lemma PassesAgree(pl: Platform, m: Module, pool: nat, base: nat)
    requires pl.Valid() && Aligned(base, pl.big) && m.types != []
    ensures WritingEnd(pl.Header(m), pl.Records(m), pool, base) == base + SizingEnd(pl.Header(m), pl.Records(m), pool, pl.big)
       <==> Aligned(pl.typeSize, pl.big)
  {
    hide AlignUp, Run;
    HeaderAligned(pl, m, 0);
    LayoutIsValid(pl, m);
    SizesAgree(pl.Header(m), pl.Records(m), pool, base, pl.big);
    LastChunkDecides(pl.Records(m), Run(pl.Header(m), 0), pl.big);
  }

  /** The regions the writing pass hands out: the component record and its arrays, the string pool, and
      then every other record and array. */
  function WrittenChunks(pl: Platform, m: Module, pool: nat): seq<Chunk> {
    pl.Header(m) + [Chunk(1, pool)] + pl.Records(m)
  }

  /** The regions of the component record, of its arrays and of every other record and array. */
  function ObjectRegions(pl: Platform, m: Module, pool: nat, base: nat): seq<Region> {
    Regions(pl.Header(m), base) + Regions(pl.Records(m), Run(pl.Header(m), base) + pool)
  }

  lemma Appended<T>(h: seq<T>, a: seq<T>, b: seq<T>, c: seq<T>, d: seq<T>, e: seq<T>, f: seq<T>)
    ensures h + a + b + c + d + e + f == h + (a + b + c + d + e + f)
  {
  }

  /** Every region is aligned and lies in `[lo, hi)`, and no two share a byte. */
  ghost predicate Apart(rs: seq<Region>, lo: nat, hi: nat) {
    && (forall i :: 0 <= i < |rs| ==> lo <= rs[i].start <= rs[i].end <= hi && Aligned(rs[i].start, rs[i].align))
    && (forall i, j :: 0 <= i < j < |rs| ==> rs[i].end <= rs[j].start)
  }

  /** The regions that the writing pass hands out are aligned, share no byte, and lie inside the block
      that the sizing pass counted.  The eighth is the string pool; the others are the regions of the
      objects. */
  lemma WrittenRegions(pl: Platform, m: Module, pool: nat, base: nat)
    requires pl.Valid() && Aligned(base, pl.big) && Aligned(pl.typeSize, pl.big) && m.types != []
    ensures var rs := Regions(WrittenChunks(pl, m, pool), base);
      && Apart(rs, base, base + SizingEnd(pl.Header(m), pl.Records(m), pool, pl.big))
      && |rs| >= 8 && rs[7] == Region(Run(pl.Header(m), base), Run(pl.Header(m), base) + pool, 1)
      && ObjectRegions(pl, m, pool, base) == rs[..7] + rs[8..]
  {
    hide *;
    PassesAgree(pl, m, pool, base);
    WrittenRun(pl, m, pool, base);
    WrittenChunksValid(pl, m, pool);
    var cs := WrittenChunks(pl, m, pool);
    RegionsAreDisjoint(cs, base, pl.big);
    ApartIs(Regions(cs, base), base, WritingEnd(pl.Header(m), pl.Records(m), pool, base));
  }

  lemma ApartIs(rs: seq<Region>, lo: nat, hi: nat)
    requires forall i :: 0 <= i < |rs| ==> lo <= rs[i].start <= rs[i].end <= hi && Aligned(rs[i].start, rs[i].align)
    requires forall i, j :: 0 <= i < j < |rs| ==> rs[i].end <= rs[j].start
    ensures Apart(rs, lo, hi)
  {
  }

  lemma WrittenChunksValid(pl: Platform, m: Module, pool: nat)
    requires pl.Valid() && m.types != []
    ensures AllValid(WrittenChunks(pl, m, pool), pl.big) && IsAlignment(pl.big)
  {
    LayoutIsValid(pl, m);
    hide Platform.Header, Platform.Records;
  }

  lemma WrittenRun(pl: Platform, m: Module, pool: nat, base: nat)
    requires pl.Valid()
    ensures var cs := WrittenChunks(pl, m, pool);
      var rs, h := Regions(cs, base), Run(pl.Header(m), base);
      && Run(cs, base) == WritingEnd(pl.Header(m), pl.Records(m), pool, base)
      && |rs| >= 8 && rs[7] == Region(h, h + pool, 1)
      && ObjectRegions(pl, m, pool, base) == rs[..7] + rs[8..]
  {
    hide AlignUp, Run, Regions, Platform.Records;
    var header, records, p := pl.Header(m), pl.Records(m), [Chunk(1, pool)];
    var h := Run(header, base);
    assert |header| == 7;
    hide Platform.Header;
    RunConcat(header + p, records, base);
    RegionsConcat(header + p, records, base);
    RunConcat(header, p, base);
    RegionsConcat(header, p, base);
    RunOne(Chunk(1, pool), h);
    UnalignedStays(h);
  }

  lemma UnalignedStays(v: nat)
    ensures AlignUp(v, 1) == v
  {
  }

  lemma BelowThenBelow(a: Block, b: Block, c: Block, lo: nat, mid: nat)
    requires SameBelow(a, b, lo) && SameBelow(b, c, mid) && lo <= mid
    ensures SameBelow(a, c, lo)
  {
  }

  /** Filling an array that lies behind `lo` keeps what was below `lo`, and what could be read. */
  lemma OutsideGrows(a: Block, b: Block, c: Block, lo: nat, arr: nat, end: nat, hi: nat)
    requires SameBelow(a, b, lo) && SameOutside(b, c, arr, end, hi) && lo <= arr && lo <= hi
    requires b.ZeroFrom(hi) && b.ZeroIn(arr, end)
    ensures SameBelow(a, c, lo) && Extends(b, c)
  {
  }

  /** Storing the head of a record at the cursor. */
  lemma RecordStep(b: Block, c: Block, lo: nat, p: nat, size: nat, o: Object, ptr: nat, data: string)
    requires b.ZeroFrom(lo) && lo <= p && b.Has(p, size) && size >= 1 && Aligned(p, b.pl.big)
    requires c == b.Store(p, size, o)
    requires Placed(b, ptr, data)
    ensures SameBelow(b, c, lo) && Extends(b, c) && c.ZeroFrom(p + size)
    ensures c.Load(p, size, b.pl.big) == Some(o)
    ensures Placed(c, ptr, data)
  {
    StoreFacts(b, p, size, b.pl.big, o);
    StoreExtends(b, p, size, o);
  }

  class MetaBuilder {
    const pl: Platform
    const mModule: Module
    const mStringPool: StringPool
    var mBasePtr: nat
    var mSize: nat
    var mBase: nat
    var mPoolPtr: nat
    var mBlock: array<Cell>

    constructor (pl: Platform, module_: Module)
      requires pl.Valid()
      ensures this.pl == pl && mModule == module_ && mBasePtr == 0
      ensures fresh(mStringPool) && mStringPool.Valid()
    {
      this.pl := pl;
      mModule := module_;
      mStringPool := new StringPool();
      mBasePtr, mSize, mBase, mPoolPtr := 0, 0, 0, 0;
      mBlock := new Cell[0];
    }

    // -------------------------------------------------------------- the sizing pass

    /** The pool is well formed and has only grown since it held `keys`. */
    ghost predicate Sizing(keys: set<NulFree>)
      reads this, mStringPool
    {
      pl.Valid() && mStringPool.Valid() && keys <= mStringPool.mOffsets.Keys
    }

    method CalculateMetaParameter(x: Parameter)
      requires Sizing({})
      modifies this`mBasePtr, mStringPool
      ensures Sizing(old(mStringPool.mOffsets.Keys))
      ensures mBasePtr == Run(pl.OfParameter(x), old(mBasePtr))
      ensures KnowsParameter(mStringPool.mOffsets.Keys, x)
    {
      hide StringPool.Valid, AlignUp;
      mBasePtr := AlignUp(mBasePtr, pl.big);
      mStringPool.Add(x.name);
      mBasePtr := mBasePtr + pl.parameterSize;
      RunOne(Chunk(pl.big, pl.parameterSize), old(mBasePtr));
    }

    method CalculateParameters(xs: seq<Parameter>)
      requires Sizing({})
      modifies this`mBasePtr, mStringPool
      ensures Sizing(old(mStringPool.mOffsets.Keys))
      ensures mBasePtr == Run(Flat(pl.OfParameter, xs), old(mBasePtr))
      ensures forall k :: 0 <= k < |xs| ==> KnowsParameter(mStringPool.mOffsets.Keys, xs[k])
    {
      hide StringPool.Valid, AlignUp, Run, Flat, KnowsParameter;
      FlatStart(pl.OfParameter, xs, mBasePtr);
      var i := 0;
      while i < |xs|
        invariant 0 <= i <= |xs|
        invariant Sizing(old(mStringPool.mOffsets.Keys))
        invariant mBasePtr == Run(Flat(pl.OfParameter, xs[..i]), old(mBasePtr))
        invariant forall k :: 0 <= k < i ==> KnowsParameter(mStringPool.mOffsets.Keys, xs[k])
      {
        ghost var before := mStringPool.mOffsets.Keys;
        CalculateMetaParameter(xs[i]);
        ParameterGrows(before, mStringPool.mOffsets.Keys, xs, i);
        FlatStep(pl.OfParameter, xs, i, old(mBasePtr));
        i := i + 1;
      }
      assert xs[..i] == xs;
    }

    method CalculateMetaMethod(x: Method)
      requires Sizing({})
      modifies this`mBasePtr, mStringPool
      ensures Sizing(old(mStringPool.mOffsets.Keys))
      ensures mBasePtr == Run(pl.OfMethod(x), old(mBasePtr))
      ensures KnowsMethod(mStringPool.mOffsets.Keys, x)
    {
      hide StringPool.Valid, AlignUp, Run, Flat;
      MethodCursor(pl, x, mBasePtr);
      mBasePtr := AlignUp(mBasePtr, pl.big);
      mStringPool.Add(x.name);
      mStringPool.Add(x.signature);
      mBasePtr := AlignUp(mBasePtr + pl.methodSize, pl.big);
      mBasePtr := mBasePtr + pl.Span(|x.parameters|);
      CalculateParameters(x.parameters);
    }

    method CalculateMetaConstant(x: Constant)
      requires Sizing({})
      modifies this`mBasePtr, mStringPool
      ensures Sizing(old(mStringPool.mOffsets.Keys))
      ensures mBasePtr == Run(pl.OfConstant(x), old(mBasePtr))
      ensures KnowsConstant(mStringPool.mOffsets.Keys, x)
    {
      hide StringPool.Valid, AlignUp;
      mBasePtr := AlignUp(mBasePtr, pl.big);
      mStringPool.Add(x.name);
      if KindOf(x.ty) == Kind.String {
        mStringPool.Add(x.value.text);
      } else if KindOf(x.ty) == Kind.Enum {
        mStringPool.Add(x.value.enumerator);
      }
      mBasePtr := mBasePtr + pl.constantSize;
      RunOne(Chunk(pl.big, pl.constantSize), old(mBasePtr));
    }

    method CalculateMetaEnumerator(x: Enumerator)
      requires Sizing({})
      modifies this`mBasePtr, mStringPool
      ensures Sizing(old(mStringPool.mOffsets.Keys))
      ensures mBasePtr == Run(pl.OfEnumerator(x), old(mBasePtr))
      ensures KnowsEnumerator(mStringPool.mOffsets.Keys, x)
    {
      hide StringPool.Valid, AlignUp;
      mBasePtr := AlignUp(mBasePtr, pl.big);
      mStringPool.Add(x.name);
      mBasePtr := mBasePtr + pl.enumeratorSize;
      RunOne(Chunk(pl.big, pl.enumeratorSize), old(mBasePtr));
    }

    method CalculateEnumerators(xs: seq<Enumerator>)
      requires Sizing({})
      modifies this`mBasePtr, mStringPool
      ensures Sizing(old(mStringPool.mOffsets.Keys))
      ensures mBasePtr == Run(Flat(pl.OfEnumerator, xs), old(mBasePtr))
      ensures forall k :: 0 <= k < |xs| ==> KnowsEnumerator(mStringPool.mOffsets.Keys, xs[k])
    {
      hide StringPool.Valid, AlignUp, Run, Flat, KnowsEnumerator;
      FlatStart(pl.OfEnumerator, xs, mBasePtr);
      var i := 0;
      while i < |xs|
        invariant 0 <= i <= |xs|
        invariant Sizing(old(mStringPool.mOffsets.Keys))
        invariant mBasePtr == Run(Flat(pl.OfEnumerator, xs[..i]), old(mBasePtr))
        invariant forall k :: 0 <= k < i ==> KnowsEnumerator(mStringPool.mOffsets.Keys, xs[k])
      {
        ghost var before := mStringPool.mOffsets.Keys;
        CalculateMetaEnumerator(xs[i]);
        EnumeratorGrows(before, mStringPool.mOffsets.Keys, xs, i);
        FlatStep(pl.OfEnumerator, xs, i, old(mBasePtr));
        i := i + 1;
      }
      assert xs[..i] == xs;
    }

    method CalculateMetaEnumeration(x: Enumeration)
      requires Sizing({})
      modifies this`mBasePtr, mStringPool
      ensures Sizing(old(mStringPool.mOffsets.Keys))
      ensures mBasePtr == Run(pl.OfEnumeration(x), old(mBasePtr))
      ensures KnowsEnumeration(mStringPool.mOffsets.Keys, x)
    {
      hide StringPool.Valid, AlignUp, Run, Flat;
      EnumerationCursor(pl, x, mBasePtr);
      mBasePtr := AlignUp(mBasePtr, pl.big);
      mStringPool.Add(x.name);
      mStringPool.Add(x.namespace);
      mBasePtr := AlignUp(mBasePtr + pl.enumerationSize, pl.big);
      mBasePtr := mBasePtr + pl.Span(|x.enumerators|);
      CalculateEnumerators(x.enumerators);
    }

    method CalculateConstants(xs: seq<Constant>)
      requires Sizing({})
      modifies this`mBasePtr, mStringPool
      ensures Sizing(old(mStringPool.mOffsets.Keys))
      ensures mBasePtr == Run(Flat(pl.OfConstant, xs), old(mBasePtr))
      ensures forall k :: 0 <= k < |xs| ==> KnowsConstant(mStringPool.mOffsets.Keys, xs[k])
    {
      hide StringPool.Valid, AlignUp, Run, Flat, KnowsConstant;
      FlatStart(pl.OfConstant, xs, mBasePtr);
      var i := 0;
      while i < |xs|
        invariant 0 <= i <= |xs|
        invariant Sizing(old(mStringPool.mOffsets.Keys))
        invariant mBasePtr == Run(Flat(pl.OfConstant, xs[..i]), old(mBasePtr))
        invariant forall k :: 0 <= k < i ==> KnowsConstant(mStringPool.mOffsets.Keys, xs[k])
      {
        ghost var before := mStringPool.mOffsets.Keys;
        CalculateMetaConstant(xs[i]);
        ConstantGrows(before, mStringPool.mOffsets.Keys, xs, i);
        FlatStep(pl.OfConstant, xs, i, old(mBasePtr));
        i := i + 1;
      }
      assert xs[..i] == xs;
    }

    method CalculateMethods(xs: seq<Method>)
      requires Sizing({})
      modifies this`mBasePtr, mStringPool
      ensures Sizing(old(mStringPool.mOffsets.Keys))
      ensures mBasePtr == Run(Flat(pl.OfMethod, xs), old(mBasePtr))
      ensures forall k :: 0 <= k < |xs| ==> KnowsMethod(mStringPool.mOffsets.Keys, xs[k])
    {
      hide StringPool.Valid, AlignUp, Run, Flat, KnowsMethod;
      FlatStart(pl.OfMethod, xs, mBasePtr);
      var i := 0;
      while i < |xs|
        invariant 0 <= i <= |xs|
        invariant Sizing(old(mStringPool.mOffsets.Keys))
        invariant mBasePtr == Run(Flat(pl.OfMethod, xs[..i]), old(mBasePtr))
        invariant forall k :: 0 <= k < i ==> KnowsMethod(mStringPool.mOffsets.Keys, xs[k])
      {
        ghost var before := mStringPool.mOffsets.Keys;
        CalculateMetaMethod(xs[i]);
        MethodGrows(before, mStringPool.mOffsets.Keys, xs, i);
        FlatStep(pl.OfMethod, xs, i, old(mBasePtr));
        i := i + 1;
      }
      assert xs[..i] == xs;
    }

    method CalculateMetaInterface(x: Interface)
      requires Sizing({})
      modifies this`mBasePtr, mStringPool
      ensures Sizing(old(mStringPool.mOffsets.Keys))
      ensures mBasePtr == Run(pl.OfInterface(x), old(mBasePtr))
      ensures KnowsInterface(mStringPool.mOffsets.Keys, x)
    {
      hide StringPool.Valid, AlignUp, Run, Flat, KnowsConstant, KnowsMethod;
      InterfaceCursor(pl, x, mBasePtr);
      mStringPool.Add(x.name);
      mStringPool.Add(x.namespace);
      var ptr := AlignUp(mBasePtr, pl.big);
      ptr := AlignUp(ptr + pl.interfaceSize, pl.big);
      ptr := AlignUp(ptr + 4 * |x.nested|, pl.big);
      ptr := AlignUp(ptr + pl.Span(|x.constants|), pl.big);
      ptr := ptr + pl.Span(|x.methods|);
      mBasePtr := ptr;
      CalculateConstants(x.constants);
      ghost var k := mStringPool.mOffsets.Keys;
      CalculateMethods(x.methods);
      ConstantGrows(k, mStringPool.mOffsets.Keys, x.constants, |x.constants|);
    }

    method CalculateMetaCoclass(x: Coclass)
      requires Sizing({})
      modifies this`mBasePtr, mStringPool
      ensures Sizing(old(mStringPool.mOffsets.Keys))
      ensures mBasePtr == Run(pl.OfCoclass(x), old(mBasePtr))
      ensures KnowsCoclass(mStringPool.mOffsets.Keys, x)
    {
      hide StringPool.Valid, AlignUp;
      CoclassCursor(pl, x, mBasePtr);
      mBasePtr := AlignUp(mBasePtr, pl.big);
      mStringPool.Add(x.name);
      mStringPool.Add(x.namespace);
      mBasePtr := AlignUp(mBasePtr + pl.coclassSize, 4);
      mBasePtr := mBasePtr + 4 * |x.interfaces|;
    }

    method CalculateMetaNamespace(x: Namespace)
      requires Sizing({})
      modifies this`mBasePtr, mStringPool
      ensures Sizing(old(mStringPool.mOffsets.Keys))
      ensures mBasePtr == Run(pl.OfNamespace(x), old(mBasePtr))
      ensures KnowsNamespace(mStringPool.mOffsets.Keys, x)
    {
      hide StringPool.Valid, AlignUp;
      NamespaceCursor(pl, x, mBasePtr);
      mStringPool.Add(x.path);
      var ptr := AlignUp(mBasePtr, pl.big);
      ptr := AlignUp(ptr + pl.namespaceSize, 4);
      ptr := AlignUp(ptr + 4 * |x.constants|, 4);
      ptr := AlignUp(ptr + 4 * |x.coclasses|, 4);
      ptr := AlignUp(ptr + 4 * |x.enumerations|, 4);
      mBasePtr := ptr + 4 * |x.interfaces|;
    }

    method CalculateMetaType(x: Type)
      requires Sizing({})
      modifies this`mBasePtr, mStringPool
      ensures Sizing(old(mStringPool.mOffsets.Keys))
      ensures mBasePtr == Run(pl.OfType(x), old(mBasePtr))
    {
      hide StringPool.Valid, AlignUp;
      mBasePtr := AlignUp(mBasePtr, pl.big);
      mBasePtr := mBasePtr + pl.typeSize;
      RunOne(Chunk(pl.big, pl.typeSize), old(mBasePtr));
    }

    method CalculateNamespaces(xs: seq<Namespace>)
      requires Sizing({})
      modifies this`mBasePtr, mStringPool
      ensures Sizing(old(mStringPool.mOffsets.Keys))
      ensures mBasePtr == Run(Flat(pl.OfNamespace, xs), old(mBasePtr))
      ensures forall k :: 0 <= k < |xs| ==> KnowsNamespace(mStringPool.mOffsets.Keys, xs[k])
    {
      hide StringPool.Valid, AlignUp, Run, Flat, KnowsNamespace;
      FlatStart(pl.OfNamespace, xs, mBasePtr);
      var i := 0;
      while i < |xs|
        invariant 0 <= i <= |xs|
        invariant Sizing(old(mStringPool.mOffsets.Keys))
        invariant mBasePtr == Run(Flat(pl.OfNamespace, xs[..i]), old(mBasePtr))
        invariant forall k :: 0 <= k < i ==> KnowsNamespace(mStringPool.mOffsets.Keys, xs[k])
      {
        ghost var before := mStringPool.mOffsets.Keys;
        CalculateMetaNamespace(xs[i]);
        NamespaceGrows(before, mStringPool.mOffsets.Keys, xs, i);
        FlatStep(pl.OfNamespace, xs, i, old(mBasePtr));
        i := i + 1;
      }
      assert xs[..i] == xs;
    }

    method CalculateCoclasses(xs: seq<Coclass>)
      requires Sizing({})
      modifies this`mBasePtr, mStringPool
      ensures Sizing(old(mStringPool.mOffsets.Keys))
      ensures mBasePtr == Run(Flat(pl.OfCoclass, xs), old(mBasePtr))
      ensures forall k :: 0 <= k < |xs| ==> KnowsCoclass(mStringPool.mOffsets.Keys, xs[k])
    {
      hide StringPool.Valid, AlignUp, Run, Flat, KnowsCoclass;
      FlatStart(pl.OfCoclass, xs, mBasePtr);
      var i := 0;
      while i < |xs|
        invariant 0 <= i <= |xs|
        invariant Sizing(old(mStringPool.mOffsets.Keys))
        invariant mBasePtr == Run(Flat(pl.OfCoclass, xs[..i]), old(mBasePtr))
        invariant forall k :: 0 <= k < i ==> KnowsCoclass(mStringPool.mOffsets.Keys, xs[k])
      {
        ghost var before := mStringPool.mOffsets.Keys;
        CalculateMetaCoclass(xs[i]);
        CoclassGrows(before, mStringPool.mOffsets.Keys, xs, i);
        FlatStep(pl.OfCoclass, xs, i, old(mBasePtr));
        i := i + 1;
      }
      assert xs[..i] == xs;
    }

    method CalculateEnumerations(xs: seq<Enumeration>)
      requires Sizing({})
      modifies this`mBasePtr, mStringPool
      ensures Sizing(old(mStringPool.mOffsets.Keys))
      ensures mBasePtr == Run(Flat(pl.OfEnumeration, xs), old(mBasePtr))
      ensures forall k :: 0 <= k < |xs| ==> KnowsEnumeration(mStringPool.mOffsets.Keys, xs[k])
    {
      hide StringPool.Valid, AlignUp, Run, Flat, KnowsEnumeration;
      FlatStart(pl.OfEnumeration, xs, mBasePtr);
      var i := 0;
      while i < |xs|
        invariant 0 <= i <= |xs|
        invariant Sizing(old(mStringPool.mOffsets.Keys))
        invariant mBasePtr == Run(Flat(pl.OfEnumeration, xs[..i]), old(mBasePtr))
        invariant forall k :: 0 <= k < i ==> KnowsEnumeration(mStringPool.mOffsets.Keys, xs[k])
      {
        ghost var before := mStringPool.mOffsets.Keys;
        CalculateMetaEnumeration(xs[i]);
        EnumerationGrows(before, mStringPool.mOffsets.Keys, xs, i);
        FlatStep(pl.OfEnumeration, xs, i, old(mBasePtr));
        i := i + 1;
      }
      assert xs[..i] == xs;
    }

    method CalculateInterfaces(xs: seq<Interface>)
      requires Sizing({})
      modifies this`mBasePtr, mStringPool
      ensures Sizing(old(mStringPool.mOffsets.Keys))
      ensures mBasePtr == Run(Flat(pl.OfInterface, xs), old(mBasePtr))
      ensures forall k :: 0 <= k < |xs| ==> KnowsInterface(mStringPool.mOffsets.Keys, xs[k])
    {
      hide StringPool.Valid, AlignUp, Run, Flat, KnowsInterface;
      FlatStart(pl.OfInterface, xs, mBasePtr);
      var i := 0;
      while i < |xs|
        invariant 0 <= i <= |xs|
        invariant Sizing(old(mStringPool.mOffsets.Keys))
        invariant mBasePtr == Run(Flat(pl.OfInterface, xs[..i]), old(mBasePtr))
        invariant forall k :: 0 <= k < i ==> KnowsInterface(mStringPool.mOffsets.Keys, xs[k])
      {
        ghost var before := mStringPool.mOffsets.Keys;
        CalculateMetaInterface(xs[i]);
        InterfaceGrows(before, mStringPool.mOffsets.Keys, xs, i);
        FlatStep(pl.OfInterface, xs, i, old(mBasePtr));
        i := i + 1;
      }
      assert xs[..i] == xs;
    }

    method CalculateTypes(xs: seq<Type>)
      requires Sizing({})
      modifies this`mBasePtr, mStringPool
      ensures Sizing(old(mStringPool.mOffsets.Keys))
      ensures mBasePtr == Run(Flat(pl.OfType, xs), old(mBasePtr))
    {
      hide StringPool.Valid, AlignUp, Run, Flat;
      FlatStart(pl.OfType, xs, mBasePtr);
      var i := 0;
      while i < |xs|
        invariant 0 <= i <= |xs|
        invariant Sizing(old(mStringPool.mOffsets.Keys))
        invariant mBasePtr == Run(Flat(pl.OfType, xs[..i]), old(mBasePtr))
      {
        CalculateMetaType(xs[i]);
        FlatStep(pl.OfType, xs, i, old(mBasePtr));
        i := i + 1;
      }
      assert xs[..i] == xs;
    }

    /** Every record but the first. */
    method CalculateRecords()
      requires Sizing({})
      modifies this`mBasePtr, mStringPool
      ensures Sizing(old(mStringPool.mOffsets.Keys))
      ensures mBasePtr == Run(pl.Records(mModule), old(mBasePtr))
      ensures Knows(old(mStringPool.mOffsets.Keys), mModule.name) && Knows(old(mStringPool.mOffsets.Keys), mModule.url)
              ==> KnowsModule(mStringPool.mOffsets.Keys, mModule)
    {
      hide StringPool.Valid, AlignUp, Run, Flat, KnowsNamespace, KnowsConstant, KnowsCoclass, KnowsEnumeration,
        KnowsInterface;
      var m := mModule;
      RecordsCursor(pl, m, mBasePtr);
      CalculateNamespaces(m.namespaces);
      ghost var k0 := mStringPool.mOffsets.Keys;
      CalculateConstants(m.constants);
      ghost var k1 := mStringPool.mOffsets.Keys;
      CalculateCoclasses(m.coclasses);
      ghost var k2 := mStringPool.mOffsets.Keys;
      CalculateEnumerations(m.enumerations);
      ghost var k3 := mStringPool.mOffsets.Keys;
      CalculateInterfaces(m.interfaces);
      ghost var k4 := mStringPool.mOffsets.Keys;
      CalculateTypes(m.types);
      ghost var k := mStringPool.mOffsets.Keys;
      NamespaceGrows(k0, k, m.namespaces, |m.namespaces|);
      ConstantGrows(k1, k, m.constants, |m.constants|);
      CoclassGrows(k2, k, m.coclasses, |m.coclasses|);
      EnumerationGrows(k3, k, m.enumerations, |m.enumerations|);
      InterfaceGrows(k4, k, m.interfaces, |m.interfaces|);
    }

    /** The component record and its six pointer arrays. */
    method CalculateHeader()
      requires Sizing({})
      modifies this`mBasePtr
      ensures mBasePtr == Run(pl.Header(mModule), old(mBasePtr))
    {
      hide StringPool.Valid, AlignUp, Run;
      var m := mModule;
      HeaderCursor(pl, m, mBasePtr);
      var ptr := AlignUp(mBasePtr, pl.big);
      ptr := AlignUp(ptr + pl.componentSize, pl.big);
      ptr := AlignUp(ptr + pl.Span(|m.namespaces|), pl.big);
      ptr := AlignUp(ptr + pl.Span(|m.constants|), pl.big);
      ptr := AlignUp(ptr + pl.Span(|m.coclasses|), pl.big);
      ptr := AlignUp(ptr + pl.Span(|m.enumerations|), pl.big);
      ptr := AlignUp(ptr + pl.Span(|m.interfaces|), pl.big);
      mBasePtr := ptr + pl.Span(|m.types|);
    }

    /** The component record, every other record, and the pool at the very end. */
    method CalculateMetaComponent()
      requires Sizing({})
      modifies this`mBasePtr, mStringPool
      ensures Sizing(old(mStringPool.mOffsets.Keys))
      ensures mBasePtr == AlignUp(Run(pl.Records(mModule), Run(pl.Header(mModule), old(mBasePtr))) + |mStringPool.mData|, pl.big)
      ensures KnowsModule(mStringPool.mOffsets.Keys, mModule)
    {
      hide StringPool.Valid, AlignUp, Run, KnowsModule, Platform.Header, Platform.Records;
      mStringPool.Add(mModule.name);
      mStringPool.Add(mModule.url);
      CalculateHeader();
      CalculateRecords();
      mBasePtr := AlignUp(mBasePtr + |mStringPool.mData|, pl.big);
    }

    // -------------------------------------------------------------- the writing pass

    function Blk(): Block
      reads this, mBlock
    {
      Block(pl, mBase, mBlock[..])
    }

    /** The block is untouched from the cursor on, and the pool has been copied into it. */
    ghost predicate Ready()
      reads this, mBlock, mStringPool
    {
      && pl.Valid() && mStringPool.Valid()
      && mBase <= mBasePtr && Blk().ZeroFrom(mBasePtr)
      && Placed(Blk(), mPoolPtr, mStringPool.mData)
    }

    /** There is room for `cs` at the cursor. */
    ghost predicate Fits(cs: seq<Chunk>)
      reads this, mBlock
    {
      Run(cs, mBasePtr) <= mBase + mBlock.Length
    }

    /** Store the `size` bytes of `o` at address `a`. */
    method Store(a: nat, size: nat, o: Object)
      requires Blk().Has(a, size)
      modifies mBlock
      ensures Blk() == old(Blk()).Store(a, size, o)
    {
      hide Block.Store;
      ghost var b := Blk();
      var k := 0;
      while k < size
        invariant 0 <= k <= size
        invariant forall i :: 0 <= i < mBlock.Length ==>
          mBlock[i] == if a - mBase <= i < a - mBase + k then Part(o, i - (a - mBase)) else old(mBlock[i])
      {
        mBlock[a - mBase + k] := Part(o, k);
        k := k + 1;
      }
      StoredIs(b, Blk(), a, size, o);
    }

    function WriteString(s: CString): nat
      reads this, mStringPool
    {
      mPoolPtr + mStringPool.FindOffset(s)
    }

    lemma StringReads(s: CString)
      requires Ready() && Knows(mStringPool.mOffsets.Keys, s)
      ensures Blk().ReadText(WriteString(s)) == Some(s.Text())
    {
      var t: NulFree := if s.Str? then s.chars else "";
      PlacedReads(Blk(), mPoolPtr, mStringPool.mData, mStringPool.mOffsets[t], t);
    }

    /** The position of an object among the elements of a list, as `ArrayList::IndexOf` finds it. */
    static method IndexOf(elements: seq<nat>, data: nat) returns (r: int)
      ensures r == FirstIndex(elements, data)
    {
      for i := 0 to |elements|
        invariant data !in elements[..i]
      {
        if elements[i] == data {
          FirstIndexUnique(elements, data, i);
          return i;
        }
      }
      return -1;
    }

    static method IndexOfOptional(elements: seq<nat>, data: Option<nat>) returns (r: int)
      ensures r == OptionalIndex(elements, data)
    {
      if data.None? {
        return -1;
      }
      r := IndexOf(elements, data.value);
    }

    /** The loop over an index array. */
    method WriteIndexes(arr: nat, elements: seq<nat>, data: seq<nat>)
      requires Ready() && FreeInts(Blk(), arr, |data|, mBasePtr)
      modifies mBlock
      ensures Ready() && SameOutside(old(Blk()), Blk(), arr, arr + 4 * |data|, mBasePtr)
      ensures DecodeInts(Blk(), arr, |data|) == Some(Indexes(elements, data))
    {
      hide Aligned, StringPool.Valid, Block.Load, Block.Store, DecodeInts, Extends, SameOutside, FirstIndex;
      IntsStart(Blk(), arr, |data|, mBasePtr);
      ghost var vs: seq<int> := [];
      var i := 0;
      while i < |data|
        invariant 0 <= i <= |data| && |vs| == i
        invariant Ready() && SameOutside(old(Blk()), Blk(), arr, arr + 4 * |data|, mBasePtr)
        invariant FillingInts(Blk(), arr, |data|, i, mBasePtr, vs)
        invariant forall k :: 0 <= k < i ==> vs[k] == FirstIndex(elements, data[k])
      {
        ghost var b := Blk();
        var v := IndexOf(elements, data[i]);
        Store(arr + 4 * i, 4, OInt(v));
        IntStep(b, Blk(), arr, |data|, i, mBasePtr, v, vs, mPoolPtr, mStringPool.mData);
        OutsideThen(old(Blk()), b, Blk(), arr, arr + 4 * |data|, mBasePtr, mBasePtr);
        vs := vs + [v];
        i := i + 1;
      }
      IntsEnd(Blk(), arr, |data|, mBasePtr, vs);
      assert vs == Indexes(elements, data);
    }

    /** The masks of what is no finite number, and of the notation. */
    static method FlagsOf(e: Expression) returns (attributes: nat)
      ensures attributes == e.FloatFlags()
    {
      attributes := 0;
      if e.positiveInfinity {
        attributes := attributes + 0x20;
      }
      if e.negativeInfinity {
        attributes := attributes + 0x40;
      }
      if e.notANumber {
        attributes := attributes + 0x80;
      }
      if e.scientific {
        attributes := attributes + 0x10;
      }
    }

    /** Which member of the union a default argument is stored in. */
    static method DefaultUnion(ty: Type, e: Expression) returns (value: Value<nat>, attributes: nat)
      ensures value == DefaultValue<nat>(ty, e) && attributes == DefaultAttributes(ty, e)
    {
      hide Expression.FloatFlags;
      var kind := KindOf(ty);
      value, attributes := Unset, 0;
      if kind == Kind.Byte || kind == Kind.Short || kind == Kind.Integer {
        value := IntegerV(e.integer);
      } else if kind == Kind.Long {
        value := LongV(e.long);
      } else if kind == Kind.Char {
        value := IntegerV(e.character);
      } else if kind == Kind.Float {
        value := FloatV(e.float);
        attributes := FlagsOf(e);
      } else if kind == Kind.Double {
        value := DoubleV(e.double);
        attributes := FlagsOf(e);
      } else if kind == Kind.Boolean {
        value := BooleanV(e.boolean);
      } else if ty.shape.PointerTo? {
        value := LongV(e.long);
      }
    }

    method WriteMetaParameter(x: Parameter) returns (p: nat)
      requires Ready() && KnowsParameter(mStringPool.mOffsets.Keys, x) && Fits(pl.OfParameter(x))
      modifies this`mBasePtr, mBlock
      ensures Ready()
      ensures mBasePtr == Run(pl.OfParameter(x), old(mBasePtr)) && SameBelow(old(Blk()), Blk(), old(mBasePtr))
      ensures p == AlignUp(old(mBasePtr), pl.big)
      ensures DecodeParameter(Blk(), p) == Some(Seen(ViewParameter(mModule, x), Regions(pl.OfParameter(x), old(mBasePtr))))
    {
      hide AlignUp, Aligned, Run, Regions, StringPool.Valid, Block.Load, Block.Store, Block.ReadText, FirstIndex, Extends,
        Placed, SameBelow, Block.ZeroFrom, DefaultValue, DefaultAttributes;
      RunOne(Chunk(pl.big, pl.parameterSize), mBasePtr);
      p := AlignUp(mBasePtr, pl.big);
      var typeIndex := IndexOf(mModule.TypeIds(), x.ty.id);
      var value: Value<nat> := Unset;
      var attributes := 0;
      if x.default.Some? {
        value, attributes := DefaultUnion(x.ty, x.default.value);
      }
      var r := ParameterRec(WriteString(x.name), x.attribute, typeIndex, x.default.Some?, value, attributes);
      Store(p, pl.parameterSize, OParameter(r));
      RecordStep(old(Blk()), Blk(), old(mBasePtr), p, pl.parameterSize, OParameter(r), mPoolPtr, mStringPool.mData);
      mBasePtr := p + pl.parameterSize;
      StringReads(x.name);
      if x.default.Some? {
        DefaultReads(Blk(), x.ty, x.default.value);
      }
    }

    method WriteParameters(arr: nat, xs: seq<Parameter>)
      requires Ready() && (forall k :: 0 <= k < |xs| ==> KnowsParameter(mStringPool.mOffsets.Keys, xs[k]))
      requires Fits(Flat(pl.OfParameter, xs)) && FreeArray(Blk(), arr, |xs|, mBasePtr)
      modifies this`mBasePtr, mBlock
      ensures Ready() && mBasePtr == Run(Flat(pl.OfParameter, xs), old(mBasePtr))
      ensures SameOutside(old(Blk()), Blk(), arr, arr + pl.Span(|xs|), old(mBasePtr))
      ensures DecodeArray(Blk(), arr, |xs|, ParameterReader(Blk()))
           == Some(Seen(ViewParameters(mModule, xs), Regions(Flat(pl.OfParameter, xs), old(mBasePtr))))
    {
      hide AlignUp, Aligned, Run, Regions, Flat, StringPool.Valid, Block.Load, Block.Store, DecodeArray, DecodeParameter,
        ViewParameter, Keeps, Extends, SameOutside, KnowsParameter;
      FlatStart(pl.OfParameter, xs, mBasePtr);
      FillStart(Blk(), arr, |xs|, mBasePtr, ParameterReader(Blk()));
      ghost var vs: seq<ParameterView> := [];
      var i := 0;
      while i < |xs|
        invariant 0 <= i <= |xs| && |vs| == i
        invariant Ready() && mBasePtr == Run(Flat(pl.OfParameter, xs[..i]), old(mBasePtr)) && old(mBasePtr) <= mBasePtr
        invariant SameOutside(old(Blk()), Blk(), arr, arr + pl.Span(|xs|), old(mBasePtr))
        invariant Filling(Blk(), arr, |xs|, i, ParameterReader(Blk()), Seen(vs, Regions(Flat(pl.OfParameter, xs[..i]), old(mBasePtr))))
        invariant forall k :: 0 <= k < i ==> vs[k] == ViewParameter(mModule, xs[k])
      {
        ghost var b, lo, rs := Blk(), mBasePtr, Regions(Flat(pl.OfParameter, xs[..i]), old(mBasePtr));
        FlatStep(pl.OfParameter, xs, i, old(mBasePtr));
        FlatPrefix(pl.OfParameter, xs, i + 1, old(mBasePtr));
        var p := WriteMetaParameter(xs[i]);
        ghost var c := Blk();
        Store(arr + pl.Span(i), pl.big, OPointer(p));
        ghost var e := Blk();
        SlotStep(b, c, e, lo, mBasePtr, arr, |xs|, i, p, ParameterReader(b), Seen(vs, rs), mPoolPtr, mStringPool.mData);
        ParametersKeep(b, c);
        ParametersKeep(c, e);
        FillStep(b, c, e, arr, |xs|, i, p, Seen(ViewParameter(mModule, xs[i]), Regions(pl.OfParameter(xs[i]), lo)), Seen(vs, rs),
                 ParameterReader(b), ParameterReader(c), ParameterReader(e));
        OutsideThen(old(Blk()), b, e, arr, arr + pl.Span(|xs|), old(mBasePtr), lo);
        vs := vs + [ViewParameter(mModule, xs[i])];
        i := i + 1;
      }
      assert xs[..i] == xs;
      FillEnd(Blk(), arr, |xs|, ParameterReader(Blk()), Seen(vs, Regions(Flat(pl.OfParameter, xs), old(mBasePtr))));
      assert vs == ViewParameters(mModule, xs);
    }

    method WriteMetaMethod(x: Method) returns (p: nat)
      requires Ready() && KnowsMethod(mStringPool.mOffsets.Keys, x) && Fits(pl.OfMethod(x))
      modifies this`mBasePtr, mBlock
      ensures Ready()
      ensures mBasePtr == Run(pl.OfMethod(x), old(mBasePtr)) && SameBelow(old(Blk()), Blk(), old(mBasePtr))
      ensures p == AlignUp(old(mBasePtr), pl.big)
      ensures DecodeMethod(Blk(), p) == Some(Seen(ViewMethod(mModule, x), Regions(pl.OfMethod(x), old(mBasePtr))))
    {
      hide AlignUp, Aligned, Run, Regions, StringPool.Valid, Flat, Block.Load, Block.Store, Block.ReadText, DecodeArray,
        DecodeInts, Extends, SameOutside, SameBelow, FreeArray, FreeInts, Placed, Block.ZeroFrom, ViewParameter,
        KnowsParameter, FirstIndex;
      MethodCursor(pl, x, mBasePtr);
      var ids := mModule.TypeIds();
      var n := |x.parameters|;
      p := AlignUp(mBasePtr, pl.big);
      var arr := AlignUp(p + pl.methodSize, pl.big);
      var returnTypeIndex := IndexOfOptional(ids, x.returnType);
      var r := MethodRec(WriteString(x.name), WriteString(x.signature), returnTypeIndex, n, arr, x.deleted, x.reference);
      Store(p, pl.methodSize, OMethod(r));
      RecordStep(old(Blk()), Blk(), old(mBasePtr), p, pl.methodSize, OMethod(r), mPoolPtr, mStringPool.mData);
      ghost var b := Blk();
      mBasePtr := arr + pl.Span(n);
      FreshArray(b, p + pl.methodSize, arr, n, mBasePtr);
      WriteParameters(arr, x.parameters);
      OutsideGrows(old(Blk()), b, Blk(), old(mBasePtr), arr, arr + pl.Span(n), arr + pl.Span(n));
      LoadKeeps(b, Blk(), p, pl.methodSize, pl.big);
      StringReads(x.name);
      StringReads(x.signature);
    }

    /** Which member of the union a constant is stored in, and its radix. */
    method ConstantUnion(x: Constant) returns (value: Value<nat>, attributes: nat)
      ensures value == ConstantValue<nat>(KindOf(x.ty), x.value, WriteString(x.value.text), WriteString(x.value.enumerator))
      ensures attributes == ConstantAttributes(KindOf(x.ty), x.value)
    {
      hide Expression.FloatFlags;
      var kind, e := KindOf(x.ty), x.value;
      value, attributes := Unset, 0;
      if kind == Kind.Byte || kind == Kind.Short || kind == Kind.Integer {
        value := IntegerV(e.integer);
      } else if kind == Kind.Long {
        value := LongV(e.long);
      } else if kind == Kind.Char {
        value := IntegerV(e.character);
      } else if kind == Kind.Float {
        value := FloatV(e.float);
        attributes := FlagsOf(e);
      } else if kind == Kind.Double {
        value := DoubleV(e.double);
        attributes := FlagsOf(e);
      } else if kind == Kind.Boolean {
        value := BooleanV(e.boolean);
      } else if kind == Kind.String {
        value := TextV(WriteString(e.text));
      } else if kind == Kind.Enum {
        value := TextV(WriteString(e.enumerator));
      }
      if kind in {Kind.Char, Kind.Byte, Kind.Short, Kind.Integer, Kind.Long} {
        attributes := attributes + e.radix % 16;
      }
    }

    method WriteMetaConstant(x: Constant) returns (p: nat)
      requires Ready() && KnowsConstant(mStringPool.mOffsets.Keys, x) && Fits(pl.OfConstant(x))
      modifies this`mBasePtr, mBlock
      ensures Ready()
      ensures mBasePtr == Run(pl.OfConstant(x), old(mBasePtr)) && SameBelow(old(Blk()), Blk(), old(mBasePtr))
      ensures p == AlignUp(old(mBasePtr), pl.big)
      ensures DecodeConstant(Blk(), p) == Some(Seen(ViewConstant(mModule, x), Regions(pl.OfConstant(x), old(mBasePtr))))
    {
      hide AlignUp, Aligned, Run, Regions, StringPool.Valid, Block.Load, Block.Store, Block.ReadText, FirstIndex, Extends,
        Placed, SameBelow, Block.ZeroFrom, ConstantAttributes, ConstantValue, DecodeValue;
      RunOne(Chunk(pl.big, pl.constantSize), mBasePtr);
      p := AlignUp(mBasePtr, pl.big);
      var kind := KindOf(x.ty);
      var typeIndex := IndexOf(mModule.TypeIds(), x.ty.id);
      var value, attributes := ConstantUnion(x);
      var r := ConstantRec(WriteString(x.name), typeIndex, value, attributes);
      Store(p, pl.constantSize, OConstant(r));
      RecordStep(old(Blk()), Blk(), old(mBasePtr), p, pl.constantSize, OConstant(r), mPoolPtr, mStringPool.mData);
      mBasePtr := p + pl.constantSize;
      StringReads(x.name);
      if kind == Kind.String {
        StringReads(x.value.text);
      } else if kind == Kind.Enum {
        StringReads(x.value.enumerator);
      }
      ConstantReads(Blk(), kind, x.value, WriteString(x.value.text), WriteString(x.value.enumerator), x.value.text.Text(),
                    x.value.enumerator.Text());
    }

    method WriteConstants(arr: nat, xs: seq<Constant>)
      requires Ready() && (forall k :: 0 <= k < |xs| ==> KnowsConstant(mStringPool.mOffsets.Keys, xs[k]))
      requires Fits(Flat(pl.OfConstant, xs)) && FreeArray(Blk(), arr, |xs|, mBasePtr)
      modifies this`mBasePtr, mBlock
      ensures Ready() && mBasePtr == Run(Flat(pl.OfConstant, xs), old(mBasePtr))
      ensures SameOutside(old(Blk()), Blk(), arr, arr + pl.Span(|xs|), old(mBasePtr))
      ensures DecodeArray(Blk(), arr, |xs|, ConstantReader(Blk()))
           == Some(Seen(ViewConstants(mModule, xs), Regions(Flat(pl.OfConstant, xs), old(mBasePtr))))
    {
      hide AlignUp, Aligned, Run, Regions, Flat, StringPool.Valid, Block.Load, Block.Store, DecodeArray, DecodeConstant,
        ViewConstant, Keeps, Extends, SameOutside, KnowsConstant;
      FlatStart(pl.OfConstant, xs, mBasePtr);
      FillStart(Blk(), arr, |xs|, mBasePtr, ConstantReader(Blk()));
      ghost var vs: seq<ConstantView> := [];
      var i := 0;
      while i < |xs|
        invariant 0 <= i <= |xs| && |vs| == i
        invariant Ready() && mBasePtr == Run(Flat(pl.OfConstant, xs[..i]), old(mBasePtr)) && old(mBasePtr) <= mBasePtr
        invariant SameOutside(old(Blk()), Blk(), arr, arr + pl.Span(|xs|), old(mBasePtr))
        invariant Filling(Blk(), arr, |xs|, i, ConstantReader(Blk()), Seen(vs, Regions(Flat(pl.OfConstant, xs[..i]), old(mBasePtr))))
        invariant forall k :: 0 <= k < i ==> vs[k] == ViewConstant(mModule, xs[k])
      {
        ghost var b, lo, rs := Blk(), mBasePtr, Regions(Flat(pl.OfConstant, xs[..i]), old(mBasePtr));
        FlatStep(pl.OfConstant, xs, i, old(mBasePtr));
        FlatPrefix(pl.OfConstant, xs, i + 1, old(mBasePtr));
        var p := WriteMetaConstant(xs[i]);
        ghost var c := Blk();
        Store(arr + pl.Span(i), pl.big, OPointer(p));
        ghost var e := Blk();
        SlotStep(b, c, e, lo, mBasePtr, arr, |xs|, i, p, ConstantReader(b), Seen(vs, rs), mPoolPtr, mStringPool.mData);
        ConstantsKeep(b, c);
        ConstantsKeep(c, e);
        FillStep(b, c, e, arr, |xs|, i, p, Seen(ViewConstant(mModule, xs[i]), Regions(pl.OfConstant(xs[i]), lo)), Seen(vs, rs),
                 ConstantReader(b), ConstantReader(c), ConstantReader(e));
        OutsideThen(old(Blk()), b, e, arr, arr + pl.Span(|xs|), old(mBasePtr), lo);
        vs := vs + [ViewConstant(mModule, xs[i])];
        i := i + 1;
      }
      assert xs[..i] == xs;
      FillEnd(Blk(), arr, |xs|, ConstantReader(Blk()), Seen(vs, Regions(Flat(pl.OfConstant, xs), old(mBasePtr))));
      assert vs == ViewConstants(mModule, xs);
    }

    method WriteMetaEnumerator(x: Enumerator) returns (p: nat)
      requires Ready() && KnowsEnumerator(mStringPool.mOffsets.Keys, x) && Fits(pl.OfEnumerator(x))
      modifies this`mBasePtr, mBlock
      ensures Ready()
      ensures mBasePtr == Run(pl.OfEnumerator(x), old(mBasePtr)) && SameBelow(old(Blk()), Blk(), old(mBasePtr))
      ensures p == AlignUp(old(mBasePtr), pl.big)
      ensures DecodeEnumerator(Blk(), p) == Some(Seen(ViewEnumerator(x), Regions(pl.OfEnumerator(x), old(mBasePtr))))
    {
      hide AlignUp, Aligned, Run, Regions, StringPool.Valid, Block.Load, Block.Store, Block.ReadText;
      RunOne(Chunk(pl.big, pl.enumeratorSize), mBasePtr);
      p := AlignUp(mBasePtr, pl.big);
      var r := EnumeratorRec(WriteString(x.name), x.value);
      Store(p, pl.enumeratorSize, OEnumerator(r));
      RecordStep(old(Blk()), Blk(), old(mBasePtr), p, pl.enumeratorSize, OEnumerator(r), mPoolPtr, mStringPool.mData);
      mBasePtr := p + pl.enumeratorSize;
      StringReads(x.name);
    }

    method WriteEnumerators(arr: nat, xs: seq<Enumerator>)
      requires Ready() && (forall k :: 0 <= k < |xs| ==> KnowsEnumerator(mStringPool.mOffsets.Keys, xs[k]))
      requires Fits(Flat(pl.OfEnumerator, xs)) && FreeArray(Blk(), arr, |xs|, mBasePtr)
      modifies this`mBasePtr, mBlock
      ensures Ready() && mBasePtr == Run(Flat(pl.OfEnumerator, xs), old(mBasePtr))
      ensures SameOutside(old(Blk()), Blk(), arr, arr + pl.Span(|xs|), old(mBasePtr))
      ensures DecodeArray(Blk(), arr, |xs|, EnumeratorReader(Blk()))
           == Some(Seen(ViewEnumerators(xs), Regions(Flat(pl.OfEnumerator, xs), old(mBasePtr))))
    {
      hide AlignUp, Aligned, Run, Regions, Flat, StringPool.Valid, Block.Load, Block.Store, DecodeArray, DecodeEnumerator,
        ViewEnumerator, Keeps, Extends, SameOutside, KnowsEnumerator;
      FlatStart(pl.OfEnumerator, xs, mBasePtr);
      FillStart(Blk(), arr, |xs|, mBasePtr, EnumeratorReader(Blk()));
      ghost var vs: seq<EnumeratorView> := [];
      var i := 0;
      while i < |xs|
        invariant 0 <= i <= |xs| && |vs| == i
        invariant Ready() && mBasePtr == Run(Flat(pl.OfEnumerator, xs[..i]), old(mBasePtr)) && old(mBasePtr) <= mBasePtr
        invariant SameOutside(old(Blk()), Blk(), arr, arr + pl.Span(|xs|), old(mBasePtr))
        invariant Filling(Blk(), arr, |xs|, i, EnumeratorReader(Blk()), Seen(vs, Regions(Flat(pl.OfEnumerator, xs[..i]), old(mBasePtr))))
        invariant forall k :: 0 <= k < i ==> vs[k] == ViewEnumerator(xs[k])
      {
        ghost var b, lo, rs := Blk(), mBasePtr, Regions(Flat(pl.OfEnumerator, xs[..i]), old(mBasePtr));
        FlatStep(pl.OfEnumerator, xs, i, old(mBasePtr));
        FlatPrefix(pl.OfEnumerator, xs, i + 1, old(mBasePtr));
        var p := WriteMetaEnumerator(xs[i]);
        ghost var c := Blk();
        Store(arr + pl.Span(i), pl.big, OPointer(p));
        ghost var e := Blk();
        SlotStep(b, c, e, lo, mBasePtr, arr, |xs|, i, p, EnumeratorReader(b), Seen(vs, rs), mPoolPtr, mStringPool.mData);
        EnumeratorsKeep(b, c);
        EnumeratorsKeep(c, e);
        FillStep(b, c, e, arr, |xs|, i, p, Seen(ViewEnumerator(xs[i]), Regions(pl.OfEnumerator(xs[i]), lo)), Seen(vs, rs),
                 EnumeratorReader(b), EnumeratorReader(c), EnumeratorReader(e));
        OutsideThen(old(Blk()), b, e, arr, arr + pl.Span(|xs|), old(mBasePtr), lo);
        vs := vs + [ViewEnumerator(xs[i])];
        i := i + 1;
      }
      assert xs[..i] == xs;
      FillEnd(Blk(), arr, |xs|, EnumeratorReader(Blk()), Seen(vs, Regions(Flat(pl.OfEnumerator, xs), old(mBasePtr))));
      assert vs == ViewEnumerators(xs);
    }

    method WriteMetaEnumeration(x: Enumeration) returns (p: nat)
      requires Ready() && KnowsEnumeration(mStringPool.mOffsets.Keys, x) && Fits(pl.OfEnumeration(x))
      modifies this`mBasePtr, mBlock
      ensures Ready()
      ensures mBasePtr == Run(pl.OfEnumeration(x), old(mBasePtr)) && SameBelow(old(Blk()), Blk(), old(mBasePtr))
      ensures p == AlignUp(old(mBasePtr), pl.big)
      ensures DecodeEnumeration(Blk(), p) == Some(Seen(ViewEnumeration(x), Regions(pl.OfEnumeration(x), old(mBasePtr))))
    {
      hide AlignUp, Aligned, Run, Regions, StringPool.Valid, Flat, Block.Load, Block.Store, Block.ReadText, DecodeArray,
        DecodeInts, Extends, SameOutside, SameBelow, FreeArray, FreeInts, Placed, Block.ZeroFrom, ViewEnumerator,
        KnowsEnumerator;
      EnumerationCursor(pl, x, mBasePtr);
      var n := |x.enumerators|;
      p := AlignUp(mBasePtr, pl.big);
      var arr := AlignUp(p + pl.enumerationSize, pl.big);
      var r := EnumerationRec(WriteString(x.name), WriteString(x.namespace), n, arr, x.external);
      Store(p, pl.enumerationSize, OEnumeration(r));
      RecordStep(old(Blk()), Blk(), old(mBasePtr), p, pl.enumerationSize, OEnumeration(r), mPoolPtr, mStringPool.mData);
      ghost var b := Blk();
      mBasePtr := arr + pl.Span(n);
      FreshArray(b, p + pl.enumerationSize, arr, n, mBasePtr);
      WriteEnumerators(arr, x.enumerators);
      OutsideGrows(old(Blk()), b, Blk(), old(mBasePtr), arr, arr + pl.Span(n), arr + pl.Span(n));
      LoadKeeps(b, Blk(), p, pl.enumerationSize, pl.big);
      StringReads(x.name);
      StringReads(x.namespace);
    }

    /** One reference and one pointer are peeled off, then the index is looked up by kind. */
    method TypeRecord(x: Type) returns (r: TypeRec)
      ensures r == ViewType(mModule, x)
    {
      hide FirstIndex;
      var pointerNumber, reference, t := 0, false, x;
      if t.shape.ReferenceTo? {
        reference := true;
        t := t.shape.base;
      }
      if t.shape.PointerTo? {
        pointerNumber := t.shape.stars % 256;
        t := t.shape.base;
      }
      var kind := KindOf(t);
      var index: int;
      if kind == Kind.Enum {
        index := IndexOf(mModule.EnumerationIds(), t.id);
      } else if kind == Kind.Interface {
        index := IndexOf(mModule.InterfaceIds(), t.id);
      } else if kind == Kind.Coclass {
        index := IndexOf(mModule.CoclassIds(), t.id);
      } else {
        index := IndexOf(mModule.TypeIds(), t.id);
      }
      var nestedIndex := -1;
      if t.shape.ArrayOf? {
        nestedIndex := IndexOf(mModule.TypeIds(), t.shape.element.id);
      }
      r := TypeRec(kind, index, nestedIndex, pointerNumber, reference);
    }

    method WriteMetaType(x: Type) returns (p: nat)
      requires Ready() && Fits(pl.OfType(x))
      modifies this`mBasePtr, mBlock
      ensures Ready()
      ensures mBasePtr == Run(pl.OfType(x), old(mBasePtr)) && SameBelow(old(Blk()), Blk(), old(mBasePtr))
      ensures p == AlignUp(old(mBasePtr), pl.big)
      ensures DecodeType(Blk(), p) == Some(Seen(ViewType(mModule, x), Regions(pl.OfType(x), old(mBasePtr))))
    {
      hide AlignUp, Aligned, Run, Regions, StringPool.Valid, Block.Load, Block.Store, FirstIndex, Extends, Placed, SameBelow,
        Block.ZeroFrom, Block.ReadText;
      RunOne(Chunk(pl.big, pl.typeSize), mBasePtr);
      p := AlignUp(mBasePtr, pl.big);
      var r := TypeRecord(x);
      Store(p, pl.typeSize, OType(r));
      RecordStep(old(Blk()), Blk(), old(mBasePtr), p, pl.typeSize, OType(r), mPoolPtr, mStringPool.mData);
      mBasePtr := p + pl.typeSize;
    }

    method WriteTypes(arr: nat, xs: seq<Type>)
      requires Ready()
      requires Fits(Flat(pl.OfType, xs)) && FreeArray(Blk(), arr, |xs|, mBasePtr)
      modifies this`mBasePtr, mBlock
      ensures Ready() && mBasePtr == Run(Flat(pl.OfType, xs), old(mBasePtr))
      ensures SameOutside(old(Blk()), Blk(), arr, arr + pl.Span(|xs|), old(mBasePtr))
      ensures DecodeArray(Blk(), arr, |xs|, TypeReader(Blk()))
           == Some(Seen(ViewTypes(mModule, xs), Regions(Flat(pl.OfType, xs), old(mBasePtr))))
    {
      hide AlignUp, Aligned, Run, Regions, Flat, StringPool.Valid, Block.Load, Block.Store, DecodeArray, DecodeType,
        ViewType, Keeps, Extends, SameOutside;
      FlatStart(pl.OfType, xs, mBasePtr);
      FillStart(Blk(), arr, |xs|, mBasePtr, TypeReader(Blk()));
      ghost var vs: seq<TypeRec> := [];
      var i := 0;
      while i < |xs|
        invariant 0 <= i <= |xs| && |vs| == i
        invariant Ready() && mBasePtr == Run(Flat(pl.OfType, xs[..i]), old(mBasePtr)) && old(mBasePtr) <= mBasePtr
        invariant SameOutside(old(Blk()), Blk(), arr, arr + pl.Span(|xs|), old(mBasePtr))
        invariant Filling(Blk(), arr, |xs|, i, TypeReader(Blk()), Seen(vs, Regions(Flat(pl.OfType, xs[..i]), old(mBasePtr))))
        invariant forall k :: 0 <= k < i ==> vs[k] == ViewType(mModule, xs[k])
      {
        ghost var b, lo, rs := Blk(), mBasePtr, Regions(Flat(pl.OfType, xs[..i]), old(mBasePtr));
        FlatStep(pl.OfType, xs, i, old(mBasePtr));
        FlatPrefix(pl.OfType, xs, i + 1, old(mBasePtr));
        var p := WriteMetaType(xs[i]);
        ghost var c := Blk();
        Store(arr + pl.Span(i), pl.big, OPointer(p));
        ghost var e := Blk();
        SlotStep(b, c, e, lo, mBasePtr, arr, |xs|, i, p, TypeReader(b), Seen(vs, rs), mPoolPtr, mStringPool.mData);
        TypesKeep(b, c);
        TypesKeep(c, e);
        FillStep(b, c, e, arr, |xs|, i, p, Seen(ViewType(mModule, xs[i]), Regions(pl.OfType(xs[i]), lo)), Seen(vs, rs),
                 TypeReader(b), TypeReader(c), TypeReader(e));
        OutsideThen(old(Blk()), b, e, arr, arr + pl.Span(|xs|), old(mBasePtr), lo);
        vs := vs + [ViewType(mModule, xs[i])];
        i := i + 1;
      }
      assert xs[..i] == xs;
      FillEnd(Blk(), arr, |xs|, TypeReader(Blk()), Seen(vs, Regions(Flat(pl.OfType, xs), old(mBasePtr))));
      assert vs == ViewTypes(mModule, xs);
    }

    method WriteMetaCoclass(x: Coclass) returns (p: nat)
      requires Ready() && KnowsCoclass(mStringPool.mOffsets.Keys, x) && Fits(pl.OfCoclass(x))
      modifies this`mBasePtr, mBlock
      ensures Ready()
      ensures mBasePtr == Run(pl.OfCoclass(x), old(mBasePtr)) && SameBelow(old(Blk()), Blk(), old(mBasePtr))
      ensures p == AlignUp(old(mBasePtr), pl.big)
      ensures DecodeCoclass(Blk(), p) == Some(Seen(ViewCoclass(mModule, x), Regions(pl.OfCoclass(x), old(mBasePtr))))
    {
      hide AlignUp, Aligned, Run, Regions, StringPool.Valid, Flat, Block.Load, Block.Store, Block.ReadText, DecodeArray,
        DecodeInts, Extends, SameOutside, SameBelow, FreeArray, FreeInts, Placed, Block.ZeroFrom, FirstIndex;
      CoclassCursor(pl, x, mBasePtr);
      var n := |x.interfaces|;
      p := AlignUp(mBasePtr, pl.big);
      var arr := AlignUp(p + pl.coclassSize, 4);
      var r := CoclassRec(x.uuid, WriteString(x.name), WriteString(x.namespace), n, arr, x.constructorDefault, x.constructorDeleted);
      Store(p, pl.coclassSize, OCoclass(r));
      RecordStep(old(Blk()), Blk(), old(mBasePtr), p, pl.coclassSize, OCoclass(r), mPoolPtr, mStringPool.mData);
      ghost var b := Blk();
      mBasePtr := arr + 4 * n;
      FreshInts(b, p + pl.coclassSize, arr, n, mBasePtr);
      WriteIndexes(arr, mModule.InterfaceIds(), x.interfaces);
      OutsideGrows(old(Blk()), b, Blk(), old(mBasePtr), arr, arr + 4 * n, arr + 4 * n);
      LoadKeeps(b, Blk(), p, pl.coclassSize, pl.big);
      StringReads(x.name);
      StringReads(x.namespace);
    }

    method WriteCoclasses(arr: nat, xs: seq<Coclass>)
      requires Ready() && (forall k :: 0 <= k < |xs| ==> KnowsCoclass(mStringPool.mOffsets.Keys, xs[k]))
      requires Fits(Flat(pl.OfCoclass, xs)) && FreeArray(Blk(), arr, |xs|, mBasePtr)
      modifies this`mBasePtr, mBlock
      ensures Ready() && mBasePtr == Run(Flat(pl.OfCoclass, xs), old(mBasePtr))
      ensures SameOutside(old(Blk()), Blk(), arr, arr + pl.Span(|xs|), old(mBasePtr))
      ensures DecodeArray(Blk(), arr, |xs|, CoclassReader(Blk()))
           == Some(Seen(ViewCoclasses(mModule, xs), Regions(Flat(pl.OfCoclass, xs), old(mBasePtr))))
    {
      hide AlignUp, Aligned, Run, Regions, Flat, StringPool.Valid, Block.Load, Block.Store, DecodeArray, DecodeCoclass,
        ViewCoclass, Keeps, Extends, SameOutside, KnowsCoclass;
      FlatStart(pl.OfCoclass, xs, mBasePtr);
      FillStart(Blk(), arr, |xs|, mBasePtr, CoclassReader(Blk()));
      ghost var vs: seq<CoclassView> := [];
      var i := 0;
      while i < |xs|
        invariant 0 <= i <= |xs| && |vs| == i
        invariant Ready() && mBasePtr == Run(Flat(pl.OfCoclass, xs[..i]), old(mBasePtr)) && old(mBasePtr) <= mBasePtr
        invariant SameOutside(old(Blk()), Blk(), arr, arr + pl.Span(|xs|), old(mBasePtr))
        invariant Filling(Blk(), arr, |xs|, i, CoclassReader(Blk()), Seen(vs, Regions(Flat(pl.OfCoclass, xs[..i]), old(mBasePtr))))
        invariant forall k :: 0 <= k < i ==> vs[k] == ViewCoclass(mModule, xs[k])
      {
        ghost var b, lo, rs := Blk(), mBasePtr, Regions(Flat(pl.OfCoclass, xs[..i]), old(mBasePtr));
        FlatStep(pl.OfCoclass, xs, i, old(mBasePtr));
        FlatPrefix(pl.OfCoclass, xs, i + 1, old(mBasePtr));
        var p := WriteMetaCoclass(xs[i]);
        ghost var c := Blk();
        Store(arr + pl.Span(i), pl.big, OPointer(p));
        ghost var e := Blk();
        SlotStep(b, c, e, lo, mBasePtr, arr, |xs|, i, p, CoclassReader(b), Seen(vs, rs), mPoolPtr, mStringPool.mData);
        CoclassesKeep(b, c);
        CoclassesKeep(c, e);
        FillStep(b, c, e, arr, |xs|, i, p, Seen(ViewCoclass(mModule, xs[i]), Regions(pl.OfCoclass(xs[i]), lo)), Seen(vs, rs),
                 CoclassReader(b), CoclassReader(c), CoclassReader(e));
        OutsideThen(old(Blk()), b, e, arr, arr + pl.Span(|xs|), old(mBasePtr), lo);
        vs := vs + [ViewCoclass(mModule, xs[i])];
        i := i + 1;
      }
      assert xs[..i] == xs;
      FillEnd(Blk(), arr, |xs|, CoclassReader(Blk()), Seen(vs, Regions(Flat(pl.OfCoclass, xs), old(mBasePtr))));
      assert vs == ViewCoclasses(mModule, xs);
    }

    /** GetExternalEnumerationNumber and GetExternalInterfaceNumber. */
    static method CountExternal(ms: seq<Member>) returns (n: nat)
      ensures n == Externals(ms)
    {
      n := 0;
      for i := 0 to |ms|
        invariant n == Externals(ms[..i])
      {
        assert ms[..i + 1][..i] == ms[..i];
        if ms[i].external {
          n := n + 1;
        }
      }
      assert ms[..|ms|] == ms;
    }

    method WriteMetaNamespace(x: Namespace) returns (p: nat)
      requires Ready() && KnowsNamespace(mStringPool.mOffsets.Keys, x) && Fits(pl.OfNamespace(x))
      modifies this`mBasePtr, mBlock
      ensures Ready()
      ensures mBasePtr == Run(pl.OfNamespace(x), old(mBasePtr)) && SameBelow(old(Blk()), Blk(), old(mBasePtr))
      ensures p == AlignUp(old(mBasePtr), pl.big)
      ensures DecodeNamespace(Blk(), p) == Some(Seen(ViewNamespace(mModule, x), Regions(pl.OfNamespace(x), old(mBasePtr))))
    {
      hide AlignUp, Aligned, Run, Regions, StringPool.Valid, Flat, Block.Load, Block.Store, Block.ReadText, DecodeArray,
        DecodeInts, Extends, SameOutside, SameBelow, FreeArray, FreeInts, Placed, Block.ZeroFrom, FirstIndex,
        Indexes, Externals;
      NamespaceCursor(pl, x, mBasePtr);
      p := AlignUp(mBasePtr, pl.big);
      var externalEnumerations := CountExternal(x.enumerations);
      var externalInterfaces := CountExternal(x.interfaces);
      var wrapped := IndexOfOptional(mModule.InterfaceIds(), x.wrapped);
      var a1 := AlignUp(p + pl.namespaceSize, 4);
      var a2 := AlignUp(a1 + 4 * |x.constants|, 4);
      var a3 := AlignUp(a2 + 4 * |x.coclasses|, 4);
      var a4 := AlignUp(a3 + 4 * |x.enumerations|, 4);
      var r := NamespaceRec(WriteString(x.path), wrapped, |x.constants|, |x.coclasses|, |x.enumerations|, externalEnumerations,
                            |x.interfaces|, externalInterfaces, a1, a2, a3, a4);
      Store(p, pl.namespaceSize, ONamespace(r));
      RecordStep(old(Blk()), Blk(), old(mBasePtr), p, pl.namespaceSize, ONamespace(r), mPoolPtr, mStringPool.mData);
      ghost var b := Blk();
      mBasePtr := a4 + 4 * |x.interfaces|;
      FreshInts(b, p + pl.namespaceSize, a1, |x.constants|, mBasePtr);
      FreshInts(b, p + pl.namespaceSize, a2, |x.coclasses|, mBasePtr);
      FreshInts(b, p + pl.namespaceSize, a3, |x.enumerations|, mBasePtr);
      FreshInts(b, p + pl.namespaceSize, a4, |x.interfaces|, mBasePtr);
      WriteNamespaceIndexes(x, a1, a2, a3, a4);
      LoadKeeps(b, Blk(), p, pl.namespaceSize, pl.big);
      BelowThenBelow(old(Blk()), b, Blk(), old(mBasePtr), a1);
      StringReads(x.path);
    }

    /** The four loops over the index arrays of a namespace. */
    method WriteNamespaceIndexes(x: Namespace, a1: nat, a2: nat, a3: nat, a4: nat)
      requires Ready()
      requires FreeInts(Blk(), a1, |x.constants|, mBasePtr) && FreeInts(Blk(), a2, |x.coclasses|, mBasePtr)
      requires FreeInts(Blk(), a3, |x.enumerations|, mBasePtr) && FreeInts(Blk(), a4, |x.interfaces|, mBasePtr)
      requires a1 + 4 * |x.constants| <= a2 && a2 + 4 * |x.coclasses| <= a3 && a3 + 4 * |x.enumerations| <= a4
      modifies mBlock
      ensures Ready() && Extends(old(Blk()), Blk()) && SameBelow(old(Blk()), Blk(), a1)
      ensures DecodeInts(Blk(), a1, |x.constants|) == Some(Indexes(mModule.ConstantIds(), x.constants))
      ensures DecodeInts(Blk(), a2, |x.coclasses|) == Some(Indexes(mModule.CoclassIds(), x.coclasses))
      ensures DecodeInts(Blk(), a3, |x.enumerations|) == Some(Indexes(mModule.EnumerationIds(), Ids(x.enumerations)))
      ensures DecodeInts(Blk(), a4, |x.interfaces|) == Some(Indexes(mModule.InterfaceIds(), Ids(x.interfaces)))
    {
      hide Aligned, StringPool.Valid, Block.Load, DecodeInts, Indexes, FreeInts, SameOutside, SameBelow, Extends,
        Placed, Block.ZeroFrom;
      var n1, n2, n3, n4 := |x.constants|, |x.coclasses|, |x.enumerations|, |x.interfaces|;
      ghost var b0, hi := Blk(), mBasePtr;
      WriteIndexes(a1, mModule.ConstantIds(), x.constants);
      ghost var b1 := Blk();
      IntsWritten(b0, b1, a1, n1, hi, a1);
      StillFreeInts(b0, b1, a1, n1, hi, a2, n2);
      StillFreeInts(b0, b1, a1, n1, hi, a3, n3);
      StillFreeInts(b0, b1, a1, n1, hi, a4, n4);
      WriteIndexes(a2, mModule.CoclassIds(), x.coclasses);
      ghost var b2 := Blk();
      IntsWritten(b1, b2, a2, n2, hi, a1);
      StillFreeInts(b1, b2, a2, n2, hi, a3, n3);
      StillFreeInts(b1, b2, a2, n2, hi, a4, n4);
      WriteIndexes(a3, mModule.EnumerationIds(), Ids(x.enumerations));
      ghost var b3 := Blk();
      IntsWritten(b2, b3, a3, n3, hi, a1);
      StillFreeInts(b2, b3, a3, n3, hi, a4, n4);
      WriteIndexes(a4, mModule.InterfaceIds(), Ids(x.interfaces));
      IntsWritten(b3, Blk(), a4, n4, hi, a1);
      Grows(b2, b3, Blk(), a1);
      Grows(b1, b2, Blk(), a1);
      Grows(b0, b1, Blk(), a1);
      IntsKeep(b1, Blk(), a1, n1);
      IntsKeep(b2, Blk(), a2, n2);
      IntsKeep(b3, Blk(), a3, n3);
    }

    method WriteNamespaces(arr: nat, xs: seq<Namespace>)
      requires Ready() && (forall k :: 0 <= k < |xs| ==> KnowsNamespace(mStringPool.mOffsets.Keys, xs[k]))
      requires Fits(Flat(pl.OfNamespace, xs)) && FreeArray(Blk(), arr, |xs|, mBasePtr)
      modifies this`mBasePtr, mBlock
      ensures Ready() && mBasePtr == Run(Flat(pl.OfNamespace, xs), old(mBasePtr))
      ensures SameOutside(old(Blk()), Blk(), arr, arr + pl.Span(|xs|), old(mBasePtr))
      ensures DecodeArray(Blk(), arr, |xs|, NamespaceReader(Blk()))
           == Some(Seen(ViewNamespaces(mModule, xs), Regions(Flat(pl.OfNamespace, xs), old(mBasePtr))))
    {
      hide AlignUp, Aligned, Run, Regions, Flat, StringPool.Valid, Block.Load, Block.Store, DecodeArray, DecodeNamespace,
        ViewNamespace, Keeps, Extends, SameOutside, KnowsNamespace;
      FlatStart(pl.OfNamespace, xs, mBasePtr);
      FillStart(Blk(), arr, |xs|, mBasePtr, NamespaceReader(Blk()));
      ghost var vs: seq<NamespaceView> := [];
      var i := 0;
      while i < |xs|
        invariant 0 <= i <= |xs| && |vs| == i
        invariant Ready() && mBasePtr == Run(Flat(pl.OfNamespace, xs[..i]), old(mBasePtr)) && old(mBasePtr) <= mBasePtr
        invariant SameOutside(old(Blk()), Blk(), arr, arr + pl.Span(|xs|), old(mBasePtr))
        invariant Filling(Blk(), arr, |xs|, i, NamespaceReader(Blk()), Seen(vs, Regions(Flat(pl.OfNamespace, xs[..i]), old(mBasePtr))))
        invariant forall k :: 0 <= k < i ==> vs[k] == ViewNamespace(mModule, xs[k])
      {
        ghost var b, lo, rs := Blk(), mBasePtr, Regions(Flat(pl.OfNamespace, xs[..i]), old(mBasePtr));
        FlatStep(pl.OfNamespace, xs, i, old(mBasePtr));
        FlatPrefix(pl.OfNamespace, xs, i + 1, old(mBasePtr));
        var p := WriteMetaNamespace(xs[i]);
        ghost var c := Blk();
        Store(arr + pl.Span(i), pl.big, OPointer(p));
        ghost var e := Blk();
        SlotStep(b, c, e, lo, mBasePtr, arr, |xs|, i, p, NamespaceReader(b), Seen(vs, rs), mPoolPtr, mStringPool.mData);
        NamespacesKeep(b, c);
        NamespacesKeep(c, e);
        FillStep(b, c, e, arr, |xs|, i, p, Seen(ViewNamespace(mModule, xs[i]), Regions(pl.OfNamespace(xs[i]), lo)), Seen(vs, rs),
                 NamespaceReader(b), NamespaceReader(c), NamespaceReader(e));
        OutsideThen(old(Blk()), b, e, arr, arr + pl.Span(|xs|), old(mBasePtr), lo);
        vs := vs + [ViewNamespace(mModule, xs[i])];
        i := i + 1;
      }
      assert xs[..i] == xs;
      FillEnd(Blk(), arr, |xs|, NamespaceReader(Blk()), Seen(vs, Regions(Flat(pl.OfNamespace, xs), old(mBasePtr))));
      assert vs == ViewNamespaces(mModule, xs);
    }

    method WriteMethods(arr: nat, xs: seq<Method>)
      requires Ready() && (forall k :: 0 <= k < |xs| ==> KnowsMethod(mStringPool.mOffsets.Keys, xs[k]))
      requires Fits(Flat(pl.OfMethod, xs)) && FreeArray(Blk(), arr, |xs|, mBasePtr)
      modifies this`mBasePtr, mBlock
      ensures Ready() && mBasePtr == Run(Flat(pl.OfMethod, xs), old(mBasePtr))
      ensures SameOutside(old(Blk()), Blk(), arr, arr + pl.Span(|xs|), old(mBasePtr))
      ensures DecodeArray(Blk(), arr, |xs|, MethodReader(Blk()))
           == Some(Seen(ViewMethods(mModule, xs), Regions(Flat(pl.OfMethod, xs), old(mBasePtr))))
    {
      hide AlignUp, Aligned, Run, Regions, Flat, StringPool.Valid, Block.Load, Block.Store, DecodeArray, DecodeMethod,
        ViewMethod, Keeps, Extends, SameOutside, KnowsMethod;
      FlatStart(pl.OfMethod, xs, mBasePtr);
      FillStart(Blk(), arr, |xs|, mBasePtr, MethodReader(Blk()));
      ghost var vs: seq<MethodView> := [];
      var i := 0;
      while i < |xs|
        invariant 0 <= i <= |xs| && |vs| == i
        invariant Ready() && mBasePtr == Run(Flat(pl.OfMethod, xs[..i]), old(mBasePtr)) && old(mBasePtr) <= mBasePtr
        invariant SameOutside(old(Blk()), Blk(), arr, arr + pl.Span(|xs|), old(mBasePtr))
        invariant Filling(Blk(), arr, |xs|, i, MethodReader(Blk()), Seen(vs, Regions(Flat(pl.OfMethod, xs[..i]), old(mBasePtr))))
        invariant forall k :: 0 <= k < i ==> vs[k] == ViewMethod(mModule, xs[k])
      {
        ghost var b, lo, rs := Blk(), mBasePtr, Regions(Flat(pl.OfMethod, xs[..i]), old(mBasePtr));
        FlatStep(pl.OfMethod, xs, i, old(mBasePtr));
        FlatPrefix(pl.OfMethod, xs, i + 1, old(mBasePtr));
        var p := WriteMetaMethod(xs[i]);
        ghost var c := Blk();
        Store(arr + pl.Span(i), pl.big, OPointer(p));
        ghost var e := Blk();
        SlotStep(b, c, e, lo, mBasePtr, arr, |xs|, i, p, MethodReader(b), Seen(vs, rs), mPoolPtr, mStringPool.mData);
        MethodsKeep(b, c);
        MethodsKeep(c, e);
        FillStep(b, c, e, arr, |xs|, i, p, Seen(ViewMethod(mModule, xs[i]), Regions(pl.OfMethod(xs[i]), lo)), Seen(vs, rs),
                 MethodReader(b), MethodReader(c), MethodReader(e));
        OutsideThen(old(Blk()), b, e, arr, arr + pl.Span(|xs|), old(mBasePtr), lo);
        vs := vs + [ViewMethod(mModule, xs[i])];
        i := i + 1;
      }
      assert xs[..i] == xs;
      FillEnd(Blk(), arr, |xs|, MethodReader(Blk()), Seen(vs, Regions(Flat(pl.OfMethod, xs), old(mBasePtr))));
      assert vs == ViewMethods(mModule, xs);
    }

    method WriteMetaInterface(x: Interface) returns (p: nat)
      requires Ready() && KnowsInterface(mStringPool.mOffsets.Keys, x) && Fits(pl.OfInterface(x))
      modifies this`mBasePtr, mBlock
      ensures Ready()
      ensures mBasePtr == Run(pl.OfInterface(x), old(mBasePtr)) && SameBelow(old(Blk()), Blk(), old(mBasePtr))
      ensures p == AlignUp(old(mBasePtr), pl.big)
      ensures DecodeInterface(Blk(), p) == Some(Seen(ViewInterface(mModule, x), Regions(pl.OfInterface(x), old(mBasePtr))))
    {
      hide AlignUp, Aligned, Run, Regions, StringPool.Valid, Flat, Block.Load, Block.Store, Block.ReadText, DecodeArray,
        DecodeInts, Extends, SameOutside, SameBelow, FreeArray, FreeInts, Placed, Block.ZeroFrom, FirstIndex,
        Indexes, KnowsConstant, KnowsMethod, ViewConstants, ViewMethods, InterfaceArrays, Platform.Span;
      InterfaceCursor(pl, x, mBasePtr);
      p := AlignUp(mBasePtr, pl.big);
      var base := IndexOfOptional(mModule.InterfaceIds(), x.base);
      var outer := IndexOfOptional(mModule.InterfaceIds(), x.outer);
      InterfaceOrder(pl, x, mBasePtr);
      var (a1, a2, a3, end) := InterfaceArrays(pl, x, mBasePtr);
      var r := InterfaceRec(x.uuid, WriteString(x.name), WriteString(x.namespace), base, outer, |x.nested|, |x.constants|, |x.methods|,
                            a1, a2, a3, x.external);
      Store(p, pl.interfaceSize, OInterface(r));
      RecordStep(old(Blk()), Blk(), old(mBasePtr), p, pl.interfaceSize, OInterface(r), mPoolPtr, mStringPool.mData);
      ghost var b := Blk();
      mBasePtr := end;
      BigIsFour(pl, a1);
      FreshInts(b, p + pl.interfaceSize, a1, |x.nested|, mBasePtr);
      FreshArray(b, p + pl.interfaceSize, a2, |x.constants|, mBasePtr);
      FreshArray(b, p + pl.interfaceSize, a3, |x.methods|, mBasePtr);
      WriteInterfaceArrays(x, a1, a2, a3);
      LoadKeeps(b, Blk(), p, pl.interfaceSize, pl.big);
      BelowThenBelow(old(Blk()), b, Blk(), old(mBasePtr), a1);
      StringReads(x.name);
      StringReads(x.namespace);
    }

    /** The three loops of WriteMetaInterface. */
    method WriteInterfaceArrays(x: Interface, a1: nat, a2: nat, a3: nat)
      requires Ready() && KnowsInterface(mStringPool.mOffsets.Keys, x)
      requires FreeInts(Blk(), a1, |x.nested|, mBasePtr) && FreeArray(Blk(), a2, |x.constants|, mBasePtr)
      requires FreeArray(Blk(), a3, |x.methods|, mBasePtr)
      requires a1 + 4 * |x.nested| <= a2 && a2 + pl.Span(|x.constants|) <= a3
      requires Run(Flat(pl.OfMethod, x.methods), Run(Flat(pl.OfConstant, x.constants), mBasePtr)) <= mBase + mBlock.Length
      modifies this`mBasePtr, mBlock
      ensures Ready() && Extends(old(Blk()), Blk()) && SameBelow(old(Blk()), Blk(), a1)
      ensures mBasePtr == Run(Flat(pl.OfMethod, x.methods), Run(Flat(pl.OfConstant, x.constants), old(mBasePtr)))
      ensures DecodeInts(Blk(), a1, |x.nested|) == Some(Indexes(mModule.InterfaceIds(), x.nested))
      ensures DecodeArray(Blk(), a2, |x.constants|, ConstantReader(Blk()))
           == Some(Seen(ViewConstants(mModule, x.constants), Regions(Flat(pl.OfConstant, x.constants), old(mBasePtr))))
      ensures DecodeArray(Blk(), a3, |x.methods|, MethodReader(Blk()))
           == Some(Seen(ViewMethods(mModule, x.methods),
                        Regions(Flat(pl.OfMethod, x.methods), Run(Flat(pl.OfConstant, x.constants), old(mBasePtr)))))
    {
      hide Aligned, Regions, Run, Flat, StringPool.Valid, Block.Load, DecodeInts, DecodeArray, Indexes, ViewConstants,
        ViewMethods, KnowsConstant, KnowsMethod, FreeInts, FreeArray, SameOutside, SameBelow, Extends, Placed,
        Block.ZeroFrom, ConstantReader, MethodReader, Keeps;
      var n1, n2, n3 := |x.nested|, |x.constants|, |x.methods|;
      ghost var b0, lo := Blk(), mBasePtr;
      WriteIndexes(a1, mModule.InterfaceIds(), x.nested);
      ghost var b1 := Blk();
      IntsWritten(b0, b1, a1, n1, lo, a1);
      StillFree(b0, b1, a1, a1 + 4 * n1, lo, a2, n2, lo);
      StillFree(b0, b1, a1, a1 + 4 * n1, lo, a3, n3, lo);
      WriteConstants(a2, x.constants);
      ghost var b2, mid := Blk(), mBasePtr;
      ArrayWritten(b1, b2, a2, n2, lo, a1);
      StillFree(b1, b2, a2, a2 + pl.Span(n2), lo, a3, n3, mid);
      WriteMethods(a3, x.methods);
      ghost var b3 := Blk();
      ArrayWritten(b2, b3, a3, n3, mid, a1);
      Grows(b1, b2, b3, a1);
      Grows(b0, b1, b3, a1);
      IntsKeep(b1, b3, a1, n1);
      ConstantsKeep(b2, b3);
      ArrayKeeps(b2, b3, a2, n2, ConstantReader(b2), ConstantReader(b3));
    }

    method WriteInterfaces(arr: nat, xs: seq<Interface>)
      requires Ready() && (forall k :: 0 <= k < |xs| ==> KnowsInterface(mStringPool.mOffsets.Keys, xs[k]))
      requires Fits(Flat(pl.OfInterface, xs)) && FreeArray(Blk(), arr, |xs|, mBasePtr)
      modifies this`mBasePtr, mBlock
      ensures Ready() && mBasePtr == Run(Flat(pl.OfInterface, xs), old(mBasePtr))
      ensures SameOutside(old(Blk()), Blk(), arr, arr + pl.Span(|xs|), old(mBasePtr))
      ensures DecodeArray(Blk(), arr, |xs|, InterfaceReader(Blk()))
           == Some(Seen(ViewInterfaces(mModule, xs), Regions(Flat(pl.OfInterface, xs), old(mBasePtr))))
    {
      hide AlignUp, Aligned, Run, Regions, Flat, StringPool.Valid, Block.Load, Block.Store, DecodeArray, DecodeInterface,
        ViewInterface, Keeps, Extends, SameOutside, KnowsInterface;
      FlatStart(pl.OfInterface, xs, mBasePtr);
      FillStart(Blk(), arr, |xs|, mBasePtr, InterfaceReader(Blk()));
      ghost var vs: seq<InterfaceView> := [];
      var i := 0;
      while i < |xs|
        invariant 0 <= i <= |xs| && |vs| == i
        invariant Ready() && mBasePtr == Run(Flat(pl.OfInterface, xs[..i]), old(mBasePtr)) && old(mBasePtr) <= mBasePtr
        invariant SameOutside(old(Blk()), Blk(), arr, arr + pl.Span(|xs|), old(mBasePtr))
        invariant Filling(Blk(), arr, |xs|, i, InterfaceReader(Blk()), Seen(vs, Regions(Flat(pl.OfInterface, xs[..i]), old(mBasePtr))))
        invariant forall k :: 0 <= k < i ==> vs[k] == ViewInterface(mModule, xs[k])
      {
        ghost var b, lo, rs := Blk(), mBasePtr, Regions(Flat(pl.OfInterface, xs[..i]), old(mBasePtr));
        FlatStep(pl.OfInterface, xs, i, old(mBasePtr));
        FlatPrefix(pl.OfInterface, xs, i + 1, old(mBasePtr));
        var p := WriteMetaInterface(xs[i]);
        ghost var c := Blk();
        Store(arr + pl.Span(i), pl.big, OPointer(p));
        ghost var e := Blk();
        SlotStep(b, c, e, lo, mBasePtr, arr, |xs|, i, p, InterfaceReader(b), Seen(vs, rs), mPoolPtr, mStringPool.mData);
        InterfacesKeep(b, c);
        InterfacesKeep(c, e);
        FillStep(b, c, e, arr, |xs|, i, p, Seen(ViewInterface(mModule, xs[i]), Regions(pl.OfInterface(xs[i]), lo)), Seen(vs, rs),
                 InterfaceReader(b), InterfaceReader(c), InterfaceReader(e));
        OutsideThen(old(Blk()), b, e, arr, arr + pl.Span(|xs|), old(mBasePtr), lo);
        vs := vs + [ViewInterface(mModule, xs[i])];
        i := i + 1;
      }
      assert xs[..i] == xs;
      FillEnd(Blk(), arr, |xs|, InterfaceReader(Blk()), Seen(vs, Regions(Flat(pl.OfInterface, xs), old(mBasePtr))));
      assert vs == ViewInterfaces(mModule, xs);
    }

    method WriteEnumerations(arr: nat, xs: seq<Enumeration>)
      requires Ready() && (forall k :: 0 <= k < |xs| ==> KnowsEnumeration(mStringPool.mOffsets.Keys, xs[k]))
      requires Fits(Flat(pl.OfEnumeration, xs)) && FreeArray(Blk(), arr, |xs|, mBasePtr)
      modifies this`mBasePtr, mBlock
      ensures Ready() && mBasePtr == Run(Flat(pl.OfEnumeration, xs), old(mBasePtr))
      ensures SameOutside(old(Blk()), Blk(), arr, arr + pl.Span(|xs|), old(mBasePtr))
      ensures DecodeArray(Blk(), arr, |xs|, EnumerationReader(Blk()))
           == Some(Seen(ViewEnumerations(xs), Regions(Flat(pl.OfEnumeration, xs), old(mBasePtr))))
    {
      hide AlignUp, Aligned, Run, Regions, Flat, StringPool.Valid, Block.Load, Block.Store, DecodeArray, DecodeEnumeration,
        ViewEnumeration, Keeps, Extends, SameOutside, KnowsEnumeration;
      FlatStart(pl.OfEnumeration, xs, mBasePtr);
      FillStart(Blk(), arr, |xs|, mBasePtr, EnumerationReader(Blk()));
      ghost var vs: seq<EnumerationView> := [];
      var i := 0;
      while i < |xs|
        invariant 0 <= i <= |xs| && |vs| == i
        invariant Ready() && mBasePtr == Run(Flat(pl.OfEnumeration, xs[..i]), old(mBasePtr)) && old(mBasePtr) <= mBasePtr
        invariant SameOutside(old(Blk()), Blk(), arr, arr + pl.Span(|xs|), old(mBasePtr))
        invariant Filling(Blk(), arr, |xs|, i, EnumerationReader(Blk()), Seen(vs, Regions(Flat(pl.OfEnumeration, xs[..i]), old(mBasePtr))))
        invariant forall k :: 0 <= k < i ==> vs[k] == ViewEnumeration(xs[k])
      {
        ghost var b, lo, rs := Blk(), mBasePtr, Regions(Flat(pl.OfEnumeration, xs[..i]), old(mBasePtr));
        FlatStep(pl.OfEnumeration, xs, i, old(mBasePtr));
        FlatPrefix(pl.OfEnumeration, xs, i + 1, old(mBasePtr));
        var p := WriteMetaEnumeration(xs[i]);
        ghost var c := Blk();
        Store(arr + pl.Span(i), pl.big, OPointer(p));
        ghost var e := Blk();
        SlotStep(b, c, e, lo, mBasePtr, arr, |xs|, i, p, EnumerationReader(b), Seen(vs, rs), mPoolPtr, mStringPool.mData);
        EnumerationsKeep(b, c);
        EnumerationsKeep(c, e);
        FillStep(b, c, e, arr, |xs|, i, p, Seen(ViewEnumeration(xs[i]), Regions(pl.OfEnumeration(xs[i]), lo)), Seen(vs, rs),
                 EnumerationReader(b), EnumerationReader(c), EnumerationReader(e));
        OutsideThen(old(Blk()), b, e, arr, arr + pl.Span(|xs|), old(mBasePtr), lo);
        vs := vs + [ViewEnumeration(xs[i])];
        i := i + 1;
      }
      assert xs[..i] == xs;
      FillEnd(Blk(), arr, |xs|, EnumerationReader(Blk()), Seen(vs, Regions(Flat(pl.OfEnumeration, xs), old(mBasePtr))));
      assert vs == ViewEnumerations(xs);
    }

    /** The first three loops of WriteMetaComponent. */
    method WriteFirstRecords(a1: nat, a2: nat, a3: nat)
      requires Ready() && KnowsModule(mStringPool.mOffsets.Keys, mModule)
      requires FreeArray(Blk(), a1, |mModule.namespaces|, mBasePtr)
      requires FreeArray(Blk(), a2, |mModule.constants|, mBasePtr)
      requires FreeArray(Blk(), a3, |mModule.coclasses|, mBasePtr)
      requires a1 + pl.Span(|mModule.namespaces|) <= a2 && a2 + pl.Span(|mModule.constants|) <= a3
      requires Run(Flat(pl.OfCoclass, mModule.coclasses), Run(Flat(pl.OfConstant, mModule.constants), Run(Flat(pl.OfNamespace, mModule.namespaces), mBasePtr))) <= mBase + mBlock.Length
      modifies this`mBasePtr, mBlock
      ensures Ready() && mBasePtr == Run(Flat(pl.OfCoclass, mModule.coclasses), Run(Flat(pl.OfConstant, mModule.constants), Run(Flat(pl.OfNamespace, mModule.namespaces), old(mBasePtr))))
      ensures Extends(old(Blk()), Blk()) && SameOutside(old(Blk()), Blk(), a1, a3 + pl.Span(|mModule.coclasses|), old(mBasePtr))
      ensures DecodeArray(Blk(), a1, |mModule.namespaces|, NamespaceReader(Blk()))
           == Some(Seen(ViewNamespaces(mModule, mModule.namespaces), Regions(Flat(pl.OfNamespace, mModule.namespaces), old(mBasePtr))))
      ensures DecodeArray(Blk(), a2, |mModule.constants|, ConstantReader(Blk()))
           == Some(Seen(ViewConstants(mModule, mModule.constants),
                        Regions(Flat(pl.OfConstant, mModule.constants), AfterNamespaces(pl, mModule, old(mBasePtr)))))
      ensures DecodeArray(Blk(), a3, |mModule.coclasses|, CoclassReader(Blk()))
           == Some(Seen(ViewCoclasses(mModule, mModule.coclasses),
                        Regions(Flat(pl.OfCoclass, mModule.coclasses), AfterConstants(pl, mModule, old(mBasePtr)))))
    {
      hide Aligned, Regions, Run, Flat, StringPool.Valid, Block.Load, DecodeArray, FreeArray, SameOutside, SameBelow,
        Extends, Placed, Block.ZeroFrom, Keeps, ViewNamespaces, NamespaceReader, KnowsNamespace, ViewConstants,
        ConstantReader, KnowsConstant, ViewCoclasses, CoclassReader, KnowsCoclass;
      var m := mModule;
      var n1, n2, n3 := |m.namespaces|, |m.constants|, |m.coclasses|;
      ghost var end := a3 + pl.Span(n3);
      ghost var b0, c0 := Blk(), mBasePtr;
      WriteNamespaces(a1, m.namespaces);
      ghost var b1, c1 := Blk(), mBasePtr;
      ArrayWritten(b0, b1, a1, n1, c0, a1);
      StillFree(b0, b1, a1, a1 + pl.Span(n1), c0, a2, n2, c1);
      StillFree(b0, b1, a1, a1 + pl.Span(n1), c0, a3, n3, c1);
      WriteConstants(a2, m.constants);
      ghost var b2, c2 := Blk(), mBasePtr;
      ArrayWritten(b1, b2, a2, n2, c1, a1);
      StillFree(b1, b2, a2, a2 + pl.Span(n2), c1, a3, n3, c2);
      WriteCoclasses(a3, m.coclasses);
      ghost var b3 := Blk();
      ArrayWritten(b2, b3, a3, n3, c2, a1);
      Grows(b1, b2, b3, a1);
      Grows(b0, b1, b3, a1);
      NamespacesKeep(b1, b3);
      ArrayKeeps(b1, b3, a1, n1, NamespaceReader(b1), NamespaceReader(b3));
      ConstantsKeep(b2, b3);
      ArrayKeeps(b2, b3, a2, n2, ConstantReader(b2), ConstantReader(b3));
      OutsideWider(b0, b1, a1, a1 + pl.Span(n1), a1, end, c0);
      OutsideWider(b1, b2, a2, a2 + pl.Span(n2), a1, end, c1);
      OutsideWider(b2, b3, a3, end, a1, end, c2);
      OutsideThen(b1, b2, b3, a1, end, c1, c2);
      OutsideThen(b0, b1, b3, a1, end, c0, c1);
    }

    /** The last three loops of WriteMetaComponent. */
    method WriteLastRecords(a1: nat, a2: nat, a3: nat)
      requires Ready() && KnowsModule(mStringPool.mOffsets.Keys, mModule)
      requires FreeArray(Blk(), a1, |mModule.enumerations|, mBasePtr)
      requires FreeArray(Blk(), a2, |mModule.interfaces|, mBasePtr)
      requires FreeArray(Blk(), a3, |mModule.types|, mBasePtr)
      requires a1 + pl.Span(|mModule.enumerations|) <= a2 && a2 + pl.Span(|mModule.interfaces|) <= a3
      requires Run(Flat(pl.OfType, mModule.types), Run(Flat(pl.OfInterface, mModule.interfaces), Run(Flat(pl.OfEnumeration, mModule.enumerations), mBasePtr))) <= mBase + mBlock.Length
      modifies this`mBasePtr, mBlock
      ensures Ready() && mBasePtr == Run(Flat(pl.OfType, mModule.types), Run(Flat(pl.OfInterface, mModule.interfaces), Run(Flat(pl.OfEnumeration, mModule.enumerations), old(mBasePtr))))
      ensures Extends(old(Blk()), Blk()) && SameOutside(old(Blk()), Blk(), a1, a3 + pl.Span(|mModule.types|), old(mBasePtr))
      ensures DecodeArray(Blk(), a1, |mModule.enumerations|, EnumerationReader(Blk()))
           == Some(Seen(ViewEnumerations(mModule.enumerations), Regions(Flat(pl.OfEnumeration, mModule.enumerations), old(mBasePtr))))
      ensures DecodeArray(Blk(), a2, |mModule.interfaces|, InterfaceReader(Blk()))
           == Some(Seen(ViewInterfaces(mModule, mModule.interfaces),
                        Regions(Flat(pl.OfInterface, mModule.interfaces), Run(Flat(pl.OfEnumeration, mModule.enumerations), old(mBasePtr)))))
      ensures DecodeArray(Blk(), a3, |mModule.types|, TypeReader(Blk()))
           == Some(Seen(ViewTypes(mModule, mModule.types),
                        Regions(Flat(pl.OfType, mModule.types), Run(Flat(pl.OfInterface, mModule.interfaces), Run(Flat(pl.OfEnumeration, mModule.enumerations), old(mBasePtr))))))
    {
      hide Aligned, Regions, Run, Flat, StringPool.Valid, Block.Load, DecodeArray, FreeArray, SameOutside, SameBelow,
        Extends, Placed, Block.ZeroFrom, Keeps, ViewEnumerations, EnumerationReader, KnowsEnumeration,
        ViewInterfaces, InterfaceReader, KnowsInterface, ViewTypes, TypeReader;
      var m := mModule;
      var n1, n2, n3 := |m.enumerations|, |m.interfaces|, |m.types|;
      ghost var end := a3 + pl.Span(n3);
      ghost var b0, c0 := Blk(), mBasePtr;
      WriteEnumerations(a1, m.enumerations);
      ghost var b1, c1 := Blk(), mBasePtr;
      ArrayWritten(b0, b1, a1, n1, c0, a1);
      StillFree(b0, b1, a1, a1 + pl.Span(n1), c0, a2, n2, c1);
      StillFree(b0, b1, a1, a1 + pl.Span(n1), c0, a3, n3, c1);
      WriteInterfaces(a2, m.interfaces);
      ghost var b2, c2 := Blk(), mBasePtr;
      ArrayWritten(b1, b2, a2, n2, c1, a1);
      StillFree(b1, b2, a2, a2 + pl.Span(n2), c1, a3, n3, c2);
      WriteTypes(a3, m.types);
      ghost var b3 := Blk();
      ArrayWritten(b2, b3, a3, n3, c2, a1);
      Grows(b1, b2, b3, a1);
      Grows(b0, b1, b3, a1);
      EnumerationsKeep(b1, b3);
      ArrayKeeps(b1, b3, a1, n1, EnumerationReader(b1), EnumerationReader(b3));
      InterfacesKeep(b2, b3);
      ArrayKeeps(b2, b3, a2, n2, InterfaceReader(b2), InterfaceReader(b3));
      OutsideWider(b0, b1, a1, a1 + pl.Span(n1), a1, end, c0);
      OutsideWider(b1, b2, a2, a2 + pl.Span(n2), a1, end, c1);
      OutsideWider(b2, b3, a3, end, a1, end, c2);
      OutsideThen(b1, b2, b3, a1, end, c1, c2);
      OutsideThen(b0, b1, b3, a1, end, c0, c1);
    }

    /** memcpy of the pool data. */
    method CopyPool(ptr: nat)
      requires Blk().Has(ptr, |mStringPool.mData|)
      modifies mBlock
      ensures Copied(old(Blk()), Blk(), ptr, mStringPool.mData)
    {
      var data := mStringPool.mData;
      var k := 0;
      while k < |data|
        invariant 0 <= k <= |data|
        invariant forall i :: 0 <= i < mBlock.Length ==>
          mBlock[i] == if ptr - mBase <= i < ptr - mBase + k then Chr(data[i - (ptr - mBase)]) else old(mBlock[i])
      {
        mBlock[ptr - mBase + k] := Chr(data[k]);
        k := k + 1;
      }
    }

    method CountAllExternals() returns (enumerations: nat, interfaces: nat)
      ensures enumerations == TotalExternalEnumerations(mModule.namespaces)
      ensures interfaces == TotalExternalInterfaces(mModule.namespaces)
    {
      hide Externals;
      var nss := mModule.namespaces;
      enumerations, interfaces := 0, 0;
      for i := 0 to |nss|
        invariant enumerations == TotalExternalEnumerations(nss[..i])
        invariant interfaces == TotalExternalInterfaces(nss[..i])
      {
        assert nss[..i + 1][..i] == nss[..i];
        var e := CountExternal(nss[i].enumerations);
        var f := CountExternal(nss[i].interfaces);
        enumerations, interfaces := enumerations + e, interfaces + f;
      }
      assert nss[..|nss|] == nss;
    }

    /** The component record, with the addresses of its six arrays and of everything it names. */
    function ComponentAt(a: (nat, nat, nat, nat, nat, nat, nat)): ComponentRec<nat, nat, nat, nat, nat, nat, nat>
      reads this, mStringPool
    {
      ComponentRec(CCM_MAGIC, mSize, mModule.uuid, WriteString(mModule.name), WriteString(mModule.url), |mModule.namespaces|,
                   |mModule.constants|, |mModule.coclasses|, |mModule.enumerations|, TotalExternalEnumerations(mModule.namespaces),
                   |mModule.interfaces|, TotalExternalInterfaces(mModule.namespaces), |mModule.types|, a.0, a.1, a.2, a.3, a.4, a.5)
    }

    /** The component record is in place and its arrays are free, the pool behind them. */
    ghost predicate HeaderDone(a: (nat, nat, nat, nat, nat, nat, nat))
      reads this, mBlock, mStringPool
    {
      && Blk().Load(mBase, pl.componentSize, pl.big) == Some(OComponent(ComponentAt(a)))
      && ArraysFree(Blk(), mModule, a, mBasePtr)
    }

    /** The fields of the component record, all of them known once the arrays have their addresses. */
    method StoreComponent(p: nat, a1: nat, a2: nat, a3: nat, a4: nat, a5: nat, a6: nat)
      requires Blk().Has(p, pl.componentSize)
      modifies mBlock
      ensures Blk() == old(Blk()).Store(p, pl.componentSize, OComponent(ComponentAt((a1, a2, a3, a4, a5, a6, mPoolPtr))))
    {
      hide Block.Store, TotalExternalEnumerations, TotalExternalInterfaces;
      var m := mModule;
      var extEnumerations, extInterfaces := CountAllExternals();
      var r := ComponentRec(CCM_MAGIC, mSize, m.uuid, WriteString(m.name), WriteString(m.url), |m.namespaces|, |m.constants|,
                            |m.coclasses|, |m.enumerations|, extEnumerations, |m.interfaces|, extInterfaces, |m.types|,
                            a1, a2, a3, a4, a5, a6);
      Store(p, pl.componentSize, OComponent(r));
    }

    method WriteHeader()
      requires pl.Valid() && mStringPool.Valid() && Aligned(mBase, pl.big) && mBasePtr == mBase && Blk().ZeroFrom(mBase)
      requires Run(pl.Header(mModule), mBase) + |mStringPool.mData| <= mBase + mBlock.Length
      modifies this`mBasePtr, this`mPoolPtr, mBlock
      ensures Ready() && HeaderDone(HeaderArrays(pl, mModule, mBase))
      ensures mPoolPtr == Run(pl.Header(mModule), mBase) && mBasePtr == mPoolPtr + |mStringPool.mData|
    {
      hide Aligned, Run, StringPool.Valid, Block.Load, Block.Store, TotalExternalEnumerations,
        TotalExternalInterfaces, Placed, FreeArray, SameBelow, Extends, ArraysFree, Copied, Platform.Span,
        HeaderArrays;
      var m := mModule;
      HeaderCursor(pl, m, mBase);
      HeaderOrder(pl, m, mBase);
      AlignedStays(mBasePtr, pl.big);
      var p := AlignUp(mBasePtr, pl.big);
      var a := HeaderArrays(pl, m, p);
      mPoolPtr := a.6;
      ghost var r := ComponentAt(a);
      ghost var b0 := Blk();
      StoreComponent(p, a.0, a.1, a.2, a.3, a.4, a.5);
      ghost var b1 := Blk();
      NothingPlaced(b0, p);
      RecordStep(b0, b1, p, p, pl.componentSize, OComponent(r), p, "");
      CopyPool(mPoolPtr);
      mBasePtr := mPoolPtr + |mStringPool.mData|;
      ghost var b2 := Blk();
      PoolCopied(b1, b2, p + pl.componentSize, mPoolPtr, mStringPool.mData);
      LoadKeeps(b1, b2, p, pl.componentSize, pl.big);
      ArraysStillZero(b1, b2, p + pl.componentSize, mPoolPtr, m, a, mBasePtr);
    }

    method WriteMetaComponent()
      requires pl.Valid() && mStringPool.Valid() && Aligned(mBase, pl.big) && mBasePtr == mBase && Blk().ZeroFrom(mBase)
      requires KnowsModule(mStringPool.mOffsets.Keys, mModule)
      requires WritingEnd(pl.Header(mModule), pl.Records(mModule), |mStringPool.mData|, mBase) <= mBase + mBlock.Length
      modifies this`mBasePtr, this`mPoolPtr, mBlock
      ensures mBasePtr == WritingEnd(pl.Header(mModule), pl.Records(mModule), |mStringPool.mData|, mBase)
      ensures DecodeModule(Blk(), mBase)
           == Some(Seen(ViewModule(mModule, mSize), ObjectRegions(pl, mModule, |mStringPool.mData|, mBase)))
      ensures Placed(Blk(), Run(pl.Header(mModule), mBase), mStringPool.mData)
    {
      hide AlignUp, Aligned, Regions, HeaderRegions, ObjectRegions, Run, Flat, StringPool.Valid, Block.Load, Block.ReadText, DecodeArray, FreeArray,
        SameOutside, SameBelow, Extends, Placed, Block.ZeroFrom, Keeps, TotalExternalEnumerations,
        TotalExternalInterfaces;
      var m := mModule;
      var a := HeaderArrays(pl, m, mBase);
      WriteHeader();
      ghost var b0, c0 := Blk(), mBasePtr;
      RecordsCursor(pl, m, c0);
      WriteFirstRecords(a.0, a.1, a.2);
      ghost var b1, c1 := Blk(), mBasePtr;
      StillFree(b0, b1, a.0, a.2 + pl.Span(|m.coclasses|), c0, a.3, |m.enumerations|, c1);
      StillFree(b0, b1, a.0, a.2 + pl.Span(|m.coclasses|), c0, a.4, |m.interfaces|, c1);
      StillFree(b0, b1, a.0, a.2 + pl.Span(|m.coclasses|), c0, a.5, |m.types|, c1);
      WriteLastRecords(a.3, a.4, a.5);
      ghost var b2 := Blk();
      ghost var c2 := AfterCoclasses(pl, m, c0);
      ghost var rs := (Regions(Flat(pl.OfNamespace, m.namespaces), c0), Regions(Flat(pl.OfConstant, m.constants), AfterNamespaces(pl, m, c0)),
                       Regions(Flat(pl.OfCoclass, m.coclasses), AfterConstants(pl, m, c0)), Regions(Flat(pl.OfEnumeration, m.enumerations), c2),
                       Regions(Flat(pl.OfInterface, m.interfaces), AfterEnumerations(pl, m, c0)),
                       Regions(Flat(pl.OfType, m.types), AfterInterfaces(pl, m, c0)));
      FinishModule(a, b0, b1, b2, rs);
      AllRegions(a, b2, c0, rs);
    }

    lemma FinishModule(a: (nat, nat, nat, nat, nat, nat, nat), b0: Block, b1: Block, b2: Block,
                       rs: (seq<Region>, seq<Region>, seq<Region>, seq<Region>, seq<Region>, seq<Region>))
      requires Ready() && KnowsModule(mStringPool.mOffsets.Keys, mModule) && Blk() == b2
      requires b0.pl == pl && b0.base == mBase
      requires b0.Load(mBase, pl.componentSize, pl.big) == Some(OComponent(ComponentAt(a)))
      requires Extends(b0, b1) && Extends(b1, b2)
      requires DecodeArray(b1, a.0, |mModule.namespaces|, NamespaceReader(b1))
            == Some(Seen(ViewNamespaces(mModule, mModule.namespaces), rs.0))
      requires DecodeArray(b1, a.1, |mModule.constants|, ConstantReader(b1))
            == Some(Seen(ViewConstants(mModule, mModule.constants), rs.1))
      requires DecodeArray(b1, a.2, |mModule.coclasses|, CoclassReader(b1))
            == Some(Seen(ViewCoclasses(mModule, mModule.coclasses), rs.2))
      requires DecodeArray(b2, a.3, |mModule.enumerations|, EnumerationReader(b2))
            == Some(Seen(ViewEnumerations(mModule.enumerations), rs.3))
      requires DecodeArray(b2, a.4, |mModule.interfaces|, InterfaceReader(b2))
            == Some(Seen(ViewInterfaces(mModule, mModule.interfaces), rs.4))
      requires DecodeArray(b2, a.5, |mModule.types|, TypeReader(b2))
            == Some(Seen(ViewTypes(mModule, mModule.types), rs.5))
      ensures DecodeModule(b2, mBase)
           == Some(Seen(ViewModule(mModule, mSize),
                        HeaderRegions(b2, mBase, ComponentAt(a)) + rs.0 + rs.1 + rs.2 + rs.3 + rs.4 + rs.5))
    {
      hide Block.Load, Block.ReadText, DecodeArray, Keeps, StringPool.Valid, TotalExternalEnumerations,
        TotalExternalInterfaces, HeaderRegions;
      assert Extends(b0, b2);
      hide Extends;
      LoadKeeps(b0, b2, mBase, pl.componentSize, pl.big);
      NamespacesKeep(b1, b2);
      ArrayKeeps(b1, b2, a.0, |mModule.namespaces|, NamespaceReader(b1), NamespaceReader(b2));
      ConstantsKeep(b1, b2);
      ArrayKeeps(b1, b2, a.1, |mModule.constants|, ConstantReader(b1), ConstantReader(b2));
      CoclassesKeep(b1, b2);
      ArrayKeeps(b1, b2, a.2, |mModule.coclasses|, CoclassReader(b1), CoclassReader(b2));
      StringReads(mModule.name);
      StringReads(mModule.url);
    }

    lemma AllRegions(a: (nat, nat, nat, nat, nat, nat, nat), b: Block, c: nat,
                     rs: (seq<Region>, seq<Region>, seq<Region>, seq<Region>, seq<Region>, seq<Region>))
      requires pl.Valid() && b.pl == pl && Aligned(mBase, pl.big) && a == HeaderArrays(pl, mModule, mBase)
      requires c == Run(pl.Header(mModule), mBase) + |mStringPool.mData|
      requires rs == (Regions(Flat(pl.OfNamespace, mModule.namespaces), c),
                      Regions(Flat(pl.OfConstant, mModule.constants), AfterNamespaces(pl, mModule, c)),
                      Regions(Flat(pl.OfCoclass, mModule.coclasses), AfterConstants(pl, mModule, c)),
                      Regions(Flat(pl.OfEnumeration, mModule.enumerations), AfterCoclasses(pl, mModule, c)),
                      Regions(Flat(pl.OfInterface, mModule.interfaces), AfterEnumerations(pl, mModule, c)),
                      Regions(Flat(pl.OfType, mModule.types), AfterInterfaces(pl, mModule, c)))
      ensures HeaderRegions(b, mBase, ComponentAt(a)) + rs.0 + rs.1 + rs.2 + rs.3 + rs.4 + rs.5
           == ObjectRegions(pl, mModule, |mStringPool.mData|, mBase)
    {
      hide AlignUp, Aligned, Run, Regions, Flat, HeaderArrays, AfterNamespaces, AfterConstants, AfterCoclasses,
        AfterEnumerations, AfterInterfaces;
      AlignedStays(mBase, pl.big);
      HeaderCursor(pl, mModule, mBase);
      RecordsCursor(pl, mModule, c);
      Appended(HeaderRegions(b, mBase, ComponentAt(a)), rs.0, rs.1, rs.2, rs.3, rs.4, rs.5);
    }

    // -------------------------------------------------------------- both passes

    /** Nothing in the module is only declared ahead. */
    ghost predicate Declared() {
      && (forall i :: 0 <= i < |mModule.interfaces| ==> !mModule.interfaces[i].predecl)
      && (forall i :: 0 <= i < |mModule.enumerations| ==> !mModule.enumerations[i].predecl)
    }

    method IsValid() returns (ok: bool)
      ensures ok <==> Declared()
    {
      for i := 0 to |mModule.interfaces|
        invariant forall k :: 0 <= k < i ==> !mModule.interfaces[k].predecl
      {
        if mModule.interfaces[i].predecl {
          return false;
        }
      }
      for i := 0 to |mModule.enumerations|
        invariant forall k :: 0 <= k < i ==> !mModule.enumerations[k].predecl
      {
        if mModule.enumerations[i].predecl {
          return false;
        }
      }
      return true;
    }

    method CalculateMetadataSize() returns (size: nat)
      requires Sizing({})
      modifies this`mBasePtr, mStringPool
      ensures Sizing({}) && KnowsModule(mStringPool.mOffsets.Keys, mModule)
      ensures size == SizingEnd(pl.Header(mModule), pl.Records(mModule), |mStringPool.mData|, pl.big)
    {
      mBasePtr := 0;
      CalculateMetaComponent();
      size := mBasePtr;
    }

    lemma SizingIs(keys: set<NulFree>)
      requires Sizing(keys)
      ensures pl.Valid() && mStringPool.Valid()
    {
    }

    static lemma MagicIs(m: Module, size: int)
      ensures ViewModule(m, size).magic == 0x12E20FD && ViewModule(m, size).size == size
    {
    }

    lemma NothingWritten()
      requires forall i :: 0 <= i < mBlock.Length ==> mBlock[i] == Zero
      ensures Blk().ZeroFrom(mBase)
    {
    }

    /** The block is sized, allocated at `base` (calloc aligns it), and filled: both passes end at the
        same address, and reading the block from its start gives back the module.  What was read is
        exactly the regions that were handed out, apart from each other and from the string pool, and the
        indexes lead to the right records if and only if the module is closed.  No block comes back for
        a module in which something is only declared ahead. */
    method Build(base: nat) returns (ok: bool)
      requires Sizing({}) && Aligned(base, pl.big)
      requires Aligned(pl.typeSize, pl.big) && mModule.types != []
      modifies this, mStringPool
      ensures ok <==> Declared()
      ensures ok ==> mBase == base && mBlock.Length == mSize && mBasePtr == base + mSize
      ensures ok ==>
        DecodeModule(Blk(), base) == Some(Seen(ViewModule(mModule, mSize), ObjectRegions(pl, mModule, |mStringPool.mData|, base)))
      ensures ok ==> ViewModule(mModule, mSize).magic == 0x12E20FD && ViewModule(mModule, mSize).size == mSize
      ensures ok ==> Placed(Blk(), Run(pl.Header(mModule), base), mStringPool.mData)
      ensures ok ==> Apart(Regions(WrittenChunks(pl, mModule, |mStringPool.mData|), base), base, base + mSize)
      ensures ok ==> (ModuleLeads(Compiled(mModule, Blk(), base)) <==> Closed(mModule))
      ensures ok && Closed(mModule) && Regular(mModule) ==> ValuesMean(Compiled(mModule, Blk(), base))
    {
      hide *;
      ok := IsValid();
      if !ok {
        return;
      }
      mSize := CalculateMetadataSize();
      SizingIs({});
      mBase := base;
      mBlock := new Cell[mSize](_ => Zero);
      mBasePtr := base;
      PassesAgree(pl, mModule, |mStringPool.mData|, base);
      WrittenRegions(pl, mModule, |mStringPool.mData|, base);
      NothingWritten();
      MagicIs(mModule, mSize);
      WriteMetaComponent();
      SeenIsReadBack(Compiled(mModule, Blk(), base), mSize, ObjectRegions(pl, mModule, |mStringPool.mData|, base));
      IndexesLeadIffClosed(Compiled(mModule, Blk(), base));
      if Closed(mModule) && Regular(mModule) {
        AllValuesMean(Compiled(mModule, Blk(), base));
      }
    }
  }
}

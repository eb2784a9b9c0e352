/** Address arithmetic of the metadata block: alignment, and the walk of the cursor
    `mBasePtr` over a list of chunks (records, pointer arrays, index arrays, the string pool).

    Both passes of the metadata compiler move the same cursor.  What they disagree on is where the
    string pool goes: sizing counts it after every record, writing places it before them.
    `SizesAgree` says exactly when the two passes still end at the same address. */
module MetaLayout {

  /** ALIGN4, ALIGN8, or no alignment at all. */
  predicate IsAlignment(a: nat) {
    a == 1 || a == 4 || a == 8
  }

  /** `v` is a multiple of the alignment `a`. */
  predicate Aligned(v: nat, a: nat) {
    if a == 8 then v % 8 == 0 else if a == 4 then v % 4 == 0 else true
  }

  /** The least aligned address that is not below `v`. */
  function AlignUp(v: nat, a: nat): (r: nat)
    requires IsAlignment(a)
    ensures v <= r < v + a && Aligned(r, a)
  {
    RoundUp8(v);
    RoundUp4(v);
    if a == 8 then (v + 7) / 8 * 8 else if a == 4 then (v + 3) / 4 * 4 else v
  }

  lemma RoundUp8(v: nat)
    ensures v <= (v + 7) / 8 * 8 < v + 8 && (v + 7) / 8 * 8 % 8 == 0
  {
  }

  lemma RoundUp4(v: nat)
    ensures v <= (v + 3) / 4 * 4 < v + 4 && (v + 3) / 4 * 4 % 4 == 0
  {
  }

  lemma Shift8(v: nat, k: nat)
    ensures (v + 8 * k + 7) / 8 * 8 == (v + 7) / 8 * 8 + 8 * k
  {
  }

  lemma Shift4(v: nat, k: nat)
    ensures (v + 4 * k + 3) / 4 * 4 == (v + 3) / 4 * 4 + 4 * k
  {
  }

  /** An aligned number, counted in units of a smaller alignment. */
  lemma InUnits(d: nat, a: nat, big: nat) returns (k: nat)
    requires IsAlignment(a) && IsAlignment(big) && a <= big && Aligned(d, big)
    ensures d == if a == 8 then 8 * k else if a == 4 then 4 * k else k
  {
    k := if a == 8 then d / 8 else if a == 4 then d / 4 else d;
  }

  /** Moving an address by whole units of the machine alignment `big` moves its aligned address
      by just as much, for any alignment that divides `big`. */
  lemma AlignShifts(v: nat, a: nat, d: nat, big: nat)
    requires IsAlignment(a) && IsAlignment(big) && a <= big
    requires Aligned(d, big)
    ensures AlignUp(v + d, a) == AlignUp(v, a) + d
  {
    var k := InUnits(d, a, big);
    if a == 8 {
      Shift8(v, k);
    } else if a == 4 {
      Shift4(v, k);
    }
  }

  lemma AlignTwice(v: nat, a: nat)
    requires IsAlignment(a)
    ensures AlignUp(AlignUp(v, a), a) == AlignUp(v, a)
  {
  }

  lemma AlignedSum(u: nat, v: nat, a: nat)
    requires IsAlignment(a) && Aligned(u, a)
    ensures Aligned(u + v, a) <==> Aligned(v, a)
  {
    var k := InUnits(u, a, a);
  }

  /** A stretch of `size` bytes starting at the next multiple of `align`. */
  datatype Chunk = Chunk(align: nat, size: nat) {
    predicate Valid(big: nat) {
      IsAlignment(align) && align <= big
    }
  }

  ghost predicate AllValid(cs: seq<Chunk>, big: nat) {
    forall i :: 0 <= i < |cs| ==> cs[i].Valid(big)
  }

  /** Where the cursor stands after placing one chunk. */
  function Place(c: Chunk, cur: nat): nat {
    (if IsAlignment(c.align) then AlignUp(cur, c.align) else cur) + c.size
  }

  /** Where the cursor stands after placing `cs` in order from `cur`. */
  function Run(cs: seq<Chunk>, cur: nat): (end: nat)
    ensures cur <= end
  {
    if cs == [] then cur
    else
      Place(cs[|cs| - 1], Run(cs[..|cs| - 1], cur))
  }

  // ---------------------------------------------------------------- the regions handed out

  datatype Region = Region(start: nat, end: nat, align: nat)

  /** Where a chunk goes that is placed at the cursor. */
  function RegionOf(c: Chunk, cur: nat): Region {
    var start := if IsAlignment(c.align) then AlignUp(cur, c.align) else cur;
    Region(start, start + c.size, c.align)
  }

  /** The stretches of memory that `Run` passes over, in order. */
  function Regions(cs: seq<Chunk>, cur: nat): (rs: seq<Region>)
    ensures |rs| == |cs|
  {
    if cs == [] then []
    else
      Regions(cs[..|cs| - 1], cur) + [RegionOf(cs[|cs| - 1], Run(cs[..|cs| - 1], cur))]
  }

  lemma {:induction false} RegionsConcat(a: seq<Chunk>, b: seq<Chunk>, cur: nat)
    ensures Regions(a + b, cur) == Regions(a, cur) + Regions(b, Run(a, cur))
  {
    hide *;
    if b == [] {
      assert a + b == a;
      NoRegions(Run(a, cur));
    } else {
      var front, last := b[..|b| - 1], b[|b| - 1];
      RegionsConcat(a, front, cur);
      RunConcat(a, front, cur);
      RegionsStep(front, last, Run(a, cur));
      RegionsStep(a + front, last, cur);
      assert b == front + [last] && a + b == a + front + [last];
    }
  }

  lemma NoRegions(cur: nat)
    ensures Regions([], cur) == []
  {
  }

  lemma RegionsStep(front: seq<Chunk>, last: Chunk, cur: nat)
    ensures Regions(front + [last], cur) == Regions(front, cur) + [RegionOf(last, Run(front, cur))]
  {
    hide RegionOf, Run;
    assert (front + [last])[..|front + [last]| - 1] == front;
  }

  lemma {:induction false} RunConcat(a: seq<Chunk>, b: seq<Chunk>, cur: nat)
    ensures Run(a + b, cur) == Run(b, Run(a, cur))
  {
    if b == [] {
      assert a + b == a;
    } else {
      RunConcat(a, b[..|b| - 1], cur);
      assert (a + b)[..|a + b| - 1] == a + b[..|b| - 1];
    }
  }

  lemma PlaceIs(c: Chunk, cur: nat)
    requires IsAlignment(c.align)
    ensures Place(c, cur) == AlignUp(cur, c.align) + c.size
    ensures RegionOf(c, cur) == Region(AlignUp(cur, c.align), AlignUp(cur, c.align) + c.size, c.align)
  {
  }

  lemma RunOne(c: Chunk, cur: nat)
    requires IsAlignment(c.align)
    ensures Run([c], cur) == AlignUp(cur, c.align) + c.size
    ensures Regions([c], cur) == [RegionOf(c, cur)]
  {
    assert [c][..0] == [];
    assert Run([], cur) == cur && Regions([], cur) == [];
  }

  lemma RunFour(a: Chunk, b: Chunk, c: Chunk, d: Chunk, cur: nat)
    ensures Run([a, b, c, d], cur) == Place(d, Place(c, Place(b, Place(a, cur))))
    ensures Regions([a, b, c, d], cur) == [RegionOf(a, cur), RegionOf(b, Place(a, cur)), RegionOf(c, Place(b, Place(a, cur))),
                                           RegionOf(d, Place(c, Place(b, Place(a, cur))))]
  {
    hide Place, RegionOf;
    RunConcat([a, b], [c, d], cur);
    RegionsConcat([a, b], [c, d], cur);
    assert [a, b] + [c, d] == [a, b, c, d];
    RunPair(a, b, cur);
    RunPair(c, d, Run([a, b], cur));
  }

  lemma RunThree(a: Chunk, b: Chunk, c: Chunk, cur: nat)
    ensures Run([a, b, c], cur) == Place(c, Place(b, Place(a, cur)))
    ensures Regions([a, b, c], cur) == [RegionOf(a, cur), RegionOf(b, Place(a, cur)), RegionOf(c, Place(b, Place(a, cur)))]
  {
    hide Place, RegionOf;
    assert [a, b, c][..2] == [a, b];
    RunPair(a, b, cur);
  }

  lemma RunFourAligned(c0: Chunk, c1: Chunk, c2: Chunk, c3: Chunk, cur: nat, a: nat)
    requires IsAlignment(a) && c0.align == c1.align == c2.align == c3.align == a
    ensures var p0 := AlignUp(cur, a);
      var p1 := AlignUp(p0 + c0.size, a);
      var p2 := AlignUp(p1 + c1.size, a);
      var p3 := AlignUp(p2 + c2.size, a);
      && Run([c0, c1, c2, c3], cur) == p3 + c3.size
      && Regions([c0, c1, c2, c3], cur)
         == [Region(p0, p0 + c0.size, a), Region(p1, p1 + c1.size, a), Region(p2, p2 + c2.size, a), Region(p3, p3 + c3.size, a)]
  {
    hide *;
    RunFour(c0, c1, c2, c3, cur);
    var q0 := Place(c0, cur);
    var q1 := Place(c1, q0);
    var q2 := Place(c2, q1);
    PlaceIs(c0, cur);
    PlaceIs(c1, q0);
    PlaceIs(c2, q1);
    PlaceIs(c3, q2);
  }

  lemma RunSeven(c0: Chunk, c1: Chunk, c2: Chunk, c3: Chunk, c4: Chunk, c5: Chunk, c6: Chunk, cur: nat, a: nat)
    requires IsAlignment(a) && c0.align == c1.align == c2.align == c3.align == c4.align == c5.align == c6.align == a
    ensures var p0 := AlignUp(cur, a);
      var p1 := AlignUp(p0 + c0.size, a);
      var p2 := AlignUp(p1 + c1.size, a);
      var p3 := AlignUp(p2 + c2.size, a);
      var p4 := AlignUp(p3 + c3.size, a);
      var p5 := AlignUp(p4 + c4.size, a);
      var p6 := AlignUp(p5 + c5.size, a);
      && Run([c0, c1, c2, c3, c4, c5, c6], cur) == p6 + c6.size
      && Regions([c0, c1, c2, c3, c4, c5, c6], cur)
         == [Region(p0, p0 + c0.size, a), Region(p1, p1 + c1.size, a), Region(p2, p2 + c2.size, a), Region(p3, p3 + c3.size, a),
             Region(p4, p4 + c4.size, a), Region(p5, p5 + c5.size, a), Region(p6, p6 + c6.size, a)]
  {
    hide *;
    var four, three := [c0, c1, c2, c3], [c4, c5, c6];
    assert [c0, c1, c2, c3, c4, c5, c6] == four + three;
    RunConcat(four, three, cur);
    RegionsConcat(four, three, cur);
    RunFour(c0, c1, c2, c3, cur);
    RunThree(c4, c5, c6, Run(four, cur));
    var q0 := Place(c0, cur);
    var q1 := Place(c1, q0);
    var q2 := Place(c2, q1);
    var q3 := Place(c3, q2);
    var q4 := Place(c4, q3);
    var q5 := Place(c5, q4);
    PlaceIs(c0, cur);
    PlaceIs(c1, q0);
    PlaceIs(c2, q1);
    PlaceIs(c3, q2);
    PlaceIs(c4, q3);
    PlaceIs(c5, q4);
    PlaceIs(c6, q5);
  }

  lemma RunPair(c: Chunk, d: Chunk, cur: nat)
    ensures Run([c, d], cur) == Place(d, Place(c, cur))
    ensures Regions([c, d], cur) == [RegionOf(c, cur), RegionOf(d, Place(c, cur))]
  {
    hide Place, RegionOf;
    assert [c, d][..1] == [c] && [c][..0] == [];
    assert Run([], cur) == cur && Regions([], cur) == [];
    assert Run([c], cur) == Place(c, cur);
  }

  /** The layout is shift invariant. */
  lemma {:induction false} RunShifts(cs: seq<Chunk>, cur: nat, d: nat, big: nat)
    requires IsAlignment(big) && AllValid(cs, big)
    requires Aligned(d, big)
    ensures Run(cs, cur + d) == Run(cs, cur) + d
  {
    if cs != [] {
      RunShifts(cs[..|cs| - 1], cur, d, big);
      AlignShifts(Run(cs[..|cs| - 1], cur), cs[|cs| - 1].align, d, big);
    }
  }

  /** Aligning the cursor first makes no difference to a layout whose first chunk is aligned. */
  lemma {:induction false} RunFromAligned(cs: seq<Chunk>, cur: nat, big: nat)
    requires IsAlignment(big) && AllValid(cs, big)
    requires cs != [] && cs[0].align == big
    ensures Run(cs, AlignUp(cur, big)) == Run(cs, cur)
  {
    assert cs == [cs[0]] + cs[1..];
    RunConcat([cs[0]], cs[1..], cur);
    RunConcat([cs[0]], cs[1..], AlignUp(cur, big));
    RunOne(cs[0], cur);
    RunOne(cs[0], AlignUp(cur, big));
    AlignTwice(cur, big);
  }

  // ---------------------------------------------------------------- the two passes

  /** Sizing: the component header, every record, and only then the pool, rounded up. */
  function SizingEnd(header: seq<Chunk>, records: seq<Chunk>, pool: nat, big: nat): nat
    requires IsAlignment(big)
  {
    AlignUp(Run(records, Run(header, 0)) + pool, big)
  }

  /** Writing: the header, the pool right behind it, then every record. */
  function WritingEnd(header: seq<Chunk>, records: seq<Chunk>, pool: nat, base: nat): nat {
    Run(records, Run(header, base) + pool)
  }

  /** What the writing pass needs, in terms of the sizing pass. */
  lemma WritingEndFromSizing(header: seq<Chunk>, records: seq<Chunk>, pool: nat, base: nat, big: nat)
    requires IsAlignment(big) && AllValid(header, big) && AllValid(records, big)
    requires Aligned(base, big) && Aligned(Run(header, 0), big)
    requires records != [] && records[0].align == big
    ensures WritingEnd(header, records, pool, base)
         == base + Run(records, Run(header, 0)) + AlignUp(pool, big)
  {
    var h := Run(header, 0);
    RunShifts(header, 0, base, big);
    AlignedSum(h, base, big);
    AfterPool(records, h, base, pool, big);
  }

  lemma AfterPool(records: seq<Chunk>, h: nat, base: nat, pool: nat, big: nat)
    requires IsAlignment(big) && AllValid(records, big)
    requires Aligned(base, big) && Aligned(h, big)
    requires records != [] && records[0].align == big
    ensures Run(records, h + base + pool) == Run(records, h) + (base + AlignUp(pool, big))
  {
    RunFromAligned(records, h + base + pool, big);
    AlignedSum(h, base, big);
    AlignShifts(pool, big, h + base, big);
    assert pool + (h + base) == h + base + pool;
    AlignedSum(base, AlignUp(pool, big), big);
    RunShifts(records, h, base + AlignUp(pool, big), big);
  }

  /** Rounding up after the pool and rounding up the pool alone. */
  lemma PoolLastOrFirst(r: nat, pool: nat, big: nat)
    requires IsAlignment(big)
    ensures r + AlignUp(pool, big) == AlignUp(r + pool, big) <==> Aligned(r, big)
  {
    AlignedSum(AlignUp(pool, big), r, big);
    if Aligned(r, big) {
      AlignShifts(pool, big, r, big);
    }
  }

  /** The writing pass ends exactly where the sizing pass said it would if and only if the records,
      laid out from the end of the header, end on an aligned address. */
  lemma SizesAgree(header: seq<Chunk>, records: seq<Chunk>, pool: nat, base: nat, big: nat)
    requires IsAlignment(big) && AllValid(header, big) && AllValid(records, big)
    requires Aligned(base, big) && Aligned(Run(header, 0), big)
    requires records != [] && records[0].align == big
    ensures WritingEnd(header, records, pool, base) == base + SizingEnd(header, records, pool, big)
       <==> Aligned(Run(records, Run(header, 0)), big)
  {
    WritingEndFromSizing(header, records, pool, base, big);
    PoolLastOrFirst(Run(records, Run(header, 0)), pool, big);
  }

  /** Only the last record decides: it starts aligned, so the layout ends aligned if and only if the
      size of that record is a multiple of the alignment. */
  lemma LastChunkDecides(cs: seq<Chunk>, cur: nat, big: nat)
    requires IsAlignment(big) && cs != [] && cs[|cs| - 1].align == big
    ensures Aligned(Run(cs, cur), big) <==> Aligned(cs[|cs| - 1].size, big)
  {
  }

  // ---------------------------------------------------------------- disjoint regions

  /** Every region is aligned, lies between the two cursor positions, and ends before the next
      one starts: no two of them share a byte. */
  lemma {:induction false} RegionsAreDisjoint(cs: seq<Chunk>, cur: nat, big: nat)
    requires IsAlignment(big) && AllValid(cs, big)
    ensures forall i :: 0 <= i < |cs| ==>
      var r := Regions(cs, cur)[i];
      cur <= r.start <= r.end <= Run(cs, cur) && IsAlignment(r.align) && Aligned(r.start, r.align)
      && r.end == r.start + cs[i].size
    ensures forall i, j :: 0 <= i < j < |cs| ==> Regions(cs, cur)[i].end <= Regions(cs, cur)[j].start
  {
    if cs != [] {
      RegionsAreDisjoint(cs[..|cs| - 1], cur, big);
    }
  }

  // ---------------------------------------------------------------- lists of similar things

  /** The chunks of all of `xs`, one after the other. */
  function Flat<T>(f: T -> seq<Chunk>, xs: seq<T>): seq<Chunk> {
    if xs == [] then [] else Flat(f, xs[..|xs| - 1]) + f(xs[|xs| - 1])
  }

  lemma FlatStep<T>(f: T -> seq<Chunk>, xs: seq<T>, i: nat, cur: nat)
    requires i < |xs|
    ensures Run(Flat(f, xs[..i + 1]), cur) == Run(f(xs[i]), Run(Flat(f, xs[..i]), cur))
    ensures Regions(Flat(f, xs[..i + 1]), cur)
         == Regions(Flat(f, xs[..i]), cur) + Regions(f(xs[i]), Run(Flat(f, xs[..i]), cur))
  {
    assert xs[..i + 1][..i] == xs[..i];
    RunConcat(Flat(f, xs[..i]), f(xs[i]), cur);
    RegionsConcat(Flat(f, xs[..i]), f(xs[i]), cur);
  }

  lemma FlatStart<T>(f: T -> seq<Chunk>, xs: seq<T>, cur: nat)
    ensures Run(Flat(f, xs[..0]), cur) == cur && Regions(Flat(f, xs[..0]), cur) == []
  {
  }

  lemma {:induction false} FlatPrefix<T>(f: T -> seq<Chunk>, xs: seq<T>, i: nat, cur: nat)
    requires i <= |xs|
    ensures Run(Flat(f, xs[..i]), cur) <= Run(Flat(f, xs), cur)
    decreases |xs| - i
  {
    if i == |xs| {
      assert xs[..i] == xs;
    } else {
      FlatStep(f, xs, i, cur);
      FlatPrefix(f, xs, i + 1, cur);
    }
  }

  lemma {:induction false} FlatValid<T(!new)>(f: T -> seq<Chunk>, xs: seq<T>, big: nat)
    requires forall x :: AllValid(f(x), big)
    ensures AllValid(Flat(f, xs), big)
  {
    if xs != [] {
      FlatValid(f, xs[..|xs| - 1], big);
    }
  }
}

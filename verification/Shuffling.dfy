/** The random numbers of the test runner and the in-place shuffle.

    `Shuffled` says what a shuffle makes of a sequence and of the generator; `ShuffledPermutes` says
    that this is a permutation of the range and leaves everything else where it was. */
module Shuffling {

  const KMaxRange: nat := 0x8000_0000

  /** The product is computed in 64 bits, cut to 32 bits, and then to 31. */
  function NextState(state: nat): nat {
    (1103515245 * state + 12345) % 0x1_0000_0000 % KMaxRange
  }

  /** The two cuts in one. */
  lemma NextStateIs(state: nat) returns (q: nat)
    ensures NextState(state) == 1103515245 * state + 12345 - 0x8000_0000 * q && NextState(state) < 0x8000_0000
  {
    var x := 1103515245 * state + 12345;
    q := x / 0x1_0000_0000 * 2 + x % 0x1_0000_0000 / 0x8000_0000;
  }

  lemma Remainder31(x: nat, k: int)
    requires x < 0x8000_0000
    ensures (x + 0x8000_0000 * k) % 0x8000_0000 == x
  {
  }

  /** The state before can be computed from the state after: the factor is odd. */
  lemma StateComesBack(state: nat)
    requires state < 0x8000_0000
    ensures 1857678181 * (NextState(state) + 0x8000_0000 - 12345) % 0x8000_0000 == state
  {
    hide *;
    var q: int := NextStateIs(state);
    Inverse(state, q, NextState(state));
    Remainder31(state, 954594553 * state + 1857678181 * (1 - q));
  }

  lemma Inverse(state: int, q: int, next: int)
    requires next == 1103515245 * state + 12345 - 0x8000_0000 * q
    ensures 1857678181 * (next + 0x8000_0000 - 12345) == state + 0x8000_0000 * (954594553 * state + 1857678181 * (1 - q))
  {
  }

  /** So the generator never maps two states to one, and never runs into a shorter cycle from outside. */
  lemma NextStateIsOneToOne(a: nat, b: nat)
    requires a < 0x8000_0000 && b < 0x8000_0000 && NextState(a) == NextState(b)
    ensures a == b
  {
    hide NextState;
    StateComesBack(a);
    StateComesBack(b);
  }

  /** ... and every state comes after some state. */
  lemma EveryStateIsNext(b: nat) returns (a: nat)
    requires b < 0x8000_0000
    ensures a < 0x8000_0000 && NextState(a) == b
  {
    hide *;
    var c := b + 0x8000_0000 - 12345;
    var p := 1857678181 * c / 0x8000_0000;
    a := 1857678181 * c - 0x8000_0000 * p;
    var q := NextStateIs(a);
    var k: int := 954594553 * c - 1103515245 * p - q + 1;
    Forward(a, p, q, c, NextState(a));
    Remainder31(b, k);
    Remainder31(NextState(a), 0);
  }

  lemma Forward(a: int, p: int, q: int, c: int, next: int)
    requires a == 1857678181 * c - 0x8000_0000 * p && next == 1103515245 * a + 12345 - 0x8000_0000 * q
    ensures next == c - 0x8000_0000 + 12345 + 0x8000_0000 * (954594553 * c - 1103515245 * p - q + 1)
  {
  }

  class Random {
    var state: nat

    constructor (seed: nat)
      ensures state == seed
    {
      state := seed;
    }

    method Reseed(seed: nat)
      modifies this`state
      ensures state == seed
    {
      state := seed;
    }

    /** A range outside (0, KMaxRange] aborts the program. */
    method Generate(range: nat) returns (r: nat)
      requires 0 < range <= KMaxRange
      modifies this`state
      ensures state == NextState(old(state)) && r == state % range && r < range
    {
      state := (1103515245 * state + 12345) % 0x1_0000_0000 % KMaxRange;
      r := state % range;
    }
  }

  function Swap<E>(s: seq<E>, i: nat, j: nat): (r: seq<E>)
    requires i < |s| && j < |s|
    ensures |r| == |s|
  {
    s[i := s[j]][j := s[i]]
  }

  /** The last place of the range gets the element at a random place of the range, and so on downwards. */
  function Shuffled<E>(s: seq<E>, begin: nat, width: nat, state: nat): (r: (seq<E>, nat))
    requires begin + width <= |s|
    ensures |r.0| == |s|
    decreases width
  {
    if width < 2 then (s, state)
    else
      var next := NextState(state);
      Shuffled(Swap(s, begin + next % width, begin + width - 1), begin, width - 1, next)
  }

  /** The vector is passed in and back. */
  method ShuffleRange<E>(random: Random, begin: nat, end: nat, v: seq<E>) returns (r: seq<E>)
    requires begin <= end <= |v| <= KMaxRange
    modifies random`state
    ensures (r, random.state) == Shuffled(v, begin, end - begin, old(random.state))
  {
    r := v;
    var rangeWidth := end - begin;
    while rangeWidth >= 2
      invariant 0 <= rangeWidth <= end - begin && |r| == |v|
      invariant Shuffled(r, begin, rangeWidth, random.state) == Shuffled(v, begin, end - begin, old(random.state))
    {
      hide NextState;
      var lastInRange := begin + rangeWidth - 1;
      var offset := random.Generate(rangeWidth);
      var selected := begin + offset;
      r := r[selected := r[lastInRange]][lastInRange := r[selected]];
      rangeWidth := rangeWidth - 1;
    }
  }

  lemma SwapPermutes<E>(s: seq<E>, i: nat, j: nat)
    requires i < |s| && j < |s|
    ensures multiset(Swap(s, i, j)) == multiset(s)
  {
  }

  /** `r` is `s` with the elements of the range in some order. */
  ghost predicate PermutesRange<E>(s: seq<E>, r: seq<E>, begin: nat, end: nat)
    requires begin <= end <= |s| == |r|
  {
    r[..begin] == s[..begin] && r[end..] == s[end..] && multiset(r[begin..end]) == multiset(s[begin..end])
  }

  lemma SwapWithin<E>(s: seq<E>, begin: nat, end: nat, i: nat, j: nat)
    requires begin <= i < end && begin <= j < end <= |s|
    ensures PermutesRange(s, Swap(s, i, j), begin, end)
  {
    assert Swap(s, i, j)[begin..end] == Swap(s[begin..end], i - begin, j - begin);
    SwapPermutes(s[begin..end], i - begin, j - begin);
  }

  lemma WiderRange<E>(s: seq<E>, r: seq<E>, begin: nat, end: nat)
    requires begin <= end < |s| == |r| && PermutesRange(s, r, begin, end)
    ensures PermutesRange(s, r, begin, end + 1)
  {
    assert r[end..][0] == s[end..][0];
    assert r[begin..end + 1] == r[begin..end] + [r[end]] && s[begin..end + 1] == s[begin..end] + [s[end]];
    assert r[end + 1..] == r[end..][1..] && s[end + 1..] == s[end..][1..];
  }

  /** A shuffle permutes the range and moves nothing else. */
  lemma {:induction false} ShuffledPermutes<E>(s: seq<E>, begin: nat, width: nat, state: nat)
    requires begin + width <= |s|
    ensures PermutesRange(s, Shuffled(s, begin, width, state).0, begin, begin + width)
    decreases width
  {
    hide *;
    if width < 2 {
      ShortShuffle(s, begin, width, state);
    } else {
      var next := NextState(state);
      var end := begin + width;
      var i := begin + next % width;
      var t, r := Swap(s, i, end - 1), Shuffled(s, begin, width, state).0;
      ShuffleStep(s, begin, width, state);
      SwapWithin(s, begin, end, i, end - 1);
      ShuffledPermutes(t, begin, width - 1, next);
      WiderRange(t, r, begin, end - 1);
      PermutesBoth(s, t, r, begin, end);
    }
  }

  lemma ShortShuffle<E>(s: seq<E>, begin: nat, width: nat, state: nat)
    requires begin + width <= |s| && width < 2
    ensures PermutesRange(s, Shuffled(s, begin, width, state).0, begin, begin + width)
  {
  }

  lemma ShuffleStep<E>(s: seq<E>, begin: nat, width: nat, state: nat)
    requires begin + width <= |s| && width >= 2
    ensures var next := NextState(state);
      && 0 <= next % width < width
      && Shuffled(s, begin, width, state)
         == Shuffled(Swap(s, begin + next % width, begin + width - 1), begin, width - 1, next)
  {
  }

  lemma PermutesBoth<E>(s: seq<E>, t: seq<E>, r: seq<E>, begin: nat, end: nat)
    requires begin <= end <= |s| == |t| == |r| && PermutesRange(s, t, begin, end) && PermutesRange(t, r, begin, end)
    ensures PermutesRange(s, r, begin, end)
  {
  }

  /** The shuffle with given random numbers, the first one for the last place of the range. */
  function ShuffledBy<E>(s: seq<E>, begin: nat, width: nat, choices: seq<nat>): (r: seq<E>)
    requires begin + width <= |s| && ChoicesFit(choices, width)
    ensures |r| == |s|
    decreases width
  {
    if width < 2 then s
    else ShuffledBy(Swap(s, begin + choices[0], begin + width - 1), begin, width - 1, choices[1..])
  }

  /** One number for each range down to two places, below its width. */
  predicate ChoicesFit(choices: seq<nat>, width: nat)
    decreases width
  {
    if width < 2 then choices == [] else choices != [] && choices[0] < width && ChoicesFit(choices[1..], width - 1)
  }

  /** The random numbers of a generator. */
  function ChoicesFrom(width: nat, state: nat): (choices: seq<nat>)
    ensures ChoicesFit(choices, width)
    decreases width
  {
    if width < 2 then []
    else
      var next := NextState(state);
      var choices := [next % width] + ChoicesFrom(width - 1, next);
      assert choices[1..] == ChoicesFrom(width - 1, next);
      choices
  }

  lemma {:induction false} ShuffledByGenerator<E>(s: seq<E>, begin: nat, width: nat, state: nat)
    requires begin + width <= |s|
    ensures Shuffled(s, begin, width, state).0 == ShuffledBy(s, begin, width, ChoicesFrom(width, state))
    decreases width
  {
    hide NextState, Swap;
    if width >= 2 {
      var next := NextState(state);
      var choices := ChoicesFrom(width, state);
      assert choices[1..] == ChoicesFrom(width - 1, next);
      ShuffledByGenerator(Swap(s, begin + next % width, begin + width - 1), begin, width - 1, next);
    }
  }

  /** Every order of the range is reached by some random numbers. */
  lemma {:induction false} EveryOrderIsReached<E>(s: seq<E>, r: seq<E>, begin: nat, width: nat) returns (choices: seq<nat>)
    requires begin + width <= |s| == |r| && PermutesRange(s, r, begin, begin + width)
    ensures ChoicesFit(choices, width) && ShuffledBy(s, begin, width, choices) == r
    decreases width
  {
    hide *;
    if width < 2 {
      choices := [];
      ShortOrder(s, r, begin, width);
    } else {
      var i := LastPlace(s, r, begin, begin + width);
      var t := Swap(s, i, begin + width - 1);
      LastPlaced(s, r, begin, begin + width, i);
      var rest := EveryOrderIsReached(t, r, begin, width - 1);
      choices := [i - begin] + rest;
      assert choices[1..] == rest;
      ChoiceStep(s, begin, width, choices);
    }
  }

  lemma ShortOrder<E>(s: seq<E>, r: seq<E>, begin: nat, width: nat)
    requires begin + width <= |s| == |r| && PermutesRange(s, r, begin, begin + width) && width < 2
    ensures ChoicesFit([], width) && ShuffledBy(s, begin, width, []) == r
  {
    assert s == s[..begin] + s[begin..begin + width] + s[begin + width..];
    assert r == r[..begin] + r[begin..begin + width] + r[begin + width..];
    if width == 1 {
      assert s[begin..begin + 1] == [s[begin]] && r[begin..begin + 1] == [r[begin]];
      assert r[begin] in multiset(r[begin..begin + 1]);
      assert r[begin] in multiset{s[begin]};
    }
  }

  /** Where the element for the last place of the range stands. */
  lemma LastPlace<E>(s: seq<E>, r: seq<E>, begin: nat, end: nat) returns (i: nat)
    requires begin < end <= |s| == |r| && PermutesRange(s, r, begin, end)
    ensures begin <= i < end && s[i] == r[end - 1]
  {
    var x := r[end - 1];
    assert r[begin..end][end - begin - 1] == x;
    assert x in multiset(r[begin..end]);
    assert x in s[begin..end];
    var k :| 0 <= k < end - begin && s[begin..end][k] == x;
    i := begin + k;
  }

  lemma LastPlaced<E>(s: seq<E>, r: seq<E>, begin: nat, end: nat, i: nat)
    requires begin <= i < end <= |s| == |r| && PermutesRange(s, r, begin, end) && s[i] == r[end - 1]
    ensures PermutesRange(Swap(s, i, end - 1), r, begin, end - 1)
  {
    hide *;
    var t := Swap(s, i, end - 1);
    SwapWithin(s, begin, end, i, end - 1);
    SwapPlaces(s, i, end - 1);
    PermutesSame(s, t, r, begin, end);
    PermutesLess(t, r, begin, end);
  }

  lemma SwapPlaces<E>(s: seq<E>, i: nat, j: nat)
    requires i < |s| && j < |s|
    ensures Swap(s, i, j)[j] == s[i]
  {
  }

  lemma PermutesSame<E>(s: seq<E>, t: seq<E>, r: seq<E>, begin: nat, end: nat)
    requires begin <= end <= |s| == |t| == |r| && PermutesRange(s, t, begin, end) && PermutesRange(s, r, begin, end)
    ensures PermutesRange(t, r, begin, end)
  {
  }

  lemma PermutesLess<E>(t: seq<E>, r: seq<E>, begin: nat, end: nat)
    requires begin < end <= |t| == |r| && PermutesRange(t, r, begin, end) && t[end - 1] == r[end - 1]
    ensures PermutesRange(t, r, begin, end - 1)
  {
    assert t[begin..end] == t[begin..end - 1] + [t[end - 1]] && r[begin..end] == r[begin..end - 1] + [r[end - 1]];
    assert multiset(t[begin..end - 1]) == multiset(t[begin..end]) - multiset{r[end - 1]};
    assert multiset(r[begin..end - 1]) == multiset(r[begin..end]) - multiset{r[end - 1]};
    assert t[end - 1..] == [t[end - 1]] + t[end..] && r[end - 1..] == [r[end - 1]] + r[end..];
  }

  lemma ChoiceStep<E>(s: seq<E>, begin: nat, width: nat, choices: seq<nat>)
    requires begin + width <= |s| && width >= 2 && choices != [] && choices[0] < width && ChoicesFit(choices[1..], width - 1)
    ensures ChoicesFit(choices, width)
    ensures ShuffledBy(s, begin, width, choices)
         == ShuffledBy(Swap(s, begin + choices[0], begin + width - 1), begin, width - 1, choices[1..])
  {
    hide Swap;
  }

  // ---------------------------------------------------------------- permutations of positions

  /** lo, lo + 1, ..., hi - 1 */
  function Upto(lo: nat, hi: nat): (r: seq<nat>)
    requires lo <= hi
    ensures |r| == hi - lo && forall i :: 0 <= i < |r| ==> r[i] == lo + i
    decreases hi - lo
  {
    if lo == hi then [] else [lo] + Upto(lo + 1, hi)
  }

  /** The elements of `s` at the positions `at`. */
  function Select<E>(s: seq<E>, at: seq<nat>): (r: seq<E>)
    requires forall i :: 0 <= i < |at| ==> at[i] < |s|
    ensures |r| == |at| && forall i :: 0 <= i < |at| ==> r[i] == s[at[i]]
  {
    if at == [] then [] else [s[at[0]]] + Select(s, at[1..])
  }

  lemma InRange(at: seq<nat>, lo: nat, hi: nat)
    requires lo <= hi && multiset(at) == multiset(Upto(lo, hi))
    ensures |at| == hi - lo && forall i :: 0 <= i < |at| ==> lo <= at[i] < hi
  {
    assert |multiset(at)| == |at| && |multiset(Upto(lo, hi))| == hi - lo;
    forall i | 0 <= i < |at|
      ensures lo <= at[i] < hi
    {
      assert at[i] in multiset(at);
      assert at[i] in Upto(lo, hi);
    }
  }

  lemma RemoveAt<E>(s: seq<E>, j: nat)
    requires j < |s|
    ensures multiset(s) == multiset{s[j]} + multiset(s[..j] + s[j + 1..])
  {
    assert s == s[..j] + [s[j]] + s[j + 1..];
  }

  lemma Cancel<E>(x: E, m: multiset<E>, n: multiset<E>)
    requires multiset{x} + m == multiset{x} + n
    ensures m == n
  {
    forall y: E
      ensures m[y] == n[y]
    {
      assert (multiset{x} + m)[y] == (multiset{x} + n)[y];
    }
  }

  lemma SameWithout<E>(a: seq<E>, b: seq<E>, j: nat)
    requires a != [] && j < |b| && b[j] == a[0] && multiset(a) == multiset(b)
    ensures multiset(a[1..]) == multiset(b[..j] + b[j + 1..])
  {
    RemoveAt(a, 0);
    RemoveAt(b, j);
    assert a[..0] + a[1..] == a[1..];
    Cancel(a[0], multiset(a[1..]), multiset(b[..j] + b[j + 1..]));
  }

  predicate AllBelow(at: seq<nat>, n: nat) {
    forall i :: 0 <= i < |at| ==> at[i] < n
  }

  lemma SelectAll<E>(s: seq<E>)
    ensures AllBelow(Upto(0, |s|), |s|) && Select(s, Upto(0, |s|)) == s
  {
  }

  lemma SelectConcat<E>(s: seq<E>, a: seq<nat>, b: seq<nat>)
    requires AllBelow(a, |s|) && AllBelow(b, |s|)
    ensures AllBelow(a + b, |s|) && Select(s, a + b) == Select(s, a) + Select(s, b)
  {
  }

  lemma SelectWithout<E>(s: seq<E>, a: seq<nat>, x: nat, b: seq<nat>)
    requires AllBelow(a, |s|) && AllBelow(b, |s|) && x < |s|
    ensures AllBelow(a + [x] + b, |s|) && AllBelow(a + b, |s|)
    ensures multiset(Select(s, a + [x] + b)) == multiset{s[x]} + multiset(Select(s, a + b))
  {
    SelectConcat(s, a, [x]);
    SelectConcat(s, a + [x], b);
    SelectConcat(s, a, b);
    assert Select(s, [x]) == [s[x]];
    hide Select;
  }

  /** The first position stands somewhere in the other list. */
  lemma TakeFirst(a: seq<nat>, b: seq<nat>) returns (b1: seq<nat>, b2: seq<nat>)
    requires a != [] && multiset(a) == multiset(b)
    ensures b == b1 + [a[0]] + b2 && multiset(a[1..]) == multiset(b1 + b2)
  {
    assert a[0] in multiset(b);
    var j :| 0 <= j < |b| && b[j] == a[0];
    b1, b2 := b[..j], b[j + 1..];
    SameWithout(a, b, j);
  }

  /** Selecting at the same positions in another order gives the same elements. */
  lemma {:induction false} SelectPermutes<E>(s: seq<E>, a: seq<nat>, b: seq<nat>)
    requires AllBelow(a, |s|) && AllBelow(b, |s|)
    requires multiset(a) == multiset(b)
    ensures multiset(Select(s, a)) == multiset(Select(s, b))
    decreases |a|
  {
    if a == [] {
      assert |multiset(b)| == 0;
    } else {
      var x, a' := a[0], a[1..];
      assert AllBelow(a', |s|) && a == [] + [x] + a' && a' == [] + a';
      var b1, b2 := TakeFirst(a, b);
      BelowParts(b1, x, b2, |s|);
      hide *;
      SelectPermutes(s, a', b1 + b2);
      SelectWithout(s, [], x, a');
      SelectWithout(s, b1, x, b2);
    }
  }

  lemma BelowParts(a: seq<nat>, x: nat, b: seq<nat>, n: nat)
    requires AllBelow(a + [x] + b, n)
    ensures AllBelow(a, n) && x < n && AllBelow(b, n) && AllBelow(a + b, n) && AllBelow([], n)
  {
    forall i | 0 <= i < |a| ensures a[i] < n {
      assert a[i] == (a + [x] + b)[i];
    }
    forall i | 0 <= i < |b| ensures b[i] < n {
      assert b[i] == (a + [x] + b)[|a| + 1 + i];
    }
    assert x == (a + [x] + b)[|a|];
  }

  /** Selecting at a permutation of a range gives the elements of that range. */
  lemma SelectRange<E>(s: seq<E>, at: seq<nat>, lo: nat, hi: nat)
    requires lo <= hi <= |s| && multiset(at) == multiset(Upto(lo, hi))
    ensures |at| == hi - lo && forall i :: 0 <= i < |at| ==> lo <= at[i] < hi
    ensures multiset(Select(s, at)) == multiset(s[lo..hi])
  {
    InRange(at, lo, hi);
    SelectPermutes(s, at, Upto(lo, hi));
    assert Select(s, Upto(lo, hi)) == s[lo..hi];
  }
}

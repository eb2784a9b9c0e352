/** The edit script behind unified diffs: a dynamic program over two tables, and the walk back.

    Costs are counted in units of 0.00001, so that an addition or a removal costs 100000 and a
    replacement 100001. */
module EditDistance {
  datatype EditType = Match | Add | Remove | Replace

  // ---------------------------------------------------------------- scripts

  /** `edits` consumes all of `left` and produces all of `right`, matching only equal elements. */
  ghost predicate Transforms<T>(edits: seq<EditType>, left: seq<T>, right: seq<T>) {
    if edits == [] then left == [] && right == [] else
    var before := edits[..|edits| - 1];
    match edits[|edits| - 1]
    case Match => left != [] && right != [] && left[|left| - 1] == right[|right| - 1]
                  && Transforms(before, left[..|left| - 1], right[..|right| - 1])
    case Add => right != [] && Transforms(before, left, right[..|right| - 1])
    case Remove => left != [] && Transforms(before, left[..|left| - 1], right)
    case Replace => left != [] && right != [] && Transforms(before, left[..|left| - 1], right[..|right| - 1])
  }

  /** How many steps of a script are edits. */
  function Edits(edits: seq<EditType>): nat {
    if edits == [] then 0
    else Edits(edits[..|edits| - 1]) + (if edits[|edits| - 1] == Match then 0 else 1)
  }

  function Replacements(edits: seq<EditType>): nat {
    if edits == [] then 0
    else Replacements(edits[..|edits| - 1]) + (if edits[|edits| - 1] == Replace then 1 else 0)
  }

  // ---------------------------------------------------------------- the tables

  /** `costs[i][j]`. */
  function Cost<T(==)>(left: seq<T>, right: seq<T>, i: nat, j: nat): nat
    requires i <= |left| && j <= |right|
  {
    if j == 0 then 100000 * i
    else if i == 0 then 100000 * j
    else if left[i - 1] == right[j - 1] then Cost(left, right, i - 1, j - 1)
    else
      var add, remove, replace := Cost(left, right, i, j - 1), Cost(left, right, i - 1, j), Cost(left, right, i - 1, j - 1);
      if add < remove && add < replace then add + 100000
      else if remove < add && remove < replace then remove + 100000
      else replace + 100001
  }

  /** `best_move[i][j]`. */
  function Move<T(==)>(left: seq<T>, right: seq<T>, i: nat, j: nat): EditType
    requires i <= |left| && j <= |right|
  {
    if j == 0 then Remove
    else if i == 0 then Add
    else if left[i - 1] == right[j - 1] then Match
    else
      var add, remove, replace := Cost(left, right, i, j - 1), Cost(left, right, i - 1, j), Cost(left, right, i - 1, j - 1);
      if add < remove && add < replace then Add
      else if remove < add && remove < replace then Remove
      else Replace
  }

  /** The script for the first `i` and `j` elements that the walk back through `best_move` finds. */
  function Path<T(==)>(left: seq<T>, right: seq<T>, i: nat, j: nat): seq<EditType>
    requires i <= |left| && j <= |right|
  {
    if i == 0 && j == 0 then [] else
    var move := Move(left, right, i, j);
    Path(left, right, if move == Add then i else i - 1, if move == Remove then j else j - 1) + [move]
  }

  /** The script is a script for the two inputs. */
  lemma {:induction false} PathTransforms<T>(left: seq<T>, right: seq<T>, i: nat, j: nat)
    requires i <= |left| && j <= |right|
    ensures Transforms(Path(left, right, i, j), left[..i], right[..j])
  {
    hide Cost;
    if i == 0 && j == 0 {
    } else {
      var move := Move(left, right, i, j);
      var i', j' := if move == Add then i else i - 1, if move == Remove then j else j - 1;
      PathTransforms(left, right, i', j');
      var p := Path(left, right, i, j);
      assert p[..|p| - 1] == Path(left, right, i', j');
      assert i > 0 ==> left[..i][..i - 1] == left[..i - 1];
      assert j > 0 ==> right[..j][..j - 1] == right[..j - 1];
    }
  }

  /** Its steps cost what the last cell says. */
  lemma {:induction false} PathCosts<T>(left: seq<T>, right: seq<T>, i: nat, j: nat)
    requires i <= |left| && j <= |right|
    ensures 100000 * Edits(Path(left, right, i, j)) + Replacements(Path(left, right, i, j)) == Cost(left, right, i, j)
    ensures Replacements(Path(left, right, i, j)) <= Min(i, j)
  {
    if i == 0 && j == 0 {
    } else {
      var move := Move(left, right, i, j);
      var i', j' := if move == Add then i else i - 1, if move == Remove then j else j - 1;
      PathCosts(left, right, i', j');
      var p := Path(left, right, i, j);
      assert p[..|p| - 1] == Path(left, right, i', j');
      CostStep(left, right, i, j);
      hide Cost, Path, Move;
      assert Edits(p) == Edits(p[..|p| - 1]) + (if move == Match then 0 else 1);
      assert Replacements(p) == Replacements(p[..|p| - 1]) + (if move == Replace then 1 else 0);
    }
  }

  lemma CostStep<T>(left: seq<T>, right: seq<T>, i: nat, j: nat)
    requires i <= |left| && j <= |right| && i + j > 0
    ensures var move := Move(left, right, i, j);
      Cost(left, right, i, j)
      == Cost(left, right, if move == Add then i else i - 1, if move == Remove then j else j - 1)
         + (match move case Match => 0 case Replace => 100001 case _ => 100000)
    ensures Move(left, right, i, j) != Add ==> i > 0
    ensures Move(left, right, i, j) != Remove ==> j > 0
  {
  }

  // ---------------------------------------------------------------- Levenshtein distance

  function Min(a: nat, b: nat): nat {
    if a <= b then a else b
  }

  function Lev<T(==)>(left: seq<T>, right: seq<T>, i: nat, j: nat): nat
    requires i <= |left| && j <= |right|
  {
    if i == 0 then j
    else if j == 0 then i
    else
      Min(Lev(left, right, i - 1, j - 1) + (if left[i - 1] == right[j - 1] then 0 else 1),
          Min(Lev(left, right, i - 1, j), Lev(left, right, i, j - 1)) + 1)
  }

  /** No script has fewer edits ... */
  lemma {:induction false} LevIsLower<T>(left: seq<T>, right: seq<T>, i: nat, j: nat, edits: seq<EditType>)
    requires i <= |left| && j <= |right|
    requires Transforms(edits, left[..i], right[..j])
    ensures Lev(left, right, i, j) <= Edits(edits)
    decreases |edits|
  {
    if edits != [] {
      var before, last := edits[..|edits| - 1], edits[|edits| - 1];
      var i', j' := if last == Add then i else i - 1, if last == Remove then j else j - 1;
      assert i > 0 ==> left[..i][..i - 1] == left[..i - 1];
      assert j > 0 ==> right[..j][..j - 1] == right[..j - 1];
      LevIsLower(left, right, i', j', before);
    }
  }

  /** ... and some script has as few. */
  lemma {:induction false} LevIsReached<T>(left: seq<T>, right: seq<T>, i: nat, j: nat) returns (edits: seq<EditType>)
    requires i <= |left| && j <= |right|
    ensures Transforms(edits, left[..i], right[..j])
    ensures Edits(edits) == Lev(left, right, i, j)
  {
    if i == 0 && j == 0 {
      return [];
    }
    var i', j', last := i, j, Match;
    if i == 0 {
      j', last := j - 1, Add;
    } else if j == 0 {
      i', last := i - 1, Remove;
    } else if Lev(left, right, i, j) == Lev(left, right, i - 1, j) + 1 {
      i', last := i - 1, Remove;
    } else if Lev(left, right, i, j) == Lev(left, right, i, j - 1) + 1 {
      j', last := j - 1, Add;
    } else {
      i', j', last := i - 1, j - 1, if left[i - 1] == right[j - 1] then Match else Replace;
    }
    var before := LevIsReached(left, right, i', j');
    edits := before + [last];
    assert edits[..|edits| - 1] == before;
    assert i > 0 ==> left[..i][..i - 1] == left[..i - 1];
    assert j > 0 ==> right[..j][..j - 1] == right[..j - 1];
  }

  /** Dropping one element changes the distance by at most one. */
  lemma {:induction false} LevIsSmooth<T>(left: seq<T>, right: seq<T>, i: nat, j: nat)
    requires i <= |left| && j <= |right|
    ensures i > 0 ==> Lev(left, right, i - 1, j) <= Lev(left, right, i, j) + 1
    ensures j > 0 ==> Lev(left, right, i, j - 1) <= Lev(left, right, i, j) + 1
  {
    if i > 0 && j > 0 {
      LevIsSmooth(left, right, i - 1, j);
      LevIsSmooth(left, right, i, j - 1);
    }
  }

  /** Taking a match is never worse than not taking it. */
  lemma MatchIsFree<T>(left: seq<T>, right: seq<T>, i: nat, j: nat)
    requires 0 < i <= |left| && 0 < j <= |right| && left[i - 1] == right[j - 1]
    ensures Lev(left, right, i, j) == Lev(left, right, i - 1, j - 1)
  {
    LevIsSmooth(left, right, i - 1, j);
    LevIsSmooth(left, right, i, j - 1);
  }

  // ---------------------------------------------------------------- when the script is minimal

  /** The number of edits of the script for the first `i` and `j` elements. */
  ghost predicate Minimal<T>(left: seq<T>, right: seq<T>, i: nat, j: nat)
    requires i <= |left| && j <= |right|
  {
    Edits(Path(left, right, i, j)) == Lev(left, right, i, j)
  }

  /** A cell where adding and removing cost the same, less than replacing by a whole edit: the
      comparisons are strict on both sides, so the cell replaces all the same. */
  predicate LosingTie<T(==)>(left: seq<T>, right: seq<T>, i: nat, j: nat)
    requires 0 < i <= |left| && 0 < j <= |right|
  {
    && left[i - 1] != right[j - 1]
    && Cost(left, right, i, j - 1) == Cost(left, right, i - 1, j)
    && Cost(left, right, i, j - 1) / 100000 < Cost(left, right, i - 1, j - 1) / 100000
  }

  /** With fewer than 100000 replacements, the whole part of the cost is the number of edits. */
  lemma EditsFromCost<T>(left: seq<T>, right: seq<T>, i: nat, j: nat)
    requires i <= |left| && j <= |right| && (i < 100000 || j < 100000)
    ensures Cost(left, right, i, j) / 100000 == Edits(Path(left, right, i, j))
  {
    PathCosts(left, right, i, j);
    WholePart(Edits(Path(left, right, i, j)), Replacements(Path(left, right, i, j)));
  }

  lemma CostBounds<T>(left: seq<T>, right: seq<T>, i: nat, j: nat)
    requires i <= |left| && j <= |right| && (i < 100000 || j < 100000)
    ensures 100000 * Edits(Path(left, right, i, j)) <= Cost(left, right, i, j) < 100000 * Edits(Path(left, right, i, j)) + 100000
  {
    PathCosts(left, right, i, j);
  }

  lemma WholePart(e: nat, k: nat)
    requires k < 100000
    ensures (100000 * e + k) / 100000 == e
  {
  }

  lemma EditsStep<T>(left: seq<T>, right: seq<T>, i: nat, j: nat)
    requires i <= |left| && j <= |right| && i + j > 0
    ensures var move := Move(left, right, i, j);
      Edits(Path(left, right, i, j))
      == Edits(Path(left, right, if move == Add then i else i - 1, if move == Remove then j else j - 1)) + (if move == Match then 0 else 1)
  {
    var move := Move(left, right, i, j);
    var p := Path(left, right, i, j);
    assert p[..|p| - 1] == Path(left, right, if move == Add then i else i - 1, if move == Remove then j else j - 1);
  }

  lemma UnequalStep<T>(left: seq<T>, right: seq<T>, i: nat, j: nat)
    requires 0 < i <= |left| && 0 < j <= |right| && left[i - 1] != right[j - 1]
    ensures var add, remove, replace := Cost(left, right, i, j - 1), Cost(left, right, i - 1, j), Cost(left, right, i - 1, j - 1);
      Edits(Path(left, right, i, j))
      == (if add < remove && add < replace then Edits(Path(left, right, i, j - 1))
          else if remove < add && remove < replace then Edits(Path(left, right, i - 1, j))
          else Edits(Path(left, right, i - 1, j - 1))) + 1
  {
    EditsStep(left, right, i, j);
    hide Cost, Path, Edits;
  }

  /** A cell whose three neighbours are minimal is minimal exactly when it is no losing tie. */
  lemma OneCell<T>(left: seq<T>, right: seq<T>, i: nat, j: nat)
    requires 0 < i <= |left| && 0 < j <= |right| && (i < 100000 || j < 100000)
    requires Minimal(left, right, i - 1, j - 1) && Minimal(left, right, i - 1, j) && Minimal(left, right, i, j - 1)
    ensures Minimal(left, right, i, j) <==> !LosingTie(left, right, i, j)
  {
    if left[i - 1] == right[j - 1] {
      EditsStep(left, right, i, j);
      MatchIsFree(left, right, i, j);
    } else {
      UnequalCell(left, right, i, j);
    }
  }

  lemma UnequalCell<T>(left: seq<T>, right: seq<T>, i: nat, j: nat)
    requires 0 < i <= |left| && 0 < j <= |right| && (i < 100000 || j < 100000)
    requires left[i - 1] != right[j - 1]
    requires Minimal(left, right, i - 1, j - 1) && Minimal(left, right, i - 1, j) && Minimal(left, right, i, j - 1)
    ensures Minimal(left, right, i, j) <==> !LosingTie(left, right, i, j)
  {
    var n, lev := Edits(Path(left, right, i, j)), Lev(left, right, i, j);
    var ea, er, ep := Lev(left, right, i, j - 1), Lev(left, right, i - 1, j), Lev(left, right, i - 1, j - 1);
    assert lev == Min(ep, Min(er, ea)) + 1;
    assert Minimal(left, right, i, j) <==> n == lev;
    hide *;
    var add, remove, replace := Cost(left, right, i, j - 1), Cost(left, right, i - 1, j), Cost(left, right, i - 1, j - 1);
    CellFacts(left, right, i, j);
    Choice(add, remove, replace, ea, er, ep, n, lev);
  }

  lemma CellFacts<T>(left: seq<T>, right: seq<T>, i: nat, j: nat)
    requires 0 < i <= |left| && 0 < j <= |right| && (i < 100000 || j < 100000)
    requires left[i - 1] != right[j - 1]
    requires Minimal(left, right, i - 1, j - 1) && Minimal(left, right, i - 1, j) && Minimal(left, right, i, j - 1)
    ensures var add, remove, replace := Cost(left, right, i, j - 1), Cost(left, right, i - 1, j), Cost(left, right, i - 1, j - 1);
      var ea, er, ep := Lev(left, right, i, j - 1), Lev(left, right, i - 1, j), Lev(left, right, i - 1, j - 1);
      && 100000 * ea <= add < 100000 * ea + 100000
      && 100000 * er <= remove < 100000 * er + 100000
      && 100000 * ep <= replace < 100000 * ep + 100000
      && (LosingTie(left, right, i, j) <==> add == remove && ea < ep)
      && Edits(Path(left, right, i, j))
         == (if add < remove && add < replace then ea else if remove < add && remove < replace then er else ep) + 1
  {
    hide Cost, Path, Edits, Lev, LosingTie;
    TieMeans(left, right, i, j);
    UnequalStep(left, right, i, j);
    CostBounds(left, right, i - 1, j - 1);
    CostBounds(left, right, i - 1, j);
    CostBounds(left, right, i, j - 1);
  }

  lemma TieMeans<T>(left: seq<T>, right: seq<T>, i: nat, j: nat)
    requires 0 < i <= |left| && 0 < j <= |right| && (i < 100000 || j < 100000)
    requires left[i - 1] != right[j - 1]
    ensures LosingTie(left, right, i, j) <==>
      Cost(left, right, i, j - 1) == Cost(left, right, i - 1, j)
      && Edits(Path(left, right, i, j - 1)) < Edits(Path(left, right, i - 1, j - 1))
  {
    hide Cost, Path, Edits;
    EditsFromCost(left, right, i - 1, j - 1);
    EditsFromCost(left, right, i, j - 1);
  }

  /** What the three comparisons of costs say about whole edits: `n` is the number of edits of the
      chosen way, `lev` that of the best. */
  lemma Choice(add: nat, remove: nat, replace: nat, ea: nat, er: nat, ep: nat, n: nat, lev: nat)
    requires 100000 * ea <= add < 100000 * ea + 100000
    requires 100000 * er <= remove < 100000 * er + 100000
    requires 100000 * ep <= replace < 100000 * ep + 100000
    requires n == (if add < remove && add < replace then ea else if remove < add && remove < replace then er else ep) + 1
    requires lev == Min(ep, Min(er, ea)) + 1
    ensures n == lev <==> !(add == remove && ea < ep)
  {
  }

  lemma {:induction false} BorderIsMinimal<T>(left: seq<T>, right: seq<T>, i: nat, j: nat)
    requires i <= |left| && j <= |right| && (i == 0 || j == 0)
    ensures Minimal(left, right, i, j)
  {
    if i + j > 0 {
      EditsStep(left, right, i, j);
      BorderIsMinimal(left, right, if i == 0 then 0 else i - 1, if j == 0 then 0 else j - 1);
    }
  }

  lemma {:induction false} MinimalUpTo<T>(left: seq<T>, right: seq<T>, i: nat, j: nat)
    requires i <= |left| && j <= |right| && (i < 100000 || j < 100000)
    requires forall a, b :: 0 < a <= i && 0 < b <= j ==> !LosingTie(left, right, a, b)
    ensures Minimal(left, right, i, j)
  {
    hide *;
    if i == 0 || j == 0 {
      BorderIsMinimal(left, right, i, j);
    } else {
      MinimalUpTo(left, right, i - 1, j - 1);
      MinimalUpTo(left, right, i - 1, j);
      MinimalUpTo(left, right, i, j - 1);
      OneCell(left, right, i, j);
    }
  }

  /** The script for every pair of prefixes is as short as possible if and only if no cell of the
      table is a losing tie. */
  lemma MinimalIffNoLosingTie<T>(left: seq<T>, right: seq<T>)
    requires |left| < 100000 || |right| < 100000
    ensures (forall i: nat, j: nat :: i <= |left| && j <= |right| ==> Minimal(left, right, i, j))
       <==> (forall i, j :: 0 < i <= |left| && 0 < j <= |right| ==> !LosingTie(left, right, i, j))
  {
    if forall i, j :: 0 < i <= |left| && 0 < j <= |right| ==> !LosingTie(left, right, i, j) {
      forall i: nat, j: nat | i <= |left| && j <= |right|
        ensures Minimal(left, right, i, j)
      {
        MinimalUpTo(left, right, i, j);
      }
    }
    if forall i: nat, j: nat :: i <= |left| && j <= |right| ==> Minimal(left, right, i, j) {
      forall i, j | 0 < i <= |left| && 0 < j <= |right|
        ensures !LosingTie(left, right, i, j)
      {
        assert Minimal(left, right, i, j) && Minimal(left, right, i - 1, j - 1);
        assert Minimal(left, right, i - 1, j) && Minimal(left, right, i, j - 1);
        OneCell(left, right, i, j);
      }
    }
  }

  /** Without a losing tie the script for the whole inputs is as short as possible. */
  lemma NoLosingTieIsMinimal<T>(left: seq<T>, right: seq<T>)
    requires |left| < 100000 || |right| < 100000
    requires forall i, j :: 0 < i <= |left| && 0 < j <= |right| ==> !LosingTie(left, right, i, j)
    ensures Edits(Path(left, right, |left|, |right|)) == Lev(left, right, |left|, |right|)
  {
    MinimalUpTo(left, right, |left|, |right|);
  }

  /** The script never has fewer edits than the Levenshtein distance. */
  lemma NeverBelowLev<T>(left: seq<T>, right: seq<T>)
    ensures Lev(left, right, |left|, |right|) <= Edits(Path(left, right, |left|, |right|))
  {
    PathNotBelow(left, right, |left|, |right|);
  }

  lemma PathNotBelow<T>(left: seq<T>, right: seq<T>, i: nat, j: nat)
    requires i <= |left| && j <= |right|
    ensures Lev(left, right, i, j) <= Edits(Path(left, right, i, j))
  {
    PathTransforms(left, right, i, j);
    LevIsLower(left, right, i, j, Path(left, right, i, j));
  }

  // ---------------------------------------------------------------- the walk back

  /** The distances of the three neighbours of a cell are not below that of the cell to which its move
      leads. */
  ghost predicate LeadsToBest<T>(left: seq<T>, right: seq<T>, i: nat, j: nat)
    requires 0 < i <= |left| && 0 < j <= |right|
  {
    var move := Move(left, right, i, j);
    var next := Lev(left, right, if move == Add then i else i - 1, if move == Remove then j else j - 1);
    && next <= Lev(left, right, i - 1, j - 1) && next <= Lev(left, right, i - 1, j) && next <= Lev(left, right, i, j - 1)
  }

  /** Every edit on the walk back from a cell leads to a best neighbour. */
  ghost predicate WalksWell<T>(left: seq<T>, right: seq<T>, i: nat, j: nat)
    requires i <= |left| && j <= |right|
  {
    if i == 0 || j == 0 then true else
    var move := Move(left, right, i, j);
    && (left[i - 1] == right[j - 1] || LeadsToBest(left, right, i, j))
    && WalksWell(left, right, if move == Add then i else i - 1, if move == Remove then j else j - 1)
  }

  lemma {:induction false} MinimalIffWalksWell<T>(left: seq<T>, right: seq<T>, i: nat, j: nat)
    requires i <= |left| && j <= |right|
    ensures Minimal(left, right, i, j) <==> WalksWell(left, right, i, j)
  {
    hide *;
    WalkStep(left, right, i, j);
    if i == 0 || j == 0 {
      BorderIsMinimal(left, right, i, j);
    } else {
      var move := Move(left, right, i, j);
      var i', j' := if move == Add then i else i - 1, if move == Remove then j else j - 1;
      MinimalIffWalksWell(left, right, i', j');
      PathNotBelow(left, right, i', j');
      EditsStep(left, right, i, j);
      MinimalIs(left, right, i, j);
      MinimalIs(left, right, i', j');
      LevStep(left, right, i, j);
    }
  }

  lemma WalkStep<T>(left: seq<T>, right: seq<T>, i: nat, j: nat)
    requires i <= |left| && j <= |right|
    ensures i == 0 || j == 0 ==> WalksWell(left, right, i, j)
    ensures i > 0 && j > 0 ==>
      var move := Move(left, right, i, j);
      (WalksWell(left, right, i, j) <==>
       && (left[i - 1] == right[j - 1] || LeadsToBest(left, right, i, j))
       && WalksWell(left, right, if move == Add then i else i - 1, if move == Remove then j else j - 1))
  {
  }

  lemma MinimalIs<T>(left: seq<T>, right: seq<T>, i: nat, j: nat)
    requires i <= |left| && j <= |right|
    ensures Minimal(left, right, i, j) <==> Edits(Path(left, right, i, j)) == Lev(left, right, i, j)
  {
  }

  /** The distance of a cell, in terms of the cell to which its move leads. */
  lemma LevStep<T>(left: seq<T>, right: seq<T>, i: nat, j: nat)
    requires 0 < i <= |left| && 0 < j <= |right|
    ensures var move := Move(left, right, i, j);
      var next := Lev(left, right, if move == Add then i else i - 1, if move == Remove then j else j - 1);
      if left[i - 1] == right[j - 1] then move == Match && Lev(left, right, i, j) == next
      else move != Match && Lev(left, right, i, j) <= next + 1
           && (Lev(left, right, i, j) == next + 1 <==> LeadsToBest(left, right, i, j))
  {
    hide Cost;
    if left[i - 1] == right[j - 1] {
      MatchIsFree(left, right, i, j);
    }
  }

  /** The script that the code returns is as short as possible if and only if every edit on the walk
      back from the last cell leads to a neighbour of least distance. */
  lemma ScriptIsMinimalIff<T>(left: seq<T>, right: seq<T>)
    ensures Edits(Path(left, right, |left|, |right|)) == Lev(left, right, |left|, |right|)
       <==> WalksWell(left, right, |left|, |right|)
  {
    MinimalIffWalksWell(left, right, |left|, |right|);
  }

  /** "abax" to "bab": there is a losing tie, but the walk back does not come past it. */
  lemma LosingTieMayBeAvoided()
    ensures LosingTie("abax", "bab", 3, 3)
    ensures Edits(Path("abax", "bab", 4, 3)) == 2 == Lev("abax", "bab", 4, 3)
  {
    var l, r := "abax", "bab";
    assert Cost(l, r, 1, 1) == 100001 && Cost(l, r, 1, 2) == 100000 && Cost(l, r, 2, 1) == 100000;
    assert Cost(l, r, 2, 2) == 200002 && Cost(l, r, 3, 1) == 200000;
    assert Cost(l, r, 2, 3) == 100000 && Cost(l, r, 3, 2) == 100000;
    assert Cost(l, r, 4, 1) == 300000 && Cost(l, r, 4, 2) == 200000 && Cost(l, r, 3, 3) == 300003;
    assert Cost(l, r, 4, 3) == 200001;
    EditsFromCost(l, r, 4, 3);
    hide Cost, Path, Edits;
    assert Lev(l, r, 1, 1) == 1 && Lev(l, r, 1, 2) == 1 && Lev(l, r, 2, 1) == 1;
    assert Lev(l, r, 2, 2) == 2 && Lev(l, r, 3, 1) == 2 && Lev(l, r, 2, 3) == 1 && Lev(l, r, 3, 2) == 1;
    assert Lev(l, r, 4, 1) == 3 && Lev(l, r, 4, 2) == 2 && Lev(l, r, 3, 3) == 2;
  }

  /** "aba" to "bab": three edits where two (drop the first, append the last) suffice. */
  lemma NotAlwaysMinimal()
    ensures Edits(Path("aba", "bab", 3, 3)) == 3 && Lev("aba", "bab", 3, 3) == 2
    ensures LosingTie("aba", "bab", 3, 3)
  {
    var l, r := "aba", "bab";
    assert Cost(l, r, 1, 1) == 100001;
    assert Cost(l, r, 1, 2) == 100000 && Cost(l, r, 2, 1) == 100000;
    assert Cost(l, r, 1, 3) == 200000 && Cost(l, r, 3, 1) == 200000;
    assert Cost(l, r, 2, 2) == 200002;
    assert Cost(l, r, 2, 3) == 100000 && Cost(l, r, 3, 2) == 100000;
    assert Cost(l, r, 3, 3) == 300003;
    EditsFromCost(l, r, 3, 3);
    assert Lev(l, r, 1, 1) == 1 && Lev(l, r, 1, 2) == 1 && Lev(l, r, 2, 1) == 1;
    assert Lev(l, r, 2, 2) == 2 && Lev(l, r, 2, 3) == 1 && Lev(l, r, 3, 2) == 1;
  }

  // ---------------------------------------------------------------- the program

  /** A cell that the loops have filled by the time they reach row `i + 1`, column `j + 1`. */
  predicate Done(a: nat, b: nat, i: nat, j: nat) {
    a == 0 || b == 0 || a <= i || (a == i + 1 && b <= j)
  }

  ghost predicate CostsFilled<T>(left: seq<T>, right: seq<T>, costs: array2<nat>, i: nat, j: nat)
    reads costs
  {
    && costs.Length0 == |left| + 1 && costs.Length1 == |right| + 1
    && forall a: nat, b: nat :: a <= |left| && b <= |right| && Done(a, b, i, j) ==> costs[a, b] == Cost(left, right, a, b)
  }

  ghost predicate MovesFilled<T>(left: seq<T>, right: seq<T>, best: array2<EditType>, i: nat, j: nat)
    reads best
  {
    && best.Length0 == |left| + 1 && best.Length1 == |right| + 1
    && forall a: nat, b: nat :: a <= |left| && b <= |right| && Done(a, b, i, j) ==> best[a, b] == Move(left, right, a, b)
  }

  ghost predicate Filled<T>(left: seq<T>, right: seq<T>, costs: array2<nat>, best: array2<EditType>, i: nat, j: nat)
    reads costs, best
  {
    CostsFilled(left, right, costs, i, j) && MovesFilled(left, right, best, i, j)
  }

  /** First row and first column. */
  method FillBorder<T>(left: seq<T>, right: seq<T>, costs: array2<nat>, best: array2<EditType>)
    requires costs.Length0 == best.Length0 == |left| + 1 && costs.Length1 == best.Length1 == |right| + 1
    modifies costs, best
    ensures Filled(left, right, costs, best, 0, 0)
  {
    for l := 0 to |left| + 1
      invariant forall a: nat :: a < l ==> costs[a, 0] == 100000 * a && best[a, 0] == Remove
    {
      costs[l, 0] := 100000 * l;
      best[l, 0] := Remove;
    }
    for r := 1 to |right| + 1
      invariant forall a: nat :: a <= |left| ==> costs[a, 0] == 100000 * a && best[a, 0] == Remove
      invariant forall b: nat :: 1 <= b < r ==> costs[0, b] == 100000 * b && best[0, b] == Add
    {
      costs[0, r] := 100000 * r;
      best[0, r] := Add;
    }
  }

  /** One cell, from its three neighbours. */
  method FillCell<T(==)>(left: seq<T>, right: seq<T>, costs: array2<nat>, best: array2<EditType>, i: nat, j: nat)
    requires i < |left| && j < |right| && Filled(left, right, costs, best, i, j)
    modifies costs, best
    ensures Filled(left, right, costs, best, i, j + 1)
  {
    var cost, move := ChooseMove(left, right, costs, best, i, j);
    SetCost(left, right, costs, i, j, cost);
    SetMove(left, right, best, i, j, move);
  }

  method SetCost<T>(left: seq<T>, right: seq<T>, costs: array2<nat>, i: nat, j: nat, cost: nat)
    requires i < |left| && j < |right| && CostsFilled(left, right, costs, i, j) && cost == Cost(left, right, i + 1, j + 1)
    modifies costs
    ensures CostsFilled(left, right, costs, i, j + 1)
  {
    hide Cost;
    costs[i + 1, j + 1] := cost;
  }

  method SetMove<T>(left: seq<T>, right: seq<T>, best: array2<EditType>, i: nat, j: nat, move: EditType)
    requires i < |left| && j < |right| && MovesFilled(left, right, best, i, j) && move == Move(left, right, i + 1, j + 1)
    modifies best
    ensures MovesFilled(left, right, best, i, j + 1)
  {
    hide Move;
    best[i + 1, j + 1] := move;
  }

  method ChooseMove<T(==)>(left: seq<T>, right: seq<T>, costs: array2<nat>, best: array2<EditType>, i: nat, j: nat)
    returns (cost: nat, move: EditType)
    requires i < |left| && j < |right| && Filled(left, right, costs, best, i, j)
    ensures cost == Cost(left, right, i + 1, j + 1) && move == Move(left, right, i + 1, j + 1)
  {
    CellValue(left, right, i, j);
    hide Cost, Move;
    var add := costs[i + 1, j];
    var remove := costs[i, j + 1];
    var replace := costs[i, j];
    assert add == Cost(left, right, i + 1, j) && remove == Cost(left, right, i, j + 1) && replace == Cost(left, right, i, j);
    hide Filled;
    if left[i] == right[j] {
      return replace, Match;
    } else if add < remove && add < replace {
      return add + 100000, Add;
    } else if remove < add && remove < replace {
      return remove + 100000, Remove;
    } else {
      return replace + 100001, Replace;
    }
  }

  lemma CellValue<T>(left: seq<T>, right: seq<T>, i: nat, j: nat)
    requires i < |left| && j < |right|
    ensures var add, remove, replace := Cost(left, right, i + 1, j), Cost(left, right, i, j + 1), Cost(left, right, i, j);
      && Cost(left, right, i + 1, j + 1)
         == (if left[i] == right[j] then replace
             else if add < remove && add < replace then add + 100000
             else if remove < add && remove < replace then remove + 100000
             else replace + 100001)
      && Move(left, right, i + 1, j + 1)
         == (if left[i] == right[j] then Match
             else if add < remove && add < replace then Add
             else if remove < add && remove < replace then Remove
             else Replace)
  {
  }

  function Reversed<T>(s: seq<T>): seq<T> {
    if s == [] then [] else Reversed(s[1..]) + [s[0]]
  }

  lemma {:induction false} ReversedSnoc<T>(s: seq<T>, x: T)
    ensures Reversed(s + [x]) == [x] + Reversed(s)
  {
    if s == [] {
      assert s + [x] == [x] && [x][1..] == [];
    } else {
      ReversedSnoc(s[1..], x);
      assert (s + [x])[1..] == s[1..] + [x];
    }
  }

  /** std::reverse. */
  method Reverse<T>(s: seq<T>) returns (r: seq<T>)
    ensures r == Reversed(s)
  {
    r := [];
    for i := 0 to |s|
      invariant r == Reversed(s[..i])
    {
      assert s[..i + 1] == s[..i] + [s[i]];
      ReversedSnoc(s[..i], s[i]);
      r := [s[i]] + r;
    }
    assert s[..|s|] == s;
  }

  method CalculateOptimalEdits<T(==)>(left: seq<T>, right: seq<T>) returns (bestPath: seq<EditType>)
    ensures bestPath == Path(left, right, |left|, |right|)
  {
    hide Cost, Move;
    var costs := new nat[|left| + 1, |right| + 1];
    var best := new EditType[|left| + 1, |right| + 1];
    FillBorder(left, right, costs, best);
    for l := 0 to |left|
      invariant Filled(left, right, costs, best, l, 0)
    {
      for r := 0 to |right|
        invariant Filled(left, right, costs, best, l, r)
      {
        FillCell(left, right, costs, best, l, r);
      }
      assert Filled(left, right, costs, best, l + 1, 0);
    }
    bestPath := WalkBack(left, right, costs, best);
  }

  /** The walk back from the last cell collects the script from its end. */
  method WalkBack<T>(left: seq<T>, right: seq<T>, costs: array2<nat>, best: array2<EditType>) returns (bestPath: seq<EditType>)
    requires Filled(left, right, costs, best, |left|, 0)
    ensures bestPath == Path(left, right, |left|, |right|)
  {
    hide Cost, Move;
    bestPath := [];
    var l: nat, r: nat := |left|, |right|;
    while l > 0 || r > 0
      invariant l <= |left| && r <= |right|
      invariant Path(left, right, |left|, |right|) == Path(left, right, l, r) + Reversed(bestPath)
      decreases l + r
    {
      var move := best[l, r];
      assert move == Move(left, right, l, r);
      CostStep(left, right, l, r);
      ReversedSnoc(bestPath, move);
      bestPath := bestPath + [move];
      l, r := if move == Add then l else l - 1, if move == Remove then r else r - 1;
    }
    bestPath := Reverse(bestPath);
  }

  // ---------------------------------------------------------------- lines

  /** Lines are replaced by numbers first; equal lines get equal numbers. */
  class InternalStrings {
    var mIds: map<string, nat>

    /** The numbers given out so far are 0, 1, 2, ... and no two lines share one. */
    ghost predicate Valid()
      reads this
    {
      && (forall s :: s in mIds ==> mIds[s] < |mIds|)
      && (forall s, t :: s in mIds && t in mIds && mIds[s] == mIds[t] ==> s == t)
    }

    constructor ()
      ensures Valid() && mIds == map[]
    {
      mIds := map[];
    }

    method GetId(s: string) returns (id: nat)
      requires Valid()
      modifies this
      ensures Valid() && s in mIds && mIds[s] == id
      ensures mIds == if s in old(mIds) then old(mIds) else old(mIds)[s := |old(mIds)|]
    {
      if s in mIds {
        return mIds[s];
      }
      id := |mIds|;
      mIds := mIds[s := id];
    }

    method GetIds(lines: seq<string>) returns (ids: seq<nat>)
      requires Valid()
      modifies this
      ensures Valid() && old(mIds).Keys <= mIds.Keys && (forall s :: s in old(mIds) ==> mIds[s] == old(mIds)[s])
      ensures |ids| == |lines| && forall i :: 0 <= i < |lines| ==> lines[i] in mIds && ids[i] == mIds[lines[i]]
    {
      ids := [];
      for i := 0 to |lines|
        invariant Valid() && old(mIds).Keys <= mIds.Keys && (forall s :: s in old(mIds) ==> mIds[s] == old(mIds)[s])
        invariant |ids| == i && forall k :: 0 <= k < i ==> lines[k] in mIds && ids[k] == mIds[lines[k]]
      {
        var id := GetId(lines[i]);
        ids := ids + [id];
      }
    }
  }

  /** Only which elements are equal matters to the script. */
  lemma {:induction false} SamePattern<S, T>(a: seq<S>, b: seq<S>, c: seq<T>, d: seq<T>, i: nat, j: nat)
    requires |a| == |c| && |b| == |d| && i <= |a| && j <= |b|
    requires forall x, y :: 0 <= x < |a| && 0 <= y < |b| ==> (a[x] == b[y] <==> c[x] == d[y])
    ensures Cost(a, b, i, j) == Cost(c, d, i, j)
    ensures Move(a, b, i, j) == Move(c, d, i, j)
  {
    if i > 0 && j > 0 {
      assert a[i - 1] == b[j - 1] <==> c[i - 1] == d[j - 1];
      SamePattern(a, b, c, d, i - 1, j - 1);
      SamePattern(a, b, c, d, i - 1, j);
      SamePattern(a, b, c, d, i, j - 1);
    }
  }

  lemma {:induction false} SamePath<S, T>(a: seq<S>, b: seq<S>, c: seq<T>, d: seq<T>, i: nat, j: nat)
    requires |a| == |c| && |b| == |d| && i <= |a| && j <= |b|
    requires forall x, y :: 0 <= x < |a| && 0 <= y < |b| ==> (a[x] == b[y] <==> c[x] == d[y])
    ensures Path(a, b, i, j) == Path(c, d, i, j)
  {
    SamePattern(a, b, c, d, i, j);
    if i > 0 || j > 0 {
      var move := Move(a, b, i, j);
      SamePath(a, b, c, d, if move == Add then i else i - 1, if move == Remove then j else j - 1);
    }
  }

  method CalculateLineEdits(left: seq<string>, right: seq<string>) returns (edits: seq<EditType>)
    ensures edits == Path(left, right, |left|, |right|)
  {
    hide Path;
    var table := new InternalStrings();
    var leftIds := table.GetIds(left);
    var rightIds := table.GetIds(right);
    edits := CalculateOptimalEdits(leftIds, rightIds);
    SamePath(left, right, leftIds, rightIds, |left|, |right|);
  }
}

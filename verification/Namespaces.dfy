/** The tree of namespaces and the parsing of qualified names.

    The specification is a forest of values: the namespaces in the order in which they were made, each
    with its name, the position of its outer namespace and the positions of its inner ones.  Names are
    `None` where the source has a null string: that is what an empty component becomes. */
module Namespaces {
  import opened Wrappers
  import opened Shuffling

  type Name = Option<string>

  const GlobalName: Name := Some("__global__")

  function Text(name: Name): string {
    if name.None? then "" else name.value
  }

  // ---------------------------------------------------------------- qualified names

  predicate SeparatorAt(s: string, k: nat) {
    k + 2 <= |s| && s[k] == ':' && s[k + 1] == ':'
  }

  /** IndexOf("::") */
  function FindSeparator(s: string): (r: Option<nat>)
    ensures r.Some? ==> SeparatorAt(s, r.value)
    ensures forall k: nat :: k < |s| && (r.Some? ==> k < r.value) ==> !SeparatorAt(s, k)
  {
    if s == [] then None
    else if SeparatorAt(s, 0) then Some(0)
    else
      assert forall k: nat :: 0 < k < |s| && SeparatorAt(s, k) ==> SeparatorAt(s[1..], k - 1);
      match FindSeparator(s[1..]) case None => None case Some(k) => Some(k + 1)
  }

  /** Substring(0, end): the end is included; an end before the beginning gives a null string. */
  function Prefix(s: string, end: int): Name
    requires -1 <= end < |s|
  {
    if end < 0 then None else Some(s[..end + 1])
  }

  /** The names that a qualified name goes through; a trailing separator adds none. */
  function Components(nss: string): seq<Name>
    decreases |nss|
  {
    match FindSeparator(nss)
    case None => [Some(nss)]
    case Some(c) =>
      if c + 2 >= |nss| then [Prefix(nss, c - 1)] else [Prefix(nss, c - 1)] + Components(nss[c + 2..])
  }

  /** Each name followed by a separator. */
  function Joined(names: seq<Name>): string {
    if names == [] then "" else Text(names[0]) + "::" + Joined(names[1..])
  }

  /** The first separator after the name is the one that was put there. */
  predicate Separable(name: Name) {
    name.None? || (name.value != "" && FindSeparator(name.value + "::") == Some(|name.value|))
  }

  /** A name is separable if it is null, or not empty, without a separator in it and without a colon at
      its end. */
  lemma SeparableIff(name: Name)
    ensures Separable(name) <==>
      name.None? || (var s := name.value; s != "" && s[|s| - 1] != ':' && forall k :: 0 <= k < |s| - 1 ==> !(s[k] == ':' && s[k + 1] == ':'))
  {
    if name.Some? {
      var s := name.value;
      var t := s + "::";
      hide FindSeparator;
      if s != "" && s[|s| - 1] != ':' && forall k :: 0 <= k < |s| - 1 ==> !(s[k] == ':' && s[k + 1] == ':') {
        forall k: nat | k < |s|
          ensures !SeparatorAt(t, k)
        {
          assert k + 1 < |s| ==> !(s[k] == ':' && s[k + 1] == ':');
        }
        FirstSeparator(t, |s|);
      }
      if Separable(name) {
        forall k | 0 <= k < |s| - 1
          ensures !(s[k] == ':' && s[k + 1] == ':')
        {
          assert !SeparatorAt(t, k);
        }
        assert !SeparatorAt(t, |s| - 1);
      }
    }
  }

  lemma FirstSeparator(s: string, k: nat)
    requires SeparatorAt(s, k) && forall j: nat :: j < k ==> !SeparatorAt(s, j)
    ensures FindSeparator(s) == Some(k)
  {
    hide FindSeparator;
    assert k < |s|;
  }

  /** What follows a separator does not matter for what comes before it. */
  lemma SeparatorStands(text: string, rest: string)
    ensures FindSeparator(text + "::" + rest) == Some(|text|) <==> FindSeparator(text + "::") == Some(|text|)
  {
    var long, short := text + "::" + rest, text + "::";
    hide FindSeparator;
    forall j: nat | j <= |text|
      ensures SeparatorAt(long, j) <==> SeparatorAt(short, j)
    {
      assert j + 2 <= |short| ==> long[j] == short[j] && long[j + 1] == short[j + 1];
    }
    if FindSeparator(short) == Some(|text|) {
      FirstSeparator(long, |text|);
    }
    if FindSeparator(long) == Some(|text|) {
      FirstSeparator(short, |text|);
    }
  }

  lemma OneComponent(text: string, rest: string)
    requires FindSeparator(text + "::") == Some(|text|)
    ensures Components(text + "::" + rest)
      == [if text == "" then None else Some(text)] + (if rest == "" then [] else Components(rest))
  {
    SeparatorStands(text, rest);
    var s := text + "::" + rest;
    assert s[..|text|] == text && s[|text| + 2..] == rest;
    hide FindSeparator;
  }

  /** The names come back from the joined text exactly if each of them is separable. */
  lemma {:induction false} ComponentsOfJoined(names: seq<Name>)
    requires names != []
    ensures Components(Joined(names)) == names <==> forall i :: 0 <= i < |names| ==> Separable(names[i])
  {
    hide *;
    var text, rest := Text(names[0]), Joined(names[1..]);
    JoinedStep(names);
    if Separable(names[0]) {
      SeparatorOfName(names[0]);
      OneComponent(text, rest);
      if names[1..] != [] {
        JoinedStep(names[1..]);
        ComponentsOfJoined(names[1..]);
        assert forall i :: 0 < i < |names| ==> names[i] == names[1..][i - 1];
      }
      assert names == [names[0]] + names[1..];
    } else {
      FirstIsWrong(names[0], rest);
    }
  }

  lemma JoinedStep(names: seq<Name>)
    requires names != []
    ensures Joined(names) == Text(names[0]) + "::" + Joined(names[1..]) && Joined(names) != ""
    ensures Joined([]) == "" && forall name :: if name == None then Text(name) == "" else Text(name) == name.value
  {
  }

  lemma SeparatorOfName(name: Name)
    requires Separable(name)
    ensures FindSeparator(Text(name) + "::") == Some(|Text(name)|) && (name.Some? <==> Text(name) != "")
  {
    if name.None? {
      FirstSeparator("" + "::", 0);
    }
  }

  lemma FirstIsWrong(name: Name, rest: string)
    requires !Separable(name)
    ensures Components(Text(name) + "::" + rest)[0] != name
  {
    var s := name.value + "::" + rest;
    if name.value == "" {
      FirstSeparator(s, 0);
    } else {
      SeparatorStands(name.value, rest);
      SomeSeparator(name.value, rest);
      var c: int := FindSeparator(s).value;
      assert Components(s)[0] == Prefix(s, c - 1);
      assert c != |name.value|;
    }
  }

  lemma SomeSeparator(text: string, rest: string)
    ensures FindSeparator(text + "::" + rest).Some?
  {
    hide FindSeparator;
    assert SeparatorAt(text + "::" + rest, |text|);
  }

  lemma {:induction false} JoinedComponentsLength(s: string)
    ensures |Joined(Components(s))| <= |s| + 2
    decreases |s|
  {
    match FindSeparator(s)
    case None =>
      assert Joined([Some(s)]) == s + "::" + Joined([]);
    case Some(c) =>
      var first := Prefix(s, c as int - 1);
      assert |Text(first)| == c;
      if c + 2 >= |s| {
        assert Joined([first]) == Text(first) + "::" + Joined([]);
      } else {
        JoinedComponentsLength(s[c + 2..]);
        assert Components(s)[1..] == Components(s[c + 2..]);
      }
  }

  lemma {:induction false} JoinedConcat(a: seq<Name>, b: seq<Name>)
    ensures Joined(a + b) == Joined(a) + Joined(b)
  {
    if a == [] {
      assert a + b == b;
    } else {
      assert (a + b)[1..] == a[1..] + b;
      JoinedConcat(a[1..], b);
    }
  }

  // ---------------------------------------------------------------- the forest

  /** A namespace; the global one has no outer namespace. */
  datatype Node = Node(name: Name, outer: int, inner: seq<nat>)
  type Forest = seq<Node>

  /** Inner namespaces are younger than their outer one, which lists them; the names of the inner
      namespaces of one namespace differ. */
  ghost predicate WellFormed(f: Forest) {
    && f != [] && f[0].name == GlobalName && f[0].outer == -1
    && OutersFit(f) && InnersFit(f)
    && (forall p :: 0 <= p < |f| ==> NamesDiffer(f, p))
  }

  ghost predicate OutersFit(f: Forest) {
    forall i :: 0 < i < |f| ==> 0 <= f[i].outer < i && i in f[f[i].outer].inner
  }

  ghost predicate InnersFit(f: Forest) {
    forall p, k :: 0 <= p < |f| && 0 <= k < |f[p].inner| ==> IsInner(f, p, f[p].inner[k])
  }

  ghost predicate IsInner(f: Forest, p: int, c: nat) {
    p < c < |f| && f[c].outer == p
  }

  ghost predicate NamesDiffer(f: Forest, p: int)
    requires 0 <= p < |f|
  {
    var inner := f[p].inner;
    forall k, l :: 0 <= k < l < |inner| && inner[k] < |f| && inner[l] < |f| ==> f[inner[k]].name != f[inner[l]].name
  }

  /** The first inner namespace with the name. */
  function FindInner(f: Forest, inner: seq<nat>, name: Name): (r: Option<nat>)
    requires forall k :: 0 <= k < |inner| ==> inner[k] < |f|
    ensures r.Some? ==> r.value in inner && f[r.value].name == name
    ensures r.None? ==> forall c :: c in inner ==> f[c].name != name
  {
    if inner == [] then None
    else if f[inner[0]].name == name then Some(inner[0])
    else FindInner(f, inner[1..], name)
  }

  ghost predicate InnerInRange(f: Forest) {
    forall p, k :: 0 <= p < |f| && 0 <= k < |f[p].inner| ==> f[p].inner[k] < |f|
  }

  /** A new namespace as the last inner one of `p`. */
  ghost function Grown(f: Forest, p: nat, name: Name): (g: Forest)
    requires p < |f|
    ensures |g| == |f| + 1
    ensures forall i :: 0 <= i < |f| ==>
      g[i].name == f[i].name && g[i].outer == f[i].outer && g[i].inner == if i == p then f[i].inner + [|f|] else f[i].inner
    ensures g[|f|] == Node(name, p, [])
  {
    f[p := f[p].(inner := f[p].inner + [|f|])] + [Node(name, p, [])]
  }

  /** Finds the inner namespace, or makes it. */
  ghost function Step(f: Forest, p: nat, name: Name): (r: (Forest, nat))
    requires p < |f| && InnerInRange(f)
    ensures r.1 < |r.0| && InnerInRange(r.0) && |f| <= |r.0|
  {
    match FindInner(f, f[p].inner, name)
    case Some(c) => (f, c)
    case None => (Grown(f, p, name), |f|)
  }

  ghost function Walk(f: Forest, p: nat, names: seq<Name>): (r: (Forest, nat))
    requires p < |f| && InnerInRange(f)
    ensures r.1 < |r.0|
    decreases |names|
  {
    if names == [] then (f, p)
    else
      var (g, c) := Step(f, p, names[0]);
      Walk(g, c, names[1..])
  }

  /** The names on the way from the global namespace. */
  ghost function PathNames(f: Forest, i: nat): seq<Name>
    requires WellFormed(f) && i < |f|
  {
    if i == 0 then [] else PathNames(f, f[i].outer) + [f[i].name]
  }

  /** ToString: the names are put in front until a namespace called "__global__". */
  ghost function FullName(f: Forest, i: nat): string
    requires WellFormed(f) && i < |f|
  {
    if f[i].name == GlobalName then "" else FullName(f, f[i].outer) + Text(f[i].name) + "::"
  }

  lemma InnerOf(f: Forest, c: nat)
    requires WellFormed(f) && 0 < c < |f|
    ensures FindInner(f, f[f[c].outer].inner, f[c].name) == Some(c)
  {
    var p := f[c].outer;
    var inner := f[p].inner;
    assert c in inner;
    var r := FindInner(f, inner, f[c].name);
    assert r.Some?;
    var k :| 0 <= k < |inner| && inner[k] == c;
    var l :| 0 <= l < |inner| && inner[l] == r.value;
    assert NamesDiffer(f, p);
    assert IsInner(f, p, inner[l]);
  }

  lemma StepFinds(f: Forest, p: nat, name: Name)
    requires WellFormed(f) && p < |f|
    ensures InnerInRange(f)
    ensures var (g, c) := Step(f, p, name);
      WellFormed(g) && 0 < c && g[c].name == name && g[c].outer == p && Extends(f, g)
  {
    InRange(f);
    match FindInner(f, f[p].inner, name)
    case Some(c) =>
      var k :| 0 <= k < |f[p].inner| && f[p].inner[k] == c;
      assert IsInner(f, p, f[p].inner[k]);
    case None =>
      Added(f, p, name);
  }

  lemma StepIs(f: Forest, p: nat, name: Name)
    requires p < |f| && InnerInRange(f)
    ensures FindInner(f, f[p].inner, name).Some? ==> Step(f, p, name) == (f, FindInner(f, f[p].inner, name).value)
    ensures FindInner(f, f[p].inner, name).None? ==> Step(f, p, name) == (Grown(f, p, name), |f|)
  {
  }

  lemma InRange(f: Forest)
    requires WellFormed(f)
    ensures InnerInRange(f)
  {
    forall p, k | 0 <= p < |f| && 0 <= k < |f[p].inner|
      ensures f[p].inner[k] < |f|
    {
      assert IsInner(f, p, f[p].inner[k]);
    }
  }

  /** No namespace loses its name, its outer namespace or an inner one. */
  ghost predicate Extends(f: Forest, g: Forest) {
    && |f| <= |g|
    && forall i :: 0 <= i < |f| ==> g[i].name == f[i].name && g[i].outer == f[i].outer && f[i].inner <= g[i].inner
  }

  lemma Added(f: Forest, p: nat, name: Name)
    requires WellFormed(f) && p < |f| && InnerInRange(f) && FindInner(f, f[p].inner, name).None?
    ensures WellFormed(Grown(f, p, name)) && Extends(f, Grown(f, p, name))
  {
    hide *;
    var g := Grown(f, p, name);
    PartsOf(f);
    OutersStillFit(f, p, name);
    InnersStillFit(f, p, name);
    forall q | 0 <= q < |g|
      ensures NamesDiffer(g, q)
    {
      NamesStillDiffer(f, p, name, q);
    }
    GrownExtends(f, p, name);
    WholeOf(g);
  }

  lemma PartsOf(f: Forest)
    requires WellFormed(f)
    ensures f != [] && f[0].name == GlobalName && f[0].outer == -1
    ensures OutersFit(f) && InnersFit(f) && forall p :: 0 <= p < |f| ==> NamesDiffer(f, p)
  {
  }

  lemma WholeOf(f: Forest)
    requires f != [] && f[0].name == GlobalName && f[0].outer == -1
    requires OutersFit(f) && InnersFit(f) && forall p :: 0 <= p < |f| ==> NamesDiffer(f, p)
    ensures WellFormed(f)
  {
  }

  lemma GrownExtends(f: Forest, p: nat, name: Name)
    requires p < |f|
    ensures Extends(f, Grown(f, p, name))
  {
    hide Grown;
  }

  lemma OutersStillFit(f: Forest, p: nat, name: Name)
    requires OutersFit(f) && p < |f|
    ensures OutersFit(Grown(f, p, name))
  {
    hide Grown;
    var n, g := |f|, Grown(f, p, name);
    forall i | 0 < i < |g|
      ensures 0 <= g[i].outer < i && i in g[g[i].outer].inner
    {
      if i == n {
        assert g[p].inner[|f[p].inner|] == n;
      } else {
        assert i in f[f[i].outer].inner;
      }
    }
  }

  lemma InnersStillFit(f: Forest, p: nat, name: Name)
    requires InnersFit(f) && p < |f|
    ensures InnersFit(Grown(f, p, name))
  {
    hide Grown;
    var g := Grown(f, p, name);
    forall q, k | 0 <= q < |g| && 0 <= k < |g[q].inner|
      ensures IsInner(g, q, g[q].inner[k])
    {
      if q < |f| && k < |f[q].inner| {
        assert IsInner(f, q, f[q].inner[k]);
      }
    }
  }

  lemma NamesStillDiffer(f: Forest, p: nat, name: Name, q: nat)
    requires p < |f| && InnerInRange(f) && FindInner(f, f[p].inner, name).None? && q <= |f|
    requires q < |f| ==> NamesDiffer(f, q)
    ensures NamesDiffer(Grown(f, p, name), q)
  {
    hide Grown, FindInner;
    var n, g := |f|, Grown(f, p, name);
    if q < n {
      var inner := f[q].inner;
      forall k, l | 0 <= k < l < |g[q].inner|
        ensures g[g[q].inner[k]].name != g[g[q].inner[l]].name
      {
        assert g[q].inner[k] == inner[k] && inner[k] in inner;
        assert l < |inner| ==> g[q].inner[l] == inner[l];
      }
    }
  }

  lemma {:induction false} PathStays(f: Forest, g: Forest, i: nat)
    requires WellFormed(f) && WellFormed(g) && Extends(f, g) && i < |f|
    ensures PathNames(g, i) == PathNames(f, i)
  {
    if i > 0 {
      PathStays(f, g, f[i].outer);
    }
  }

  lemma ExtendsTrans(f: Forest, g: Forest, h: Forest)
    requires Extends(f, g) && Extends(g, h)
    ensures Extends(f, h)
  {
  }

  /** Walking keeps the tree in order, adds below what is there, and ends where the names lead. */
  lemma {:induction false} WalkArrives(f: Forest, p: nat, names: seq<Name>)
    requires WellFormed(f) && p < |f|
    ensures InnerInRange(f)
    ensures var (g, c) := Walk(f, p, names);
      WellFormed(g) && Extends(f, g) && PathNames(g, c) == PathNames(f, p) + names
    decreases |names|
  {
    InRange(f);
    if names == [] {
      assert PathNames(f, p) + names == PathNames(f, p);
    } else {
      var (g, c) := Step(f, p, names[0]);
      StepFinds(f, p, names[0]);
      PathStays(f, g, p);
      assert PathNames(g, c) == PathNames(f, p) + [names[0]];
      WalkArrives(g, c, names[1..]);
      RestArrives(f, p, names, g, c);
    }
  }

  lemma RestArrives(f: Forest, p: nat, names: seq<Name>, g: Forest, c: nat)
    requires WellFormed(f) && p < |f| && InnerInRange(f) && names != [] && Step(f, p, names[0]) == (g, c)
    requires WellFormed(g) && Extends(f, g) && PathNames(g, c) == PathNames(f, p) + [names[0]]
    requires InnerInRange(g)
    requires var (h, d) := Walk(g, c, names[1..]);
      WellFormed(h) && Extends(g, h) && PathNames(h, d) == PathNames(g, c) + names[1..]
    ensures var (h, d) := Walk(f, p, names);
      WellFormed(h) && Extends(f, h) && PathNames(h, d) == PathNames(f, p) + names
  {
    hide WellFormed, Step, Extends, PathNames;
    var (h, d) := Walk(g, c, names[1..]);
    ExtendsTrans(f, g, h);
    assert names == [names[0]] + names[1..];
  }

  lemma {:induction false} WalkConcat(f: Forest, p: nat, a: seq<Name>, b: seq<Name>)
    requires p < |f| && InnerInRange(f)
    ensures var (g, c) := Walk(f, p, a);
      InnerInRange(g) && Walk(f, p, a + b) == Walk(g, c, b)
    decreases |a|
  {
    if a == [] {
      assert a + b == b;
    } else {
      assert (a + b)[1..] == a[1..] + b;
      var (g, c) := Step(f, p, a[0]);
      WalkConcat(g, c, a[1..], b);
    }
  }

  /** Walking along the names of a namespace leads to it and changes nothing. */
  lemma {:induction false} WalkFinds(f: Forest, i: nat)
    requires WellFormed(f) && i < |f|
    ensures InnerInRange(f) && Walk(f, 0, PathNames(f, i)) == (f, i)
  {
    InRange(f);
    if i > 0 {
      var p := f[i].outer;
      WalkFinds(f, p);
      WalkConcat(f, 0, PathNames(f, p), [f[i].name]);
      InnerOf(f, i);
      assert Step(f, p, f[i].name) == (f, i);
      assert [f[i].name][1..] == [];
    }
  }

  // ---------------------------------------------------------------- parsing

  /** What parsing a qualified name does to the tree, and the namespace it gives. */
  ghost function Parsed(f: Forest, nss: string): (r: (Forest, nat))
    requires WellFormed(f)
    ensures r.1 < |r.0|
  {
    InRange(f);
    Walk(f, 0, Components(nss))
  }

  /** The namespace that parsing gives is the one with the names of the qualified name. */
  lemma ParseArrives(f: Forest, nss: string)
    requires WellFormed(f)
    ensures var (g, i) := Parsed(f, nss);
      WellFormed(g) && Extends(f, g) && PathNames(g, i) == Components(nss)
  {
    WalkArrives(f, 0, Components(nss));
    assert PathNames(f, 0) == [];
  }

  /** Parsing again changes nothing and gives the same namespace. */
  lemma ParseAgain(f: Forest, nss: string)
    requires WellFormed(f)
    ensures var (g, i) := Parsed(f, nss);
      WellFormed(g) && Parsed(g, nss) == (g, i)
  {
    ParseArrives(f, nss);
    var (g, i) := Parsed(f, nss);
    WalkFinds(g, i);
  }

  ghost predicate GlobalOnPath(f: Forest, i: nat)
    requires WellFormed(f) && i < |f|
  {
    i > 0 && (f[i].name == GlobalName || GlobalOnPath(f, f[i].outer))
  }

  lemma {:induction false} FullNameIs(f: Forest, i: nat)
    requires WellFormed(f) && i < |f|
    ensures !GlobalOnPath(f, i) ==> FullName(f, i) == Joined(PathNames(f, i))
    ensures GlobalOnPath(f, i) ==> |Joined(PathNames(f, i))| > |FullName(f, i)| + 2
  {
    if i > 0 {
      var p := f[i].outer;
      FullNameIs(f, p);
      JoinedConcat(PathNames(f, p), [f[i].name]);
      assert Joined([f[i].name]) == Text(f[i].name) + "::" + Joined([f[i].name][1..]);
    }
  }

  /** Parsing the full name of a namespace gives that namespace and adds nothing, exactly if each name on
      its path is separable and none is "__global__". */
  lemma FullNameParsesBackIff(f: Forest, i: nat)
    requires WellFormed(f) && 0 < i < |f|
    ensures Parsed(f, FullName(f, i)) == (f, i) <==>
      !GlobalOnPath(f, i) && forall k :: 0 <= k < |PathNames(f, i)| ==> Separable(PathNames(f, i)[k])
  {
    var names, text := PathNames(f, i), FullName(f, i);
    FullNameIs(f, i);
    WalkFinds(f, i);
    ParseArrives(f, text);
    assert names != [];
    assert Parsed(f, text) == (f, i) <==> Components(text) == names;
    if GlobalOnPath(f, i) {
      JoinedComponentsLength(text);
    } else {
      ComponentsOfJoined(names);
    }
  }

  /** A namespace called "a:" in the global one: its full name is "a:::", which is parsed as "a" and ":". */
  lemma ColonDoesNotParseBack()
    ensures var f := [Node(GlobalName, -1, [1]), Node(Some("a:"), 0, [])];
      WellFormed(f) && FullName(f, 1) == "a:::" && Parsed(f, FullName(f, 1)) != (f, 1)
  {
    var f := [Node(GlobalName, -1, [1]), Node(Some("a:"), 0, [])];
    assert f[0].inner == [1] && 1 in f[0].inner;
    assert WellFormed(f);
    assert FullName(f, 0) == "" && FullName(f, 1) == "" + "a:" + "::";
    assert PathNames(f, 0) == [] && PathNames(f, 1) == [] + [Some("a:")];
    SeparableIff(Some("a:"));
    assert !Separable(PathNames(f, 1)[0]);
    hide *;
    FullNameParsesBackIff(f, 1);
  }

  /** The empty name does not stand for the global namespace: an inner namespace with an empty name is
      made, or found again. */
  lemma EmptyNameIsNotGlobal(f: Forest)
    requires WellFormed(f)
    ensures var (g, i) := Parsed(f, "");
      i > 0 && i < |g| && g[i].name == Some("") && g[i].outer == 0
  {
    InRange(f);
    StepFinds(f, 0, Some(""));
    assert Components("") == [Some("")];
    var (g, c) := Step(f, 0, Some(""));
    assert Walk(g, c, [Some("")][1..]) == (g, c);
  }

  // ---------------------------------------------------------------- marking parsed namespaces

  /** Parses the paths one after the other and collects the namespaces they lead to. */
  ghost function Marked(f: Forest, paths: seq<string>): (r: (Forest, set<nat>))
    requires WellFormed(f)
    ensures WellFormed(r.0)
  {
    if paths == [] then (f, {})
    else
      var (g, marks) := Marked(f, paths[..|paths| - 1]);
      var path := paths[|paths| - 1];
      ParseArrives(g, path);
      var (h, i) := Parsed(g, path);
      (h, marks + {i})
  }

  lemma MarkedStep(f: Forest, paths: seq<string>, path: string)
    requires WellFormed(f)
    ensures var (g, marks) := Marked(f, paths);
      var (h, i) := Parsed(g, path);
      Marked(f, paths + [path]) == (h, marks + {i})
  {
    assert (paths + [path])[..|paths + [path]| - 1] == paths;
  }

  lemma NothingMarked(f: Forest)
    requires WellFormed(f)
    ensures Marked(f, []) == (f, {})
  {
  }

  /** `k` is the namespace to which one of the paths leads. */
  ghost predicate LedTo(f: Forest, paths: seq<string>, k: nat)
    requires WellFormed(f)
  {
    k < |f| && exists j :: 0 <= j < |paths| && PathNames(f, k) == Components(paths[j])
  }

  ghost predicate IsThere(f: Forest, path: string)
    requires WellFormed(f)
  {
    exists k: nat :: k < |f| && PathNames(f, k) == Components(path)
  }

  ghost predicate AllThere(f: Forest, paths: seq<string>)
    requires WellFormed(f)
  {
    forall j :: 0 <= j < |paths| ==> IsThere(f, paths[j])
  }

  lemma OneMoreThere(g: Forest, h: Forest, paths: seq<string>, path: string, i: nat)
    requires WellFormed(g) && WellFormed(h) && Extends(g, h) && i < |h| && PathNames(h, i) == Components(path)
    requires AllThere(g, paths)
    ensures AllThere(h, paths + [path])
  {
    hide WellFormed, PathNames, Components, Extends;
    ExtendsLonger(g, h);
    forall j | 0 <= j <= |paths|
      ensures IsThere(h, (paths + [path])[j])
    {
      if j < |paths| {
        assert IsThere(g, paths[j]);
        var k: nat :| k < |g| && PathNames(g, k) == Components(paths[j]);
        PathStays(g, h, k);
      }
    }
  }

  /** Different namespaces have different paths. */
  lemma PathsDiffer(f: Forest, i: nat, j: nat)
    requires WellFormed(f) && i < |f| && j < |f| && PathNames(f, i) == PathNames(f, j)
    ensures i == j
  {
    WalkFinds(f, i);
    WalkFinds(f, j);
  }

  /** In the tree that results, the marked namespaces are those to which the paths lead. */
  lemma {:induction false} MarkedIffLedTo(f: Forest, paths: seq<string>)
    requires WellFormed(f)
    ensures var (g, marks) := Marked(f, paths);
      Extends(f, g) && (forall k: nat :: k in marks <==> LedTo(g, paths, k))
      && AllThere(g, paths)
  {
    hide *;
    if paths == [] {
      NothingMarked(f);
      NotLedTo(f);
    } else {
      var front, path := paths[..|paths| - 1], paths[|paths| - 1];
      assert paths == front + [path];
      MarkedIffLedTo(f, front);
      MarkedStep(f, front, path);
      var (g, marks) := Marked(f, front);
      ParseArrives(g, path);
      var (h, i) := Parsed(g, path);
      ExtendsTrans(f, g, h);
      forall k: nat
        ensures k in marks + {i} <==> LedTo(h, paths, k)
      {
        OneMoreMark(g, h, front, path, i, k);
      }
      OneMoreThere(g, h, front, path, i);
    }
  }

  lemma NotLedTo(f: Forest)
    requires WellFormed(f)
    ensures Extends(f, f) && AllThere(f, []) && forall k: nat :: !LedTo(f, [], k)
  {
  }

  lemma ExtendsLonger(f: Forest, g: Forest)
    requires Extends(f, g)
    ensures |f| <= |g|
  {
  }

  lemma OneMoreMark(g: Forest, h: Forest, paths: seq<string>, path: string, i: nat, k: nat)
    requires WellFormed(g) && WellFormed(h) && Extends(g, h) && i < |h| && PathNames(h, i) == Components(path)
    requires AllThere(g, paths)
    ensures LedTo(h, paths + [path], k) <==> LedTo(g, paths, k) || k == i
  {
    hide WellFormed, PathNames, Components, Extends;
    var all := paths + [path];
    ExtendsLonger(g, h);
    if LedTo(g, paths, k) {
      var j :| 0 <= j < |paths| && PathNames(g, k) == Components(paths[j]);
      PathStays(g, h, k);
      assert all[j] == paths[j];
    }
    if k == i {
      assert all[|paths|] == path;
    }
    if LedTo(h, all, k) {
      var j :| 0 <= j < |all| && PathNames(h, k) == Components(all[j]);
      if j == |paths| {
        PathsDiffer(h, i, k);
      } else {
        assert IsThere(g, paths[j]);
        var l: nat :| l < |g| && PathNames(g, l) == Components(paths[j]);
        PathStays(g, h, l);
        PathsDiffer(h, l, k);
        assert LedTo(g, paths, k);
      }
    }
  }

  /** No path leads to the global namespace. */
  lemma GlobalIsNotLedTo(f: Forest, paths: seq<string>)
    requires WellFormed(f)
    ensures !LedTo(f, paths, 0)
  {
  }

  /** The name that the first component stands for. */
  function FirstName(nss: string): Name {
    match FindSeparator(nss)
    case None => Some(nss)
    case Some(c) => Prefix(nss, c as int - 1)
  }

  lemma ComponentsStep(f: Forest, p: nat, nss: string)
    requires p < |f| && InnerInRange(f)
    ensures var (g, q) := Step(f, p, FirstName(nss));
      match FindSeparator(nss)
      case None => FirstName(nss) == Some(nss) && Walk(f, p, Components(nss)) == (g, q)
      case Some(c) =>
        && c + 2 <= |nss| && FirstName(nss) == Prefix(nss, c as int - 1)
        && Walk(f, p, Components(nss)) == if c + 2 >= |nss| then (g, q) else Walk(g, q, Components(nss[c + 2..]))
  {
    hide Step;
    var names := Components(nss);
    assert names[0] == FirstName(nss);
    if |names| == 1 {
      assert names[1..] == [];
    }
    match FindSeparator(nss)
    case None =>
    case Some(c) =>
      if c + 2 < |nss| {
        assert names[1..] == Components(nss[c + 2..]);
      }
  }

  lemma ParsedIs(f: Forest, nss: string)
    requires WellFormed(f)
    ensures InnerInRange(f) && f != [] && Walk(f, 0, Components(nss)) == Parsed(f, nss)
  {
    InRange(f);
  }

  // ---------------------------------------------------------------- the objects

  lemma {:induction false} FirstInner(f: Forest, inner: seq<nat>, name: Name, k: nat)
    requires forall j :: 0 <= j < |inner| ==> inner[j] < |f|
    requires k <= |inner| && forall j :: 0 <= j < k ==> f[inner[j]].name != name
    requires k < |inner| ==> f[inner[k]].name == name
    ensures FindInner(f, inner, name) == if k < |inner| then Some(inner[k]) else None
  {
    if k > 0 {
      FirstInner(f, inner[1..], name, k - 1);
    }
  }

  class Namespace {
    const mName: Name
    var mOuterNamespace: Namespace?
    var mNamespaces: seq<Namespace>
    var mResolved: bool

    constructor (nsStr: Name)
      ensures mName == nsStr && mOuterNamespace == null && mNamespaces == [] && mResolved
    {
      mName := nsStr;
      mOuterNamespace := null;
      mNamespaces := [];
      mResolved := true;
    }

    method AddNamespace(innerNS: Namespace)
      modifies this`mNamespaces, innerNS`mOuterNamespace
      ensures mNamespaces == old(mNamespaces) + [innerNS] && innerNS.mOuterNamespace == this
    {
      mNamespaces := mNamespaces + [innerNS];
      innerNS.mOuterNamespace := this;
    }

    /** The position of the first inner namespace with the name, or the number of inner namespaces. */
    method FindNamespace(nsString: Name) returns (r: Namespace?, ghost k: nat)
      ensures k <= |mNamespaces| && forall j :: 0 <= j < k ==> mNamespaces[j].mName != nsString
      ensures r == if k < |mNamespaces| then mNamespaces[k] else null
      ensures r != null ==> r.mName == nsString
    {
      var i := 0;
      while i < |mNamespaces|
        invariant 0 <= i <= |mNamespaces| && forall j :: 0 <= j < i ==> mNamespaces[j].mName != nsString
      {
        var ns := mNamespaces[i];
        if ns.mName == nsString {
          return ns, i;
        }
        i := i + 1;
      }
      return null, i;
    }

    /** The names from the outside in, each with a separator, down from the global namespace. */
    method ToString(ghost nss: seq<Namespace>, ghost f: Forest, ghost i: nat) returns (nsString: string)
      requires Represents(nss, f) && WellFormed(f) && i < |f| && this == nss[i]
      ensures nsString == FullName(f, i)
    {
      nsString := "";
      var ns: Namespace? := this;
      ghost var j: int := i;
      assert FullName(f, i) + "" == FullName(f, i);
      while ns != null
        invariant |nss| == |f| && 0 <= j < |f| && ns == nss[j]
        invariant FullName(f, j) + nsString == FullName(f, i)
        decreases j
      {
        hide *;
        Climb(nss, f, j, nsString);
        if ns.mName == GlobalName {
          return;
        }
        nsString := Text(ns.mName) + "::" + nsString;
        j := f[j].outer;
        ns := ns.mOuterNamespace;
      }
    }
  }

  lemma Climb(nss: seq<Namespace>, f: Forest, j: nat, text: string)
    requires Represents(nss, f) && WellFormed(f) && j < |f|
    ensures |nss| == |f| && nss[j].mName == f[j].name
    ensures f[j].name == GlobalName ==> FullName(f, j) + text == text
    ensures f[j].name != GlobalName ==>
      && 0 <= f[j].outer < j && nss[j].mOuterNamespace == nss[f[j].outer]
      && FullName(f, j) + text == FullName(f, f[j].outer) + (Text(f[j].name) + "::" + text)
  {
    hide *;
    MatchesAt(nss, f, j);
    if f[j].name != GlobalName {
      FullNameStep(f, j);
      assert FullName(f, f[j].outer) + (Text(f[j].name) + "::") + text == FullName(f, f[j].outer) + (Text(f[j].name) + "::" + text);
    } else {
      assert [] + text == text;
    }
  }

  lemma FullNameStep(f: Forest, j: nat)
    requires WellFormed(f) && j < |f| && f[j].name != GlobalName
    ensures 0 <= f[j].outer < j && FullName(f, j) == FullName(f, f[j].outer) + (Text(f[j].name) + "::")
  {
    assert FullName(f, f[j].outer) + Text(f[j].name) + "::" == FullName(f, f[j].outer) + (Text(f[j].name) + "::");
  }

  lemma MatchesAt(nss: seq<Namespace>, f: Forest, j: nat)
    requires Represents(nss, f) && WellFormed(f) && j < |f|
    ensures |nss| == |f| && InnerInRange(f) && nss[j].mName == f[j].name
    ensures 0 <= f[j].outer < |f| ==> nss[j].mOuterNamespace == nss[f[j].outer]
    ensures f[j].name == GlobalName ==> FullName(f, j) == ""
  {
    assert Matches(nss, f, j);
  }

  ghost predicate Matches(nss: seq<Namespace>, f: Forest, i: nat)
    requires i < |f| == |nss| && InnerInRange(f)
    reads {nss[i]}`mOuterNamespace, {nss[i]}`mNamespaces
  {
    && nss[i].mName == f[i].name
    && nss[i].mOuterNamespace == (if 0 <= f[i].outer < |nss| then nss[f[i].outer] else null)
    && nss[i].mNamespaces == Select(nss, f[i].inner)
  }

  /** The objects form the forest. */
  ghost predicate Represents(nss: seq<Namespace>, f: Forest)
    reads nss`mOuterNamespace, nss`mNamespaces
  {
    && |nss| == |f| && InnerInRange(f)
    && AllDiffer(nss)
    && (forall i :: 0 <= i < |f| ==> Matches(nss, f, i))
  }

  ghost predicate AllDiffer(nss: seq<Namespace>) {
    forall i, j :: 0 <= i < j < |nss| ==> nss[i] != nss[j]
  }

  lemma SelectLonger(nss: seq<Namespace>, x: Namespace, at: seq<nat>)
    requires forall i :: 0 <= i < |at| ==> at[i] < |nss|
    ensures Select(nss + [x], at) == Select(nss, at)
    ensures Select(nss + [x], at + [|nss|]) == Select(nss, at) + [x]
  {
    hide Select;
  }

  /** The objects after a new one has been put below the one at `p`. */
  lemma GrownRepresents(nss: seq<Namespace>, f: Forest, p: nat, nsp: Namespace)
    requires p < |f| == |nss| && InnerInRange(f) && AllDiffer(nss) && nsp !in nss
    requires forall i :: 0 <= i < |f| && i != p ==> Matches(nss, f, i)
    requires nss[p].mName == f[p].name && nss[p].mNamespaces == Select(nss, f[p].inner) + [nsp]
    requires nss[p].mOuterNamespace == if 0 <= f[p].outer < |nss| then nss[f[p].outer] else null
    requires forall i :: 0 <= i < |f| ==> f[i].outer < |f|
    requires nsp.mOuterNamespace == nss[p] && nsp.mNamespaces == []
    ensures Represents(nss + [nsp], Grown(f, p, nsp.mName))
  {
    hide *;
    var g, all := Grown(f, p, nsp.mName), nss + [nsp];
    GrownInRange(f, p, nsp.mName);
    OneMoreDiffers(nss, nsp);
    forall i | 0 <= i < |g|
      ensures Matches(all, g, i)
    {
      if i < |f| && i != p {
        OtherMatches(nss, f, p, nsp, i);
      } else {
        NewMatches(nss, f, p, nsp);
      }
    }
    AllMatch(all, g);
  }

  lemma AllMatch(nss: seq<Namespace>, f: Forest)
    requires |nss| == |f| && InnerInRange(f) && AllDiffer(nss) && forall i :: 0 <= i < |f| ==> Matches(nss, f, i)
    ensures Represents(nss, f)
  {
  }

  lemma GrownInRange(f: Forest, p: nat, name: Name)
    requires p < |f| && InnerInRange(f)
    ensures InnerInRange(Grown(f, p, name))
  {
    hide Grown;
  }

  lemma OneMoreDiffers(nss: seq<Namespace>, nsp: Namespace)
    requires AllDiffer(nss) && nsp !in nss
    ensures AllDiffer(nss + [nsp])
  {
  }

  lemma OtherMatches(nss: seq<Namespace>, f: Forest, p: nat, nsp: Namespace, i: nat)
    requires p < |f| == |nss| && InnerInRange(f) && InnerInRange(Grown(f, p, nsp.mName))
    requires i < |f| && i != p && f[i].outer < |f| && Matches(nss, f, i)
    ensures Matches(nss + [nsp], Grown(f, p, nsp.mName), i)
  {
    SelectLonger(nss, nsp, f[i].inner);
    hide Grown, Select, InnerInRange;
  }

  lemma NewMatches(nss: seq<Namespace>, f: Forest, p: nat, nsp: Namespace)
    requires p < |f| == |nss| && InnerInRange(f) && InnerInRange(Grown(f, p, nsp.mName)) && f[p].outer < |f|
    requires nss[p].mName == f[p].name && nss[p].mNamespaces == Select(nss, f[p].inner) + [nsp]
    requires nss[p].mOuterNamespace == if 0 <= f[p].outer < |nss| then nss[f[p].outer] else null
    requires nsp.mOuterNamespace == nss[p] && nsp.mNamespaces == []
    ensures Matches(nss + [nsp], Grown(f, p, nsp.mName), p)
    ensures Matches(nss + [nsp], Grown(f, p, nsp.mName), |f|)
  {
    SelectLonger(nss, nsp, f[p].inner);
    assert Select(nss + [nsp], []) == [];
    hide Grown, Select, InnerInRange;
  }

  lemma OutersInRange(f: Forest)
    requires WellFormed(f)
    ensures forall i :: 0 <= i < |f| ==> f[i].outer < |f|
  {
  }

  class Pool {
    var mNamespaces: seq<Namespace>
    ghost var mForest: Forest

    ghost predicate Valid()
      reads this`mNamespaces, this`mForest, mNamespaces`mOuterNamespace, mNamespaces`mNamespaces
    {
      Represents(mNamespaces, mForest) && WellFormed(mForest)
    }

    /** The pool of a module starts with the global namespace and "ccm" in it. */
    constructor ()
      ensures Valid() && mForest == [Node(Some("__global__"), -1, [1]), Node(Some("ccm"), 0, [])]
    {
      var global := new Namespace(GlobalName);
      var ccm := new Namespace(Some("ccm"));
      global.AddNamespace(ccm);
      mNamespaces := [global, ccm];
      mForest := [Node(GlobalName, -1, [1]), Node(Some("ccm"), 0, [])];
      new;
      assert Select(mNamespaces, [1]) == [ccm];
    }

    method FindNamespace(nsString: Name) returns (r: Namespace?)
      ensures r == null ==> forall j :: 0 <= j < |mNamespaces| ==> mNamespaces[j].mName != nsString
      ensures r != null ==> IsFirst(r, nsString)
    {
      var i := 0;
      while i < |mNamespaces|
        invariant 0 <= i <= |mNamespaces| && forall j :: 0 <= j < i ==> mNamespaces[j].mName != nsString
      {
        if mNamespaces[i].mName == nsString {
          return mNamespaces[i];
        }
        i := i + 1;
      }
      return null;
    }

    /** `ns` is the first namespace with the name. */
    ghost predicate IsFirst(ns: Namespace, name: Name)
      reads this`mNamespaces
    {
      exists k :: 0 <= k < |mNamespaces| && ns == mNamespaces[k] && ns.mName == name
                  && forall j :: 0 <= j < k ==> mNamespaces[j].mName != name
    }

    method GlobalNamespace() returns (r: Namespace)
      requires Valid()
      ensures mNamespaces != [] && r == mNamespaces[0]
    {
      assert Matches(mNamespaces, mForest, 0);
      var found := FindNamespace(GlobalName);
      r := found;
    }

    /** Finds the inner namespace or makes it, in the pool and in its outer namespace. */
    method FindOrAdd(currNsp: Namespace, ghost p: nat, ns: Name) returns (nsp: Namespace, ghost c: nat)
      requires Valid() && p < |mNamespaces| && currNsp == mNamespaces[p]
      modifies this`mNamespaces, this`mForest, currNsp`mNamespaces
      ensures Valid() && p < |old(mForest)| && InnerInRange(old(mForest))
      ensures (mForest, c) == Step(old(mForest), p, ns) && c < |mNamespaces| == |mForest| && nsp == mNamespaces[c]
      ensures old(mNamespaces) <= mNamespaces && fresh(mNamespaces[|old(mNamespaces)|..])
      ensures forall k :: |old(mNamespaces)| <= k < |mNamespaces| ==> mNamespaces[k].mResolved
    {
      hide *;
      ghost var f := mForest;
      ValidIs(p);
      StepFinds(f, p, ns);
      StepIs(f, p, ns);
      var found, k' := currNsp.FindNamespace(ns);
      ghost var k := k';
      ValidIs(p);
      FoundInner(mNamespaces, f, p, ns, k);
      if found != null {
        nsp, c := found, f[p].inner[k];
      } else {
        nsp := new Namespace(ns);
        c := |f|;
        Attach(currNsp, p, nsp);
      }
    }

    method Attach(currNsp: Namespace, ghost p: nat, nsp: Namespace)
      requires Valid() && p < |mNamespaces| && currNsp == mNamespaces[p] && nsp !in mNamespaces
      requires nsp.mNamespaces == []
      requires |mForest| == |mNamespaces| && InnerInRange(mForest) && FindInner(mForest, mForest[p].inner, nsp.mName).None?
      modifies this`mNamespaces, this`mForest, currNsp`mNamespaces, nsp`mOuterNamespace
      ensures Valid() && p < |old(mForest)|
      ensures mForest == Grown(old(mForest), p, nsp.mName) && mNamespaces == old(mNamespaces) + [nsp]
    {
      hide *;
      ghost var nss, f := mNamespaces, mForest;
      ValidIs(p);
      Unfolded(nss, f, p);
      Added(f, p, nsp.mName);
      OutersInRange(f);
      mNamespaces := mNamespaces + [nsp];
      currNsp.AddNamespace(nsp);
      mForest := Grown(f, p, nsp.mName);
      GrownRepresents(nss, f, p, nsp);
      NowValid();
    }

    /** Goes down the components from the global namespace, making what is missing. */
    method ParseNamespace(nsString: string) returns (headNsp: Namespace)
      requires Valid()
      modifies this`mNamespaces, this`mForest, mNamespaces`mNamespaces
      ensures WellFormed(old(mForest))
      ensures Valid() && mForest == Parsed(old(mForest), nsString).0
      ensures |mNamespaces| == |mForest| && headNsp == mNamespaces[Parsed(old(mForest), nsString).1]
      ensures old(mNamespaces) <= mNamespaces && fresh(mNamespaces[|old(mNamespaces)|..])
      ensures forall k :: |old(mNamespaces)| <= k < |mNamespaces| ==> mNamespaces[k].mResolved
    {
      hide *;
      var nss := nsString;
      var currNsp: Namespace? := null;
      ghost var p: nat, goal, was := 0, (mForest, 0), mNamespaces;
      var global := GlobalNamespace();
      ValidIs(0);
      goal := Parsed(mForest, nsString);
      ParsedIs(mForest, nsString);
      while true
        invariant Valid() && WellFormed(mForest) && InnerInRange(mForest) && p < |mNamespaces| == |mForest|
        invariant was <= mNamespaces && fresh(mNamespaces[|was|..]) && was != [] && global == was[0]
        invariant forall k :: |was| <= k < |mNamespaces| ==> mNamespaces[k].mResolved
        invariant (if currNsp == null then global else currNsp) == mNamespaces[p]
        invariant Walk(mForest, p, Components(nss)) == goal
        decreases |nss|
      {
        var cIndex := FindSeparator(nss);
        ComponentsStep(mForest, p, nss);
        StepFinds(mForest, p, FirstName(nss));
        var outer := if currNsp == null then global else currNsp;
        ghost var before := mNamespaces;
        assert p >= |was| ==> outer == before[|was|..][p - |was|];
        assert p < |was| ==> outer == was[p];
        match cIndex {
          case None =>
            ghost var c;
            headNsp, c := FindOrAdd(outer, p, Some(nss));
            ValidIs(c);
            assert mNamespaces[|was|..] == before[|was|..] + mNamespaces[|before|..];
            return;
          case Some(c) =>
            ghost var q;
            currNsp, q := FindOrAdd(outer, p, Prefix(nss, c as int - 1));
            ValidIs(q);
            assert mNamespaces[|was|..] == before[|was|..] + mNamespaces[|before|..];
            p := q;
            if c + 2 >= |nss| {
              return currNsp;
            }
            nss := nss[c + 2..];
        }
      }
    }

    /** The namespaces whose types are still to be asked for. */
    ghost function Unresolved(): set<nat>
      reads this`mNamespaces, mNamespaces`mResolved
    {
      set k: nat | k < |mNamespaces| && !mNamespaces[k].mResolved
    }

    lemma UnresolvedIs()
      ensures forall k: nat :: k in Unresolved() <==> k < |mNamespaces| && !mNamespaces[k].mResolved
    {
    }

    lemma FitsForest()
      requires Valid()
      ensures WellFormed(mForest) && |mForest| == |mNamespaces| && AllDiffer(mNamespaces)
      ensures forall i, j :: 0 <= i < |mNamespaces| && 0 <= j < |mNamespaces| && i != j ==> mNamespaces[i] != mNamespaces[j]
    {
    }

    lemma NowValid()
      requires Represents(mNamespaces, mForest) && WellFormed(mForest)
      ensures Valid()
    {
    }

    lemma ValidIs(p: nat)
      requires Valid() && p < |mNamespaces|
      ensures WellFormed(mForest) && |mForest| == |mNamespaces| && InnerInRange(mForest)
      ensures Represents(mNamespaces, mForest)
    {
    }
  }

  lemma Unfolded(nss: seq<Namespace>, f: Forest, p: nat)
    requires Represents(nss, f) && p < |f|
    ensures |nss| == |f| && InnerInRange(f) && AllDiffer(nss) && forall i :: 0 <= i < |f| ==> Matches(nss, f, i)
    ensures nss[p].mName == f[p].name && nss[p].mNamespaces == Select(nss, f[p].inner)
    ensures nss[p].mOuterNamespace == if 0 <= f[p].outer < |nss| then nss[f[p].outer] else null
    ensures forall i :: 0 <= i < |f| && i != p ==> nss[i] != nss[p]
  {
    assert Matches(nss, f, p);
  }

  /** What the search among the inner objects says about the forest. */
  lemma FoundInner(nss: seq<Namespace>, f: Forest, p: nat, name: Name, k: nat)
    requires Represents(nss, f) && p < |f| && k <= |nss[p].mNamespaces|
    requires forall j :: 0 <= j < k ==> nss[p].mNamespaces[j].mName != name
    requires k < |nss[p].mNamespaces| ==> nss[p].mNamespaces[k].mName == name
    ensures |nss[p].mNamespaces| == |f[p].inner|
    ensures FindInner(f, f[p].inner, name) == if k < |f[p].inner| then Some(f[p].inner[k]) else None
    ensures k < |f[p].inner| ==> f[p].inner[k] < |nss| && nss[p].mNamespaces[k] == nss[f[p].inner[k]]
  {
    assert Matches(nss, f, p);
    var inner := f[p].inner;
    hide Select;
    forall j | 0 <= j < |inner|
      ensures nss[p].mNamespaces[j] == nss[inner[j]] && nss[inner[j]].mName == f[inner[j]].name
    {
      assert Matches(nss, f, inner[j]);
    }
    FirstInner(f, inner, name, k);
  }
}

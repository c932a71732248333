/** The statement lists of a program, wherever they stand, and which of them the search for annotations scans. */
module OverflowLists {
  import opened Sequences
  import opened OverflowTree
  import opened OverflowLint
  import opened OverflowRelevance
  import opened OverflowGoverned

  // ---------------------------------------------------------------------------------------
  // All lists of a tree

  /** The children of a node, also those that the analyses do not enter. */
  function Children(n: Node): seq<Node> {
    if n.Grouped? then [n.inner] else Kids(n)
  }

  lemma ChildrenAreSmaller(n: Node)
    ensures SizeAll(Children(n)) < Size(n)
  {
    if n.Grouped? {
      assert [n.inner][1..] == [];
    } else {
      KidsAreSmaller(n);
    }
  }

  /** This list, and all statement lists below its nodes. */
  function AllLists(ns: seq<Node>): seq<seq<Node>>
    decreases SizeAll(ns), 2
  {
    [ns] + HeldAll(ns)
  }

  function HeldAll(ns: seq<Node>): seq<seq<Node>>
    decreases SizeAll(ns), 1
  {
    if ns == [] then [] else Held(ns[0]) + HeldAll(ns[1..])
  }

  /** All statement lists below a node: function, block and loop bodies, and the arms of every if and match. */
  function Held(n: Node): seq<seq<Node>>
    decreases Size(n), 0
  {
    ChildrenAreSmaller(n);
    match n
    case If(c, cons, alt) => Held(c) + (AllLists(cons) + AllLists(alt))
    case Arm(c, ps, body) => Held(c) + (HeldAll(ps) + AllLists(body))
    case For(_, _, c, i, u, body) => Held(c) + (Held(i) + (Held(u) + AllLists(body)))
    case Block(_, _, body) => AllLists(body)
    case Function(_, _, _, _, body) => AllLists(body)
    case _ => HeldAll(Children(n))
  }

  lemma HeldOfHead(n: Node, rest: seq<Node>)
    ensures HeldAll([n] + rest) == Held(n) + HeldAll(rest)
  {
    assert ([n] + rest)[1..] == rest;
  }

  lemma HeldOfOne(n: Node)
    ensures HeldAll([n]) == Held(n)
  {
    assert [n][1..] == [];
  }

  // ---------------------------------------------------------------------------------------
  // Identities

  /** How often a statement with this identity stands in the tree. */
  function Count(n: Node, id: nat): nat
    decreases Size(n), 0
  {
    ChildrenAreSmaller(n);
    Own(n, id) + CountAll(Children(n), id)
  }

  function CountAll(ns: seq<Node>, id: nat): nat
    decreases SizeAll(ns), 1
  {
    if ns == [] then 0 else Count(ns[0], id) + CountAll(ns[1..], id)
  }

  function Own(n: Node, id: nat): nat {
    if IsStatement(n) && n.id == id then 1 else 0
  }

  /** No two statements of the program are the same. */
  ghost predicate DistinctIds(p: seq<Node>) {
    forall id :: CountAll(p, id) <= 1
  }

  /** How often it stands in the list itself. */
  function OwnAll(list: seq<Node>, id: nat): nat {
    if list == [] then 0 else Own(list[0], id) + OwnAll(list[1..], id)
  }

  function ListCount(lists: seq<seq<Node>>, id: nat): nat
    decreases |lists|
  {
    if lists == [] then 0 else OwnAll(lists[0], id) + ListCount(lists[1..], id)
  }

  lemma CountOfHead(n: Node, rest: seq<Node>, id: nat)
    ensures CountAll([n] + rest, id) == Count(n, id) + CountAll(rest, id)
  {
    assert ([n] + rest)[1..] == rest;
  }

  lemma {:induction false} CountOfConcat(a: seq<Node>, b: seq<Node>, id: nat)
    ensures CountAll(a + b, id) == CountAll(a, id) + CountAll(b, id)
  {
    if a == [] {
      assert a + b == b;
    } else {
      CountOfConcat(a[1..], b, id);
      HeadAndTail(a);
      Associative([a[0]], a[1..], b);
      CountOfHead(a[0], a[1..] + b, id);
    }
  }

  lemma CountOfOne(n: Node, id: nat)
    ensures CountAll([n], id) == Count(n, id)
  {
    assert [n][1..] == [];
  }

  lemma {:induction false} ListCountOfConcat(a: seq<seq<Node>>, b: seq<seq<Node>>, id: nat)
    ensures ListCount(a + b, id) == ListCount(a, id) + ListCount(b, id)
    decreases |a|
  {
    if a == [] {
      assert a + b == b;
    } else {
      ListCountOfConcat(a[1..], b, id);
      assert (a + b)[1..] == a[1..] + b;
    }
  }

  /** A statement stands in the lists of a tree at most as often as in the tree. */
  lemma {:induction false} ListsWithinTree(ns: seq<Node>, id: nat)
    ensures ListCount(AllLists(ns), id) <= CountAll(ns, id)
    decreases SizeAll(ns), 4
  {
    HeldAllWithinTree(ns, id);
    assert AllLists(ns)[0] == ns && AllLists(ns)[1..] == HeldAll(ns);
  }

  lemma {:induction false} HeldAllWithinTree(ns: seq<Node>, id: nat)
    ensures OwnAll(ns, id) + ListCount(HeldAll(ns), id) <= CountAll(ns, id)
    decreases SizeAll(ns), 3
  {
    if ns != [] {
      HeldWithinTree(ns[0], id);
      HeldAllWithinTree(ns[1..], id);
      ListCountOfConcat(Held(ns[0]), HeldAll(ns[1..]), id);
    }
  }

  lemma {:induction false} HeldWithinTree(n: Node, id: nat)
    ensures ListCount(Held(n), id) <= CountAll(Children(n), id)
    decreases Size(n), 1
  {
    if n.If? || n.Arm? {
      HeldByArms(n, id);
    } else if n.For? {
      HeldByFor(n, id);
    } else if n.Block? || n.Function? {
      ListsWithinTree(n.body, id);
    } else {
      ChildrenAreSmaller(n);
      HeldAllWithinTree(Children(n), id);
    }
  }

  lemma {:induction false} HeldByArms(n: Node, id: nat)
    requires n.If? || n.Arm?
    ensures ListCount(Held(n), id) <= CountAll(Children(n), id)
    decreases Size(n), 0
  {
    OneWithin(n.cond, id);
    if n.If? {
      ListsWithinTree(n.cons, id);
      ListsWithinTree(n.alt, id);
      Sums(AllLists(n.cons), n.cons, AllLists(n.alt), n.alt, id);
      Sums(Held(n.cond), [n.cond], AllLists(n.cons) + AllLists(n.alt), n.cons + n.alt, id);
    } else {
      HeldAllWithinTree(n.patterns, id);
      ListsWithinTree(n.body, id);
      Sums(HeldAll(n.patterns), n.patterns, AllLists(n.body), n.body, id);
      Sums(Held(n.cond), [n.cond], HeldAll(n.patterns) + AllLists(n.body), n.patterns + n.body, id);
    }
  }

  lemma {:induction false} HeldByFor(n: Node, id: nat)
    requires n.For?
    ensures ListCount(Held(n), id) <= CountAll(Children(n), id)
    decreases Size(n), 0
  {
    OneWithin(n.cond, id);
    OneWithin(n.init, id);
    OneWithin(n.update, id);
    ListsWithinTree(n.body, id);
    Sums(Held(n.update), [n.update], AllLists(n.body), n.body, id);
    Sums(Held(n.init), [n.init], Held(n.update) + AllLists(n.body), [n.update] + n.body, id);
    Sums(Held(n.cond), [n.cond], Held(n.init) + (Held(n.update) + AllLists(n.body)),
         [n.init] + ([n.update] + n.body), id);
  }

  lemma {:induction false} OneWithin(n: Node, id: nat)
    ensures ListCount(Held(n), id) <= CountAll([n], id)
    decreases Size(n), 2
  {
    HeldWithinTree(n, id);
    CountOfOne(n, id);
  }

  lemma Sums(a: seq<seq<Node>>, x: seq<Node>, b: seq<seq<Node>>, y: seq<Node>, id: nat)
    requires ListCount(a, id) <= CountAll(x, id) && ListCount(b, id) <= CountAll(y, id)
    ensures ListCount(a + b, id) <= CountAll(x + y, id)
  {
    ListCountOfConcat(a, b, id);
    CountOfConcat(x, y, id);
  }

  // ---------------------------------------------------------------------------------------
  // The lists that are scanned are some of them

  /** a is a part of b, and all of it just when `whole`. */
  ghost predicate Part(a: seq<seq<Node>>, b: seq<seq<Node>>, whole: bool) {
    && multiset(a) <= multiset(b)
    && (|a| == |b| <==> whole)
    && forall id :: ListCount(a, id) <= ListCount(b, id)
  }

  lemma PartOfConcat(a: seq<seq<Node>>, b: seq<seq<Node>>, p: bool, c: seq<seq<Node>>, d: seq<seq<Node>>, q: bool)
    requires Part(a, b, p) && Part(c, d, q)
    ensures Part(a + c, b + d, p && q)
  {
    assert |a| <= |b| && |c| <= |d| by {
      SizeOfPart(a, b);
      SizeOfPart(c, d);
    }
    forall id
      ensures ListCount(a + c, id) <= ListCount(b + d, id)
    {
      ListCountOfConcat(a, c, id);
      ListCountOfConcat(b, d, id);
    }
  }

  lemma SizeOfPart<T>(a: seq<T>, b: seq<T>)
    requires multiset(a) <= multiset(b)
    ensures |a| <= |b|
    ensures |a| == |b| ==> multiset(a) == multiset(b)
  {
    var rest := multiset(b) - multiset(a);
    assert multiset(b) == multiset(a) + rest;
    assert |multiset(b)| == |multiset(a)| + |rest|;
  }

  lemma PartOfSame(a: seq<seq<Node>>)
    ensures Part(a, a, true)
  {
  }

  lemma NoPart(b: seq<seq<Node>>)
    ensures Part([], b, b == [])
  {
  }

  /** The order in which the lists are taken is of no account. */
  lemma PartOfSwap(a: seq<seq<Node>>, b: seq<seq<Node>>, c: seq<seq<Node>>, d: seq<seq<Node>>, whole: bool)
    requires Part(a + (b + c), d, whole)
    ensures Part(b + (a + c), d, whole)
  {
    assert multiset(b + (a + c)) == multiset(a + (b + c));
    forall id
      ensures ListCount(b + (a + c), id) == ListCount(a + (b + c), id)
    {
      ListCountOfConcat(a, b + c, id);
      ListCountOfConcat(b, c, id);
      ListCountOfConcat(b, a + c, id);
      ListCountOfConcat(a, c, id);
    }
  }

  /** Nothing at or below n holds a statement list. */
  predicate Bare(n: Node)
    decreases Size(n), 0
  {
    ChildrenAreSmaller(n);
    !n.If? && !n.Arm? && !n.For? && !n.Block? && !n.Function? && BareAll(Children(n))
  }

  predicate BareAll(ns: seq<Node>)
    decreases SizeAll(ns), 1
  {
    ns == [] || (Bare(ns[0]) && BareAll(ns[1..]))
  }

  /** Every if and every match below the statements is the value of an expression statement or of a let,
      or is a match in the head of such a match. */
  predicate Placed(ns: seq<Node>)
    decreases SizeAll(ns), 2
  {
    ns == [] || (PlacedIn(ns[0]) && Placed(ns[1..]))
  }

  predicate PlacedIn(n: Node)
    decreases Size(n), 1
  {
    match n
    case Function(_, _, _, _, body) => Placed(body)
    case Block(_, _, body) => Placed(body)
    case For(_, _, cond, init, update, body) => Bare(cond) && Bare(init) && Bare(update) && Placed(body)
    case ExpressionStatement(_, _, value) => PlacedValue(value)
    case Let(_, _, _, _, value) => PlacedValue(value)
    case _ => Bare(n)
  }

  predicate PlacedValue(e: Node)
    decreases Size(e), 0
  {
    match e
    case If(cond, cons, alt) => Bare(cond) && Placed(cons) && Placed(alt)
    case Match(matched, arms) => PlacedHead(matched) && PlacedArms(arms)
    case _ => Bare(e)
  }

  predicate PlacedHead(e: Node)
    decreases Size(e), 1
  {
    if e.Match? then PlacedValue(e) else Bare(e)
  }

  predicate PlacedHeads(es: seq<Node>)
    decreases SizeAll(es), 2
  {
    es == [] || (PlacedHead(es[0]) && PlacedHeads(es[1..]))
  }

  predicate PlacedArm(arm: Node)
    decreases Size(arm), 1
  {
    if arm.Arm? then PlacedHead(arm.cond) && PlacedHeads(arm.patterns) && Placed(arm.body) else Bare(arm)
  }

  predicate PlacedArms(arms: seq<Node>)
    decreases SizeAll(arms), 2
  {
    arms == [] || (PlacedArm(arms[0]) && PlacedArms(arms[1..]))
  }

  lemma {:induction false} BareIff(n: Node)
    ensures Bare(n) <==> Held(n) == []
    decreases Size(n), 0
  {
    ChildrenAreSmaller(n);
    BareAllIff(Children(n));
  }

  lemma {:induction false} BareAllIff(ns: seq<Node>)
    ensures BareAll(ns) <==> HeldAll(ns) == []
    decreases SizeAll(ns), 1
  {
    if ns != [] {
      BareIff(ns[0]);
      BareAllIff(ns[1..]);
    }
  }

  lemma BareIsWhole(n: Node)
    ensures Part([], Held(n), Bare(n))
  {
    BareIff(n);
    NoPart(Held(n));
  }

  /** The scanned lists are among the lists of the tree; they are all of them just when every if and match is placed. */
  lemma {:induction false} ScannedPart(ns: seq<Node>)
    ensures Part(Lists(ns), AllLists(ns), Placed(ns))
    decreases SizeAll(ns), 5
  {
    PartBelow(ns);
    PartOfSame([ns]);
    PartOfConcat([ns], [ns], true, ListsBelow(ns), HeldAll(ns), Placed(ns));
  }

  lemma {:induction false} PartBelow(ns: seq<Node>)
    ensures Part(ListsBelow(ns), HeldAll(ns), Placed(ns))
    decreases SizeAll(ns), 4
  {
    if ns == [] {
      NoPart([]);
    } else {
      PartIn(ns[0]);
      PartBelow(ns[1..]);
      PartOfConcat(ListsIn(ns[0]), Held(ns[0]), PlacedIn(ns[0]), ListsBelow(ns[1..]), HeldAll(ns[1..]),
                   Placed(ns[1..]));
    }
  }

  lemma {:induction false} PartIn(n: Node)
    ensures Part(ListsIn(n), Held(n), PlacedIn(n))
    decreases Size(n), 3
  {
    if n.Function? || n.Block? || n.For? {
      PartInBody(n);
    } else if n.ExpressionStatement? || n.Let? {
      PartInValue(n);
    } else {
      BareIsWhole(n);
      assert ListsIn(n) == [] && PlacedIn(n) == Bare(n);
    }
  }

  lemma {:induction false} PartInBody(n: Node)
    requires n.Function? || n.Block? || n.For?
    ensures Part(ListsIn(n), Held(n), PlacedIn(n))
    decreases Size(n), 2
  {
    ScannedPart(n.body);
    if n.For? {
      PartInFor(n);
    }
  }

  lemma {:induction false} PartInValue(n: Node)
    requires n.ExpressionStatement? || n.Let?
    ensures Part(ListsIn(n), Held(n), PlacedIn(n))
    decreases Size(n), 2
  {
    PartOfArms(n.value);
    HeldByValue(n);
  }

  lemma HeldByValue(n: Node)
    requires n.ExpressionStatement? || n.Let?
    ensures Held(n) == Held(n.value)
  {
    HeldOfOne(n.value);
  }

  lemma PartInFor(n: Node)
    requires n.For? && Part(Lists(n.body), AllLists(n.body), Placed(n.body))
    ensures Part(ListsIn(n), Held(n), PlacedIn(n))
  {
    var lists, all := Lists(n.body), AllLists(n.body);
    WithBare(n.update, lists, all, Placed(n.body));
    WithBare(n.init, lists, Held(n.update) + all, Bare(n.update) && Placed(n.body));
    WithBare(n.cond, lists, Held(n.init) + (Held(n.update) + all), Bare(n.init) && Bare(n.update) && Placed(n.body));
  }

  lemma WithBare(n: Node, a: seq<seq<Node>>, b: seq<seq<Node>>, whole: bool)
    requires Part(a, b, whole)
    ensures Part(a, Held(n) + b, Bare(n) && whole)
  {
    BareIsWhole(n);
    PartOfConcat([], Held(n), Bare(n), a, b, whole);
    assert [] + a == a;
  }

  lemma {:induction false} PartOfArms(e: Node)
    ensures Part(ArmLists(e), Held(e), PlacedValue(e))
    decreases Size(e), 1
  {
    if e.If? {
      ScannedPart(e.cons);
      ScannedPart(e.alt);
      PartOfConcat(Lists(e.cons), AllLists(e.cons), Placed(e.cons), Lists(e.alt), AllLists(e.alt), Placed(e.alt));
      WithBare(e.cond, ArmLists(e), AllLists(e.cons) + AllLists(e.alt), Placed(e.cons) && Placed(e.alt));
    } else if e.Match? {
      PartOfMatch(e);
    } else {
      BareIsWhole(e);
    }
  }

  lemma {:induction false} PartOfMatch(e: Node)
    requires e.Match?
    ensures Part(ArmLists(e), Held(e), PlacedValue(e))
    decreases Size(e), 0
  {
    var bodies, nested, heads := BodyLists(e.arms), NestedIn(e.matched), HeadLists(e.arms);
    PartOfHead(e.matched);
    PartOfBodies(e.arms);
    PartOfConcat(nested, Held(e.matched), PlacedHead(e.matched), bodies + heads, HeldAll(e.arms), PlacedArms(e.arms));
    PartOfSwap(nested, bodies, heads, Held(e.matched) + HeldAll(e.arms), PlacedHead(e.matched) && PlacedArms(e.arms));
    HeldOfHead(e.matched, e.arms);
  }

  lemma {:induction false} PartOfHead(e: Node)
    ensures Part(NestedIn(e), Held(e), PlacedHead(e))
    decreases Size(e), 1
  {
    if e.Match? {
      PartOfMatch(e);
    } else {
      BareIsWhole(e);
    }
  }

  lemma {:induction false} PartOfHeads(es: seq<Node>)
    ensures Part(NestedLists(es), HeldAll(es), PlacedHeads(es))
    decreases SizeAll(es), 5
  {
    if es == [] {
      NoPart([]);
    } else {
      PartOfHead(es[0]);
      PartOfHeads(es[1..]);
      PartOfConcat(NestedIn(es[0]), Held(es[0]), PlacedHead(es[0]), NestedLists(es[1..]), HeldAll(es[1..]),
                   PlacedHeads(es[1..]));
    }
  }

  lemma {:induction false} PartOfArm(arm: Node)
    ensures Part(BodyIn(arm) + HeadIn(arm), Held(arm), PlacedArm(arm))
    decreases Size(arm), 4
  {
    if arm.Arm? {
      var nested, heads, body := NestedIn(arm.cond), NestedLists(arm.patterns), Lists(arm.body);
      PartOfHead(arm.cond);
      PartOfHeads(arm.patterns);
      ScannedPart(arm.body);
      PartOfConcat(heads, HeldAll(arm.patterns), PlacedHeads(arm.patterns), body, AllLists(arm.body), Placed(arm.body));
      PartOfConcat(nested, Held(arm.cond), PlacedHead(arm.cond), heads + body,
                   HeldAll(arm.patterns) + AllLists(arm.body), PlacedHeads(arm.patterns) && Placed(arm.body));
      Associative(nested, heads, body);
      PartOfTurn(nested + heads, body, Held(arm), PlacedArm(arm));
    } else {
      assert BodyIn(arm) + HeadIn(arm) == [];
      BareIsWhole(arm);
    }
  }

  lemma PartOfTurn(a: seq<seq<Node>>, b: seq<seq<Node>>, d: seq<seq<Node>>, whole: bool)
    requires Part(a + b, d, whole)
    ensures Part(b + a, d, whole)
  {
    assert b + [] == b && a + [] == a;
    PartOfSwap(a, b, [], d, whole);
  }

  lemma {:induction false} PartOfBodies(arms: seq<Node>)
    ensures Part(BodyLists(arms) + HeadLists(arms), HeldAll(arms), PlacedArms(arms))
    decreases SizeAll(arms), 5
  {
    if arms == [] {
      NoPart([]);
    } else {
      var body, head := BodyIn(arms[0]), HeadIn(arms[0]);
      var bodies, heads := BodyLists(arms[1..]), HeadLists(arms[1..]);
      PartOfArm(arms[0]);
      PartOfBodies(arms[1..]);
      PartOfConcat(body + head, Held(arms[0]), PlacedArm(arms[0]), bodies + heads, HeldAll(arms[1..]),
                   PlacedArms(arms[1..]));
      PartOfFour(body, head, bodies, heads, HeldAll(arms), PlacedArms(arms));
    }
  }

  lemma PartOfFour(a: seq<seq<Node>>, b: seq<seq<Node>>, c: seq<seq<Node>>, d: seq<seq<Node>>, e: seq<seq<Node>>,
                   whole: bool)
    requires Part((a + b) + (c + d), e, whole)
    ensures Part((a + c) + (b + d), e, whole)
  {
    assert multiset((a + c) + (b + d)) == multiset((a + b) + (c + d));
    forall id
      ensures ListCount((a + c) + (b + d), id) == ListCount((a + b) + (c + d), id)
    {
      ListCountOfConcat(a + c, b + d, id);
      ListCountOfConcat(a, c, id);
      ListCountOfConcat(b, d, id);
      ListCountOfConcat(a + b, c + d, id);
      ListCountOfConcat(a, b, id);
      ListCountOfConcat(c, d, id);
    }
  }

  /** Every statement list of the program is scanned iff every if and every match is placed. */
  lemma AllScannedIffPlaced(p: seq<Node>)
    ensures multiset(Lists(p)) <= multiset(AllLists(p))
    ensures multiset(Lists(p)) == multiset(AllLists(p)) <==> Placed(p)
  {
    ScannedPart(p);
    SizeOfPart(Lists(p), AllLists(p));
    assert |multiset(Lists(p))| == |Lists(p)| && |multiset(AllLists(p))| == |AllLists(p)|;
  }

  // ---------------------------------------------------------------------------------------
  // The way to a scanned list

  /** Where the search stands: at a statement list, or at a match. */
  datatype Stop = AtList(list: seq<Node>) | AtMatch(subject: Node)

  /** The expressions in the heads of a match: what is matched on, and the conditions and patterns of the arms. */
  predicate InHead(m: Node, e: Node)
    requires m.Match?
  {
    e == m.matched || exists arm :: arm in m.arms && arm.Arm? && (e == arm.cond || e in arm.patterns)
  }

  predicate IsBody(m: Node, list: seq<Node>)
    requires m.Match?
  {
    exists arm :: arm in m.arms && arm.Arm? && arm.body == list
  }

  /** One step down from a statement of the list, from its body, or from its value. */
  predicate FromStatement(n: Node, b: Stop) {
    match n
    case Function(_, _, _, _, body) => b == AtList(body)
    case Block(_, _, body) => b == AtList(body)
    case For(_, _, _, _, _, body) => b == AtList(body)
    case ExpressionStatement(_, _, value) => FromValue(value, b)
    case Let(_, _, _, _, value) => FromValue(value, b)
    case _ => false
  }

  predicate FromValue(e: Node, b: Stop) {
    if e.If? then b == AtList(e.cons) || b == AtList(e.alt) else e.Match? && b == AtMatch(e)
  }

  predicate Step(a: Stop, b: Stop) {
    match a
    case AtList(list) => exists n :: n in list && FromStatement(n, b)
    case AtMatch(m) => m.Match? && if b.AtList? then IsBody(m, b.list) else b.subject.Match? && InHead(m, b.subject)
  }

  /** path goes step by step from its first stop to its last. */
  ghost predicate Way(path: seq<Stop>, a: Stop, b: Stop) {
    && path != [] && path[0] == a && path[|path| - 1] == b
    && forall i :: 0 < i < |path| ==> Step(path[i - 1], path[i])
  }

  ghost predicate Led(a: Stop, b: Stop) {
    exists path :: Way(path, a, b)
  }

  /** The lists scanned from a stop on. */
  function From(a: Stop): seq<seq<Node>> {
    if a.AtList? then Lists(a.list) else NestedIn(a.subject)
  }

  function StopSize(a: Stop): nat {
    if a.AtList? then SizeAll(a.list) else Size(a.subject)
  }

  lemma {:induction false} InBelow(ns: seq<Node>, list: seq<Node>)
    ensures list in ListsBelow(ns) <==> exists n :: n in ns && list in ListsIn(n)
  {
    if ns != [] {
      var rest := ns[1..];
      InBelow(rest, list);
      assert ns[0] in ns && forall n :: n in ns <==> n == ns[0] || n in rest;
      assert list in ListsBelow(ns) <==> list in ListsIn(ns[0]) || list in ListsBelow(rest);
    }
  }

  lemma {:induction false} InBodies(arms: seq<Node>, list: seq<Node>)
    ensures list in BodyLists(arms) <==> exists arm :: arm in arms && list in BodyIn(arm)
  {
    if arms != [] {
      var rest := arms[1..];
      InBodies(rest, list);
      assert arms[0] in arms && forall arm :: arm in arms <==> arm == arms[0] || arm in rest;
      assert list in BodyLists(arms) <==> list in BodyIn(arms[0]) || list in BodyLists(rest);
    }
  }

  lemma {:induction false} InHeads(arms: seq<Node>, list: seq<Node>)
    ensures list in HeadLists(arms) <==> exists arm :: arm in arms && list in HeadIn(arm)
  {
    if arms != [] {
      var rest := arms[1..];
      InHeads(rest, list);
      assert arms[0] in arms && forall arm :: arm in arms <==> arm == arms[0] || arm in rest;
      assert list in HeadLists(arms) <==> list in HeadIn(arms[0]) || list in HeadLists(rest);
    }
  }

  lemma {:induction false} InNested(es: seq<Node>, list: seq<Node>)
    ensures list in NestedLists(es) <==> exists e :: e in es && list in NestedIn(e)
  {
    if es != [] {
      var rest := es[1..];
      InNested(rest, list);
      assert es[0] in es && forall e :: e in es <==> e == es[0] || e in rest;
      assert list in NestedLists(es) <==> list in NestedIn(es[0]) || list in NestedLists(rest);
    }
  }

  lemma SizeOfMember(ns: seq<Node>, n: Node)
    requires n in ns
    ensures Size(n) <= SizeAll(ns)
  {
    var i :| 0 <= i < |ns| && ns[i] == n;
    SizeOfElement(ns, i);
  }

  /** A list scanned from a statement is scanned from the next stop below it. */
  lemma BelowStatement(n: Node, list: seq<Node>) returns (b: Stop)
    requires list in ListsIn(n)
    ensures FromStatement(n, b) && list in From(b) && StopSize(b) < Size(n)
  {
    if n.ExpressionStatement? || n.Let? {
      b := BelowValue(n.value, list);
    } else {
      b := AtList(n.body);
    }
  }

  lemma BelowValue(e: Node, list: seq<Node>) returns (b: Stop)
    requires list in ArmLists(e)
    ensures FromValue(e, b) && list in From(b) && StopSize(b) <= Size(e)
  {
    if e.Match? {
      b := AtMatch(e);
    } else if list in Lists(e.cons) {
      b := AtList(e.cons);
    } else {
      b := AtList(e.alt);
    }
  }

  lemma BelowMatch(m: Node, list: seq<Node>) returns (b: Stop)
    requires m.Match? && list in ArmLists(m)
    ensures Step(AtMatch(m), b) && list in From(b) && StopSize(b) < Size(m)
  {
    if list in NestedIn(m.matched) {
      b := AtMatch(m.matched);
    } else if list in BodyLists(m.arms) {
      InBodies(m.arms, list);
      var arm :| arm in m.arms && list in BodyIn(arm);
      SizeOfMember(m.arms, arm);
      b := AtList(arm.body);
    } else {
      InHeads(m.arms, list);
      var arm :| arm in m.arms && list in HeadIn(arm);
      SizeOfMember(m.arms, arm);
      b := BelowArm(m, arm, list);
    }
  }

  lemma BelowArm(m: Node, arm: Node, list: seq<Node>) returns (b: Stop)
    requires m.Match? && arm in m.arms && list in HeadIn(arm)
    ensures Step(AtMatch(m), b) && list in From(b) && StopSize(b) < Size(arm)
  {
    if list in NestedIn(arm.cond) {
      b := AtMatch(arm.cond);
    } else {
      InNested(arm.patterns, list);
      var e :| e in arm.patterns && list in NestedIn(e);
      SizeOfMember(arm.patterns, e);
      b := AtMatch(e);
    }
  }

  lemma StepForward(a: Stop, list: seq<Node>) returns (b: Stop)
    requires list in From(a) && a != AtList(list)
    ensures Step(a, b) && list in From(b) && StopSize(b) < StopSize(a)
  {
    if a.AtList? {
      InBelow(a.list, list);
      var n :| n in a.list && list in ListsIn(n);
      SizeOfMember(a.list, n);
      b := BelowStatement(n, list);
    } else {
      b := BelowMatch(a.subject, list);
    }
  }

  lemma StepBack(a: Stop, b: Stop, list: seq<Node>)
    requires Step(a, b) && list in From(b)
    ensures list in From(a)
  {
    if a.AtList? {
      var n :| n in a.list && FromStatement(n, b);
      assert list in ListsIn(n);
      InBelow(a.list, list);
    } else {
      BackToMatch(a.subject, b, list);
      assert From(a) == ArmLists(a.subject);
    }
  }

  lemma BackToMatch(m: Node, b: Stop, list: seq<Node>)
    requires m.Match? && Step(AtMatch(m), b) && list in From(b)
    ensures list in ArmLists(m)
  {
    if b.AtList? {
      var arm :| arm in m.arms && arm.Arm? && arm.body == b.list;
      assert list in BodyIn(arm);
      InBodies(m.arms, list);
    } else if b.subject != m.matched {
      var arm :| arm in m.arms && arm.Arm? && (b.subject == arm.cond || b.subject in arm.patterns);
      InNested(arm.patterns, list);
      assert list in HeadIn(arm);
      InHeads(m.arms, list);
    }
  }

  lemma {:induction false} ScannedIsLed(a: Stop, list: seq<Node>)
    requires list in From(a)
    ensures Led(a, AtList(list))
    decreases StopSize(a)
  {
    if a == AtList(list) {
      assert Way([a], a, a);
    } else {
      var b := StepForward(a, list);
      ScannedIsLed(b, list);
      var path :| Way(path, b, AtList(list));
      assert Way([a] + path, a, AtList(list));
    }
  }

  lemma {:induction false} LedIsScanned(path: seq<Stop>, a: Stop, list: seq<Node>)
    requires Way(path, a, AtList(list))
    ensures list in From(a)
    decreases |path|
  {
    if |path| > 1 {
      var rest := path[1..];
      forall i | 0 < i < |rest|
        ensures Step(rest[i - 1], rest[i])
      {
        assert rest[i - 1] == path[i] && rest[i] == path[i + 1];
      }
      LedIsScanned(rest, path[1], list);
      StepBack(a, path[1], list);
    }
  }

  /** A list is scanned iff some way leads to it: into the bodies of functions, blocks and loops, and into the
      arms of an if or a match that is a statement or bound by a let, or of a match in the head of such a match. */
  lemma ScannedIff(p: seq<Node>, list: seq<Node>)
    ensures list in Lists(p) <==> Led(AtList(p), AtList(list))
  {
    if list in Lists(p) {
      ScannedIsLed(AtList(p), list);
    }
    if Led(AtList(p), AtList(list)) {
      var path :| Way(path, AtList(p), AtList(list));
      LedIsScanned(path, AtList(p), list);
    }
  }

  // ---------------------------------------------------------------------------------------
  // The entries

  lemma {:induction false} OnceIsApart(list: seq<Node>)
    requires forall id :: OwnAll(list, id) <= 1
    ensures IdsApart(list)
  {
    if list != [] {
      var rest := list[1..];
      forall id
        ensures OwnAll(rest, id) <= 1
      {
        assert OwnAll(list, id) == Own(list[0], id) + OwnAll(rest, id);
      }
      OnceIsApart(rest);
      forall i, k | 0 <= i < k < |list| && IsStatement(list[i]) && IsStatement(list[k])
        ensures list[i].id != list[k].id
      {
        if i == 0 {
          assert rest[k - 1] == list[k];
          OwnOfMember(rest, k - 1);
          assert OwnAll(list, list[0].id) == 1 + OwnAll(rest, list[0].id);
        } else {
          assert rest[i - 1] == list[i] && rest[k - 1] == list[k];
        }
      }
    }
  }

  lemma {:induction false} OwnOfMember(list: seq<Node>, i: nat)
    requires i < |list| && IsStatement(list[i])
    ensures OwnAll(list, list[i].id) > 0
  {
    if i > 0 {
      OwnOfMember(list[1..], i - 1);
    }
  }

  lemma {:induction false} CountOfId(lists: seq<seq<Node>>, id: nat)
    requires id in IdsOfAll(lists)
    ensures ListCount(lists, id) > 0
  {
    if id in Ids(lists[0]) {
      var n :| n in lists[0] && IsStatement(n) && n.id == id;
      var i :| 0 <= i < |lists[0]| && lists[0][i] == n;
      OwnOfMember(lists[0], i);
    } else {
      CountOfId(lists[1..], id);
    }
  }

  /** Lists in which no statement stands twice are apart. */
  lemma {:induction false} SingleIsApart(lists: seq<seq<Node>>)
    requires forall id :: ListCount(lists, id) <= 1
    ensures Apart(lists)
  {
    if lists != [] {
      var rest := lists[1..];
      forall id
        ensures OwnAll(lists[0], id) + ListCount(rest, id) <= 1
      {
        assert ListCount(lists, id) == OwnAll(lists[0], id) + ListCount(rest, id);
      }
      OnceIsApart(lists[0]);
      SingleIsApart(rest);
      forall id | id in Ids(lists[0]) && id in IdsOfAll(rest)
        ensures false
      {
        CountOfId(rest, id);
        CountOfId([lists[0]], id);
      }
    }
  }

  /** In a tree of distinct statements, the scanned lists are apart, and so are all lists. */
  lemma ListsAreApart(p: seq<Node>)
    requires DistinctIds(p)
    ensures Apart(Lists(p)) && Apart(AllLists(p))
  {
    ScannedPart(p);
    forall id
      ensures ListCount(Lists(p), id) <= 1 && ListCount(AllLists(p), id) <= 1
    {
      ListsWithinTree(p, id);
    }
    SingleIsApart(Lists(p));
    SingleIsApart(AllLists(p));
  }

  /** The map sends an annotation to a statement iff it speaks for it in a scanned list. */
  lemma GovernedIff(p: seq<Node>, note: nat, stmt: nat)
    requires DistinctIds(p)
    ensures Maps(Governed(p), note, stmt) <==> Speaks(Lists(p), note, stmt)
  {
    ListsAreApart(p);
    RecordedAllIff(map[], Lists(p), note, stmt);
  }

  /** No two annotations govern the same statement. */
  lemma GovernedIsInjective(p: seq<Node>, a: nat, b: nat)
    requires DistinctIds(p)
    requires a in Governed(p) && b in Governed(p) && Governed(p)[a] == Governed(p)[b]
    ensures a == b
  {
    var stmt := Governed(p)[a];
    GovernedIff(p, a, stmt);
    GovernedIff(p, b, stmt);
    ListsAreApart(p);
    var lists := Lists(p);
    var u, i: nat, j: nat :| 0 <= u < |lists| && SpeaksIn(lists[u], i, j, a, stmt);
    var v, k: nat, l: nat :| 0 <= v < |lists| && SpeaksIn(lists[v], k, l, b, stmt);
    OnePlace(lists, u, j, v, l);
    GovernsOne(lists[u], i, j, k, l);
  }

  /** An annotation that speaks for a statement, in whatever list of the tree, has its entry iff that list is
      scanned. */
  lemma EntryIffScanned(p: seq<Node>, list: seq<Node>, i: nat, j: nat)
    requires DistinctIds(p) && list in AllLists(p) && Governs(list, i, j)
    ensures list[i].id in Governed(p) <==> list in Lists(p)
    ensures list in Lists(p) ==> Governed(p)[list[i].id] == list[j].id
  {
    var lists, all := Lists(p), AllLists(p);
    if list in lists {
      var u :| 0 <= u < |lists| && lists[u] == list;
      assert SpeaksIn(lists[u], i, j, list[i].id, list[j].id);
      GovernedIff(p, list[i].id, list[j].id);
    }
    if list[i].id in Governed(p) {
      GovernedIff(p, list[i].id, Governed(p)[list[i].id]);
      var u, k: nat, l: nat :| 0 <= u < |lists| && SpeaksIn(lists[u], k, l, list[i].id, Governed(p)[list[i].id]);
      AllScannedIffPlaced(p);
      assert lists[u] in multiset(lists) && lists[u] in multiset(all);
      ListsAreApart(p);
      var v :| 0 <= v < |all| && all[v] == lists[u];
      var q :| 0 <= q < |all| && all[q] == list;
      OnePlace(all, v, k, q, i);
    }
  }

  /** In a program whose ifs and matches are all placed, every annotation that speaks for a statement has its entry. */
  lemma PlacedHasAllEntries(p: seq<Node>, list: seq<Node>, i: nat, j: nat)
    requires DistinctIds(p) && Placed(p) && list in AllLists(p) && Governs(list, i, j)
    ensures Maps(Governed(p), list[i].id, list[j].id)
  {
    AllScannedIffPlaced(p);
    assert list in multiset(AllLists(p)) && list in multiset(Lists(p));
    EntryIffScanned(p, list, i, j);
  }

  // ---------------------------------------------------------------------------------------
  // What the formatter does with the map

  /** The formatter keeps an overflow annotation that stands by itself iff its entry leads to a relevant statement. */
  predicate Kept(p: seq<Node>, e: Scope, top: Table, note: nat) {
    note in Governed(p) && Governed(p)[note] in Relevant(p, e, top)
  }

  /** An annotation that speaks for a statement is kept iff the statement is relevant and the list is scanned. */
  lemma KeptIff(p: seq<Node>, e: Scope, top: Table, list: seq<Node>, i: nat, j: nat)
    requires DistinctIds(p) && list in AllLists(p) && Governs(list, i, j)
    ensures Kept(p, e, top, list[i].id) <==> list[j].id in Relevant(p, e, top) && list in Lists(p)
  {
    EntryIffScanned(p, list, i, j);
  }

  /** f is a method whose only statement assigns to a field what a match with this arm gives. */
  predicate AssignsMatch(f: Node, arm: Node) {
    && f.Function? && |f.body| == 1 && f.body[0].ExpressionStatement?
    && f.body[0].value.Assign? && f.body[0].value.value.Match?
    && arm in f.body[0].value.value.arms && arm.Arm?
  }

  lemma MarkedThrough(n: Node, kid: Node, e: Scope, types: Table, self: string, id: nat)
    requires kid in Kids(n) && id in Marks(kid, e, TypesBelow(n, e, types), SelfBelow(n, self))
    ensures id in Marks(n, e, types, self)
  {
    MarksAllIff(Kids(n), e, TypesBelow(n, e, types), SelfBelow(n, self), id);
  }

  lemma InArmIsMarked(assign: Node, arm: Node, e: Scope, types: Table, self: string, id: nat)
    requires assign.Assign? && assign.value.Match? && arm in assign.value.arms && arm.Arm?
    requires id in Marks(arm, e, types, self)
    ensures id in Marks(assign, e, types, self)
  {
    MarkedThrough(assign.value, arm, e, types, self, id);
    MarkedThrough(assign, assign.value, e, types, self, id);
  }

  lemma InArmIsRelevant(f: Node, arm: Node, j: nat, e: Scope, top: Table)
    requires AssignsMatch(f, arm) && j < |arm.body| && IsStatement(arm.body[j])
    requires Has(arm.body[j], e, e.types(f.id), f.selfType)
    ensures arm.body[j].id in Relevant([f], e, top)
  {
    var stmt, types, self, id := f.body[0], e.types(f.id), f.selfType, arm.body[j].id;
    OwnMark(arm.body[j], e, types, self);
    MarkedThrough(arm, arm.body[j], e, types, self, id);
    InArmIsMarked(stmt.value, arm, e, types, self, id);
    InFunctionIsRelevant(f, stmt, e, top, id);
  }

  lemma OwnMark(n: Node, e: Scope, types: Table, self: string)
    requires IsStatement(n) && Has(n, e, types, self)
    ensures n.id in Marks(n, e, types, self)
  {
  }

  lemma InFunctionIsRelevant(f: Node, stmt: Node, e: Scope, top: Table, id: nat)
    requires f.Function? && stmt in f.body && stmt.ExpressionStatement?
    requires id in Marks(stmt.value, e, e.types(f.id), f.selfType)
    ensures id in Relevant([f], e, top)
  {
    MarkedThrough(stmt, stmt.value, e, e.types(f.id), f.selfType, id);
    MarkedThrough(f, stmt, e, top, "", id);
    MarksAllIff([f], e, top, "", id);
  }

  lemma ListsOfOne(n: Node)
    ensures Lists([n]) == [[n]] + ListsIn(n)
  {
    assert [n][1..] == [];
    assert ListsBelow([n]) == ListsIn(n) + ListsBelow([]);
  }

  lemma HeldThrough(n: Node, kid: Node, list: seq<Node>)
    requires kid in Children(n) && list in Held(kid)
    requires !n.If? && !n.Arm? && !n.For? && !n.Block? && !n.Function?
    ensures list in Held(n)
  {
    HeldOfMember(Children(n), kid, list);
  }

  lemma {:induction false} HeldOfMember(ns: seq<Node>, n: Node, list: seq<Node>)
    requires n in ns && list in Held(n)
    ensures list in HeldAll(ns)
  {
    if n != ns[0] {
      HeldOfMember(ns[1..], n, list);
    }
  }

  lemma HeldInValue(assign: Node, arm: Node)
    requires assign.Assign? && assign.value.Match? && arm in assign.value.arms && arm.Arm?
    ensures arm.body in Held(assign)
  {
    assert arm.body in AllLists(arm.body) && arm.body in Held(arm);
    HeldThrough(assign.value, arm, arm.body);
    HeldThrough(assign, assign.value, arm.body);
  }

  lemma HeldInAssignment(f: Node, arm: Node)
    requires AssignsMatch(f, arm)
    ensures arm.body in AllLists([f])
  {
    var stmt := f.body[0];
    HeldInValue(stmt.value, arm);
    HeldThrough(stmt, stmt.value, arm.body);
    HeldOfMember(f.body, stmt, arm.body);
    assert arm.body in Held(f);
    HeldOfOne(f);
  }

  lemma ScannedInAssignment(f: Node, arm: Node)
    requires AssignsMatch(f, arm)
    ensures Lists([f]) == [[f]] + [f.body]
  {
    var stmt := f.body[0];
    assert f.body == [stmt] && ListsIn(stmt) == [];
    ListsOfOne(stmt);
    ListsOfOne(f);
  }

  /** The map overlooks the arms of a match that is assigned to a field: an annotation in the arm may speak for a
      relevant statement, and yet the formatter deletes it. */
  lemma AssignedArmsAreMissed(f: Node, arm: Node, i: nat, j: nat, e: Scope, top: Table)
    requires DistinctIds([f]) && AssignsMatch(f, arm) && Governs(arm.body, i, j)
    requires Has(arm.body[j], e, e.types(f.id), f.selfType)
    ensures arm.body in AllLists([f]) && arm.body[j].id in Relevant([f], e, top)
    ensures arm.body[i].id !in Governed([f]) && !Kept([f], e, top, arm.body[i].id)
  {
    ScannedInAssignment(f, arm);
    HeldInAssignment(f, arm);
    InArmIsRelevant(f, arm, j, e, top);
    EntryIffScanned([f], arm.body, i, j);
  }

  /** `.len = n: { #{overflow} .len = .len + 1 }`, in a method. */
  function Length(): Node {
    Dot(Identifier("self", true), "len")
  }

  function Grown(): Node {
    Infix("+", Length(), IntegerLiteral, 0)
  }

  function Growth(id: nat): seq<Node> {
    [Annotation(id + 2, 3, ["overflow"]), ExpressionStatement(id + 3, 4, Assign(Length(), Grown()))]
  }

  function GrowthArm(id: nat): Node {
    Arm(Missing, [], Growth(id))
  }

  function GrowthMethod(id: nat): Node {
    Function(id, 1, "grow", "t",
             [ExpressionStatement(id + 1, 2, Assign(Length(), Match(Identifier("n", false), [GrowthArm(id)])))])
  }

  lemma HasThrough(n: Node, kid: Node, e: Scope, types: Table, self: string)
    requires kid in Kids(n) && Has(kid, e, TypesBelow(n, e, types), SelfBelow(n, self))
    ensures Has(n, e, types, self)
  {
    HasAnyIff(Kids(n), e, TypesBelow(n, e, types), SelfBelow(n, self));
  }

  /** It is such a method, whatever the types in scope. */
  lemma GrowthIsMissed(e: Scope, top: Table, id: nat)
    ensures DistinctIds([GrowthMethod(id)]) && Governs(Growth(id), 0, 1)
    ensures id + 3 in Relevant([GrowthMethod(id)], e, top) && !Kept([GrowthMethod(id)], e, top, id + 2)
  {
    var stmt, types := Growth(id)[1], e.types(id);
    HasThrough(stmt.value, Grown(), e, types, "t");
    HasThrough(stmt, stmt.value, e, types, "t");
    forall any
      ensures CountAll([GrowthMethod(id)], any) <= 1
    {
      CountOfGrowth(id, any);
    }
    AssignedArmsAreMissed(GrowthMethod(id), GrowthArm(id), 0, 1, e, top);
  }

  lemma CountOfGrowth(id: nat, any: nat)
    ensures CountAll([GrowthMethod(id)], any) <= 1
  {
    CountOfLeaves(any);
    CountOfMethod(GrowthMethod(id), GrowthArm(id), any);
    CountOfArm(GrowthArm(id), any);
    CountOfInner(Growth(id)[1], any);
  }

  lemma CountOfMethod(f: Node, arm: Node, id: nat)
    requires AssignsMatch(f, arm) && |f.body[0].value.value.arms| == 1 && f.body[0].value.value.matched.Identifier?
    requires Count(f.body[0].value.left, id) == 0
    ensures CountAll([f], id) == Own(f, id) + Own(f.body[0], id) + Count(arm, id)
  {
    var stmt := f.body[0];
    CountOfMatch(stmt.value.value, id);
    CountOfPair(stmt.value, id);
    CountOfWrapped(stmt, stmt.value, id);
    CountOfWrapped(f, stmt, id);
    CountOfOne(f, id);
  }

  lemma CountOfInner(stmt: Node, id: nat)
    requires stmt.ExpressionStatement? && stmt.value.Assign? && stmt.value.value.Infix?
    requires Count(stmt.value.left, id) == Count(stmt.value.value.left, id) == Count(stmt.value.value.right, id) == 0
    ensures Count(stmt, id) == Own(stmt, id)
  {
    CountOfPair(stmt.value.value, id);
    CountOfPair(stmt.value, id);
    CountOfWrapped(stmt, stmt.value, id);
  }

  lemma CountOfLeaves(id: nat)
    ensures Count(IntegerLiteral, id) == Count(Missing, id) == Count(Length(), id) == 0
  {
    CountOfWrapped(Length(), Length().receiver, id);
  }

  lemma CountOfWrapped(n: Node, kid: Node, id: nat)
    requires Children(n) == [kid]
    ensures Count(n, id) == Own(n, id) + Count(kid, id)
  {
    CountOfOne(kid, id);
  }

  lemma CountOfPair(n: Node, id: nat)
    requires n.Infix? || n.Assign?
    ensures Count(n, id) == Count(n.left, id) + Count(if n.Infix? then n.right else n.value, id)
  {
    var right := if n.Infix? then n.right else n.value;
    assert Children(n) == [n.left] + [right];
    CountOfHead(n.left, [right], id);
    CountOfOne(right, id);
  }

  lemma CountOfMatch(m: Node, id: nat)
    requires m.Match? && m.matched.Identifier? && |m.arms| == 1
    ensures Count(m, id) == Count(m.arms[0], id)
  {
    assert Children(m) == [m.matched] + [m.arms[0]];
    CountOfHead(m.matched, [m.arms[0]], id);
    CountOfOne(m.arms[0], id);
  }

  lemma CountOfArm(arm: Node, id: nat)
    requires arm.Arm? && arm.cond.Missing? && arm.patterns == [] && |arm.body| == 2 && arm.body[0].Annotation?
    ensures Count(arm, id) == Own(arm.body[0], id) + Count(arm.body[1], id)
  {
    assert Children(arm) == [arm.cond] + ([arm.body[0]] + [arm.body[1]]);
    CountOfHead(arm.cond, [arm.body[0]] + [arm.body[1]], id);
    CountOfHead(arm.body[0], [arm.body[1]], id);
    CountOfOne(arm.body[1], id);
  }
}

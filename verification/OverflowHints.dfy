/** Which operations of a program get a hint, said without the walk that finds them. */
module OverflowHints {
  import opened Wrappers
  import opened OverflowTree
  import opened OverflowLint

  /** A node with the place where the walk stands when it comes to it. */
  datatype Stop = Stop(node: Node, at: Place)

  /** No annotation of the statement speaks of overflow. */
  predicate Unnoted(id: nat, notes: Notes) {
    "overflow" !in notes.resolved(id) && "overflow" !in notes.raw(id)
  }

  predicate StartsWithQuestionMark(t: string) {
    |t| > 0 && t[0] == '?'
  }

  /** A let that may leave an overflow behind: its type is no option, or for want of a type its name is declared with
      none, and the name is not the blank one. */
  predicate LeavesItOpen(bound: Option<string>, typ: Option<string>, types: Table) {
    && bound != Some("_")
    && (typ.Some? ==> !StartsWithQuestionMark(typ.value))
    && (typ.None? && bound.Some? && bound.value in types ==> !StartsWithQuestionMark(types[bound.value]))
  }

  /** The walk looks below n. */
  predicate IsOpen(n: Node, notes: Notes, types: Table) {
    match n
    case Dot(_, _) => false
    case Unwrap(_, _, _) => false
    case Function(id, _, _, _, _) => notes.mode(id) == ""
    case Let(id, _, bound, typ, _) => Unnoted(id, notes) && notes.mode(id) == "" && LeavesItOpen(bound, typ, types)
    case Return(id, _, _) => Unnoted(id, notes) && notes.mode(id) == ""
    case ExpressionStatement(id, _, _) => Unnoted(id, notes) && notes.mode(id) == ""
    case MultiAssign(id, _, _) => Unnoted(id, notes) && notes.mode(id) == ""
    case For(id, _, _, _, _, _) => Unnoted(id, notes) && notes.mode(id) == ""
    case Block(id, _, _) => Unnoted(id, notes)
    case Annotation(id, _, _) => Unnoted(id, notes)
    case OtherStatement(id, _) => Unnoted(id, notes)
    case _ => true
  }

  /** below is the place inside a statement: its identity and line, its own file unless it has none, and the types of
      the function if it is one. */
  predicate IsInside(id: nat, line: nat, w: World, at: Place, types: Table, below: Place) {
    && below.stmt == id && below.line == line && below.types == types
    && (w.file(id) != "" ==> below.file == w.file(id))
    && (w.file(id) == "" ==> below.file == at.file)
  }

  /** below is the place of the children of n. */
  predicate IsBelow(n: Node, w: World, at: Place, below: Place) {
    match n
    case Function(id, line, _, _, _) => IsInside(id, line, w, at, w.types(id), below)
    case Let(id, line, _, _, _) => IsInside(id, line, w, at, at.types, below)
    case Return(id, line, _) => IsInside(id, line, w, at, at.types, below)
    case ExpressionStatement(id, line, _) => IsInside(id, line, w, at, at.types, below)
    case MultiAssign(id, line, _) => IsInside(id, line, w, at, at.types, below)
    case Unwrap(id, line, _) => IsInside(id, line, w, at, at.types, below)
    case For(id, line, _, _, _, _) => IsInside(id, line, w, at, at.types, below)
    case Block(id, line, _) => IsInside(id, line, w, at, at.types, below)
    case Annotation(id, line, _) => IsInside(id, line, w, at, at.types, below)
    case OtherStatement(id, line) => IsInside(id, line, w, at, at.types, below)
    case _ => below == at
  }

  /** One step down: into a child of a node that the walk looks below. */
  predicate Step(a: Stop, b: Stop, w: World) {
    IsOpen(a.node, w.notes, a.at.types) && IsChild(a.node, b.node) && IsBelow(a.node, w, a.at, b.at)
  }

  ghost predicate IsWay(way: seq<Stop>, a: Stop, b: Stop, w: World) {
    && way != [] && way[0] == a && way[|way| - 1] == b
    && forall i :: 0 < i < |way| ==> Step(way[i - 1], way[i], w)
  }

  ghost predicate Leads(a: Stop, b: Stop, w: World) {
    exists way :: IsWay(way, a, b, w)
  }

  /** r is the hint for an operation: one of the four that overflow, between operands that may both be integers, of
      which a division has one that is not unsigned. */
  predicate IsHint(s: Stop, r: Report) {
    && s.node.Infix?
    && (s.node.op == "+" || s.node.op == "-" || s.node.op == "*" || s.node.op == "/")
    && MayCount(s.node.left, s.at.types) && MayCount(s.node.right, s.at.types)
    && (s.node.op == "/" ==> !IsUnsignedName(s.node.left, s.at.types) || !IsUnsignedName(s.node.right, s.at.types))
    && r == Report(s.at.stmt, s.at.file, s.at.line, s.node.col)
  }

  /** Some way down leads from s to an operation that has the hint r. */
  ghost predicate Hinted(s: Stop, w: World, r: Report) {
    exists end :: Leads(s, end, w) && IsHint(end, r)
  }

  // ---------------------------------------------------------------------------------------
  // The leaves of the walk, spelled out

  lemma SkipsIff(n: Node, notes: Notes, types: Table)
    ensures Skips(n, notes, types) <==> !IsOpen(n, notes, types)
  {
  }

  lemma InsideIff(n: Node, w: World, at: Place, below: Place)
    ensures IsBelow(n, w, at, below) <==> below == Inside(n, w, at)
  {
  }

  /** The walk gives an operation exactly the hint it should have. */
  lemma OwnIff(n: Node, at: Place)
    ensures forall r :: r in Own(n, at) <==> IsHint(Stop(n, at), r)
    ensures |Own(n, at)| <= 1
  {
    if n.Infix? {
      KindIff(n.left, at.types);
      KindIff(n.right, at.types);
    }
  }

  /** The hints of an operation: its own if it should have one, then those of its operands. */
  lemma InfixLint(n: Node, w: World, at: Place)
    requires n.Infix?
    ensures var hint := Report(at.stmt, at.file, at.line, n.col);
            Lint(n, w, at) == (if IsHint(Stop(n, at), hint) then [hint] else []) + LintAll([n.left, n.right], w, at)
  {
    var hint := Report(at.stmt, at.file, at.line, n.col);
    OwnIff(n, at);
    assert hint in Own(n, at) <==> IsHint(Stop(n, at), hint);
  }

  // ---------------------------------------------------------------------------------------
  // The hints are exactly those of the operations that a way leads to

  lemma LeadsToItself(s: Stop, w: World)
    ensures Leads(s, s, w)
  {
    assert IsWay([s], s, s, w);
  }

  lemma LeadsThrough(s: Stop, kid: Stop, end: Stop, w: World)
    requires Step(s, kid, w) && Leads(kid, end, w)
    ensures Leads(s, end, w)
  {
    var way :| IsWay(way, kid, end, w);
    assert IsWay([s] + way, s, end, w);
  }

  lemma FirstStepDown(s: Stop, end: Stop, w: World) returns (kid: Stop)
    requires Leads(s, end, w) && s != end
    ensures Step(s, kid, w) && Leads(kid, end, w)
  {
    var way :| IsWay(way, s, end, w);
    kid := way[1];
    var rest := way[1..];
    forall i | 0 < i < |rest|
      ensures Step(rest[i - 1], rest[i], w)
    {
      assert rest[i - 1] == way[i] && rest[i] == way[i + 1];
    }
    assert IsWay(rest, kid, end, w);
  }

  ghost predicate SomeLints(ns: seq<Node>, w: World, at: Place, r: Report) {
    exists n :: n in ns && r in Lint(n, w, at)
  }

  lemma {:induction false} InSomeLint(ns: seq<Node>, w: World, at: Place, r: Report)
    ensures r in LintAll(ns, w, at) <==> SomeLints(ns, w, at, r)
  {
    if ns != [] {
      InSomeLint(ns[1..], w, at, r);
      assert forall n :: n in ns <==> n == ns[0] || n in ns[1..];
    }
  }

  lemma {:induction false} HintIsFound(s: Stop, end: Stop, w: World, r: Report)
    requires Leads(s, end, w) && IsHint(end, r)
    ensures r in Lint(s.node, w, s.at)
    decreases Size(s.node)
  {
    SkipsIff(s.node, w.notes, s.at.types);
    if s == end {
      OwnIff(s.node, s.at);
    } else {
      var kid := FirstStepDown(s, end, w);
      KidsIffChild(s.node, kid.node);
      SizeOfKid(s.node, kid.node);
      InsideIff(s.node, w, s.at, kid.at);
      HintIsFound(kid, end, w, r);
      InSomeLint(Kids(s.node), w, kid.at, r);
    }
  }

  lemma {:induction false} FoundIsHinted(s: Stop, w: World, r: Report)
    requires r in Lint(s.node, w, s.at)
    ensures Hinted(s, w, r)
    decreases Size(s.node)
  {
    OwnIff(s.node, s.at);
    if IsHint(s, r) {
      LeadsToItself(s, w);
    } else {
      var below := Inside(s.node, w, s.at);
      InSomeLint(Kids(s.node), w, below, r);
      var n :| n in Kids(s.node) && r in Lint(n, w, below);
      var kid := Stop(n, below);
      SizeOfKid(s.node, n);
      FoundIsHinted(kid, w, r);
      KidsIffChild(s.node, n);
      SkipsIff(s.node, w.notes, s.at.types);
      InsideIff(s.node, w, s.at, below);
      var end :| Leads(kid, end, w) && IsHint(end, r);
      LeadsThrough(s, kid, end, w);
    }
  }

  /** The lint gives exactly the hints of the operations that some way down leads to. */
  lemma LintIff(s: Stop, w: World, r: Report)
    ensures r in Lint(s.node, w, s.at) <==> Hinted(s, w, r)
  {
    if r in Lint(s.node, w, s.at) {
      FoundIsHinted(s, w, r);
    }
    if Hinted(s, w, r) {
      var end :| Leads(s, end, w) && IsHint(end, r);
      HintIsFound(s, end, w, r);
    }
  }

  // ---------------------------------------------------------------------------------------
  // Whole programs

  /** types is the table of a top-level function: its own entries, and for a name without one the entry that the parser
      recorded for a function of that name, if the function has one. */
  predicate IsTopTable(n: Node, w: World, recorded: string -> Table, types: Table)
    requires n.Function?
  {
    var own, other := w.types(n.id), recorded(n.called);
    && types.Keys == own.Keys + (if n.called != "" then other.Keys else {})
    && (forall x :: x in types ==> types[x] == if x in own then own[x] else other[x])
  }

  /** The top-level statement n gives the hint r. */
  ghost predicate HintedAtTop(n: Node, w: World, top: Table, recorded: string -> Table, r: Report) {
    if n.Function? then
      && w.notes.mode(n.id) == ""
      && exists kid, types ::
           kid in n.body && IsTopTable(n, w, recorded, types)
           && Hinted(Stop(kid, Place(n.id, w.file(n.id), n.line, types)), w, r)
    else
      Hinted(Stop(n, Place(0, w.file(if IsStatement(n) then n.id else 0), 0, top)), w, r)
  }

  lemma TopTableIff(n: Node, w: World, recorded: string -> Table, types: Table)
    requires n.Function?
    ensures IsTopTable(n, w, recorded, types) <==> types == TypesOfTopLevel(n, w, recorded)
  {
  }

  lemma LintTopIff(n: Node, w: World, top: Table, recorded: string -> Table, r: Report)
    ensures r in LintTop(n, w, top, recorded) <==> HintedAtTop(n, w, top, recorded, r)
  {
    if !n.Function? {
      LintIff(Stop(n, Place(0, w.file(if IsStatement(n) then n.id else 0), 0, top)), w, r);
    } else {
      LintFunctionIff(n, w, top, recorded, r);
    }
  }

  lemma LintFunctionIff(n: Node, w: World, top: Table, recorded: string -> Table, r: Report)
    requires n.Function?
    ensures r in LintTop(n, w, top, recorded) <==> HintedAtTop(n, w, top, recorded, r)
  {
    var types := TypesOfTopLevel(n, w, recorded);
    var at := Place(n.id, w.file(n.id), n.line, types);
    InSomeLint(n.body, w, at, r);
    TopTableIff(n, w, recorded, types);
    forall kid | kid in n.body
      ensures r in Lint(kid, w, at) <==> Hinted(Stop(kid, at), w, r)
    {
      LintIff(Stop(kid, at), w, r);
    }
    if HintedAtTop(n, w, top, recorded, r) {
      var kid, other :| kid in n.body && IsTopTable(n, w, recorded, other)
        && Hinted(Stop(kid, Place(n.id, w.file(n.id), n.line, other)), w, r);
      TopTableIff(n, w, recorded, other);
    }
  }

  /** The hints of a program are exactly those of its top-level statements. */
  lemma {:induction false} LintProgramIff(p: seq<Node>, w: World, top: Table, recorded: string -> Table, r: Report)
    ensures r in LintProgram(p, w, top, recorded) <==> exists n :: n in p && HintedAtTop(n, w, top, recorded, r)
  {
    if p != [] {
      LintProgramIff(p[1..], w, top, recorded, r);
      LintTopIff(p[0], w, top, recorded, r);
      assert forall n :: n in p <==> n == p[0] || n in p[1..];
    }
  }
}

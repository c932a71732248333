/** The traversal behind the lint for integer arithmetic without an overflow annotation. */
module OverflowWalk {
  import opened Sequences
  import opened OverflowTree
  import opened OverflowLint
  import opened OverflowHints

  method FillGaps(declared: Table, recorded: Table) returns (types: Table)
    ensures types == Filled(declared, recorded)
  {
    types := declared;
    var keys := recorded.Keys;
    while keys != {}
      invariant keys <= recorded.Keys
      invariant types.Keys == declared.Keys + (recorded.Keys - keys)
      invariant forall k :: k in types ==> types[k] == if k in declared then declared[k] else recorded[k]
    {
      var k :| k in keys;
      if k !in types {
        types := types[k := recorded[k]];
      }
      keys := keys - {k};
    }
  }

  /** The walk over the tree. Go's types say which of the two walks a child takes. */
  class Walker {
    const w: World
    var results: seq<Report>

    constructor (w: World)
      ensures this.w == w && results == []
    {
      this.w := w;
      results := [];
    }

    method Walk(n: Node, at: Place)
      modifies this
      ensures results == old(results) + Lint(n, w, at)
      decreases Size(n), 3
    {
      if IsStatement(n) {
        WalkStatement(n, at);
      } else {
        WalkExpression(n, at);
      }
    }

    method WalkAll(ns: seq<Node>, at: Place)
      modifies this
      ensures results == old(results) + LintAll(ns, w, at)
      decreases SizeAll(ns), 4
    {
      for i := 0 to |ns|
        invariant results + LintAll(ns[i..], w, at) == old(results) + LintAll(ns, w, at)
      {
        SizeOfElement(ns, i);
        assert ns[i..][1..] == ns[i + 1..];
        ghost var before := results;
        Walk(ns[i], at);
        Associative(before, Lint(ns[i], w, at), LintAll(ns[i + 1..], w, at));
      }
    }

    method WalkInfix(op: string, left: Node, right: Node, col: nat, at: Place)
      modifies this
      ensures results == old(results) + Lint(Infix(op, left, right, col), w, at)
      ensures var stop, hint := Stop(Infix(op, left, right, col), at), Report(at.stmt, at.file, at.line, col);
              results == old(results) + (if IsHint(stop, hint) then [hint] else []) + LintAll([left, right], w, at)
      decreases Size(Infix(op, left, right, col)), 0
    {
      InfixLint(Infix(op, left, right, col), w, at);
      if op in ARITHMETIC {
        var l, r := OperandKind(left, at.types), OperandKind(right, at.types);
        if l != NotInteger && r != NotInteger {
          if op != "/" || l == Signed || r == Signed {
            results := results + [Report(at.stmt, at.file, at.line, col)];
          }
        }
      }
      KidsAreSmaller(Infix(op, left, right, col));
      WalkAll([left, right], at);
    }

    /** Walks the children of a node that has no hint of its own. */
    method Enter(ghost n: Node, kids: seq<Node>, ghost at: Place, here: Place)
      requires kids == Kids(n) && here == Inside(n, w, at)
      requires !n.Infix? && !Skips(n, w.notes, at.types)
      modifies this
      ensures results == old(results) + Lint(n, w, at)
      decreases Size(n), 0
    {
      KidsAreSmaller(n);
      WalkAll(kids, here);
    }

    method WalkExpression(n: Node, at: Place)
      requires !IsStatement(n)
      modifies this
      ensures results == old(results) + Lint(n, w, at)
      decreases Size(n), 1
    {
      match n
      case Infix(op, left, right, col) => WalkInfix(op, left, right, col, at);
      case Prefix(_, right) => Enter(n, [right], at, at);
      case Call(callee, args, _) => Enter(n, [callee] + args, at, at);
      case If(cond, cons, alt) => Enter(n, [cond] + (cons + alt), at, at);
      case Index(left, index) => Enter(n, [left, index], at, at);
      case Assign(left, value) => Enter(n, [left, value], at, at);
      case ArrayLiteral(elements) => Enter(n, elements, at, at);
      case Match(matched, arms) => Enter(n, [matched] + arms, at, at);
      case Arm(cond, patterns, body) => Enter(n, [cond] + (patterns + body), at, at);
      case _ => NothingBelow(n, w, at);
    }

    method WalkStatement(n: Node, at: Place)
      requires IsStatement(n)
      modifies this
      ensures results == old(results) + Lint(n, w, at)
      decreases Size(n), 2
    {
      if n.Function? {
        WalkFunction(n, at);
      } else if !Annotated(n, w.notes) {
        var here := Place(n.id, at.file, n.line, at.types);
        if w.file(n.id) != "" {
          here := here.(file := w.file(n.id));
        }
        if n.Let? {
          WalkLet(n, at, here);
        } else {
          WalkPlain(n, at, here);
        }
      }
    }

    method WalkFunction(n: Node, at: Place)
      requires n.Function?
      modifies this
      ensures results == old(results) + Lint(n, w, at)
      decreases Size(n), 1
    {
      if w.notes.mode(n.id) == "" {
        var file := w.file(n.id);
        if file == "" {
          file := at.file;
        }
        Enter(n, n.body, at, Place(n.id, file, n.line, w.types(n.id)));
      }
    }

    method WalkLet(n: Node, ghost at: Place, here: Place)
      requires n.Let? && !Annotated(n, w.notes) && here == Inside(n, w, at)
      modifies this
      ensures results == old(results) + Lint(n, w, at)
      decreases Size(n), 1
    {
      if n.typ.Some? && IsOption(n.typ.value) {
        return;
      }
      if n.typ.None? && n.bound.Some? && n.bound.value in here.types && IsOption(here.types[n.bound.value]) {
        return;
      }
      if n.bound.Some? && n.bound.value == "_" {
        return;
      }
      Enter(n, [n.value], at, here);
    }

    method WalkPlain(n: Node, ghost at: Place, here: Place)
      requires IsStatement(n) && !n.Function? && !n.Let? && !Annotated(n, w.notes) && here == Inside(n, w, at)
      modifies this
      ensures results == old(results) + Lint(n, w, at)
      decreases Size(n), 1
    {
      match n
      case Return(_, _, value) => Enter(n, [value], at, here);
      case ExpressionStatement(_, _, value) => Enter(n, [value], at, here);
      case MultiAssign(_, _, value) => Enter(n, [value], at, here);
      case For(_, _, cond, init, update, body) => Enter(n, [cond] + ([init] + ([update] + body)), at, here);
      case Block(_, _, body) => Enter(n, body, at, here);
      case _ =>
    }
  }

  /** A top-level function is read with the types that lowering may have lost. */
  method WalkTop(walker: Walker, n: Node, top: Table, recorded: string -> Table)
    modifies walker
    ensures walker.results == old(walker.results) + LintTop(n, walker.w, top, recorded)
  {
    if n.Function? {
      if walker.w.notes.mode(n.id) == "" {
        var types := walker.w.types(n.id);
        if n.called != "" {
          types := FillGaps(types, recorded(n.called));
        }
        walker.WalkAll(n.body, Place(n.id, walker.w.file(n.id), n.line, types));
      }
    } else {
      walker.Walk(n, Place(0, walker.w.file(if IsStatement(n) then n.id else 0), 0, top));
    }
  }

  lemma LintProgramSoFar(p: seq<Node>, i: nat, w: World, top: Table, recorded: string -> Table)
    requires i < |p|
    ensures LintProgram(p[..i + 1], w, top, recorded)
        == LintProgram(p[..i], w, top, recorded) + LintTop(p[i], w, top, recorded)
  {
    assert p[..i + 1] == p[..i] + [p[i]] && [p[i]][1..] == [];
    LintProgramOfConcat(p[..i], [p[i]], w, top, recorded);
  }

  /** The hints for a whole program: statement by statement, and together those of the operations that some way down a
      top-level statement leads to. */
  method ValidateIntOverflow(p: seq<Node>, w: World, top: Table, recorded: string -> Table)
    returns (results: seq<Report>)
    ensures results == LintProgram(p, w, top, recorded)
    ensures forall r :: r in results <==> exists n :: n in p && HintedAtTop(n, w, top, recorded, r)
  {
    var walker := new Walker(w);
    for i := 0 to |p|
      invariant walker.w == w
      invariant walker.results == LintProgram(p[..i], w, top, recorded)
    {
      WalkTop(walker, p[i], top, recorded);
      LintProgramSoFar(p, i, w, top, recorded);
    }
    assert p[..|p|] == p;
    results := walker.results;
    forall r
      ensures r in results <==> exists n :: n in p && HintedAtTop(n, w, top, recorded, r)
    {
      LintProgramIff(p, w, top, recorded, r);
    }
  }
}
